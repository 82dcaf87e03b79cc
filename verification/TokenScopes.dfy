/**
 Token scopes: what a login may be granted of what it asked for. The service's loops over the user's
 grants and the requested scopes, against set intersection with a keyed permission table.
 */
module TokenScopes {
  import opened Wrappers
  import opened Ordering

  datatype Role = Reader | Writer | RepoAdmin | OtherRole {
    predicate Valid() { !OtherRole? }
    predicate AllowsRead() { Reader? || Writer? || RepoAdmin? }
    predicate AllowsWrite() { Writer? || RepoAdmin? }
    predicate AllowsAdmin() { RepoAdmin? }
  }

  datatype Grant = Grant(repository: string, role: Role)

  /** `repository` is the field only the parser fills in; a scope built by the service leaves it empty. */
  datatype Scope = Scope(kind: string, name: string, actions: seq<string>, canonical: string, repository: string) {
    predicate IsCatalog() { kind == "regixtry" && name == "catalog" && actions == ["*"] }
    predicate IsRepository() { kind == "repository" }
    predicate Allows(action: string) { action in actions }
  }

  function RepositoryOf(g: Grant): string { g.repository }

  function Join(parts: seq<string>): string {
    if parts == [] then ""
    else if |parts| == 1 then parts[0]
    else Join(parts[..|parts| - 1]) + "," + parts[|parts| - 1]
  }

  // ------------------------------------------------------- the permission table

  /** The actions a login may be granted on one repository at all. */
  ghost function Permitted(isAdmin: bool, isReadOnly: bool, role: Option<Role>): set<string> {
    if isAdmin then {"pull", "push", "delete"}
    else if isReadOnly then {"pull"}
    else if role.None? then {}
    else if role.value.AllowsWrite() then {"pull", "push", "delete"}
    else if role.value.AllowsRead() then {"pull"}
    else {}
  }

  /** A set of repository actions in the order a scope lists them. */
  function Listed(pull: bool, push: bool, delete: bool): seq<string> {
    (if pull then ["pull"] else []) + (if push then ["push"] else []) + (if delete then ["delete"] else [])
  }

  ghost function Exact(requested: Scope, permitted: set<string>): seq<string> {
    Listed("pull" in permitted && requested.Allows("pull"), "push" in permitted && requested.Allows("push"),
           "delete" in permitted && requested.Allows("delete"))
  }

  ghost predicate UniqueGrants(grants: seq<Grant>) { DistinctKeys(RepositoryOf, grants) }

  /** The role of the first grant on the repository. */
  ghost function FirstRole(grants: seq<Grant>, repository: string): Option<Role> {
    if grants == [] then None
    else if grants[0].repository == repository then Some(grants[0].role)
    else FirstRole(grants[1..], repository)
  }

  ghost predicate Holds(grants: seq<Grant>, repository: string, role: Role) { Grant(repository, role) in grants }

  lemma {:induction false} FirstRoleHeld(grants: seq<Grant>, repository: string)
    ensures FirstRole(grants, repository).Some? ==> Holds(grants, repository, FirstRole(grants, repository).value)
    ensures FirstRole(grants, repository).None? ==> forall role :: !Holds(grants, repository, role)
  {
    if grants != [] {
      FirstRoleHeld(grants[1..], repository);
      forall role | Holds(grants, repository, role) && grants[0].repository != repository
        ensures Holds(grants[1..], repository, role)
      {
        assert grants == [grants[0]] + grants[1..];
      }
    }
  }

  /** Every role held on the repository is the same one. */
  ghost predicate OneRole(grants: seq<Grant>, repository: string) {
    forall a, b :: Holds(grants, repository, a) && Holds(grants, repository, b) ==> a == b
  }

  /** Stopping at the first grant is a keyed lookup exactly when no repository has grants of two roles. */
  lemma FirstRoleIsLookupIff(grants: seq<Grant>, repository: string)
    ensures (forall role :: FirstRole(grants, repository) == Some(role) <==> Holds(grants, repository, role))
      <==> OneRole(grants, repository)
  {
    FirstRoleHeld(grants, repository);
  }

  /** The store's primary key gives that. */
  lemma UniqueGrantsOneRole(grants: seq<Grant>, repository: string)
    requires UniqueGrants(grants)
    ensures OneRole(grants, repository)
  {
    forall a, b | Holds(grants, repository, a) && Holds(grants, repository, b) ensures a == b {
      var i :| 0 <= i < |grants| && grants[i] == Grant(repository, a);
      var j :| 0 <= j < |grants| && grants[j] == Grant(repository, b);
      assert RepositoryOf(grants[i]) == RepositoryOf(grants[j]);
    }
  }

  lemma {:induction false} FirstRoleAt(grants: seq<Grant>, repository: string, i: nat)
    requires i <= |grants| && forall k :: 0 <= k < i ==> grants[k].repository != repository
    ensures FirstRole(grants, repository)
            == if i == |grants| then None else if grants[i].repository == repository then Some(grants[i].role)
               else FirstRole(grants[i..], repository)
  {
    if i > 0 {
      FirstRoleAt(grants[1..], repository, i - 1);
      assert grants[1..][i - 1..] == grants[i..];
    } else {
      assert grants[0..] == grants;
    }
  }

  method IntersectRequestedActions(isAdmin: bool, isReadOnly: bool, grants: seq<Grant>, requested: Scope)
    returns (actions: seq<string>)
    ensures actions == Exact(requested, Permitted(isAdmin, isReadOnly, FirstRole(grants, requested.repository)))
  {
    var allowPull, allowPush, allowDelete := false, false, false;
    if isAdmin {
      allowPull := requested.Allows("pull");
      allowPush := requested.Allows("push");
      allowDelete := requested.Allows("delete");
    } else if isReadOnly {
      allowPull := requested.Allows("pull");
    } else {
      ghost var role := FirstRole(grants, requested.repository);
      FirstRoleAt(grants, requested.repository, 0);
      for i := 0 to |grants|
        invariant forall k :: 0 <= k < i ==> grants[k].repository != requested.repository
        invariant !allowPull && !allowPush && !allowDelete
        invariant i == |grants| ==> role == None
      {
        FirstRoleAt(grants, requested.repository, i);
        var grant := grants[i];
        if grant.repository != requested.repository {
          FirstRoleAt(grants, requested.repository, i + 1);
          continue;
        }
        if grant.role.AllowsRead() && requested.Allows("pull") { allowPull := true; }
        if grant.role.AllowsWrite() && requested.Allows("push") { allowPush := true; }
        if grant.role.AllowsWrite() && requested.Allows("delete") { allowDelete := true; }
        break;
      }
    }
    actions := [];
    if allowPull { actions := actions + ["pull"]; }
    if allowPush { actions := actions + ["push"]; }
    if allowDelete { actions := actions + ["delete"]; }
  }

  /** The granted actions are the requested ones that are permitted, each once. */
  lemma IntersectionExact(isAdmin: bool, isReadOnly: bool, role: Option<Role>, requested: Scope)
    ensures var permitted := Permitted(isAdmin, isReadOnly, role);
      var actions := Exact(requested, permitted);
      && (forall a :: a in actions <==> a in requested.actions && a in permitted)
      && (forall i, j :: 0 <= i < j < |actions| ==> actions[i] != actions[j])
  {
    assert "pull" != "push" && "pull" != "delete" && "push" != "delete" by {
      assert "pull"[1] == 'u' && "push"[2] == 's' && "pull"[2] == 'l' && "delete"[0] == 'd';
    }
  }

  // ------------------------------------------------------------ whole requests

  /** The scope the service builds for a repository. */
  function BuiltScope(repository: string, actions: seq<string>): Scope {
    Scope("repository", repository, actions, "repository:" + repository + ":" + Join(actions), "")
  }

  ghost function GrantedFor(isAdmin: bool, isReadOnly: bool, grants: seq<Grant>, requested: Scope): seq<Scope> {
    if requested.IsCatalog() then [requested]
    else if !requested.IsRepository() then []
    else
      var actions := Exact(requested, Permitted(isAdmin, isReadOnly, FirstRole(grants, requested.repository)));
      if actions == [] then [] else [BuiltScope(requested.repository, actions)]
  }

  ghost function Granted(isAdmin: bool, isReadOnly: bool, grants: seq<Grant>, requested: seq<Scope>): seq<Scope> {
    if requested == [] then []
    else
      Granted(isAdmin, isReadOnly, grants, requested[..|requested| - 1])
      + GrantedFor(isAdmin, isReadOnly, grants, requested[|requested| - 1])
  }

  method GrantedScopes(isAdmin: bool, isReadOnly: bool, grants: seq<Grant>, requested: seq<Scope>)
    returns (granted: seq<Scope>)
    ensures granted == Granted(isAdmin, isReadOnly, grants, requested)
  {
    granted := [];
    if |requested| == 0 { return; }
    for i := 0 to |requested|
      invariant granted == Granted(isAdmin, isReadOnly, grants, requested[..i])
    {
      assert requested[..i + 1][..i] == requested[..i];
      if requested[i].IsCatalog() {
        granted := granted + [requested[i]];
        continue;
      }
      if !requested[i].IsRepository() { continue; }
      var actions := IntersectRequestedActions(isAdmin, isReadOnly, grants, requested[i]);
      if |actions| == 0 { continue; }
      granted := granted + [BuiltScope(requested[i].repository, actions)];
    }
    assert requested[..|requested|] == requested;
  }

  /** What the parser returns: a catalog scope, or a repository scope with its repository filled in. */
  ghost predicate Parsed(s: Scope) {
    s.IsCatalog() || (s.IsRepository() && s.repository == s.name && s.name != "")
  }

  /** A granted scope after it has been written into a token and parsed again. */
  function Reparsed(s: Scope): Scope { if s.IsRepository() then s.(repository := s.name) else s }

  function ReparsedAll(scopes: seq<Scope>): seq<Scope> {
    seq(|scopes|, i requires 0 <= i < |scopes| => Reparsed(scopes[i]))
  }

  lemma KindsDiffer(s: Scope)
    ensures !(s.IsCatalog() && s.IsRepository())
  {
    assert "regixtry"[2] == 'g' && "repository"[2] == 'p';
  }

  /** Nothing beyond the request: every granted scope stands for one requested scope and adds no action. */
  lemma {:induction false} GrantedWithinRequest(isAdmin: bool, isReadOnly: bool, grants: seq<Grant>,
                                                requested: seq<Scope>, g: Scope)
    requires g in Granted(isAdmin, isReadOnly, grants, requested)
    ensures exists r :: r in requested && (if r.IsCatalog() then g == r
      else r.IsRepository() && g.name == r.repository && g.actions != [] && forall a :: a in g.actions <==>
        a in r.actions && a in Permitted(isAdmin, isReadOnly, FirstRole(grants, r.repository)))
  {
    var init, r := requested[..|requested| - 1], requested[|requested| - 1];
    assert requested == init + [r];
    if g in Granted(isAdmin, isReadOnly, grants, init) {
      GrantedWithinRequest(isAdmin, isReadOnly, grants, init, g);
    } else {
      assert g in GrantedFor(isAdmin, isReadOnly, grants, r);
      IntersectionExact(isAdmin, isReadOnly, FirstRole(grants, r.repository), r);
      assert r in requested;
    }
  }

  /** Nothing less: every requested scope that keeps an action is granted. */
  lemma {:induction false} GrantedCoversRequest(isAdmin: bool, isReadOnly: bool, grants: seq<Grant>,
                                                requested: seq<Scope>, i: nat)
    requires i < |requested|
    ensures forall g :: g in GrantedFor(isAdmin, isReadOnly, grants, requested[i]) ==>
      g in Granted(isAdmin, isReadOnly, grants, requested)
  {
    if i < |requested| - 1 { GrantedCoversRequest(isAdmin, isReadOnly, grants, requested[..|requested| - 1], i); }
  }

  lemma GrantedForAgain(isAdmin: bool, isReadOnly: bool, grants: seq<Grant>, requested: Scope)
    requires Parsed(requested)
    ensures var g := GrantedFor(isAdmin, isReadOnly, grants, requested);
      g == [] || (|g| == 1 && Parsed(Reparsed(g[0])) && GrantedFor(isAdmin, isReadOnly, grants, Reparsed(g[0])) == g)
  {
    KindsDiffer(requested);
    if requested.IsRepository() {
      var role := FirstRole(grants, requested.repository);
      var permitted := Permitted(isAdmin, isReadOnly, role);
      var actions := Exact(requested, permitted);
      var again := Reparsed(BuiltScope(requested.repository, actions));
      KindsDiffer(again);
      IntersectionExact(isAdmin, isReadOnly, role, requested);
      assert forall a :: a in actions <==> again.Allows(a);
      assert Exact(again, permitted) == actions;
    }
  }

  lemma {:induction false} GrantedConcat(isAdmin: bool, isReadOnly: bool, grants: seq<Grant>, a: seq<Scope>,
                                         b: seq<Scope>)
    ensures Granted(isAdmin, isReadOnly, grants, a + b)
            == Granted(isAdmin, isReadOnly, grants, a) + Granted(isAdmin, isReadOnly, grants, b)
  {
    hide GrantedFor;
    if b == [] {
      assert a + b == a;
    } else {
      GrantedConcat(isAdmin, isReadOnly, grants, a, b[..|b| - 1]);
      assert (a + b)[..|a + b| - 1] == a + b[..|b| - 1];
    }
  }

  lemma GrantedOne(isAdmin: bool, isReadOnly: bool, grants: seq<Grant>, r: Scope)
    ensures Granted(isAdmin, isReadOnly, grants, [r]) == GrantedFor(isAdmin, isReadOnly, grants, r)
    ensures Granted(isAdmin, isReadOnly, grants, []) == []
  {
    hide GrantedFor;
    assert [r][..0] == [];
  }

  lemma ReparsedConcat(a: seq<Scope>, b: seq<Scope>)
    ensures ReparsedAll(a + b) == ReparsedAll(a) + ReparsedAll(b)
  {
  }

  /** Asking again for exactly what a token was granted grants exactly that. */
  lemma {:induction false} GrantedAgain(isAdmin: bool, isReadOnly: bool, grants: seq<Grant>, requested: seq<Scope>)
    requires forall i :: 0 <= i < |requested| ==> Parsed(requested[i])
    ensures var g := Granted(isAdmin, isReadOnly, grants, requested);
      Granted(isAdmin, isReadOnly, grants, ReparsedAll(g)) == g
  {
    hide GrantedFor, Reparsed, Parsed;
    if requested == [] {
      assert ReparsedAll([]) == [];
    } else {
      var init, last := requested[..|requested| - 1], requested[|requested| - 1];
      assert forall i :: 0 <= i < |init| ==> init[i] == requested[i];
      GrantedAgain(isAdmin, isReadOnly, grants, init);
      GrantedForAgain(isAdmin, isReadOnly, grants, last);
      var g, one := Granted(isAdmin, isReadOnly, grants, init), GrantedFor(isAdmin, isReadOnly, grants, last);
      assert Granted(isAdmin, isReadOnly, grants, requested) == g + one;
      GrantedAgainStep(isAdmin, isReadOnly, grants, g, one);
    }
  }

  lemma GrantedAgainStep(isAdmin: bool, isReadOnly: bool, grants: seq<Grant>, g: seq<Scope>, one: seq<Scope>)
    requires Granted(isAdmin, isReadOnly, grants, ReparsedAll(g)) == g
    requires one == [] || (|one| == 1 && GrantedFor(isAdmin, isReadOnly, grants, Reparsed(one[0])) == one)
    ensures Granted(isAdmin, isReadOnly, grants, ReparsedAll(g + one)) == g + one
  {
    hide GrantedFor, Granted, Reparsed;
    ReparsedConcat(g, one);
    GrantedConcat(isAdmin, isReadOnly, grants, ReparsedAll(g), ReparsedAll(one));
    if one == [] {
      assert g + one == g;
    } else {
      GrantedOne(isAdmin, isReadOnly, grants, Reparsed(one[0]));
      assert ReparsedAll(one) == [Reparsed(one[0])];
    }
  }

  lemma {:induction false} RepositoryGrantsUnparsed(isAdmin: bool, isReadOnly: bool, grants: seq<Grant>,
                                                    requested: seq<Scope>)
    requires forall i :: 0 <= i < |requested| ==> requested[i].repository == ""
    ensures forall s :: s in Granted(isAdmin, isReadOnly, grants, requested) && s.IsRepository() ==> s.name == ""
  {
    if requested != [] {
      var init, last := requested[..|requested| - 1], requested[|requested| - 1];
      assert forall i :: 0 <= i < |init| ==> init[i] == requested[i];
      RepositoryGrantsUnparsed(isAdmin, isReadOnly, grants, init);
      KindsDiffer(last);
    }
  }

  lemma CatalogGranted(isAdmin: bool, isReadOnly: bool, grants: seq<Grant>, r: Scope)
    requires r.IsCatalog()
    ensures GrantedFor(isAdmin, isReadOnly, grants, r) == [r]
  {
  }

  lemma {:induction false} CatalogGrantedAgain(isAdmin: bool, isReadOnly: bool, grants: seq<Grant>,
                                               requested: seq<Scope>)
    requires forall i :: 0 <= i < |requested| ==> requested[i].IsCatalog()
    ensures Granted(isAdmin, isReadOnly, grants, requested) == requested
  {
    hide GrantedFor, Scope.IsCatalog;
    if requested != [] {
      var init, last := requested[..|requested| - 1], requested[|requested| - 1];
      assert forall i :: 0 <= i < |init| ==> init[i] == requested[i];
      CatalogGrantedAgain(isAdmin, isReadOnly, grants, init);
      CatalogGranted(isAdmin, isReadOnly, grants, last);
    }
  }

  /**
   The re-parse matters: the scopes as the service builds them carry no repository, so deriving from
   them directly is stable exactly when none of them is a repository scope.
   */
  lemma UnparsedDerivationIff(isAdmin: bool, isReadOnly: bool, grants: seq<Grant>, g: seq<Scope>)
    requires forall i :: 0 <= i < |g| ==> g[i].IsCatalog() || (g[i].IsRepository() && g[i].name != "")
    requires forall i :: 0 <= i < |g| ==> g[i].repository == ""
    ensures Granted(isAdmin, isReadOnly, grants, g) == g <==> forall i :: 0 <= i < |g| ==> g[i].IsCatalog()
  {
    RepositoryGrantsUnparsed(isAdmin, isReadOnly, grants, g);
    if Granted(isAdmin, isReadOnly, grants, g) == g {
      forall i | 0 <= i < |g| ensures g[i].IsCatalog() { assert g[i] in g; }
    }
    if forall i :: 0 <= i < |g| ==> g[i].IsCatalog() { CatalogGrantedAgain(isAdmin, isReadOnly, grants, g); }
  }

  // ---------------------------------------------------------- normalization

  function Self(s: string): string { s }

  ghost function Canonicals(scopes: seq<Scope>): set<string> {
    set i | 0 <= i < |scopes| && scopes[i].canonical != "" :: scopes[i].canonical
  }

  /** The scope field of a token: the canonical texts, once each, ascending. */
  ghost predicate NormalForm(scopes: seq<Scope>, texts: seq<string>) {
    StrictlySorted(Self, texts) && forall t :: t in texts <==> t in Canonicals(scopes)
  }

  method NormalizeScopes(scopes: seq<Scope>) returns (texts: seq<string>)
    ensures NormalForm(scopes, texts)
  {
    var canonical: seq<string> := [];
    var seen: set<string> := {};
    for i := 0 to |scopes|
      invariant DistinctKeys(Self, canonical)
      invariant forall t :: t in canonical <==> t in seen
      invariant seen == Canonicals(scopes[..i])
    {
      assert scopes[..i + 1] == scopes[..i] + [scopes[i]];
      assert Canonicals(scopes[..i + 1])
          == Canonicals(scopes[..i]) + if scopes[i].canonical == "" then {} else {scopes[i].canonical} by {
        forall t ensures t in Canonicals(scopes[..i + 1])
            <==> t in Canonicals(scopes[..i]) || (t == scopes[i].canonical && t != "") {
          if t in Canonicals(scopes[..i]) {
            var k :| 0 <= k < i && scopes[..i][k].canonical == t;
            assert scopes[..i + 1][k].canonical == t;
          }
          if t in Canonicals(scopes[..i + 1]) {
            var k :| 0 <= k < i + 1 && scopes[..i + 1][k].canonical == t;
            if k < i { assert scopes[..i][k].canonical == t; }
          }
          if t == scopes[i].canonical && t != "" { assert scopes[..i + 1][i].canonical == t; }
        }
      }
      if scopes[i].canonical == "" { continue; }
      if scopes[i].canonical in seen { continue; }
      seen := seen + {scopes[i].canonical};
      assert forall k :: 0 <= k < |canonical| ==> canonical[k] in canonical;
      canonical := canonical + [scopes[i].canonical];
    }
    assert scopes[..|scopes|] == scopes;
    texts := SortBy(Self, canonical);
    SortByStrict(Self, canonical);
    assert forall t :: t in texts <==> t in multiset(texts);
    assert forall t :: t in canonical <==> t in multiset(canonical);
  }

  /** The normal form forgets order and repetition: equal sets of scopes give equal token fields. */
  lemma NormalFormCanonical(a: seq<Scope>, b: seq<Scope>, ta: seq<string>, tb: seq<string>)
    requires NormalForm(a, ta) && NormalForm(b, tb)
    ensures ta == tb <==> Canonicals(a) == Canonicals(b)
  {
    if Canonicals(a) == Canonicals(b) { SortedSameMembers(Self, ta, tb); }
  }
}
