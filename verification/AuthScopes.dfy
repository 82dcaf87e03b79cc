/** What a login's token says: every scope it carries, from the request, the user and the stored grants alone. */
module AuthScopes {
  import opened Wrappers
  import opened Ordering
  import opened TokenScopes
  import opened AuthModel
  import opened AuthInvariants
  import opened AuthProperties

  /** May this user do this on a repository where they hold that role? */
  predicate MayDo(u: User, role: Option<Role>, action: string) {
    || (action == "pull" && (u.isAdmin || u.isReadOnly || (role.Some? && !role.value.OtherRole?)))
    || ((action == "push" || action == "delete")
        && (u.isAdmin || (!u.isReadOnly && (role == Some(Writer) || role == Some(RepoAdmin)))))
  }

  ghost function KeptActions(s: State, u: User, r: Scope): set<string> {
    set a | a in r.actions && MayDo(u, RoleAt(s, (u.id, r.repository)), a)
  }

  /** The text of a nonempty set of actions. */
  function Spelled(actions: set<string>): string {
    match ("pull" in actions, "push" in actions, "delete" in actions)
    case (true, true, true) => "pull,push,delete"
    case (true, true, false) => "pull,push"
    case (true, false, true) => "pull,delete"
    case (false, true, true) => "push,delete"
    case (true, false, false) => "pull"
    case (false, true, false) => "push"
    case (false, false, _) => "delete"
  }

  /** Asking for `r` puts the text `t` into the token. */
  ghost predicate Gives(s: State, u: User, r: Scope, t: string) {
    || (r.kind == "regixtry" && r.name == "catalog" && r.actions == ["*"] && t == r.canonical && t != "")
    || (r.kind == "repository" && KeptActions(s, u, r) != {}
        && t == "repository:" + r.repository + ":" + Spelled(KeptActions(s, u, r)))
  }

  lemma ActionsDiffer()
    ensures "pull" != "push" && "pull" != "delete" && "push" != "delete"
  {
    assert "pull"[1] == 'u' && "push"[2] == 's' && "pull"[2] == 'l' && "delete"[0] == 'd';
  }

  /** The set of the listed actions. */
  ghost function Chosen(pull: bool, push: bool, delete: bool): set<string> {
    (if pull then {"pull"} else {}) + (if push then {"push"} else {}) + (if delete then {"delete"} else {})
  }

  lemma JoinListed(pull: bool, push: bool, delete: bool)
    requires pull || push || delete
    ensures Join(Listed(pull, push, delete)) == Spelled(Chosen(pull, push, delete))
  {
    ChosenMembers(pull, push, delete);
    ListedTable(pull, push, delete);
    JoinTable();
    hide Join, Chosen, Listed;
  }

  lemma ListedTable(pull: bool, push: bool, delete: bool)
    ensures Listed(pull, push, delete) ==
      if pull && push && delete then ["pull", "push", "delete"]
      else if pull && push then ["pull", "push"]
      else if pull && delete then ["pull", "delete"]
      else if push && delete then ["push", "delete"]
      else if pull then ["pull"]
      else if push then ["push"]
      else if delete then ["delete"]
      else []
  {
  }

  lemma JoinTable()
    ensures Join(["pull"]) == "pull" && Join(["push"]) == "push" && Join(["delete"]) == "delete"
    ensures Join(["pull", "push"]) == "pull,push" && Join(["pull", "delete"]) == "pull,delete"
    ensures Join(["push", "delete"]) == "push,delete" && Join(["pull", "push", "delete"]) == "pull,push,delete"
  {
    JoinOne("pull");
    JoinOne("push");
    JoinOne("delete");
    JoinPair("pull", "push");
    JoinPair("pull", "delete");
    JoinPair("push", "delete");
    JoinThird();
    hide Join;
  }

  lemma ChosenMembers(pull: bool, push: bool, delete: bool)
    ensures var c := Chosen(pull, push, delete);
      ("pull" in c <==> pull) && ("push" in c <==> push) && ("delete" in c <==> delete)
  {
    ActionsDiffer();
  }

  lemma JoinOne(a: string)
    ensures Join([a]) == a
  {
  }

  lemma JoinPair(a: string, b: string)
    ensures Join([a, b]) == a + "," + b
  {
    assert [a, b][..1] == [a];
  }

  lemma JoinThird()
    ensures Join(["pull", "push", "delete"]) == Join(["pull", "push"]) + "," + "delete"
  {
    assert ["pull", "push", "delete"][..2] == ["pull", "push"];
  }

  /** The stored grants, listed, answer as a lookup of the one role. */
  lemma RoleLookedUp(s: State, userID: UserId, repo: Repo)
    ensures FirstRole(GrantList(s, userID), repo) == RoleAt(s, (userID, repo))
  {
    GrantListExact(s, userID);
    var listing := GrantList(s, userID);
    FirstRoleHeld(listing, repo);
    forall role ensures Holds(listing, repo, role) <==> RoleAt(s, (userID, repo)) == Some(role) {
      assert Grant(repo, role) in listing <==> IsGrant(s, userID, Grant(repo, role));
    }
  }

  lemma KeptAre(s: State, u: User, r: Scope)
    ensures var permitted := Permitted(u.isAdmin, u.isReadOnly, FirstRole(GrantList(s, u.id), r.repository));
      KeptActions(s, u, r) == Chosen("pull" in permitted && r.Allows("pull"), "push" in permitted && r.Allows("push"),
                                     "delete" in permitted && r.Allows("delete"))
  {
    RoleLookedUp(s, u.id, r.repository);
    ActionsDiffer();
  }

  ghost function GrantedTo(s: State, u: User, requested: seq<Scope>): seq<Scope> {
    Granted(u.isAdmin, u.isReadOnly, GrantList(s, u.id), requested)
  }

  lemma KeptText(s: State, u: User, r: Scope)
    ensures var actions := Exact(r, Permitted(u.isAdmin, u.isReadOnly, FirstRole(GrantList(s, u.id), r.repository)));
      && (actions == [] <==> KeptActions(s, u, r) == {})
      && (actions != [] ==> Join(actions) == Spelled(KeptActions(s, u, r)))
  {
    var permitted := Permitted(u.isAdmin, u.isReadOnly, FirstRole(GrantList(s, u.id), r.repository));
    var pull, push, delete := "pull" in permitted && r.Allows("pull"), "push" in permitted && r.Allows("push"),
      "delete" in permitted && r.Allows("delete");
    KeptAre(s, u, r);
    ChosenMembers(pull, push, delete);
    if pull || push || delete { JoinListed(pull, push, delete); }
    hide KeptActions, Permitted, Spelled, Join;
  }

  lemma OneCanonical(g: Scope)
    ensures Canonicals([g]) == if g.canonical == "" then {} else {g.canonical}
    ensures Canonicals([]) == {}
  {
    assert [g][0] == g;
  }

  lemma OneGives(s: State, u: User, r: Scope, t: string)
    ensures t in Canonicals(GrantedFor(u.isAdmin, u.isReadOnly, GrantList(s, u.id), r)) <==> Gives(s, u, r, t)
  {
    KindsDiffer(r);
    KeptText(s, u, r);
    OneCanonical(r);
    var actions := Exact(r, Permitted(u.isAdmin, u.isReadOnly, FirstRole(GrantList(s, u.id), r.repository)));
    var built := BuiltScope(r.repository, actions);
    OneCanonical(built);
    assert built.canonical == "repository:" + r.repository + ":" + Join(actions) && built.canonical != "";
    hide KeptActions, Exact, Permitted, Spelled, Join, Canonicals, BuiltScope;
  }

  lemma CanonicalsConcat(a: seq<Scope>, b: seq<Scope>)
    ensures Canonicals(a + b) == Canonicals(a) + Canonicals(b)
  {
    forall t ensures t in Canonicals(a + b) <==> t in Canonicals(a) || t in Canonicals(b) {
      if i :| 0 <= i < |a| && a[i].canonical == t { assert (a + b)[i] == a[i]; }
      if i :| 0 <= i < |b| && b[i].canonical == t { assert (a + b)[|a| + i] == b[i]; }
    }
  }

  lemma {:induction false} AllGive(s: State, u: User, requested: seq<Scope>, t: string)
    ensures t in Canonicals(GrantedTo(s, u, requested))
      <==> exists i :: 0 <= i < |requested| && Gives(s, u, requested[i], t)
  {
    hide Gives, GrantedFor;
    if requested != [] {
      var init, n := requested[..|requested| - 1], |requested| - 1;
      AllGive(s, u, init, t);
      OneGives(s, u, requested[n], t);
      CanonicalsConcat(GrantedTo(s, u, init), GrantedFor(u.isAdmin, u.isReadOnly, GrantList(s, u.id), requested[n]));
      if i :| 0 <= i < |init| && Gives(s, u, init[i], t) { assert Gives(s, u, requested[i], t); }
      if i :| 0 <= i < |requested| && Gives(s, u, requested[i], t) && i < n { assert Gives(s, u, init[i], t); }
    }
  }

  ghost function Enumerated(texts: set<string>): (r: seq<string>)
    ensures DistinctKeys(Self, r) && forall t :: t in r <==> t in texts
  {
    if texts == {} then []
    else
      var t :| t in texts;
      var rest := Enumerated(texts - {t});
      assert forall i :: 0 <= i < |rest| ==> rest[i] in rest;
      rest + [t]
  }

  /** A token field exists for every list of scopes. */
  lemma FieldExact(scopes: seq<Scope>)
    ensures NormalForm(scopes, TokenField(scopes))
  {
    var found := Enumerated(Canonicals(scopes));
    var texts := SortBy(Self, found);
    SortByStrict(Self, found);
    assert forall t :: t in texts <==> t in multiset(texts);
    assert forall t :: t in found <==> t in multiset(found);
    assert NormalForm(scopes, texts);
  }

  /** The login stored exactly one access token, of the named user, and it says exactly what was given. */
  ghost predicate LoginGives(s: State, o: Outcome, requested: seq<Scope>, secret: Secret, accessor: string,
                             origin: Origin) {
    && o.1.Success? && o.1.value.LoginReply?
    && var p := o.1.value.principal;
       && p.userID in s.users
       && var u := s.users[p.userID];
          && p.isAdmin == u.isAdmin && p.isReadOnly == u.isReadOnly && ListsGrants(s, u.id, p.grants)
          && p.expiresAt == s.clock + 15 * MINUTE && StrictlySorted(Self, p.scope)
          && (forall t :: t in p.scope <==> exists i :: 0 <= i < |requested| && Gives(s, u, requested[i], t))
          && secret !in s.tokens && o.1.value.bearer == secret
          && o.1.value.token == Token(u.id, Access, accessor, p.scope, p.expiresAt, false, origin)
          && o.0 == s.(tokens := s.tokens[secret := o.1.value.token])
  }

  lemma IssueGives(s: State, u: User, requested: seq<Scope>, origin: Origin, secret: Secret, accessor: string)
    requires u.id in s.users && s.users[u.id] == u
    requires Issue(s, u, requested, origin, secret, accessor).1.Success?
    ensures LoginGives(s, Issue(s, u, requested, origin, secret, accessor), requested, secret, accessor, origin)
  {
    GrantListExact(s, u.id);
    FieldExact(GrantedTo(s, u, requested));
    forall t ensures t in TokenField(GrantedTo(s, u, requested))
        <==> exists i :: 0 <= i < |requested| && Gives(s, u, requested[i], t) {
      AllGive(s, u, requested, t);
    }
    hide Gives, Granted, TokenField, AccessorTaken, ListsGrants, Canonicals;
  }

  /**
   What both logins give: a text is in the token if and only if some requested scope gives it - the catalog
   scope itself, or a repository scope with the asked actions that the user's flags or role allow there.
   */
  lemma LoginScopesExact(s: State, username: string, password: string, credential: Secret, requested: seq<Scope>,
                         secret: Secret, accessor: string)
    requires StoreInv(s)
    ensures var o := LoginWithPassword(s, username, password, requested, secret, accessor);
      if o.1.Success? then LoginGives(s, o, requested, secret, accessor, ByPassword) else o.0 == s
    ensures var o := LoginWithPreissuedToken(s, username, credential, requested, secret, accessor);
      if o.1.Success? then LoginGives(s, o, requested, secret, accessor, ByPreissuedToken) else o.0 == s
  {
    hide LoginGives, Issue;
    if ActiveUser(s, username).Success? {
      FoundByName(s, username);
      var u := ActiveUser(s, username).value;
      IssueFails(s, u, requested, ByPassword, secret, accessor);
      IssueFails(s, u, requested, ByPreissuedToken, secret, accessor);
      if Issue(s, u, requested, ByPassword, secret, accessor).1.Success? {
        IssueGives(s, u, requested, ByPassword, secret, accessor);
      }
      if Issue(s, u, requested, ByPreissuedToken, secret, accessor).1.Success? {
        IssueGives(s, u, requested, ByPreissuedToken, secret, accessor);
      }
    }
  }

  lemma IssueFails(s: State, u: User, requested: seq<Scope>, origin: Origin, secret: Secret, accessor: string)
    ensures Issue(s, u, requested, origin, secret, accessor).1.Failure?
      ==> Issue(s, u, requested, origin, secret, accessor).0 == s
  {
  }

  /** A live access token of an enabled user, and nothing else, is accepted. */
  ghost predicate Bearer(s: State, bearer: Secret) {
    && bearer in s.tokens && s.tokens[bearer].kind == Access && !s.tokens[bearer].revoked
    && s.clock < s.tokens[bearer].expiresAt
    && s.tokens[bearer].userID in s.users && s.users[s.tokens[bearer].userID].enabled
  }

  /** The check names the token's user as the store knows them now, with the scopes fixed at the login. */
  lemma VerifyExact(s: State, bearer: Secret)
    requires StoreInv(s)
    ensures var r := VerifyAccessToken(s, bearer);
      && (r.Success? <==> Bearer(s, bearer))
      && (r == Failure(InvalidCredentials) <==> !(bearer in s.tokens && s.tokens[bearer].kind == Access))
      && (r == Failure(Revoked) <==> bearer in s.tokens && s.tokens[bearer].kind == Access && s.tokens[bearer].revoked)
      && (r == Failure(Expired) <==> bearer in s.tokens && s.tokens[bearer].kind == Access && !s.tokens[bearer].revoked
                                     && s.clock >= s.tokens[bearer].expiresAt)
      && (r.Failure? ==> r.error in {InvalidCredentials, Revoked, Expired, Disabled})
      && (r.Success? ==>
            var (token, p) := (s.tokens[bearer], r.value.principal);
            && r.value.PrincipalReply? && p.userID == token.userID && p.scope == token.scope
            && p.expiresAt == token.expiresAt && ListsGrants(s, p.userID, p.grants)
            && p.isAdmin == s.users[p.userID].isAdmin && p.isReadOnly == s.users[p.userID].isReadOnly)
  {
    if bearer in s.tokens { GrantListExact(s, s.tokens[bearer].userID); }
    hide ListsGrants, LinksInv;
  }

  /** Which error a refused password login gives: a disabled account is told so whatever the password. */
  lemma PasswordRefusals(s: State, username: string, password: string, requested: seq<Scope>, secret: Secret,
                         accessor: string, id: UserId)
    requires StoreInv(s) && secret !in s.tokens && !AccessorTaken(s, accessor) && HasName(s, id, Normalize(username))
    ensures var (r, u) := (LoginWithPassword(s, username, password, requested, secret, accessor).1, s.users[id]);
      && (r == Failure(Disabled) <==> !u.enabled)
      && (r == Failure(InvalidCredentials) <==> u.enabled && (u.isRobot || u.passwordHash != HashOf(password)))
      && (r.Failure? ==> r.error in {Disabled, InvalidCredentials})
  {
    FindsNamed(s, username, id);
    hide UserByName, Normalize, GrantList, TokenField, Granted, AccessorTaken, StoreInv;
  }

  lemma TokenRefusals(s: State, username: string, credential: Secret, requested: seq<Scope>, secret: Secret,
                      accessor: string, id: UserId)
    requires StoreInv(s) && secret !in s.tokens && !AccessorTaken(s, accessor) && HasName(s, id, Normalize(username))
    ensures var r := LoginWithPreissuedToken(s, username, credential, requested, secret, accessor).1;
      var own := s.users[id].enabled && credential in s.tokens && s.tokens[credential].kind == AdminCredential
        && s.tokens[credential].userID == id;
      && (r == Failure(Disabled) <==> !s.users[id].enabled)
      && (r == Failure(InvalidCredentials) <==> s.users[id].enabled && !own)
      && (r == Failure(Revoked) <==> own && s.tokens[credential].revoked)
      && (r == Failure(Expired) <==> own && !s.tokens[credential].revoked
                                     && s.clock >= s.tokens[credential].expiresAt)
      && (r.Failure? ==> r.error in {Disabled, InvalidCredentials, Revoked, Expired})
  {
    FindsNamed(s, username, id);
    IssueSucceeds(s, id, requested, ByPreissuedToken, secret, accessor);
    hide UserByName, Normalize, Issue, AccessorTaken, StoreInv;
  }

  lemma IssueSucceeds(s: State, id: UserId, requested: seq<Scope>, origin: Origin, secret: Secret, accessor: string)
    requires secret !in s.tokens && !AccessorTaken(s, accessor) && id in s.users && s.users[id].id == id
    ensures Issue(s, s.users[id], requested, origin, secret, accessor).1.Success?
  {
    hide GrantList, TokenField, Granted;
  }

  lemma FindsNamed(s: State, username: string, id: UserId)
    requires StoreInv(s) && HasName(s, id, Normalize(username))
    ensures UserByName(s, username) == Some(s.users[id]) && s.users[id].id == id
  {
    FoundByName(s, username);
    hide Normalize;
  }

  /** An unknown name is refused like a wrong password. */
  lemma UnknownLogin(s: State, username: string, password: string, credential: Secret, requested: seq<Scope>,
                     secret: Secret, accessor: string)
    requires forall id :: !HasName(s, id, Normalize(username))
    ensures LoginWithPassword(s, username, password, requested, secret, accessor) == (s, Failure(InvalidCredentials))
    ensures LoginWithPreissuedToken(s, username, credential, requested, secret, accessor)
      == (s, Failure(InvalidCredentials))
  {
    hide Normalize, Issue;
  }
}
