/** The console's project grouping: one row per first path segment of the catalog's repositories. */
module Projects {
  import opened Ordering

  const UNGROUPED := "(ungrouped)"

  /** Times count from Go's zero time. */
  datatype RepositorySummary = RepositorySummary(name: string, tagCount: int, lastPushed: int)

  datatype ProjectSummary = ProjectSummary(name: string, repositoryCount: int, tagCount: int, lastPushed: int)

  function NameOf(p: ProjectSummary): string { p.name }

  /** The position of the first slash, or the length. */
  function IndexOfSlash(s: string): (n: nat)
    ensures n <= |s| && '/' !in s[..n] && (n < |s| ==> s[n] == '/')
  {
    if s == [] || s[0] == '/' then 0
    else
      var n := IndexOfSlash(s[1..]) + 1;
      assert s[..n] == [s[0]] + s[1..][..n - 1];
      n
  }

  function RepositoryProjectName(repository: string): string {
    var n := IndexOfSlash(repository);
    if n < |repository| then repository[..n] else UNGROUPED
  }

  /** The repository lies in the project: under its name and a slash, or, without any slash, ungrouped. */
  ghost predicate LiesIn(repository: string, project: string) {
    || ('/' !in project && |project| < |repository| && repository[..|project| + 1] == project + "/")
    || ('/' !in repository && project == "(ungrouped)")
  }

  /** Every repository lies in one project, the one it is grouped under. */
  lemma ProjectNameIff(repository: string, project: string)
    ensures RepositoryProjectName(repository) == project <==> LiesIn(repository, project)
  {
    var n := IndexOfSlash(repository);
    if |project| < |repository| && repository[..|project| + 1] == project + "/" {
      CutAtSlash(repository, project);
      if n < |repository| && '/' !in project { FirstSlash(repository, n, |project|); }
    }
    if n < |repository| {
      assert repository[..n + 1] == repository[..n] + "/" && repository[n] in repository;
    } else {
      assert repository[..n] == repository;
    }
  }

  lemma CutAtSlash(s: string, front: string)
    requires |front| < |s| && s[..|front| + 1] == front + "/"
    ensures s[|front|] == '/' && '/' in s && s[..|front|] == front
  {
    assert s[|front|] == s[..|front| + 1][|front|];
    assert s[..|front|] == s[..|front| + 1][..|front|];
  }

  lemma SlashBefore(s: string, n: nat, m: nat)
    requires n < m <= |s| && s[n] == '/'
    ensures '/' in s[..m]
  {
    assert s[..m][n] == '/';
  }

  lemma FirstSlash(s: string, n: nat, m: nat)
    requires n < |s| && m < |s| && s[n] == '/' && '/' !in s[..n] && s[m] == '/' && '/' !in s[..m]
    ensures n == m
  {
    if n < m { SlashBefore(s, n, m); }
    if m < n { SlashBefore(s, m, n); }
  }

  // --------------------------------------------------------------- meaning

  ghost function Members(repos: seq<RepositorySummary>, project: string): seq<RepositorySummary> {
    if repos == [] then []
    else
      var last := repos[|repos| - 1];
      Members(repos[..|repos| - 1], project) + if RepositoryProjectName(last.name) == project then [last] else []
  }

  ghost function Tags(repos: seq<RepositorySummary>): int {
    if repos == [] then 0 else Tags(repos[..|repos| - 1]) + repos[|repos| - 1].tagCount
  }

  function Later(a: int, b: int): int { if b > a then b else a }

  ghost function Latest(repos: seq<RepositorySummary>): int {
    if repos == [] then 0 else Later(Latest(repos[..|repos| - 1]), repos[|repos| - 1].lastPushed)
  }

  ghost function Names(repos: seq<RepositorySummary>): seq<string> {
    seq(|repos|, i requires 0 <= i < |repos| => repos[i].name)
  }

  /** The row a project must have: the aggregates of its members. */
  ghost function Project(repos: seq<RepositorySummary>, name: string): ProjectSummary {
    var members := Members(repos, name);
    ProjectSummary(name, |members|, Tags(members), Latest(members))
  }

  ghost predicate Occurs(repos: seq<RepositorySummary>, name: string) {
    exists i :: 0 <= i < |repos| && RepositoryProjectName(repos[i].name) == name
  }

  /** Ascending distinct rows, one for every occurring project and for no other. */
  ghost predicate Groups(repos: seq<RepositorySummary>, projects: seq<ProjectSummary>) {
    && StrictlySorted(NameOf, projects)
    && (forall p :: p in projects <==> Occurs(repos, p.name) && p == Project(repos, p.name))
  }

  // --------------------------------------------------------------- the loops

  ghost predicate Tallied(repos: seq<RepositorySummary>, order: seq<string>, byName: map<string, ProjectSummary>) {
    && (forall i, j :: 0 <= i < j < |order| ==> order[i] != order[j])
    && (forall name :: name in order <==> Occurs(repos, name))
    && (forall name :: name in order <==> name in byName)
    && (forall name :: name in byName ==> byName[name] == Project(repos, name))
  }

  lemma MembersSnoc(repos: seq<RepositorySummary>, i: nat, name: string)
    requires i < |repos|
    ensures Members(repos[..i + 1], name)
            == Members(repos[..i], name) + if RepositoryProjectName(repos[i].name) == name then [repos[i]] else []
  {
    hide RepositoryProjectName;
    assert repos[..i + 1][..i] == repos[..i];
  }

  lemma OccursSnoc(repos: seq<RepositorySummary>, i: nat, name: string)
    requires i < |repos|
    ensures Occurs(repos[..i + 1], name) <==> Occurs(repos[..i], name) || RepositoryProjectName(repos[i].name) == name
  {
    hide RepositoryProjectName;
    var longer, shorter := repos[..i + 1], repos[..i];
    assert longer[i] == repos[i];
    if k :| 0 <= k < i && RepositoryProjectName(shorter[k].name) == name { assert longer[k] == shorter[k]; }
    if k :| 0 <= k < i && RepositoryProjectName(longer[k].name) == name { assert longer[k] == shorter[k]; }
  }

  lemma AggregatesSnoc(members: seq<RepositorySummary>, r: RepositorySummary)
    ensures Tags(members + [r]) == Tags(members) + r.tagCount
    ensures Latest(members + [r]) == Later(Latest(members), r.lastPushed)
  {
    assert (members + [r])[..|members|] == members;
  }

  /** One more repository changes its own project's row and no other. */
  lemma ProjectSnoc(repos: seq<RepositorySummary>, i: nat, name: string)
    requires i < |repos|
    ensures var (before, r) := (Project(repos[..i], name), repos[i]);
      Project(repos[..i + 1], name) == if RepositoryProjectName(r.name) != name then before
        else ProjectSummary(name, before.repositoryCount + 1, before.tagCount + r.tagCount,
          Later(before.lastPushed, r.lastPushed))
  {
    hide RepositoryProjectName, Members, Tags, Latest;
    MembersSnoc(repos, i, name);
    AggregatesSnoc(Members(repos[..i], name), repos[i]);
    assert Members(repos[..i], name) + [] == Members(repos[..i], name);
  }

  lemma {:induction false} NoMembers(repos: seq<RepositorySummary>, name: string)
    requires !Occurs(repos, name)
    ensures Project(repos, name) == ProjectSummary(name, 0, 0, 0)
  {
    if repos != [] {
      var init := repos[..|repos| - 1];
      assert forall k :: 0 <= k < |init| ==> init[k] == repos[k];
      NoMembers(init, name);
      assert RepositoryProjectName(repos[|repos| - 1].name) != name;
    }
  }

  lemma NothingTallied()
    ensures Tallied([], [], map[])
  {
  }

  lemma TallyStep(shorter: seq<RepositorySummary>, longer: seq<RepositorySummary>, name: string, order: seq<string>,
                  byName: map<string, ProjectSummary>)
    requires Tallied(shorter, order, byName)
    requires forall p :: Occurs(longer, p) <==> Occurs(shorter, p) || p == name
    requires forall p :: p != name ==> Project(longer, p) == Project(shorter, p)
    ensures Tallied(longer, if name in byName then order else order + [name], byName[name := Project(longer, name)])
  {
    hide Project, Occurs;
    var newOrder := if name in byName then order else order + [name];
    forall p ensures p in newOrder <==> p in order || p == name {
      assert name in byName ==> name in order;
    }
  }

  lemma SortedRows(repos: seq<RepositorySummary>, order: seq<string>, unsorted: seq<ProjectSummary>)
    requires forall i, j :: 0 <= i < j < |order| ==> order[i] != order[j]
    requires forall name :: name in order <==> Occurs(repos, name)
    requires |unsorted| == |order| && forall k :: 0 <= k < |order| ==> unsorted[k] == Project(repos, order[k])
    ensures Groups(repos, SortBy(NameOf, unsorted))
  {
    hide Occurs, Members;
    SortByStrict(NameOf, unsorted);
    forall p ensures p in SortBy(NameOf, unsorted) <==> Occurs(repos, p.name) && p == Project(repos, p.name) {
      assert p in SortBy(NameOf, unsorted) <==> p in multiset(unsorted);
      if Occurs(repos, p.name) && p == Project(repos, p.name) {
        var k :| 0 <= k < |order| && order[k] == p.name;
        assert unsorted[k] == p;
      }
    }
  }

  method DeriveProjects(repos: seq<RepositorySummary>) returns (projects: seq<ProjectSummary>)
    ensures Groups(repos, projects)
  {
    hide RepositoryProjectName, Occurs, Members, Groups, Tags, Latest;
    var order: seq<string> := [];
    assert repos[..0] == [];
    NothingTallied();
    var byName: map<string, ProjectSummary> := map[];
    for i := 0 to |repos|
      invariant Tallied(repos[..i], order, byName)
    {
      var repository := repos[i];
      var name := RepositoryProjectName(repository.name);
      ghost var order0, byName0 := order, byName;
      ProjectSnoc(repos, i, name);
      if name !in byName {
        NoMembers(repos[..i], name);
        byName := byName[name := ProjectSummary(name, 0, 0, 0)];
        order := order + [name];
      }
      var summary := byName[name];
      summary := summary.(repositoryCount := summary.repositoryCount + 1);
      summary := summary.(tagCount := summary.tagCount + repository.tagCount);
      if repository.lastPushed > summary.lastPushed {
        summary := summary.(lastPushed := repository.lastPushed);
      }
      byName := byName[name := summary];
      forall p ensures Occurs(repos[..i + 1], p) <==> Occurs(repos[..i], p) || p == name { OccursSnoc(repos, i, p); }
      forall p | p != name ensures Project(repos[..i + 1], p) == Project(repos[..i], p) { ProjectSnoc(repos, i, p); }
      TallyStep(repos[..i], repos[..i + 1], name, order0, byName0);
      assert byName == byName0[name := Project(repos[..i + 1], name)];
    }
    assert repos[..|repos|] == repos;

    projects := [];
    for i := 0 to |order|
      invariant |projects| == i && forall k :: 0 <= k < i ==> projects[k] == Project(repos, order[k])
    {
      projects := projects + [byName[order[i]]];
    }
    SortedRows(repos, order, projects);
    projects := SortBy(NameOf, projects);
  }

  method RepositoriesInProject(repos: seq<RepositorySummary>, project: string) returns (names: seq<string>)
    ensures names == Names(Members(repos, project))
  {
    hide RepositoryProjectName;
    names := [];
    for i := 0 to |repos|
      invariant names == Names(Members(repos[..i], project))
    {
      MembersSnoc(repos, i, project);
      if RepositoryProjectName(repos[i].name) == project {
        names := names + [repos[i].name];
      }
    }
    assert repos[..|repos|] == repos;
  }

  // --------------------------------------------- partition and conservation

  lemma {:induction false} MemberCounts(repos: seq<RepositorySummary>, project: string, r: RepositorySummary)
    ensures multiset(Members(repos, project))[r]
            == if RepositoryProjectName(r.name) == project then multiset(repos)[r] else 0
  {
    if repos != [] {
      MemberCounts(repos[..|repos| - 1], project, r);
      assert repos == repos[..|repos| - 1] + [repos[|repos| - 1]];
    }
  }

  lemma {:induction false} MembersConcat(a: seq<RepositorySummary>, b: seq<RepositorySummary>, project: string)
    ensures Members(a + b, project) == Members(a, project) + Members(b, project)
  {
    hide RepositoryProjectName;
    if b == [] {
      assert a + b == a;
    } else {
      MembersConcat(a, b[..|b| - 1], project);
      assert (a + b)[..|a + b| - 1] == a + b[..|b| - 1];
    }
  }

  /** Each repository is among its own project's members, once and in its place, and in no other. */
  lemma MembersExact(a: seq<RepositorySummary>, r: RepositorySummary, b: seq<RepositorySummary>, project: string)
    ensures Members(a + [r] + b, project)
      == Members(a, project) + (if LiesIn(r.name, project) then [r] else []) + Members(b, project)
    ensures Members([], project) == []
  {
    MembersConcat(a + [r], b, project);
    MembersConcat(a, [r], project);
    ProjectNameIff(r.name, project);
    assert [r][..0] == [];
    hide RepositoryProjectName, LiesIn;
  }

  /** All groups, one after the other. */
  ghost function Gathered(repos: seq<RepositorySummary>, projects: seq<ProjectSummary>): seq<RepositorySummary> {
    if projects == [] then []
    else Gathered(repos, projects[..|projects| - 1]) + Members(repos, projects[|projects| - 1].name)
  }

  ghost predicate Lists(projects: seq<ProjectSummary>, name: string) {
    exists i :: 0 <= i < |projects| && projects[i].name == name
  }

  lemma {:induction false} GatheredCounts(repos: seq<RepositorySummary>, projects: seq<ProjectSummary>,
                                          r: RepositorySummary)
    requires DistinctKeys(NameOf, projects)
    ensures multiset(Gathered(repos, projects))[r]
            == if Lists(projects, RepositoryProjectName(r.name)) then multiset(repos)[r] else 0
  {
    if projects != [] {
      var init, n, name := projects[..|projects| - 1], |projects| - 1, RepositoryProjectName(r.name);
      assert DistinctKeys(NameOf, init) by {
        forall i, j | 0 <= i < j < |init| ensures NameOf(init[i]) != NameOf(init[j]) {
          assert init[i] == projects[i] && init[j] == projects[j];
        }
      }
      GatheredCounts(repos, init, r);
      MemberCounts(repos, projects[n].name, r);
      if Lists(init, name) {
        var i :| 0 <= i < |init| && init[i].name == name;
        assert projects[i].name == name && NameOf(projects[i]) != NameOf(projects[n]);
      }
      assert Lists(projects, name) <==> Lists(init, name) || projects[n].name == name by {
        if i :| 0 <= i < |projects| && projects[i].name == name && i < n { assert init[i].name == name; }
        if i :| 0 <= i < |init| && init[i].name == name { assert projects[i].name == name; }
      }
    }
  }

  lemma {:induction false} TagsAndLatestConcat(a: seq<RepositorySummary>, b: seq<RepositorySummary>)
    ensures Tags(a + b) == Tags(a) + Tags(b) && Latest(a + b) == Later(Latest(a), Latest(b))
  {
    if b == [] {
      assert a + b == a;
      LatestNonNegative(a);
    } else {
      TagsAndLatestConcat(a, b[..|b| - 1]);
      assert (a + b)[..|a + b| - 1] == a + b[..|b| - 1];
    }
  }

  lemma {:induction false} LatestNonNegative(repos: seq<RepositorySummary>)
    ensures Latest(repos) >= 0
  {
    if repos != [] { LatestNonNegative(repos[..|repos| - 1]); }
  }

  lemma Cancel<T>(a: multiset<T>, b: multiset<T>, x: T)
    requires a + multiset{x} == b + multiset{x}
    ensures a == b
  {
    assert a == (a + multiset{x}) - multiset{x} && b == (b + multiset{x}) - multiset{x};
  }

  lemma TakeOut(b: seq<RepositorySummary>, x: RepositorySummary) returns (rest: seq<RepositorySummary>)
    requires x in b
    ensures multiset(b) == multiset(rest) + multiset{x}
    ensures Tags(b) == Tags(rest) + x.tagCount && Latest(b) == Later(Latest(rest), x.lastPushed)
  {
    var j :| 0 <= j < |b| && b[j] == x;
    var left, right := b[..j], b[j + 1..];
    rest := left + right;
    assert b == left + [x] + right;
    TagsAndLatestConcat(left + [x], right);
    AggregatesSnoc(left, x);
    TagsAndLatestConcat(left, right);
  }

  /** The aggregates do not depend on the order of the repositories. */
  lemma {:induction false} AggregatesPermute(a: seq<RepositorySummary>, b: seq<RepositorySummary>)
    requires multiset(a) == multiset(b)
    ensures |a| == |b| && Tags(a) == Tags(b) && Latest(a) == Latest(b)
  {
    assert |a| == |multiset(a)| == |multiset(b)| == |b|;
    if a != [] {
      var init, x := a[..|a| - 1], a[|a| - 1];
      assert a == init + [x];
      assert x in multiset(b);
      var rest := TakeOut(b, x);
      Cancel(multiset(init), multiset(rest), x);
      AggregatesPermute(init, rest);
    }
  }

  ghost function TotalRepositories(projects: seq<ProjectSummary>): int {
    if projects == [] then 0
    else TotalRepositories(projects[..|projects| - 1]) + projects[|projects| - 1].repositoryCount
  }

  ghost function TotalTags(projects: seq<ProjectSummary>): int {
    if projects == [] then 0 else TotalTags(projects[..|projects| - 1]) + projects[|projects| - 1].tagCount
  }

  lemma {:induction false} GatheredTotals(repos: seq<RepositorySummary>, projects: seq<ProjectSummary>)
    requires forall i :: 0 <= i < |projects| ==> projects[i] == Project(repos, projects[i].name)
    ensures TotalRepositories(projects) == |Gathered(repos, projects)|
    ensures TotalTags(projects) == Tags(Gathered(repos, projects))
  {
    if projects != [] {
      var init, last := projects[..|projects| - 1], projects[|projects| - 1];
      GatheredTotals(repos, init);
      TagsAndLatestConcat(Gathered(repos, init), Members(repos, last.name));
      assert last == Project(repos, last.name);
    }
  }

  /**
   The rows partition the catalog: the groups one after the other are a permutation of it, and the
   repository and tag counts add up to its totals.
   */
  lemma ProjectsPartition(repos: seq<RepositorySummary>, projects: seq<ProjectSummary>)
    requires Groups(repos, projects)
    ensures multiset(Gathered(repos, projects)) == multiset(repos)
    ensures TotalRepositories(projects) == |repos| && TotalTags(projects) == Tags(repos)
  {
    forall i, j | 0 <= i < j < |projects| ensures NameOf(projects[i]) != NameOf(projects[j]) {
      LessIrreflexive(NameOf(projects[i]));
    }
    forall r ensures multiset(Gathered(repos, projects))[r] == multiset(repos)[r] {
      GatheredCounts(repos, projects, r);
      if r in multiset(repos) {
        var i :| 0 <= i < |repos| && repos[i] == r;
        var name := RepositoryProjectName(r.name);
        assert Occurs(repos, name) && Project(repos, name) in projects;
      }
    }
    assert forall i :: 0 <= i < |projects| ==> projects[i] in projects;
    GatheredTotals(repos, projects);
    AggregatesPermute(Gathered(repos, projects), repos);
  }

  lemma {:induction false} LatestIsMaximum(repos: seq<RepositorySummary>)
    ensures forall r :: r in repos ==> r.lastPushed <= Latest(repos)
    ensures Latest(repos) == 0 || exists r :: r in repos && r.lastPushed == Latest(repos)
  {
    if repos != [] {
      var init, last := repos[..|repos| - 1], repos[|repos| - 1];
      LatestIsMaximum(init);
      assert repos == init + [last];
      if Latest(repos) != 0 {
        if Latest(repos) == last.lastPushed { assert last in repos; }
        else {
          var r :| r in init && r.lastPushed == Latest(init);
          assert r in repos;
        }
      }
    }
  }

  ghost predicate Occupied(repos: seq<RepositorySummary>, project: string) {
    exists i :: 0 <= i < |repos| && LiesIn(repos[i].name, project)
  }

  ghost function Residents(repos: seq<RepositorySummary>, project: string): set<int> {
    set i | 0 <= i < |repos| && LiesIn(repos[i].name, project)
  }

  lemma {:induction false} MembersAreResidents(repos: seq<RepositorySummary>, project: string)
    ensures |Members(repos, project)| == |Residents(repos, project)|
  {
    if repos != [] {
      hide RepositoryProjectName, LiesIn;
      var init, n := repos[..|repos| - 1], |repos| - 1;
      MembersAreResidents(init, project);
      ProjectNameIff(repos[n].name, project);
      ResidentsSnoc(repos, project);
      var before := Residents(init, project);
      hide Residents;
      assert |before + {n}| == |before| + 1;
    }
  }

  lemma ResidentsSnoc(repos: seq<RepositorySummary>, project: string)
    requires repos != []
    ensures var (init, n) := (repos[..|repos| - 1], |repos| - 1);
      && n !in Residents(init, project)
      && Residents(repos, project) == Residents(init, project) + if LiesIn(repos[n].name, project) then {n} else {}
  {
    hide LiesIn;
    var init, n := repos[..|repos| - 1], |repos| - 1;
    forall i ensures i in Residents(repos, project)
      <==> i in Residents(init, project) || (i == n && LiesIn(repos[n].name, project)) {
      if 0 <= i < n { assert init[i] == repos[i]; }
    }
  }

  /**
   There is a row for exactly the projects some repository lies in, with the number of repositories that lie
   in it - what a delete-entire-project would delete - and their latest push.
   */
  lemma ProjectRowExact(repos: seq<RepositorySummary>, projects: seq<ProjectSummary>, name: string)
    requires Groups(repos, projects)
    ensures (exists p :: p in projects && p.name == name) <==> Occupied(repos, name)
    ensures forall p :: p in projects && p.name == name ==>
      && p.repositoryCount == |Residents(repos, name)| == |Names(Members(repos, name))|
      && (forall r :: r in repos && LiesIn(r.name, name) ==> r.lastPushed <= p.lastPushed)
      && (p.lastPushed == 0 || exists r :: r in repos && LiesIn(r.name, name) && r.lastPushed == p.lastPushed)
  {
    var members := Members(repos, name);
    LatestIsMaximum(members);
    MembersAreResidents(repos, name);
    forall r ensures r in members <==> r in repos && LiesIn(r.name, name) {
      MemberCounts(repos, name, r);
      ProjectNameIff(r.name, name);
      assert r in members <==> multiset(members)[r] > 0;
      assert r in repos <==> multiset(repos)[r] > 0;
    }
    forall i | 0 <= i < |repos| ensures RepositoryProjectName(repos[i].name) == name <==> LiesIn(repos[i].name, name) {
      ProjectNameIff(repos[i].name, name);
    }
    if Occupied(repos, name) { assert Project(repos, name) in projects && Project(repos, name).name == name; }
    hide RepositoryProjectName, LiesIn, Members, Latest, Tags;
  }

  /** The rows are the same for every order in which the catalog is listed. */
  lemma ProjectsCanonical(a: seq<RepositorySummary>, b: seq<RepositorySummary>, pa: seq<ProjectSummary>,
                          pb: seq<ProjectSummary>)
    requires multiset(a) == multiset(b) && Groups(a, pa) && Groups(b, pb)
    ensures pa == pb
  {
    forall name ensures Project(a, name) == Project(b, name) && (Occurs(a, name) <==> Occurs(b, name)) {
      forall r ensures multiset(Members(a, name))[r] == multiset(Members(b, name))[r] {
        MemberCounts(a, name, r);
        MemberCounts(b, name, r);
      }
      AggregatesPermute(Members(a, name), Members(b, name));
      if Occurs(a, name) { OccursInBag(a, b, name); }
      if Occurs(b, name) { OccursInBag(b, a, name); }
    }
    SortedSameMembers(NameOf, pa, pb);
  }

  lemma OccursInBag(a: seq<RepositorySummary>, b: seq<RepositorySummary>, name: string)
    requires multiset(a) == multiset(b) && Occurs(a, name)
    ensures Occurs(b, name)
  {
    var i :| 0 <= i < |a| && RepositoryProjectName(a[i].name) == name;
    assert a[i] in multiset(b);
    var j :| 0 <= j < |b| && b[j] == a[i];
  }
}
