/** What every service call keeps, and what follows for whole runs. */
module AuthInvariants {
  import opened Text
  import opened TokenScopes
  import opened AuthModel

  // ------------------------------------------------------------- one step

  ghost predicate HasHumanAdmin(s: State) { exists id :: HumanAdmin(s, id) }

  /** Tokens issued for a password belong to people. */
  ghost predicate PasswordTokensHuman(s: State) {
    forall x :: x in s.tokens && s.tokens[x].origin == ByPassword ==>
      s.tokens[x].userID in s.users && !s.users[s.tokens[x].userID].isRobot
  }

  /** Nobody changes between person and robot, and a deleted identifier never comes back. */
  ghost predicate SameKind(s: State, t: State) {
    && s.usedIDs <= t.usedIDs
    && forall id :: id in s.usedIDs && id in t.users ==> id in s.users && t.users[id].isRobot == s.users[id].isRobot
  }

  ghost predicate Kept(s: State, t: State) {
    && StoreInv(t) && SameKind(s, t)
    && (HasHumanAdmin(s) ==> HasHumanAdmin(t))
    && (PasswordTokensHuman(s) ==> PasswordTokensHuman(t))
  }

  lemma KeptTransitive(s: State, t: State, u: State)
    requires Kept(s, t) && Kept(t, u)
    ensures Kept(s, u)
  {
  }

  lemma NormalizeAgain(name: string)
    ensures Normalize(Normalize(name)) == Normalize(name)
  {
    LowerTrim(name);
    TrimIdempotent(name);
    assert Trim(Normalize(name)) == Normalize(name) by { TrimmedUnchanged(Normalize(name)); }
  }

  lemma TrimmedUnchanged(s: string)
    requires Trimmed(s)
    ensures Trim(s) == s
  {
    if s != [] { assert TrimLeft(s) == s; }
  }

  lemma UpsertUsers(s: State, u: User)
    requires UsersInv(s) && Trim(u.id) == u.id && Upsert(s, u).Success?
    ensures UsersInv(Upsert(s, u).value)
  {
    NormalizeAgain(u.username);
    hide Normalize, ValidUser;
    var t, name := Upsert(s, u).value, Normalize(u.username);
    forall id | id in t.users && id != u.id ensures t.users[id].username != name {
      assert !HasName(s, id, name);
    }
  }

  lemma RowKeeps(s: State, t: State, row: User)
    requires LinksInv(s) && UsersInv(t) && t == s.(users := s.users[row.id := row], usedIDs := s.usedIDs + {row.id})
    requires if row.id in s.users then row.isRobot == s.users[row.id].isRobot else row.id !in s.usedIDs
    requires HasHumanAdmin(s) ==> (row.isAdmin && row.enabled && !row.isRobot) || AnotherAdmin(s, row.id)
    ensures Kept(s, t)
  {
    hide UsersInv;
    if HasHumanAdmin(s) {
      if id :| HumanAdmin(s, id) && id != row.id {
        assert HumanAdmin(t, id);
      } else {
        assert HumanAdmin(t, row.id);
      }
    }
  }

  lemma UpsertKeeps(s: State, u: User)
    requires StoreInv(s) && Trim(u.id) == u.id
    requires if u.id in s.users then u.isRobot == s.users[u.id].isRobot else u.id !in s.usedIDs
    requires HasHumanAdmin(s) ==> (u.isAdmin && u.enabled && !u.isRobot) || AnotherAdmin(s, u.id)
    ensures Upsert(s, u).Success? ==> Kept(s, Upsert(s, u).value)
  {
    if Upsert(s, u).Success? {
      UpsertUsers(s, u);
      hide UsersInv, LinksInv, Kept, HasHumanAdmin, AnotherAdmin, Normalize, ValidUser;
      RowKeeps(s, Upsert(s, u).value, u.(username := Normalize(u.username)));
    }
  }

  lemma RemoveLinks(s: State, id: UserId)
    requires LinksInv(s)
    ensures LinksInv(Remove(s, id))
  {
    var t := Remove(s, id);
    assert forall x :: x in t.tokens ==> x in s.tokens && t.tokens[x] == s.tokens[x];
  }

  lemma RemoveUsers(s: State, id: UserId)
    requires UsersInv(s)
    ensures UsersInv(Remove(s, id)) && SameKind(s, Remove(s, id))
  {
  }

  lemma RemoveSparesOthers(s: State, id: UserId)
    ensures AnotherAdmin(s, id) ==> HasHumanAdmin(Remove(s, id))
    ensures PasswordTokensHuman(s) ==> PasswordTokensHuman(Remove(s, id))
  {
    if other :| HumanAdmin(s, other) && other != id { assert HumanAdmin(Remove(s, id), other); }
  }

  lemma RemoveKeeps(s: State, id: UserId)
    requires StoreInv(s) && (HasHumanAdmin(s) ==> AnotherAdmin(s, id))
    ensures Kept(s, Remove(s, id))
  {
    RemoveLinks(s, id);
    RemoveUsers(s, id);
    RemoveSparesOthers(s, id);
    hide UsersInv, LinksInv, SameKind, Remove, HasHumanAdmin, PasswordTokensHuman;
  }

  /** A step that touches only grants, tokens or the clock. */
  lemma SameUsersKept(s: State, t: State)
    requires UsersInv(s) && t.users == s.users && t.usedIDs == s.usedIDs && LinksInv(t)
    requires PasswordTokensHuman(s) ==> PasswordTokensHuman(t)
    ensures Kept(s, t)
  {
    assert UsersInv(t);
    hide UsersInv, LinksInv;
    if id :| HumanAdmin(s, id) { assert HumanAdmin(t, id); }
  }

  lemma KeptItself(s: State)
    requires StoreInv(s)
    ensures Kept(s, s)
  {
    hide UsersInv, LinksInv;
  }

  lemma StoredTokenLinks(s: State, secret: Secret, token: Token)
    requires LinksInv(s) && StoreToken(s, secret, token).Some?
    ensures LinksInv(StoreToken(s, secret, token).value)
  {
    forall x | x in s.tokens ensures s.tokens[x].accessor != token.accessor {
      assert !AccessorTaken(s, token.accessor);
    }
  }

  lemma StoreTokenKeeps(s: State, secret: Secret, token: Token)
    requires StoreInv(s)
    requires token.origin == ByPassword ==> token.userID in s.users && !s.users[token.userID].isRobot
    ensures StoreToken(s, secret, token).Some? ==> Kept(s, StoreToken(s, secret, token).value)
  {
    if StoreToken(s, secret, token).Some? {
      var t := StoreToken(s, secret, token).value;
      StoredTokenLinks(s, secret, token);
      hide UsersInv, LinksInv, Kept, AccessorTaken;
      SameUsersKept(s, t);
    }
  }

  lemma FoundByName(s: State, username: string)
    requires StoreInv(s) && UserByName(s, username).Some?
    ensures var u := UserByName(s, username).value;
      u.id in s.users && s.users[u.id] == u && u.username == Normalize(username)
  {
  }

  lemma AdminCounts(s: State, id: UserId)
    requires HasHumanAdmin(s)
    ensures HasActiveAdmin(s) && (HumanAdmin(s, id) || AnotherAdmin(s, id))
  {
    var other :| HumanAdmin(s, other);
    assert ActiveAdmin(s, other);
  }

  lemma CreateRowKeeps(s: State, name: string, password: string, isAdmin: bool, isReadOnly: bool, enabled: bool,
                       newID: UserId)
    requires StoreInv(s)
    ensures Kept(s, CreateRow(s, name, password, isAdmin, isReadOnly, enabled, newID).0)
  {
    KeptItself(s);
    if HashPassword(password).Some? && NewID(s, newID) {
      if HasHumanAdmin(s) { AdminCounts(s, newID); }
      UpsertKeeps(s, User(newID, name, HashOf(password), isAdmin, isReadOnly, false, enabled));
    }
  }

  lemma BootstrapKeeps(s: State, username: string, password: string, rotate: bool, newID: UserId)
    requires StoreInv(s)
    ensures Kept(s, BootstrapAdmin(s, username, password, rotate, newID).0)
  {
    KeptItself(s);
    var name := Normalize(username);
    NormalizeAgain(username);
    if UserByName(s, name).Some? {
      FoundByName(s, name);
      var user := UserByName(s, name).value;
      var promoted := user.(username := name, isAdmin := true, enabled := true);
      if HasHumanAdmin(s) { AdminCounts(s, user.id); }
      UpsertKeeps(s, promoted);
      UpsertKeeps(s, promoted.(passwordHash := HashOf(password)));
    } else {
      CreateRowKeeps(s, name, password, true, false, true, newID);
    }
  }

  lemma UpdateKeeps(s: State, actor: Principal, userID: UserId, username: string, isAdmin: bool, isReadOnly: bool)
    requires StoreInv(s)
    ensures Kept(s, UpdateUser(s, actor, userID, username, isAdmin, isReadOnly).0)
  {
    KeptItself(s);
    if UserByID(s, userID).Some? {
      var user := UserByID(s, userID).value;
      if HasHumanAdmin(s) { AdminCounts(s, user.id); }
      var name := if Normalize(username) == "" then user.username else Normalize(username);
      var guard := user.isAdmin && !isAdmin && user.enabled && !AnotherAdmin(s, user.id);
      if !guard {
        UpsertKeeps(s, user.(username := name, isAdmin := isAdmin, isReadOnly := isReadOnly));
      }
    }
  }

  lemma EnableKeeps(s: State, actor: Principal, userID: UserId, enabled: bool)
    requires StoreInv(s)
    ensures Kept(s, SetUserEnabled(s, actor, userID, enabled).0)
  {
    KeptItself(s);
    if UserByID(s, userID).Some? {
      var user := UserByID(s, userID).value;
      if HasHumanAdmin(s) { AdminCounts(s, user.id); }
      if !(user.isAdmin && user.enabled && !enabled && !AnotherAdmin(s, user.id)) {
        UpsertKeeps(s, user.(enabled := enabled));
      }
    }
  }

  lemma DeleteKeeps(s: State, actor: Principal, userID: UserId)
    requires StoreInv(s)
    ensures Kept(s, DeleteUser(s, actor, userID).0) && Kept(s, DeleteRobot(s, actor, userID).0)
  {
    KeptItself(s);
    if UserByID(s, userID).Some? {
      var user := UserByID(s, userID).value;
      if HasHumanAdmin(s) { AdminCounts(s, user.id); }
      if !HasHumanAdmin(s) || AnotherAdmin(s, user.id) { RemoveKeeps(s, user.id); }
    }
  }

  lemma ResetKeeps(s: State, actor: Principal, userID: UserId, password: string)
    requires StoreInv(s)
    ensures Kept(s, ResetPassword(s, actor, userID, password).0)
  {
    KeptItself(s);
    if UserByID(s, userID).Some? {
      var user := UserByID(s, userID).value;
      if HasHumanAdmin(s) { AdminCounts(s, user.id); }
      UpsertKeeps(s, user.(passwordHash := HashOf(password)));
    }
  }

  lemma CreateTokenKeeps(s: State, actor: Principal, userID: UserId, ttl: int, secret: Secret, accessor: string)
    requires StoreInv(s)
    ensures Kept(s, CreateAdminToken(s, actor, userID, ttl, secret, accessor).0)
  {
    hide Kept, StoreToken, StoreInv, UserByID, PasswordTokensHuman, HasHumanAdmin, SameKind;
    KeptItself(s);
    if UserByID(s, userID).Some? {
      var life := if ttl <= 0 then DEFAULT_ADMIN_TOKEN_TTL else ttl;
      StoreTokenKeeps(s, secret, Token(UserByID(s, userID).value.id, AdminCredential, accessor, [],
                                       s.clock + life, false, ByAdmin));
    }
  }

  lemma GrantLinks(s: State, userID: UserId, repo: Repo, role: Role)
    requires LinksInv(s)
    ensures LinksInv(PutGrant(s, userID, repo, role).0) && LinksInv(DropGrant(s, userID, repo).0)
  {
    hide Trim;
  }

  lemma PutGrantKeeps(s: State, userID: UserId, repo: Repo, role: Role)
    requires StoreInv(s)
    ensures Kept(s, PutGrant(s, userID, repo, role).0) && Kept(s, DropGrant(s, userID, repo).0)
  {
    GrantLinks(s, userID, repo, role);
    hide UsersInv, LinksInv, Kept, Trim, HasHumanAdmin;
    SameUsersKept(s, PutGrant(s, userID, repo, role).0);
    SameUsersKept(s, DropGrant(s, userID, repo).0);
  }

  lemma RobotKeeps(env: Env, s: State, actor: Principal, name: string, repository: string, role: Role, ttl: int,
                   newID: UserId, secret: Secret, accessor: string)
    requires StoreInv(s)
    ensures Kept(s, CreateRobot(env, s, actor, name, repository, role, ttl, newID, secret, accessor).0)
  {
    hide CreateAdminToken, Kept, UsersInv, LinksInv, Upsert;
    KeptItself(s);
    var robot := User(newID, Normalize(name), RobotPassword, false, false, true, true);
    if NewID(s, newID) && Upsert(s, robot).Success? && ParseRepository(env, repository).Some? {
      var repo := ParseRepository(env, repository).value;
      if HasHumanAdmin(s) { AdminCounts(s, newID); }
      UpsertKeeps(s, robot);
      var t := Upsert(s, robot).value;
      assert StoreInv(t) by { InvOf(s, t); }
      PutGrantKeeps(t, newID, repo, role);
      var g := PutGrant(t, newID, repo, role).0;
      assert StoreInv(g) by { InvOf(t, g); }
      CreateTokenKeeps(g, actor, newID, ttl, secret, accessor);
      KeptTransitive(s, t, g);
      KeptTransitive(s, g, CreateAdminToken(g, actor, newID, ttl, secret, accessor).0);
    }
  }

  lemma InvOf(s: State, t: State)
    requires Kept(s, t)
    ensures StoreInv(t)
  {
  }

  lemma IssueKeeps(s: State, user: User, requested: seq<Scope>, origin: Origin, secret: Secret, accessor: string)
    requires StoreInv(s) && user.id in s.users && s.users[user.id] == user && (origin == ByPassword ==> !user.isRobot)
    ensures Kept(s, Issue(s, user, requested, origin, secret, accessor).0)
  {
    hide Kept, StoreToken, StoreInv, TokenField, GrantList, Granted, PasswordTokensHuman, HasHumanAdmin, SameKind;
    KeptItself(s);
    var scope := TokenField(Granted(user.isAdmin, user.isReadOnly, GrantList(s, user.id), requested));
    StoreTokenKeeps(s, secret, Token(user.id, Access, accessor, scope, s.clock + ACCESS_TOKEN_TTL, false, origin));
  }

  lemma LoginKeeps(s: State, username: string, password: string, credential: Secret, requested: seq<Scope>,
                   secret: Secret, accessor: string)
    requires StoreInv(s)
    ensures Kept(s, LoginWithPassword(s, username, password, requested, secret, accessor).0)
    ensures Kept(s, LoginWithPreissuedToken(s, username, credential, requested, secret, accessor).0)
  {
    hide Kept, Issue;
    KeptItself(s);
    if ActiveUser(s, username).Success? {
      FoundByName(s, username);
      var user := ActiveUser(s, username).value;
      if !user.isRobot { IssueKeeps(s, user, requested, ByPassword, secret, accessor); }
      IssueKeeps(s, user, requested, ByPreissuedToken, secret, accessor);
    }
  }

  lemma RevokeKeeps(s: State, actor: Principal, accessor: string)
    requires StoreInv(s)
    ensures Kept(s, RevokeAdminToken(s, actor, accessor).0)
  {
    KeptItself(s);
    var t := s.(tokens := RevokedTokens(s, Trim(accessor)));
    RevokedLinks(s, Trim(accessor));
    hide UsersInv, LinksInv, PasswordTokensHuman, RevokedTokens, Kept;
    SameUsersKept(s, t);
  }

  lemma RevokedLinks(s: State, accessor: string)
    requires LinksInv(s)
    ensures LinksInv(s.(tokens := RevokedTokens(s, accessor)))
    ensures PasswordTokensHuman(s) ==> PasswordTokensHuman(s.(tokens := RevokedTokens(s, accessor)))
  {
  }

  lemma StepKeeps(env: Env, s: State, call: Call)
    requires StoreInv(s)
    ensures Kept(s, Apply(env, s, call).0)
  {
    hide Kept, BootstrapAdmin, CreateUser, UpdateUser, SetUserEnabled, DeleteUser, DeleteRobot, CreateRobot,
      ResetPassword, LoginWithPassword, LoginWithPreissuedToken, CreateAdminToken, RevokeAdminToken, PutGrant,
      DropGrant, CreateRow, StoreInv;
    KeptItself(s);
    match call
    case DoBootstrap(u, p, r, id) => BootstrapKeeps(s, u, p, r, id);
    case DoCreateUser(a, u, p, ad, ro, en, id) => CreateUserKeeps(s, a, u, p, ad, ro, en, id);
    case DoUpdateUser(a, id, u, ad, ro) => UpdateKeeps(s, a, id, u, ad, ro);
    case DoSetEnabled(a, id, en) => EnableKeeps(s, a, id, en);
    case DoDeleteUser(a, id) => DeleteKeeps(s, a, id);
    case DoCreateRobot(a, n, r, role, ttl, id, x, acc) => RobotKeeps(env, s, a, n, r, role, ttl, id, x, acc);
    case DoDeleteRobot(a, id) => DeleteKeeps(s, a, id);
    case DoResetPassword(a, id, p) => ResetKeeps(s, a, id, p);
    case DoPasswordLogin(u, p, req, x, acc) => LoginKeeps(s, u, p, "", req, x, acc);
    case DoTokenLogin(u, c, req, x, acc) => LoginKeeps(s, u, "", c, req, x, acc);
    case DoVerify(_) =>
    case DoCreateToken(a, id, ttl, x, acc) => CreateTokenKeeps(s, a, id, ttl, x, acc);
    case DoRevoke(a, acc) => RevokeKeeps(s, a, acc);
    case DoPutRepoGrant(_, id, r, role) => PutGrantKeeps(s, id, Trim(r), role);
    case DoDeleteRepoGrant(_, id, r) => PutGrantKeeps(s, id, Trim(r), Reader);
    case DoPutRepositoryGrant(_, r, u, role) =>
      if UserByName(s, u).Some? { PutGrantKeeps(s, UserByName(s, u).value.id, Trim(r), role); }
    case DoDeleteRepositoryGrant(_, r, u) =>
      if UserByName(s, u).Some? { PutGrantKeeps(s, UserByName(s, u).value.id, Trim(r), Reader); }
    case Advance(d) => ClockKeeps(s, d);
  }

  lemma ClockKeeps(s: State, d: nat)
    requires StoreInv(s)
    ensures Kept(s, s.(clock := s.clock + d))
  {
    SameUsersKept(s, s.(clock := s.clock + d));
  }

  lemma CreateUserKeeps(s: State, actor: Principal, username: string, password: string, isAdmin: bool,
                        isReadOnly: bool, enabled: bool, newID: UserId)
    requires StoreInv(s)
    ensures Kept(s, CreateUser(s, actor, username, password, isAdmin, isReadOnly, enabled, newID).0)
  {
    hide Kept, CreateRow, StoreInv, UserByName;
    KeptItself(s);
    CreateRowKeeps(s, Normalize(username), password, isAdmin, isReadOnly, enabled, newID);
  }

  lemma CreateTokenInv(s: State, actor: Principal, userID: UserId, ttl: int, secret: Secret, accessor: string)
    requires StoreInv(s)
    ensures StoreInv(CreateAdminToken(s, actor, userID, ttl, secret, accessor).0)
  {
    hide CreateAdminToken;
    CreateTokenKeeps(s, actor, userID, ttl, secret, accessor);
  }

  lemma DelegateInv(env: Env, s: State, actor: Principal, repository: string, username: string, role: Role)
    requires StoreInv(s)
    ensures StoreInv(PutRepositoryGrant(env, s, actor, repository, username, role).0)
    ensures StoreInv(DeleteRepositoryGrant(env, s, actor, repository, username).0)
  {
    hide PutRepositoryGrant, DeleteRepositoryGrant, StoreInv;
    StepKeeps(env, s, DoPutRepositoryGrant(actor, repository, username, role));
    InvOf(s, PutRepositoryGrant(env, s, actor, repository, username, role).0);
    StepKeeps(env, s, DoDeleteRepositoryGrant(actor, repository, username));
    InvOf(s, DeleteRepositoryGrant(env, s, actor, repository, username).0);
  }

  // ------------------------------------------------------------ whole runs

  lemma {:induction false} RunKeeps(env: Env, s: State, calls: seq<Call>)
    requires StoreInv(s)
    ensures Kept(s, Run(env, s, calls))
  {
    hide Apply;
    if calls == [] {
      KeptItself(s);
    } else {
      var init, n := calls[..|calls| - 1], |calls| - 1;
      RunKeeps(env, s, init);
      StepKeeps(env, Run(env, s, init), calls[n]);
      KeptTransitive(s, Run(env, s, init), Run(env, s, calls));
    }
  }

  /**
   An enabled global admin who is a person is never lost, whatever is created, renamed, demoted, disabled,
   deleted, promoted or bootstrapped, by whom and in which order - from any stored state, also one that
   already holds an admin robot or disabled admins.
   */
  lemma AdminNeverLost(env: Env, s: State, calls: seq<Call>)
    requires StoreInv(s) && HasHumanAdmin(s)
    ensures HasHumanAdmin(Run(env, s, calls))
  {
    RunKeeps(env, s, calls);
  }

  /** An account stays what it was created as, also across deletions. */
  lemma RobotFlagNeverChanges(env: Env, s: State, before: seq<Call>, after: seq<Call>, id: UserId)
    requires StoreInv(s)
    requires id in Run(env, s, before).users && id in Run(env, Run(env, s, before), after).users
    ensures Run(env, s, before).users[id].isRobot == Run(env, Run(env, s, before), after).users[id].isRobot
  {
    RunKeeps(env, s, before);
    RunKeeps(env, Run(env, s, before), after);
  }

  /** Starting without tokens, say: in every later state each token issued for a password belongs to a person. */
  lemma NoPasswordTokenForRobots(env: Env, s: State, calls: seq<Call>, secret: Secret)
    requires StoreInv(s) && PasswordTokensHuman(s)
    requires secret in Run(env, s, calls).tokens && Run(env, s, calls).tokens[secret].origin == ByPassword
    ensures var t := Run(env, s, calls); t.tokens[secret].userID in t.users && !t.users[t.tokens[secret].userID].isRobot
  {
    RunKeeps(env, s, calls);
  }
}
