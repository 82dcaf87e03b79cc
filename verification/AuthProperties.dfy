/** Credentials, disabled accounts, and what callers without administrator rights can change. */
module AuthProperties {
  import opened Wrappers
  import opened Ordering
  import opened Text
  import opened TokenScopes
  import opened AuthModel
  import opened AuthInvariants

  // -------------------------------------------------------------- credentials

  ghost predicate MayLogIn(s: State, id: UserId, username: string, password: string) {
    && HasName(s, id, Normalize(username)) && s.users[id].enabled && !s.users[id].isRobot
    && PasswordMatches(s.users[id].passwordHash, password)
  }

  /** A password login succeeds exactly for an enabled person of that name and password. */
  lemma PasswordLoginIff(s: State, username: string, password: string, requested: seq<Scope>, secret: Secret,
                         accessor: string)
    requires StoreInv(s) && secret !in s.tokens && !AccessorTaken(s, accessor)
    ensures var r := LoginWithPassword(s, username, password, requested, secret, accessor).1;
      && (r.Success? <==> exists id :: MayLogIn(s, id, username, password))
      && (r.Success? ==> r.value.LoginReply? && MayLogIn(s, r.value.principal.userID, username, password))
  {
    hide GrantList, TokenField, Granted, Normalize, AccessorTaken;
    if UserByName(s, username).Some? {
      FoundByName(s, username);
      var user := UserByName(s, username).value;
      forall id | MayLogIn(s, id, username, password) ensures id == user.id {
        assert s.users[id].username == s.users[user.id].username;
      }
      assert MayLogIn(s, user.id, username, password) <==>
        (user.enabled && !user.isRobot && PasswordMatches(user.passwordHash, password));
    }
  }

  ghost predicate MayUseCredential(s: State, id: UserId, username: string, credential: Secret) {
    && HasName(s, id, Normalize(username)) && s.users[id].enabled && credential in s.tokens
    && s.tokens[credential].kind == AdminCredential && s.tokens[credential].userID == id
    && !s.tokens[credential].revoked && s.clock < s.tokens[credential].expiresAt
  }

  /** A pre-issued token logs in exactly its own enabled user, robots included, while it lives. */
  lemma TokenLoginIff(s: State, username: string, credential: Secret, requested: seq<Scope>, secret: Secret,
                      accessor: string)
    requires StoreInv(s) && secret !in s.tokens && !AccessorTaken(s, accessor)
    ensures var r := LoginWithPreissuedToken(s, username, credential, requested, secret, accessor).1;
      && (r.Success? <==> exists id :: MayUseCredential(s, id, username, credential))
      && (r.Success? ==> r.value.LoginReply? && MayUseCredential(s, r.value.principal.userID, username, credential))
  {
    hide GrantList, TokenField, Granted, Normalize, AccessorTaken;
    if UserByName(s, username).Some? {
      FoundByName(s, username);
      var user := UserByName(s, username).value;
      forall id | MayUseCredential(s, id, username, credential) ensures id == user.id {
        assert s.users[id].username == s.users[user.id].username;
      }
      assert MayUseCredential(s, user.id, username, credential) <==>
        (user.enabled && TokenOf(s, AdminCredential, credential).Some?
         && s.tokens[credential].userID == user.id && Inactive(s.tokens[credential], s.clock).None?);
    }
  }

  /** A fresh access token names its user's principal for fifteen minutes and not a moment longer. */
  lemma FreshTokenVerifies(s: State, username: string, password: string, requested: seq<Scope>, secret: Secret,
                           accessor: string, elapsed: nat)
    requires StoreInv(s) && LoginWithPassword(s, username, password, requested, secret, accessor).1.Success?
    ensures var (t, r) := LoginWithPassword(s, username, password, requested, secret, accessor);
      VerifyAccessToken(t.(clock := t.clock + elapsed), secret)
      == if elapsed < ACCESS_TOKEN_TTL then Success(PrincipalReply(r.value.principal)) else Failure(Expired)
  {
    hide TokenField, Granted, Normalize;
    FoundByName(s, username);
    var user := UserByName(s, username).value;
    var (t, r) := LoginWithPassword(s, username, password, requested, secret, accessor);
    SameGrantList(s, t.(clock := t.clock + elapsed), user.id);
  }

  lemma SameGrantList(s: State, t: State, userID: UserId)
    requires s.grants == t.grants
    ensures GrantList(s, userID) == GrantList(t, userID)
  {
    assert forall g :: IsGrant(s, userID, g) <==> IsGrant(t, userID, g);
    GrantListExact(s, userID);
    GrantListExact(t, userID);
    SameListing(s, userID, GrantList(s, userID), GrantList(t, userID));
  }

  /** The ordered listing of a user's grants is unique. */
  lemma SameListing(s: State, userID: UserId, one: seq<Grant>, other: seq<Grant>)
    requires ListsGrants(s, userID, one) && ListsGrants(s, userID, other)
    ensures one == other
  {
    assert forall g :: g in one <==> IsGrant(s, userID, g);
    SortedSameMembers(TokenScopes.RepositoryOf, one, other);
  }

  ghost function Collect(s: State, userID: UserId, keys: set<(UserId, Repo)>): (r: seq<Grant>)
    requires keys <= s.grants.Keys
    ensures DistinctKeys(TokenScopes.RepositoryOf, r)
    ensures forall g :: g in r <==> IsGrant(s, userID, g) && (userID, g.repository) in keys
  {
    if keys == {} then []
    else
      var key :| key in keys;
      var rest := Collect(s, userID, keys - {key});
      if key.0 != userID then rest
      else
        assert forall i :: 0 <= i < |rest| ==> rest[i] in rest;
        rest + [Grant(key.1, s.grants[key])]
  }

  /** A listing exists, so the store's query is the one and only ordered listing. */
  lemma GrantListExact(s: State, userID: UserId)
    ensures ListsGrants(s, userID, GrantList(s, userID))
  {
    var found := Collect(s, userID, s.grants.Keys);
    var listing := SortBy(TokenScopes.RepositoryOf, found);
    SortByStrict(TokenScopes.RepositoryOf, found);
    assert forall g :: g in listing <==> g in multiset(listing);
    assert forall g :: g in found <==> g in multiset(found);
    assert ListsGrants(s, userID, listing);
  }

  // ---------------------------------------------------------- token lifetimes

  function MaxLife(kind: TokenKind): int { if kind == Access then ACCESS_TOKEN_TTL else DEFAULT_ADMIN_TOKEN_TTL }

  ghost predicate LivesBounded(s: State) {
    forall x :: x in s.tokens ==> s.tokens[x].expiresAt <= s.clock + MaxLife(s.tokens[x].kind)
  }

  lemma StoredTokenBounded(s: State, secret: Secret, token: Token)
    requires LivesBounded(s) && token.expiresAt <= s.clock + MaxLife(token.kind)
    ensures StoreToken(s, secret, token).Some? ==> LivesBounded(StoreToken(s, secret, token).value)
  {
    hide AccessorTaken;
  }

  lemma CreatedTokenBounded(s: State, actor: Principal, userID: UserId, ttl: int, secret: Secret, accessor: string)
    requires LivesBounded(s)
    ensures LivesBounded(CreateAdminToken(s, actor, userID, ttl, secret, accessor).0)
  {
    hide LivesBounded, StoreToken;
    var life := if ttl <= 0 then DEFAULT_ADMIN_TOKEN_TTL else ttl;
    if UserByID(s, userID).Some? && life <= DEFAULT_ADMIN_TOKEN_TTL {
      StoredTokenBounded(s, secret, Token(UserByID(s, userID).value.id, AdminCredential, accessor, [],
                                          s.clock + life, false, ByAdmin));
    }
  }

  lemma LoginBounded(s: State, username: string, password: string, credential: Secret, requested: seq<Scope>,
                     secret: Secret, accessor: string)
    requires LivesBounded(s)
    ensures LivesBounded(LoginWithPassword(s, username, password, requested, secret, accessor).0)
    ensures LivesBounded(LoginWithPreissuedToken(s, username, credential, requested, secret, accessor).0)
  {
    hide UserByName, GrantList, TokenField, Granted, AccessorTaken;
  }

  lemma RobotBounded(env: Env, s: State, actor: Principal, name: string, repository: string, role: Role, ttl: int,
                     newID: UserId, secret: Secret, accessor: string)
    requires LivesBounded(s)
    ensures LivesBounded(CreateRobot(env, s, actor, name, repository, role, ttl, newID, secret, accessor).0)
  {
    hide CreateAdminToken, UserByName, Normalize, ValidUser;
    var u := Upsert(s, User(newID, Normalize(name), RobotPassword, false, false, true, true));
    if u.Success? && ParseRepository(env, repository).Some? {
      CreatedTokenBounded(PutGrant(u.value, newID, ParseRepository(env, repository).value, role).0, actor, newID, ttl,
        secret, accessor);
    }
  }

  lemma UserCallsBounded(env: Env, s: State, call: Call)
    requires LivesBounded(s)
    requires call.DoBootstrap? || call.DoCreateUser? || call.DoUpdateUser? || call.DoSetEnabled?
      || call.DoResetPassword?
    ensures LivesBounded(Apply(env, s, call).0)
  {
    hide UserByName, AnotherAdmin, HasActiveAdmin, Normalize, ValidUser, UserByID, HashPassword;
    assert Apply(env, s, call).0.tokens == s.tokens && Apply(env, s, call).0.clock == s.clock;
    hide Apply;
  }

  lemma RemovalsBounded(env: Env, s: State, call: Call)
    requires LivesBounded(s)
    requires call.DoDeleteUser? || call.DoDeleteRobot? || call.DoRevoke? || call.DoVerify? || call.Advance?
    ensures LivesBounded(Apply(env, s, call).0)
  {
    hide AnotherAdmin, Revocable, UserByID, VerifyAccessToken;
  }

  lemma LivesBoundedStep(env: Env, s: State, call: Call)
    requires LivesBounded(s)
    ensures LivesBounded(Apply(env, s, call).0)
  {
    hide LivesBounded, UserByName, CreateAdminToken, CreateRobot, LoginWithPassword, LoginWithPreissuedToken, UserByID,
      IsPeerAdmin;
    match call
    case DoPasswordLogin(u, p, req, x, acc) => LoginBounded(s, u, p, "", req, x, acc);
    case DoTokenLogin(u, c, req, x, acc) => LoginBounded(s, u, "", c, req, x, acc);
    case DoCreateToken(a, i, ttl, x, acc) => CreatedTokenBounded(s, a, i, ttl, x, acc);
    case DoCreateRobot(a, n, r, role, ttl, i, x, acc) => RobotBounded(env, s, a, n, r, role, ttl, i, x, acc);
    case DoBootstrap(_, _, _, _) => UserCallsBounded(env, s, call);
    case DoCreateUser(_, _, _, _, _, _, _) => UserCallsBounded(env, s, call);
    case DoUpdateUser(_, _, _, _, _) => UserCallsBounded(env, s, call);
    case DoSetEnabled(_, _, _) => UserCallsBounded(env, s, call);
    case DoResetPassword(_, _, _) => UserCallsBounded(env, s, call);
    case DoPutRepoGrant(_, _, _, _) => GrantCallsBounded(env, s, call);
    case DoDeleteRepoGrant(_, _, _) => GrantCallsBounded(env, s, call);
    case DoPutRepositoryGrant(_, _, _, _) => GrantCallsBounded(env, s, call);
    case DoDeleteRepositoryGrant(_, _, _) => GrantCallsBounded(env, s, call);
    case _ => RemovalsBounded(env, s, call);
  }

  lemma GrantCallsBounded(env: Env, s: State, call: Call)
    requires LivesBounded(s)
    requires call.DoPutRepoGrant? || call.DoDeleteRepoGrant? || call.DoPutRepositoryGrant?
      || call.DoDeleteRepositoryGrant?
    ensures LivesBounded(Apply(env, s, call).0)
  {
    hide UserByName, UserByID, IsPeerAdmin, Administers, Trim;
    assert Apply(env, s, call).0.tokens == s.tokens && Apply(env, s, call).0.clock == s.clock;
    hide Apply;
  }

  /** Whatever is asked for, at no moment has an access token more than 15 minutes to live or a credential 30 days. */
  lemma {:induction false} LivesStayBounded(env: Env, s: State, calls: seq<Call>)
    requires LivesBounded(s)
    ensures LivesBounded(Run(env, s, calls))
  {
    hide Apply, LivesBounded;
    if calls != [] {
      LivesStayBounded(env, s, calls[..|calls| - 1]);
      LivesBoundedStep(env, Run(env, s, calls[..|calls| - 1]), calls[|calls| - 1]);
    }
  }

  // -------------------------------------------------------- disabled accounts

  /** The two calls that enable an account: an administrator's, or a bootstrap under its name. */
  ghost predicate Reenables(s: State, call: Call, id: UserId) {
    || (call.DoSetEnabled? && call.enabled && Trim(call.userID) == id)
    || (call.DoBootstrap? && HasName(s, id, Normalize(call.username)))
  }

  ghost predicate LockedOut(s: State, id: UserId) {
    id in s.usedIDs && (id in s.users ==> !s.users[id].enabled)
  }

  /** The call lets somebody in as this user. */
  ghost predicate LetsIn(r: Result<Reply, AuthError>, id: UserId) {
    r.Success? && (r.value.LoginReply? || r.value.PrincipalReply?) && r.value.principal.userID == id
  }

  ghost predicate SameRowsFor(s: State, t: State, id: UserId) {
    id in t.users ==> id in s.users && t.users[id].enabled == s.users[id].enabled
  }

  lemma LockedBootstrap(s: State, id: UserId, username: string, password: string, rotate: bool, newID: UserId)
    requires StoreInv(s) && LockedOut(s, id) && !HasName(s, id, Normalize(username))
    ensures SameRowsFor(s, BootstrapAdmin(s, username, password, rotate, newID).0, id)
  {
    NormalizeAgain(username);
    hide Normalize, ValidUser;
    if UserByName(s, Normalize(username)).Some? { FoundByName(s, Normalize(username)); }
  }

  lemma LockedUpdate(s: State, id: UserId, actor: Principal, userID: UserId, username: string, isAdmin: bool,
                     isReadOnly: bool)
    requires StoreInv(s) && LockedOut(s, id)
    ensures SameRowsFor(s, UpdateUser(s, actor, userID, username, isAdmin, isReadOnly).0, id)
  {
    hide Normalize, ValidUser, AnotherAdmin, UserByName;
  }

  lemma LockedEnable(s: State, id: UserId, actor: Principal, userID: UserId, enabled: bool)
    requires StoreInv(s) && LockedOut(s, id) && !(enabled && Trim(userID) == id)
    ensures LockedOut(SetUserEnabled(s, actor, userID, enabled).0, id)
  {
    hide Normalize, ValidUser, AnotherAdmin;
  }

  lemma LockedReset(s: State, id: UserId, actor: Principal, userID: UserId, password: string)
    requires StoreInv(s) && LockedOut(s, id)
    ensures SameRowsFor(s, ResetPassword(s, actor, userID, password).0, id)
  {
    hide Normalize, ValidUser;
  }

  lemma LockedCreate(s: State, id: UserId, actor: Principal, username: string, password: string,
                     isAdmin: bool, isReadOnly: bool, enabled: bool, newID: UserId)
    requires LockedOut(s, id)
    ensures SameRowsFor(s, CreateUser(s, actor, username, password, isAdmin, isReadOnly, enabled, newID).0, id)
  {
    hide Normalize, ValidUser, UserByName;
  }

  lemma LockedRobot(env: Env, s: State, id: UserId, actor: Principal, name: string, repository: string, role: Role,
                    ttl: int,
                    newID: UserId, secret: Secret, accessor: string)
    requires LockedOut(s, id)
    ensures SameRowsFor(s, CreateRobot(env, s, actor, name, repository, role, ttl, newID, secret, accessor).0, id)
  {
    hide Normalize, ValidUser, UserByName, StoreToken, UserByID, AccessorTaken;
    assert forall t: State, u: UserId :: CreateAdminToken(t, actor, u, ttl, secret, accessor).0.users == t.users by {
      forall t: State, u: UserId ensures CreateAdminToken(t, actor, u, ttl, secret, accessor).0.users == t.users {
        TokenTouchesNoUser(t, actor, u, ttl, secret, accessor);
      }
    }
    hide CreateAdminToken;
  }

  lemma TokenTouchesNoUser(s: State, actor: Principal, userID: UserId, ttl: int, secret: Secret, accessor: string)
    ensures CreateAdminToken(s, actor, userID, ttl, secret, accessor).0.users == s.users
  {
    hide AccessorTaken, UserByID;
  }

  /** Deleting, granting, revoking, verifying and waiting enable nobody. */
  lemma LockedRest(env: Env, s: State, id: UserId, call: Call)
    requires LockedOut(s, id)
    requires call.DoDeleteUser? || call.DoDeleteRobot? || call.DoVerify? || call.DoCreateToken? || call.DoRevoke?
      || call.DoPutRepoGrant?
      || call.DoDeleteRepoGrant? || call.DoPutRepositoryGrant? || call.DoDeleteRepositoryGrant? || call.Advance?
    ensures SameRowsFor(s, Apply(env, s, call).0, id)
  {
    hide Normalize, UserByName, VerifyAccessToken, AnotherAdmin, CreateAdminToken, RevokedTokens;
    if call.DoCreateToken? { TokenTouchesNoUser(s, call.actor, call.userID, call.ttl, call.secret, call.accessor); }
  }

  lemma LockedLogin(s: State, id: UserId, username: string, password: string, credential: Secret, requested: seq<Scope>,
                    secret: Secret, accessor: string)
    requires StoreInv(s) && LockedOut(s, id)
    ensures !LetsIn(LoginWithPassword(s, username, password, requested, secret, accessor).1, id)
    ensures !LetsIn(LoginWithPreissuedToken(s, username, credential, requested, secret, accessor).1, id)
    ensures !LetsIn(VerifyAccessToken(s, secret), id)
  {
    hide Normalize, GrantList, TokenField, Granted, StoreToken;
    if UserByName(s, username).Some? { FoundByName(s, username); }
  }

  lemma LockedRows(env: Env, s: State, call: Call, id: UserId)
    requires StoreInv(s) && LockedOut(s, id) && !Reenables(s, call, id)
    ensures id in Apply(env, s, call).0.users ==> !Apply(env, s, call).0.users[id].enabled
  {
    hide StoreInv, BootstrapAdmin, CreateUser, UpdateUser, SetUserEnabled, CreateRobot, ResetPassword,
      LoginWithPassword, LoginWithPreissuedToken;
    match call
    case DoBootstrap(u, p, r, n) => LockedBootstrap(s, id, u, p, r, n);
    case DoCreateUser(a, u, p, ad, ro, en, n) => LockedCreate(s, id, a, u, p, ad, ro, en, n);
    case DoCreateRobot(a, n, r, role, ttl, i, x, acc) => LockedRobot(env, s, id, a, n, r, role, ttl, i, x, acc);
    case DoUpdateUser(a, i, u, ad, ro) => LockedUpdate(s, id, a, i, u, ad, ro);
    case DoSetEnabled(a, i, en) => LockedEnable(s, id, a, i, en);
    case DoResetPassword(a, i, p) => LockedReset(s, id, a, i, p);
    case DoPasswordLogin(u, p, req, x, acc) => LoginTouchesNoUser(s, u, p, "", req, x, acc);
    case DoTokenLogin(u, c, req, x, acc) => LoginTouchesNoUser(s, u, "", c, req, x, acc);
    case _ =>
      LockedRest(env, s, id, call);
      hide Apply;
  }

  lemma LockedStep(env: Env, s: State, call: Call, id: UserId)
    requires StoreInv(s) && LockedOut(s, id) && !Reenables(s, call, id)
    ensures LockedOut(Apply(env, s, call).0, id) && !LetsIn(Apply(env, s, call).1, id)
  {
    hide Apply, LetsIn, StoreInv, HasHumanAdmin, PasswordTokensHuman;
    StepKeeps(env, s, call);
    LockedRows(env, s, call, id);
    NotLetIn(env, s, call, id);
  }

  lemma LoginTouchesNoUser(s: State, username: string, password: string, credential: Secret, requested: seq<Scope>,
                           secret: Secret, accessor: string)
    ensures var t := LoginWithPassword(s, username, password, requested, secret, accessor).0;
      t.users == s.users && t.grants == s.grants && t.usedIDs == s.usedIDs
    ensures var t := LoginWithPreissuedToken(s, username, credential, requested, secret, accessor).0;
      t.users == s.users && t.grants == s.grants && t.usedIDs == s.usedIDs
  {
    hide UserByName, GrantList, TokenField, Granted, AccessorTaken;
  }

  lemma NotLetIn(env: Env, s: State, call: Call, id: UserId)
    requires StoreInv(s) && LockedOut(s, id)
    ensures !LetsIn(Apply(env, s, call).1, id)
  {
    hide StoreInv, LockedOut, LoginWithPassword, LoginWithPreissuedToken, VerifyAccessToken, UserByName, Upsert,
      StoreToken, GrantList, HasActiveAdmin, AnotherAdmin, Normalize, Remove, RevokedTokens, Revocable, UserByID;
    match call
    case DoPasswordLogin(u, p, req, x, acc) => LockedLogin(s, id, u, p, "", req, x, acc);
    case DoTokenLogin(u, c, req, x, acc) => LockedLogin(s, id, u, "", c, req, x, acc);
    case DoVerify(b) => LockedLogin(s, id, "", "", "", [], b, "");
    case _ =>
  }

  lemma {:induction false} StaysLocked(env: Env, s: State, calls: seq<Call>, id: UserId)
    requires StoreInv(s) && LockedOut(s, id)
    requires forall k :: 0 <= k < |calls| ==> !Reenables(Run(env, s, calls[..k]), calls[k], id)
    ensures StoreInv(Run(env, s, calls)) && LockedOut(Run(env, s, calls), id)
  {
    hide Apply, Reenables, LockedOut, StoreInv;
    if calls != [] {
      var init, n := calls[..|calls| - 1], |calls| - 1;
      forall k | 0 <= k < |init| ensures !Reenables(Run(env, s, init[..k]), init[k], id) {
        assert init[..k] == calls[..k];
      }
      StaysLocked(env, s, init, id);
      StepKeeps(env, Run(env, s, init), calls[n]);
      assert StoreInv(Run(env, s, calls)) by { InvOf(Run(env, s, init), Run(env, s, calls)); }
      LockedStep(env, Run(env, s, init), calls[n], id);
    }
  }

  /**
   From a successful disable until the next enable or bootstrap of that account, no login with either credential
   and no access-token check succeeds for it, whatever else is called - not even after a password reset,
   a rename, a new token, or deletion and re-creation under the same name.
   */
  lemma DisabledUserStaysOut(env: Env, s: State, actor: Principal, userID: UserId, calls: seq<Call>, k: nat)
    requires StoreInv(s) && Apply(env, s, DoSetEnabled(actor, userID, false)).1.Success? && k < |calls|
    requires var t := Apply(env, s, DoSetEnabled(actor, userID, false)).0;
      forall i :: 0 <= i <= k ==> !Reenables(Run(env, t, calls[..i]), calls[i], Trim(userID))
    ensures var v := Run(env, Apply(env, s, DoSetEnabled(actor, userID, false)).0, calls[..k]);
      !LetsIn(Apply(env, v, calls[k]).1, Trim(userID))
  {
    hide Apply, Reenables, LockedOut, StoreInv, LetsIn, Run;
    var call := DoSetEnabled(actor, userID, false);
    assert LockedOut(Apply(env, s, call).0, Trim(userID)) by { DisableApplied(env, s, actor, userID); }
    assert StoreInv(Apply(env, s, call).0) by {
      StepKeeps(env, s, call);
      InvOf(s, Apply(env, s, call).0);
    }
    LockedStaysOut(env, Apply(env, s, call).0, calls, Trim(userID), k);
  }

  lemma LockedStaysOut(env: Env, s: State, calls: seq<Call>, id: UserId, k: nat)
    requires StoreInv(s) && LockedOut(s, id) && k < |calls|
    requires forall i :: 0 <= i <= k ==> !Reenables(Run(env, s, calls[..i]), calls[i], id)
    ensures !LetsIn(Apply(env, Run(env, s, calls[..k]), calls[k]).1, id)
  {
    hide Apply, Reenables, LockedOut, StoreInv;
    forall i | 0 <= i < k ensures !Reenables(Run(env, s, calls[..k][..i]), calls[..k][i], id) {
      assert calls[..k][..i] == calls[..i];
    }
    StaysLocked(env, s, calls[..k], id);
    LockedStep(env, Run(env, s, calls[..k]), calls[k], id);
  }

  lemma DisableApplied(env: Env, s: State, actor: Principal, userID: UserId)
    requires StoreInv(s) && Apply(env, s, DoSetEnabled(actor, userID, false)).1.Success?
    ensures LockedOut(Apply(env, s, DoSetEnabled(actor, userID, false)).0, Trim(userID))
  {
    DisableLocks(s, actor, userID);
    hide SetUserEnabled, LockedOut, StoreInv;
  }

  lemma DisableLocks(s: State, actor: Principal, userID: UserId)
    requires StoreInv(s) && SetUserEnabled(s, actor, userID, false).1.Success?
    ensures LockedOut(SetUserEnabled(s, actor, userID, false).0, Trim(userID))
  {
    hide Normalize, ValidUser, AnotherAdmin, Trim;
  }

  // ------------------------------------------- callers without admin rights

  function ActorOf(call: Call): Option<Principal> {
    if call.DoBootstrap? || call.DoPasswordLogin? || call.DoTokenLogin? || call.DoVerify? || call.Advance? then None
    else Some(call.actor)
  }

  /** Any call but a bootstrap, unless a global administrator makes it. */
  ghost predicate Unprivileged(call: Call) {
    !call.DoBootstrap? && (ActorOf(call).Some? ==> !ActorOf(call).value.isAdmin)
  }

  ghost function RoleAt(s: State, key: (UserId, Repo)): Option<Role> {
    if key in s.grants then Some(s.grants[key]) else None
  }

  ghost predicate IsAdminGrant(s: State, key: (UserId, Repo)) { RoleAt(s, key) == Some(RepoAdmin) }

  /** Users and repository administrators are as before, and what changed lies on the actor's repositories. */
  ghost predicate Bounded(s: State, t: State, call: Call) {
    && t.users == s.users
    && (forall key :: IsAdminGrant(s, key) <==> IsAdminGrant(t, key))
    && (forall key :: RoleAt(t, key) != RoleAt(s, key) ==>
          ActorOf(call).Some? && Administers(ActorOf(call).value, key.1))
  }

  lemma PutBounded(env: Env, s: State, actor: Principal, repository: string, username: string, role: Role)
    requires !actor.isAdmin && StoreInv(s)
    ensures Bounded(s, PutRepositoryGrant(env, s, actor, repository, username, role).0,
      DoPutRepositoryGrant(actor, repository, username, role))
  {
    hide Normalize, UserByName, UsersInv, LinksInv;
  }

  lemma DropGrantBounded(s: State, actor: Principal, userID: UserId, repo: Repo, call: Call)
    requires Trim(userID) == userID && !IsPeerAdmin(s, userID, repo) && Administers(actor, repo)
    requires ActorOf(call) == Some(actor)
    ensures Bounded(s, DropGrant(s, userID, repo).0, call)
  {
  }

  lemma DropBounded(env: Env, s: State, actor: Principal, repository: string, username: string)
    requires !actor.isAdmin && StoreInv(s)
    ensures Bounded(s, DeleteRepositoryGrant(env, s, actor, repository, username).0,
      DoDeleteRepositoryGrant(actor, repository, username))
  {
    hide StoreInv, Normalize, Bounded, DropGrant, Administers, IsPeerAdmin, UserByName;
    var repo, target, call := ParseRepository(env, repository), UserByName(s, username),
      DoDeleteRepositoryGrant(actor, repository, username);
    NothingBounded(s, call);
    if repo.Some? && Administers(actor, repo.value) && target.Some? && !IsPeerAdmin(s, target.value.id, repo.value) {
      StoredIDTrimmed(s, username);
      DropGrantBounded(s, actor, target.value.id, repo.value, call);
    }
  }

  lemma NothingBounded(s: State, call: Call)
    ensures Bounded(s, s, call)
  {
  }

  lemma StoredIDTrimmed(s: State, username: string)
    requires StoreInv(s) && UserByName(s, username).Some?
    ensures Trim(UserByName(s, username).value.id) == UserByName(s, username).value.id
  {
    FoundByName(s, username);
  }

  lemma RefusedStep(env: Env, s: State, call: Call)
    requires ActorOf(call).Some? && !ActorOf(call).value.isAdmin && !call.DoPutRepositoryGrant?
      && !call.DoDeleteRepositoryGrant?
    ensures Apply(env, s, call) == (s, Failure(Forbidden))
  {
    hide UserByName, Upsert, CreateRow, StoreToken, Remove, RevokedTokens, Revocable, AnotherAdmin, UserByID, PutGrant,
      DropGrant;
  }

  lemma UnprivilegedStep(env: Env, s: State, call: Call)
    requires Unprivileged(call) && StoreInv(s)
    ensures Bounded(s, Apply(env, s, call).0, call)
  {
    hide StoreInv, LoginWithPassword, LoginWithPreissuedToken, VerifyAccessToken, PutRepositoryGrant,
      DeleteRepositoryGrant;
    NothingBounded(s, call);
    match call
    case DoPasswordLogin(u, p, req, x, acc) => LoginTouchesNoUser(s, u, p, "", req, x, acc);
    case DoTokenLogin(u, c, req, x, acc) => LoginTouchesNoUser(s, u, "", c, req, x, acc);
    case DoPutRepositoryGrant(a, r, u, role) => PutBounded(env, s, a, r, u, role);
    case DoDeleteRepositoryGrant(a, r, u) => DropBounded(env, s, a, r, u);
    case Advance(_) =>
    case DoVerify(_) =>
    case _ =>
      RefusedStep(env, s, call);
      hide Apply;
  }

  ghost predicate TouchedBy(calls: seq<Call>, repo: Repo) {
    exists k :: 0 <= k < |calls| && ActorOf(calls[k]).Some? && Administers(ActorOf(calls[k]).value, repo)
  }

  /**
   Over any run without a global administrator's call or a bootstrap, the user table and the set of
   repository administrators never change, and every grant that changes is on a repository that one
   of the acting principals administers.
   */
  lemma {:induction false} DelegatesStayBounded(env: Env, s: State, calls: seq<Call>)
    requires StoreInv(s) && forall k :: 0 <= k < |calls| ==> Unprivileged(calls[k])
    ensures var t := Run(env, s, calls);
      && t.users == s.users && (forall key :: IsAdminGrant(s, key) <==> IsAdminGrant(t, key))
      && (forall key :: RoleAt(t, key) != RoleAt(s, key) ==> TouchedBy(calls, key.1))
  {
    hide Apply, IsAdminGrant, Administers, StoreInv;
    if calls != [] {
      var init, n := calls[..|calls| - 1], |calls| - 1;
      assert forall k :: 0 <= k < |init| ==> init[k] == calls[k];
      DelegatesStayBounded(env, s, init);
      var v, t := Run(env, s, init), Run(env, s, calls);
      assert StoreInv(v) by { RunKeeps(env, s, init); InvOf(s, v); }
      UnprivilegedStep(env, v, calls[n]);
      forall key | RoleAt(t, key) != RoleAt(s, key) ensures TouchedBy(calls, key.1) {
        if RoleAt(t, key) == RoleAt(v, key) {
          var k :| 0 <= k < |init| && ActorOf(init[k]).Some? && Administers(ActorOf(init[k]).value, key.1);
          assert ActorOf(calls[k]).Some? && Administers(ActorOf(calls[k]).value, key.1);
        }
      }
    }
  }

  /** The principal was built from a token that the service checked in this state. */
  ghost predicate Verified(s: State, p: Principal) {
    exists bearer :: VerifyAccessToken(s, bearer) == Success(PrincipalReply(p))
  }

  lemma VerifiedGrants(s: State, p: Principal, repo: Repo)
    requires Verified(s, p)
    ensures Administers(p, repo) <==> IsAdminGrant(s, (p.userID, repo))
  {
    hide GrantList;
    var bearer :| VerifyAccessToken(s, bearer) == Success(PrincipalReply(p));
    GrantListExact(s, p.userID);
    assert p.grants == GrantList(s, p.userID);
    assert Administers(p, repo) <==> IsGrant(s, p.userID, Grant(repo, RepoAdmin));
  }

  /**
   Delegates' principals cannot go stale under one another: throughout such a run a principal checked
   at its start administers a repository exactly when the store still says so, so every changed grant
   is on a repository some acting user administers at the end as well.
   */
  lemma DelegatesNeverStale(env: Env, s: State, calls: seq<Call>, p: Principal, repo: Repo)
    requires StoreInv(s) && (forall k :: 0 <= k < |calls| ==> Unprivileged(calls[k])) && Verified(s, p)
    ensures Administers(p, repo) <==> IsAdminGrant(Run(env, s, calls), (p.userID, repo))
  {
    VerifiedGrants(s, p, repo);
    DelegatesStayBounded(env, s, calls);
  }

  // ------------------------------------------------------------- valid rows

  ghost predicate RowsValid(s: State) { forall id :: id in s.users ==> ValidUser(s.users[id]) }

  lemma CreateRobotRows(env: Env, s: State, actor: Principal, name: string, repository: string, role: Role, ttl: int,
                        newID: UserId, secret: Secret, accessor: string)
    requires RowsValid(s)
    ensures RowsValid(CreateRobot(env, s, actor, name, repository, role, ttl, newID, secret, accessor).0)
  {
    hide ValidUser, Normalize, UserByName, AccessorTaken;
  }

  lemma RowsValidStep(env: Env, s: State, call: Call)
    requires RowsValid(s)
    ensures RowsValid(Apply(env, s, call).0)
  {
    hide ValidUser, Normalize, UserByName, AccessorTaken, CreateRobot, AnotherAdmin, HasActiveAdmin, GrantList,
      TokenField, Granted;
    if call.DoCreateRobot? {
      CreateRobotRows(env, s, call.actor, call.name, call.repository, call.role, call.ttl, call.newID, call.secret,
        call.accessor);
    }
  }

  /** The store never holds an administrator or read-only robot, nor a malformed username. */
  lemma {:induction false} RowsStayValid(env: Env, s: State, calls: seq<Call>)
    requires RowsValid(s)
    ensures RowsValid(Run(env, s, calls))
  {
    hide Apply, RowsValid;
    if calls != [] {
      RowsStayValid(env, s, calls[..|calls| - 1]);
      RowsValidStep(env, Run(env, s, calls[..|calls| - 1]), calls[|calls| - 1]);
    }
  }
}
