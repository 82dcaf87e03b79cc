/** What lasts over whole runs: passwords, credentials, revocations and deletions. */
module AuthRuns {
  import opened Wrappers
  import opened Text
  import opened TokenScopes
  import opened AuthModel
  import opened AuthInvariants
  import opened AuthProperties
  import opened AuthEffects
  import opened AuthScopes

  // --------------------------------------------------------- what calls reach

  /** The account a call may change: an administrator's own target, or a bootstrap's name. */
  ghost predicate Addresses(s: State, call: Call, id: UserId) {
    || ((call.DoUpdateUser? || call.DoSetEnabled? || call.DoDeleteUser? || call.DoDeleteRobot? || call.DoResetPassword?)
        && call.actor.isAdmin && Trim(call.userID) == id)
    || (call.DoBootstrap? && HasName(s, id, Normalize(call.username)))
  }

  ghost predicate SetsPassword(s: State, call: Call, id: UserId) {
    Addresses(s, call, id) && (call.DoResetPassword? || (call.DoBootstrap? && call.rotate))
  }

  predicate Revokes(call: Call, accessor: string) {
    call.DoRevoke? && call.actor.isAdmin && Trim(call.accessor) == accessor
  }

  /** The call stores a token under this freshly drawn secret. */
  predicate Draws(call: Call, secret: Secret) {
    (call.DoCreateRobot? || call.DoPasswordLogin? || call.DoTokenLogin? || call.DoCreateToken?) && call.secret == secret
  }

  /** Accounts the call does not address stay as they are, and passwords change only by being set. */
  ghost predicate RowsFollow(s: State, t: State, call: Call) {
    forall id :: id in s.users ==>
      && (!Addresses(s, call, id) ==> id in t.users && t.users[id] == s.users[id])
      && (id in t.users && !SetsPassword(s, call, id) ==> t.users[id].passwordHash == s.users[id].passwordHash)
  }

  /** Tokens change only by being revoked, go only with their user, and appear only when drawn. */
  ghost predicate TokensFollow(s: State, t: State, call: Call) {
    && (forall x :: x in s.tokens && x in t.tokens ==>
          && t.tokens[x] == s.tokens[x].(revoked := t.tokens[x].revoked)
          && (s.tokens[x].revoked ==> t.tokens[x].revoked))
    && (forall x :: x in s.tokens && !Revokes(call, s.tokens[x].accessor) && !Addresses(s, call, s.tokens[x].userID)
          ==> x in t.tokens && t.tokens[x] == s.tokens[x])
    && (forall x :: x in t.tokens && x !in s.tokens ==> Draws(call, x))
  }

  ghost predicate Follows(s: State, t: State, call: Call) { RowsFollow(s, t, call) && TokensFollow(s, t, call) }

  lemma SameUsersFollow(s: State, t: State, call: Call)
    requires t.users == s.users
    ensures RowsFollow(s, t, call)
  {
    hide Addresses, SetsPassword;
  }

  lemma SameTokensFollow(s: State, t: State, call: Call)
    requires t.tokens == s.tokens
    ensures TokensFollow(s, t, call)
  {
    hide Addresses;
  }

  lemma SameTablesFollow(s: State, t: State, call: Call)
    requires t.users == s.users && t.tokens == s.tokens
    ensures Follows(s, t, call)
  {
    hide RowsFollow, TokensFollow;
    SameUsersFollow(s, t, call);
    SameTokensFollow(s, t, call);
  }

  lemma OneRowFollows(s: State, t: State, call: Call, id: UserId, u: User)
    requires t.users == s.users[id := u] && t.tokens == s.tokens
    requires id in s.users ==>
      Addresses(s, call, id) && (SetsPassword(s, call, id) || u.passwordHash == s.users[id].passwordHash)
    ensures Follows(s, t, call)
  {
    hide Addresses, SetsPassword, TokensFollow;
    SameTokensFollow(s, t, call);
  }

  lemma RemovedRowFollows(s: State, t: State, call: Call, id: UserId)
    requires t.users == s.users - {id} && Addresses(s, call, id)
    ensures RowsFollow(s, t, call)
  {
    hide Addresses, SetsPassword;
  }

  lemma RemovedTokensFollow(s: State, t: State, call: Call, id: UserId)
    requires Addresses(s, call, id) && forall x :: x in t.tokens <==> x in s.tokens && s.tokens[x].userID != id
    requires forall x :: x in t.tokens ==> t.tokens[x] == s.tokens[x]
    ensures TokensFollow(s, t, call)
  {
    hide Addresses, Revokes, Draws;
  }

  lemma RemovedFollows(s: State, t: State, call: Call, id: UserId)
    requires Gone(s, t, id) && Addresses(s, call, id)
    ensures Follows(s, t, call)
  {
    hide Addresses, RowsFollow, TokensFollow, RoleAt;
    RemovedRowFollows(s, t, call, id);
    RemovedTokensFollow(s, t, call, id);
  }

  lemma OneTokenFollows(s: State, t: State, call: Call, secret: Secret, token: Token)
    requires t.users == s.users && t.tokens == s.tokens[secret := token] && secret !in s.tokens && Draws(call, secret)
    ensures Follows(s, t, call)
  {
    hide Addresses, SetsPassword, RowsFollow;
    SameUsersFollow(s, t, call);
  }

  lemma BootstrapFollows(env: Env, s: State, call: Call)
    requires StoreInv(s) && RowsValid(s) && call.DoBootstrap?
    ensures Follows(s, Apply(env, s, call).0, call)
  {
    var (u, p, r, n) := (call.username, call.password, call.rotate, call.newID);
    var (t, reply) := BootstrapAdmin(s, u, p, r, n);
    if id :| HasName(s, id, Normalize(u)) {
      BootstrapExisting(s, u, p, r, n, id);
      hide StoreInv, RowsValid, BootstrapAdmin, Normalize, Follows;
      if reply.Success? { OneRowFollows(s, t, call, id, t.users[id]); } else { SameTablesFollow(s, t, call); }
    } else if NewID(s, n) {
      BootstrapNew(s, u, p, r, n);
      hide StoreInv, RowsValid, BootstrapAdmin, Normalize, Follows;
      if reply.Success? { OneRowFollows(s, t, call, n, t.users[n]); } else { SameTablesFollow(s, t, call); }
    } else {
      NothingWithoutID(env, s, call);
      SameTablesFollow(s, t, call);
    }
  }

  /** A call that draws no new identifier where it needs one changes nothing. */
  lemma NothingWithoutID(env: Env, s: State, call: Call)
    requires call.DoBootstrap? || call.DoCreateUser? || call.DoCreateRobot?
    requires StoreInv(s) && !NewID(s, call.newID) && (call.DoBootstrap? ==> !Named(s, Normalize(call.username)))
    ensures Apply(env, s, call).0 == s
  {
    if call.DoBootstrap? {
      NormalizeAgain(call.username);
      NamedBy(s, Normalize(call.username), "");
    }
    hide StoreInv, Normalize, UserByName, HasActiveAdmin;
  }

  lemma CreateFollows(env: Env, s: State, call: Call)
    requires StoreInv(s) && call.DoCreateUser? && call.actor.isAdmin
    ensures Follows(s, Apply(env, s, call).0, call)
  {
    hide StoreInv, CreateUser, Normalize, Follows, Named;
    var (t, r) := Apply(env, s, call);
    var n := call.newID;
    if NewID(s, n) {
      CreateExact(s, call.actor, call.username, call.password, call.isAdmin, call.isReadOnly, call.enabled, n);
    } else {
      NothingWithoutID(env, s, call);
    }
    hide Apply;
    if r.Success? && NewID(s, n) { OneRowFollows(s, t, call, n, t.users[n]); } else { SameTablesFollow(s, t, call); }
  }

  /** A call on one account: it fails and changes nothing, or rewrites that account's row. */
  lemma RowCallFollows(env: Env, s: State, call: Call)
    requires StoreInv(s) && RowsValid(s) && (call.DoUpdateUser? || call.DoSetEnabled? || call.DoResetPassword?)
    requires call.actor.isAdmin
    ensures Follows(s, Apply(env, s, call).0, call)
  {
    hide StoreInv, RowsValid, UpdateUser, SetUserEnabled, ResetPassword, Normalize, Follows, NameHeld, AnotherAdmin;
    var (t, r) := Apply(env, s, call);
    var id := Trim(call.userID);
    if call.DoUpdateUser? {
      UpdateExact(s, call.actor, call.userID, call.username, call.isAdmin, call.isReadOnly);
    } else if call.DoSetEnabled? {
      SetEnabledExact(s, call.actor, call.userID, call.enabled);
    } else {
      ResetExact(s, call.actor, call.userID, call.password);
    }
    hide Apply;
    if r.Success? { OneRowFollows(s, t, call, id, t.users[id]); } else { SameTablesFollow(s, t, call); }
  }

  lemma DeletionFollows(env: Env, s: State, call: Call)
    requires StoreInv(s) && (call.DoDeleteUser? || call.DoDeleteRobot?) && call.actor.isAdmin
    ensures Follows(s, Apply(env, s, call).0, call)
  {
    hide DeleteUser, DeleteRobot, StoreInv, Follows, AnotherAdmin, Gone;
    var (t, r) := Apply(env, s, call);
    DeleteExact(s, call.actor, call.userID);
    DeleteRobotExact(s, call.actor, call.userID);
    if r.Success? { RemovedFollows(s, t, call, Trim(call.userID)); } else { SameTablesFollow(s, t, call); }
  }

  lemma RobotFollows(env: Env, s: State, call: Call)
    requires StoreInv(s) && call.DoCreateRobot?
    ensures Follows(s, Apply(env, s, call).0, call)
  {
    hide StoreInv, CreateRobot, Normalize, Named, AccessorTaken, Addresses, SetsPassword, RowsFollow, TokensFollow;
    var (t, r) := Apply(env, s, call);
    if NewID(s, call.newID) {
      RobotAllOrNothingIff(env, s, call.actor, call.name, call.repository, call.role, call.ttl, call.newID, call.secret,
        call.accessor);
      assert RowsFollow(s, t, call) by { NewRowFollows(s, t, call, call.newID); }
      assert TokensFollow(s, t, call) by { NewTokenFollows(s, t, call); }
    } else {
      NothingWithoutID(env, s, call);
      SameTablesFollow(s, t, call);
    }
  }

  lemma NewRowFollows(s: State, t: State, call: Call, id: UserId)
    requires id !in s.users && (t.users == s.users || (id in t.users && t.users == s.users[id := t.users[id]]))
    ensures RowsFollow(s, t, call)
  {
    hide Addresses, SetsPassword;
  }

  lemma NewTokenFollows(s: State, t: State, call: Call)
    requires call.DoCreateRobot?
    requires t.tokens == s.tokens || (call.secret !in s.tokens && call.secret in t.tokens
                                      && t.tokens == s.tokens[call.secret := t.tokens[call.secret]])
    ensures TokensFollow(s, t, call)
  {
    hide Addresses;
  }

  lemma TokenCallFollows(env: Env, s: State, call: Call)
    requires StoreInv(s) && (call.DoPasswordLogin? || call.DoTokenLogin? || call.DoCreateToken?)
    requires call.DoCreateToken? ==> call.actor.isAdmin
    ensures Follows(s, Apply(env, s, call).0, call)
  {
    var (t, r) := Apply(env, s, call);
    if call.DoCreateToken? {
      CreateTokenExact(s, call.actor, call.userID, call.ttl, call.secret, call.accessor);
    } else if call.DoPasswordLogin? {
      LoginScopesExact(s, call.username, call.password, "", call.requested, call.secret, call.accessor);
    } else {
      LoginScopesExact(s, call.username, "", call.credential, call.requested, call.secret, call.accessor);
    }
    hide StoreInv, Apply, Follows, AccessorTaken, Gives, ListsGrants;
    if r.Success? {
      OneTokenFollows(s, t, call, call.secret, t.tokens[call.secret]);
    } else {
      SameTablesFollow(s, t, call);
    }
  }

  lemma RevokeFollows(s: State, call: Call)
    requires call.DoRevoke? && call.actor.isAdmin
    ensures Follows(s, RevokeAdminToken(s, call.actor, call.accessor).0, call)
  {
    hide RevokeAdminToken, Addresses, SetsPassword, RowsFollow;
    RevokeExact(s, call.actor, call.accessor);
    SameUsersFollow(s, RevokeAdminToken(s, call.actor, call.accessor).0, call);
  }

  lemma GrantCallTables(env: Env, s: State, call: Call)
    requires call.DoPutRepoGrant? || call.DoDeleteRepoGrant? || call.DoPutRepositoryGrant?
      || call.DoDeleteRepositoryGrant? || call.DoVerify? || call.Advance?
    ensures Apply(env, s, call).0.users == s.users && Apply(env, s, call).0.tokens == s.tokens
  {
    hide UserByName, UserByID, IsPeerAdmin, Administers, Trim, VerifyAccessToken;
  }

  /** What any call of the service can do to accounts and tokens. */
  lemma StepFollows(env: Env, s: State, call: Call)
    requires StoreInv(s) && RowsValid(s)
    ensures Follows(s, Apply(env, s, call).0, call)
  {
    hide StoreInv, RowsValid, Follows, Apply;
    if ActorOf(call).Some? && !ActorOf(call).value.isAdmin && !call.DoPutRepositoryGrant?
        && !call.DoDeleteRepositoryGrant? {
      RefusedStep(env, s, call);
      SameTablesFollow(s, s, call);
    } else {
      match call
      case DoBootstrap(_, _, _, _) => BootstrapFollows(env, s, call);
      case DoCreateUser(_, _, _, _, _, _, _) => CreateFollows(env, s, call);
      case DoUpdateUser(_, _, _, _, _) => RowCallFollows(env, s, call);
      case DoSetEnabled(_, _, _) => RowCallFollows(env, s, call);
      case DoResetPassword(_, _, _) => RowCallFollows(env, s, call);
      case DoDeleteUser(_, _) => DeletionFollows(env, s, call);
      case DoDeleteRobot(_, _) => DeletionFollows(env, s, call);
      case DoCreateRobot(_, _, _, _, _, _, _, _) => RobotFollows(env, s, call);
      case DoPasswordLogin(_, _, _, _, _) => TokenCallFollows(env, s, call);
      case DoTokenLogin(_, _, _, _, _) => TokenCallFollows(env, s, call);
      case DoCreateToken(_, _, _, _, _) => TokenCallFollows(env, s, call);
      case DoRevoke(_, _) => RevokeCallFollows(env, s, call);
      case _ =>
        GrantCallTables(env, s, call);
        SameTablesFollow(s, Apply(env, s, call).0, call);
    }
  }

  lemma RevokeCallFollows(env: Env, s: State, call: Call)
    requires call.DoRevoke? && call.actor.isAdmin
    ensures Follows(s, Apply(env, s, call).0, call)
  {
    hide Follows, RevokeAdminToken;
    RevokeFollows(s, call);
  }

  // ---------------------------------------------------------------- passwords

  ghost predicate NeverSetsPassword(env: Env, s: State, calls: seq<Call>, id: UserId) {
    forall i :: 0 <= i < |calls| ==> !SetsPassword(Run(env, s, calls[..i]), calls[i], id)
  }

  lemma {:induction false} PasswordStays(env: Env, s: State, calls: seq<Call>, id: UserId)
    requires StoreInv(s) && RowsValid(s) && id in s.users && NeverSetsPassword(env, s, calls, id)
    ensures var t := Run(env, s, calls); id in t.users ==> t.users[id].passwordHash == s.users[id].passwordHash
  {
    if calls != [] {
      var init, n := calls[..|calls| - 1], |calls| - 1;
      assert forall i :: 0 <= i < n ==> init[..i] == calls[..i];
      PasswordStays(env, s, init, id);
      var v := Run(env, s, init);
      assert id in v.usedIDs && StoreInv(v) by { RunKeeps(env, s, init); }
      RowsStayValid(env, s, init);
      RunLast(env, s, calls);
      hide Run, Apply, SetsPassword, StoreInv, RowsValid, TokensFollow, Addresses, Kept;
      StepFollows(env, v, calls[n]);
      StepKeeps(env, v, calls[n]);
      NoneComesBack(v, Apply(env, v, calls[n]).0, id);
    }
  }

  lemma NoneComesBack(s: State, t: State, id: UserId)
    requires Kept(s, t) && id in s.usedIDs
    ensures id in t.users ==> id in s.users
  {
    hide StoreInv, HasHumanAdmin, PasswordTokensHuman;
  }

  /**
   After a reset the new password logs in to that account and no other does, under whatever name it has by
   then, as long as the account is enabled and until its password is set again - whatever else is called.
   */
  lemma ResetDecidesPassword(env: Env, s: State, actor: Principal, userID: UserId, password: string, t: State,
                             calls: seq<Call>, v: State, username: string, tried: string, requested: seq<Scope>,
                             secret: Secret, accessor: string)
    requires StoreInv(s) && RowsValid(s) && ResetPassword(s, actor, userID, password) == (t, Success(Ack))
    requires NeverSetsPassword(env, t, calls, Trim(userID)) && v == Run(env, t, calls)
    requires secret !in v.tokens && !AccessorTaken(v, accessor)
    ensures var id, r := Trim(userID), LoginWithPassword(v, username, tried, requested, secret, accessor).1;
      r.Success? && r.value.LoginReply? && r.value.principal.userID == id
      <==> HasName(v, id, Normalize(username)) && v.users[id].enabled && !v.users[id].isRobot && tried == password
  {
    var id := Trim(userID);
    assert actor.isAdmin;
    ResetExact(s, actor, userID, password);
    assert StoreInv(t) by { ResetKeeps(s, actor, userID, password); }
    assert RowsValid(t) by { RowsValidStep(env, s, DoResetPassword(actor, userID, password)); }
    PasswordStays(env, t, calls, id);
    assert StoreInv(v) by { RunKeeps(env, t, calls); }
    PasswordLoginIff(v, username, tried, requested, secret, accessor);
    hide StoreInv, RowsValid, ResetPassword, Run, LoginWithPassword, Normalize, AccessorTaken, NeverSetsPassword;
    assert MayLogIn(v, id, username, tried) <==>
      (HasName(v, id, Normalize(username)) && v.users[id].enabled && !v.users[id].isRobot && tried == password);
    if MayLogIn(v, id, username, tried) {
      var r := LoginWithPassword(v, username, tried, requested, secret, accessor).1;
      NamesOne(v, id, r.value.principal.userID, Normalize(username));
    }
  }

  lemma NamesOne(s: State, a: UserId, b: UserId, name: string)
    requires StoreInv(s) && HasName(s, a, name) && HasName(s, b, name)
    ensures a == b
  {
  }

  // --------------------------------------------------------------- revocation

  lemma {:induction false} RevokedStays(env: Env, s: State, calls: seq<Call>, x: Secret)
    requires StoreInv(s) && RowsValid(s) && (x in s.tokens ==> s.tokens[x].revoked)
    requires forall i :: 0 <= i < |calls| ==> !Draws(calls[i], x)
    ensures var t := Run(env, s, calls); x in t.tokens ==> t.tokens[x].revoked
  {
    if calls != [] {
      var init, n := calls[..|calls| - 1], |calls| - 1;
      assert forall i :: 0 <= i < n ==> init[i] == calls[i];
      RevokedStays(env, s, init, x);
      assert StoreInv(Run(env, s, init)) by { RunKeeps(env, s, init); }
      RowsStayValid(env, s, init);
      RunLast(env, s, calls);
      hide Run, Apply, StoreInv, RowsValid, RowsFollow;
      StepFollows(env, Run(env, s, init), calls[n]);
    }
  }

  /** Once revoked, a token of that accessor never logs in or passes a check again, whatever is called. */
  lemma RevokedStaysOut(env: Env, s: State, actor: Principal, accessor: string, x: Secret, calls: seq<Call>,
                        username: string, requested: seq<Scope>, secret: Secret, drawn: string)
    requires StoreInv(s) && RowsValid(s) && RevokeAdminToken(s, actor, accessor).1.Success?
    requires x in s.tokens && s.tokens[x].accessor == Trim(accessor)
    requires forall i :: 0 <= i < |calls| ==> !Draws(calls[i], x)
    ensures var v := Run(env, RevokeAdminToken(s, actor, accessor).0, calls);
      !LoginWithPreissuedToken(v, username, x, requested, secret, drawn).1.Success? && !VerifyAccessToken(v, x).Success?
  {
    var t := RevokeAdminToken(s, actor, accessor).0;
    assert actor.isAdmin;
    RevokeExact(s, actor, accessor);
    assert StoreInv(t) by { RevokeKeeps(s, actor, accessor); }
    assert RowsValid(t) by { RowsValidStep(env, s, DoRevoke(actor, accessor)); }
    RevokedStays(env, t, calls, x);
    RevokedUseless(Run(env, t, calls), username, x, requested, secret, drawn);
    hide Run, StoreInv, RowsValid, RevokeAdminToken, LoginWithPreissuedToken, VerifyAccessToken;
  }

  lemma RevokedUseless(s: State, username: string, x: Secret, requested: seq<Scope>, secret: Secret, drawn: string)
    requires x in s.tokens ==> s.tokens[x].revoked
    ensures !LoginWithPreissuedToken(s, username, x, requested, secret, drawn).1.Success?
    ensures !VerifyAccessToken(s, x).Success?
  {
    hide Issue, UserByName, PrincipalOf, UserByID;
  }

  // ---------------------------------------------------------------- deletion

  /** A deleted account never comes back: nothing logs in as it again, and it has no grants and no tokens. */
  lemma DeletedStaysOut(env: Env, s: State, actor: Principal, userID: UserId, calls: seq<Call>, call: Call)
    requires StoreInv(s) && (DeleteUser(s, actor, userID).1.Success? || DeleteRobot(s, actor, userID).1.Success?)
    ensures var t := (if DeleteUser(s, actor, userID).1.Success? then DeleteUser(s, actor, userID)
                      else DeleteRobot(s, actor, userID)).0;
      var (v, id) := (Run(env, t, calls), Trim(userID));
      && id !in v.users && (forall key :: key in v.grants ==> key.0 != id)
      && (forall x :: x in v.tokens ==> v.tokens[x].userID != id) && !LetsIn(Apply(env, v, call).1, id)
  {
    var t := (if DeleteUser(s, actor, userID).1.Success? then DeleteUser(s, actor, userID)
              else DeleteRobot(s, actor, userID)).0;
    var (v, id) := (Run(env, t, calls), Trim(userID));
    assert actor.isAdmin;
    DeleteExact(s, actor, userID);
    DeleteRobotExact(s, actor, userID);
    assert id in s.usedIDs && id !in t.users && t.usedIDs == s.usedIDs;
    assert StoreInv(t) by { DeleteKeeps(s, actor, userID); }
    RunKeeps(env, t, calls);
    NotLetIn(env, v, call, id);
    hide DeleteUser, DeleteRobot, Apply, Run, LetsIn;
  }

  // -------------------------------------------------------------- token lives

  /** None of the calls addresses the token's user or revokes its accessor. */
  ghost predicate LeavesToken(env: Env, s: State, calls: seq<Call>, token: Token) {
    forall i :: 0 <= i < |calls| ==>
      !Addresses(Run(env, s, calls[..i]), calls[i], token.userID) && !Revokes(calls[i], token.accessor)
  }

  ghost predicate TokenKept(s: State, t: State, x: Secret)
    requires x in s.tokens
  {
    var id := s.tokens[x].userID;
    x in t.tokens && t.tokens[x] == s.tokens[x] && id in s.users && id in t.users && t.users[id] == s.users[id]
  }

  lemma LeavesPrefix(env: Env, s: State, calls: seq<Call>, token: Token)
    requires calls != [] && LeavesToken(env, s, calls, token)
    ensures var (init, n) := (calls[..|calls| - 1], |calls| - 1);
      LeavesToken(env, s, init, token)
      && !Addresses(Run(env, s, init), calls[n], token.userID) && !Revokes(calls[n], token.accessor)
  {
    hide Run, Addresses, Revokes;
    var init, n := calls[..|calls| - 1], |calls| - 1;
    assert forall i :: 0 <= i < n ==> init[..i] == calls[..i] && init[i] == calls[i];
    assert calls[..n] == init;
  }

  lemma {:induction false} TokenStays(env: Env, s: State, calls: seq<Call>, x: Secret)
    requires StoreInv(s) && RowsValid(s) && x in s.tokens && LeavesToken(env, s, calls, s.tokens[x])
    ensures TokenKept(s, Run(env, s, calls), x)
  {
    if calls != [] {
      var init, n := calls[..|calls| - 1], |calls| - 1;
      LeavesPrefix(env, s, calls, s.tokens[x]);
      TokenStays(env, s, init, x);
      var v := Run(env, s, init);
      assert StoreInv(v) by { RunKeeps(env, s, init); }
      RowsStayValid(env, s, init);
      RunLast(env, s, calls);
      hide Apply, Addresses, StoreInv, RowsValid, Run, Follows, LeavesToken, Revokes;
      StepFollows(env, v, calls[n]);
      TokenLeft(v, Apply(env, v, calls[n]).0, calls[n], x);
    }
  }

  lemma RunLast(env: Env, s: State, calls: seq<Call>)
    requires calls != []
    ensures Run(env, s, calls) == Apply(env, Run(env, s, calls[..|calls| - 1]), calls[|calls| - 1]).0
  {
    hide Apply;
  }

  lemma TokenLeft(s: State, t: State, call: Call, x: Secret)
    requires Follows(s, t, call) && x in s.tokens && s.tokens[x].userID in s.users
    requires !Addresses(s, call, s.tokens[x].userID) && !Revokes(call, s.tokens[x].accessor)
    ensures var id := s.tokens[x].userID;
      x in t.tokens && t.tokens[x] == s.tokens[x] && id in t.users && t.users[id] == s.users[id]
  {
    hide Addresses, SetsPassword, Revokes, Draws;
  }

  /**
   A credential logs its user in for exactly its life, whatever else is called: until that moment and no
   longer, as long as nobody revokes it or touches the account.
   */
  lemma CredentialLivesIff(env: Env, s: State, actor: Principal, userID: UserId, ttl: int, x: Secret, drawn: string,
                           calls: seq<Call>, username: string, requested: seq<Scope>, secret: Secret, accessor: string)
    requires StoreInv(s) && RowsValid(s) && CreateAdminToken(s, actor, userID, ttl, x, drawn).1.Success?
    requires var t := CreateAdminToken(s, actor, userID, ttl, x, drawn).0;
      && x in t.tokens && LeavesToken(env, t, calls, t.tokens[x])
      && secret !in Run(env, t, calls).tokens && !AccessorTaken(Run(env, t, calls), accessor)
    ensures var v := Run(env, CreateAdminToken(s, actor, userID, ttl, x, drawn).0, calls);
      var life := if ttl <= 0 then 30 * 24 * 60 * MINUTE else ttl;
      Trim(userID) in s.users
      && (LoginWithPreissuedToken(v, username, x, requested, secret, accessor).1.Success?
          <==> Normalize(username) == s.users[Trim(userID)].username && v.clock < s.clock + life)
  {
    var t := CreateAdminToken(s, actor, userID, ttl, x, drawn).0;
    assert actor.isAdmin;
    CreateTokenExact(s, actor, userID, ttl, x, drawn);
    assert StoreInv(t) by { CreateTokenKeeps(s, actor, userID, ttl, x, drawn); }
    assert RowsValid(t) by { RowsValidStep(env, s, DoCreateToken(actor, userID, ttl, x, drawn)); }
    TokenStays(env, t, calls, x);
    var v, id := Run(env, t, calls), Trim(userID);
    assert StoreInv(v) by { RunKeeps(env, t, calls); }
    TokenLoginIff(v, username, x, requested, secret, accessor);
    hide StoreInv, RowsValid, CreateAdminToken, Run, LoginWithPreissuedToken, Normalize, AccessorTaken, LeavesToken;
    assert MayUseCredential(v, id, username, x) <==>
      Normalize(username) == s.users[id].username && v.clock < v.tokens[x].expiresAt;
  }

  /** An access token is accepted for exactly fifteen minutes, with the login's scopes throughout. */
  lemma AccessTokenLivesIff(env: Env, s: State, username: string, password: string, credential: Secret,
                            requested: seq<Scope>, x: Secret, drawn: string, o: Outcome, calls: seq<Call>)
    requires StoreInv(s) && RowsValid(s) && o.1.Success?
    requires o == LoginWithPassword(s, username, password, requested, x, drawn)
      || o == LoginWithPreissuedToken(s, username, credential, requested, x, drawn)
    requires x in o.0.tokens && LeavesToken(env, o.0, calls, o.0.tokens[x])
    ensures var v := Run(env, o.0, calls);
      var r := VerifyAccessToken(v, x);
      && o.1.value.LoginReply? && (r.Success? <==> v.clock < s.clock + 15 * MINUTE)
      && (r.Success? ==> r.value.PrincipalReply? && r.value.principal.userID == o.1.value.principal.userID
                         && r.value.principal.scope == o.1.value.principal.scope)
  {
    LoginScopesExact(s, username, password, credential, requested, x, drawn);
    assert StoreInv(o.0) by { LoginKeeps(s, username, password, credential, requested, x, drawn); }
    assert RowsValid(o.0) && o.0.users == s.users by {
      LoginTouchesNoUser(s, username, password, credential, requested, x, drawn);
    }
    TokenStays(env, o.0, calls, x);
    assert StoreInv(Run(env, o.0, calls)) by { RunKeeps(env, o.0, calls); }
    VerifyExact(Run(env, o.0, calls), x);
    assert s.users[o.1.value.principal.userID].enabled by {
      LoggedInEnabled(s, username, password, credential, requested, x, drawn);
    }
    hide StoreInv, RowsValid, Run, LoginWithPassword, LoginWithPreissuedToken, VerifyAccessToken, LeavesToken, Gives;
  }

  lemma LoggedInEnabled(s: State, username: string, password: string, credential: Secret,
                        requested: seq<Scope>, x: Secret, drawn: string)
    requires StoreInv(s)
    ensures LogsInEnabled(s, LoginWithPassword(s, username, password, requested, x, drawn).1)
    ensures LogsInEnabled(s, LoginWithPreissuedToken(s, username, credential, requested, x, drawn).1)
  {
    if ActiveUser(s, username).Success? {
      FoundByName(s, username);
      IssueNames(s, ActiveUser(s, username).value, requested, ByPassword, x, drawn);
      IssueNames(s, ActiveUser(s, username).value, requested, ByPreissuedToken, x, drawn);
    }
    hide UserByName, StoreInv, Issue, LogsInEnabled, Inactive, TokenOf;
    assert forall e :: LogsInEnabled(s, Failure(e)) by { RefusedLogin(s); }
  }

  lemma RefusedLogin(s: State)
    ensures forall e :: LogsInEnabled(s, Failure(e))
  {
  }

  ghost predicate LogsInEnabled(s: State, r: Result<Reply, AuthError>) {
    r.Success? && r.value.LoginReply? ==>
      r.value.principal.userID in s.users && s.users[r.value.principal.userID].enabled
  }

  lemma IssueNames(s: State, u: User, requested: seq<Scope>, origin: Origin, x: Secret, drawn: string)
    requires u.id in s.users && s.users[u.id] == u && u.enabled
    ensures LogsInEnabled(s, Issue(s, u, requested, origin, x, drawn).1)
  {
    hide StoreToken, GrantList, TokenField, Granted;
  }
}
