/**
 What each service call does to the store, by its own condition: when it succeeds, which error it gives
 otherwise, and the one row it changes. Nothing here rests on how the calls are computed.
 */
module AuthEffects {
  import opened Wrappers
  import opened Text
  import opened TokenScopes
  import opened AuthModel
  import opened AuthInvariants
  import opened AuthProperties

  // ------------------------------------------------------------- one user row

  /** What a row needs besides its identifier: a well-formed name, and no rights for a robot. */
  predicate GoodRow(username: string, isAdmin: bool, isReadOnly: bool, isRobot: bool) {
    ValidUsername(username) && !(isRobot && (isAdmin || isReadOnly))
  }

  ghost predicate NameHeld(s: State, name: string, except: UserId) {
    exists id :: HasName(s, id, name) && id != except
  }

  /** A normalized row over an existing or a new identifier. */
  lemma WriteExact(s: State, u: User, reply: Reply)
    requires Trim(u.id) == u.id && u.id != "" && Normalize(u.username) == u.username
    ensures Write(s, u, reply)
      == if !GoodRow(u.username, u.isAdmin, u.isReadOnly, u.isRobot) then (s, Failure(Invalid))
         else if NameHeld(s, u.username, u.id) then (s, Failure(StoreFailed))
         else (s.(users := s.users[u.id := u], usedIDs := s.usedIDs + {u.id}), Success(reply))
  {
    NormalizedTrimmed(u.username);
    hide Normalize, ValidUsername;
  }

  lemma NormalizedTrimmed(name: string)
    requires Normalize(name) == name
    ensures Trim(name) == name
  {
    LowerTrim(name);
    TrimmedUnchanged(name);
  }

  lemma StoredRow(s: State, id: UserId)
    requires StoreInv(s) && RowsValid(s) && id in s.users
    ensures var u := s.users[id];
      && u.id == id && Trim(id) == id && id != "" && Normalize(u.username) == u.username
      && GoodRow(u.username, u.isAdmin, u.isReadOnly, u.isRobot) && !NameHeld(s, u.username, id)
      && s.usedIDs + {id} == s.usedIDs
  {
    NormalizedTrimmed(s.users[id].username);
    hide Normalize, ValidUsername;
  }

  /** A change of one existing row that keeps its name. */
  lemma RewriteExact(s: State, id: UserId, u: User, reply: Reply)
    requires StoreInv(s) && RowsValid(s) && id in s.users && u.id == id && u.username == s.users[id].username
    ensures Write(s, u, reply)
      == if GoodRow(u.username, u.isAdmin, u.isReadOnly, u.isRobot)
         then (s.(users := s.users[id := u]), Success(reply)) else (s, Failure(Invalid))
  {
    StoredRow(s, id);
    hide StoreInv, RowsValid, Write, NameHeld, Normalize, ValidUsername;
    WriteExact(s, u, reply);
  }

  /** Enabling and disabling changes the flag and nothing else; only the last administrator cannot be disabled. */
  lemma SetEnabledExact(s: State, actor: Principal, userID: UserId, enabled: bool)
    requires StoreInv(s) && RowsValid(s)
    ensures var (t, r) := SetUserEnabled(s, actor, userID, enabled);
      var id := Trim(userID);
      var last := id in s.users && s.users[id].isAdmin && s.users[id].enabled && !enabled && !AnotherAdmin(s, id);
      && (r.Success? <==> actor.isAdmin && id in s.users && !last)
      && (r == Failure(Forbidden) <==> !actor.isAdmin)
      && (r == Failure(NotFound) <==> actor.isAdmin && id !in s.users)
      && (r == Failure(Conflict) <==> actor.isAdmin && last)
      && (r.Failure? ==> t == s)
      && (r.Success? ==> t == s.(users := s.users[id := s.users[id].(enabled := enabled)])
                         && r.value == UserReply(t.users[id]))
  {
    hide StoreInv, RowsValid, Write, AnotherAdmin;
    var id := Trim(userID);
    if id in s.users {
      StoredRow(s, id);
      var u := s.users[id].(enabled := enabled);
      RewriteExact(s, id, u, UserReply(u));
    }
  }

  /** An update changes name, administrator and read-only flags; the name stays when none is given. */
  lemma UpdateExact(s: State, actor: Principal, userID: UserId, username: string, isAdmin: bool, isReadOnly: bool)
    requires StoreInv(s) && RowsValid(s) && actor.isAdmin
    ensures Trim(userID) !in s.users ==>
      UpdateUser(s, actor, userID, username, isAdmin, isReadOnly) == (s, Failure(NotFound))
    ensures Trim(userID) in s.users ==>
      var (t, r) := UpdateUser(s, actor, userID, username, isAdmin, isReadOnly);
      var (id, asked) := (Trim(userID), Normalize(username));
      var user := s.users[id];
      var name := if asked == "" then user.username else asked;
      var last := user.isAdmin && user.enabled && !isAdmin && !AnotherAdmin(s, id);
      && (r == Failure(Conflict) <==> NameHeld(s, name, id) || last)
      && (r.Success? <==> !NameHeld(s, name, id) && !last && GoodRow(name, isAdmin, isReadOnly, user.isRobot))
      && (r.Failure? ==> t == s && (r.error.Conflict? || r.error.Invalid?))
      && (r.Success? ==>
            t == s.(users := s.users[id := User(id, name, user.passwordHash, isAdmin, isReadOnly, user.isRobot,
                                                user.enabled)])
            && r.value == UserReply(t.users[id]))
  {
    var (id, asked) := (Trim(userID), Normalize(username));
    if id in s.users {
      NormalizeAgain(username);
      StoredRow(s, id);
      var name := if asked == "" then s.users[id].username else asked;
      NamedBy(s, name, id);
      var u := s.users[id].(username := name, isAdmin := isAdmin, isReadOnly := isReadOnly);
      hide StoreInv, RowsValid, Write, AnotherAdmin, NameHeld, Normalize, ValidUsername, UserByName;
      WriteExact(s, u, UserReply(u));
    }
  }

  lemma NamedBy(s: State, name: string, id: UserId)
    requires StoreInv(s) && Normalize(name) == name
    ensures UserByName(s, name).Some? <==> exists other :: HasName(s, other, name)
    ensures UserByName(s, name).Some? ==>
      var u := UserByName(s, name).value; HasName(s, u.id, name) && s.users[u.id] == u
    ensures NameHeld(s, name, id) <==> UserByName(s, name).Some? && UserByName(s, name).value.id != id
  {
    if UserByName(s, name).Some? { FoundByName(s, name); }
    hide Normalize;
  }

  predicate Weak(password: string) { |Trim(password)| < 8 }

  predicate TooLong(password: string) { |password| > 72 }

  ghost predicate Named(s: State, name: string) { exists id :: HasName(s, id, name) }

  /** A new user is exactly the new row, as asked for. */
  lemma CreateExact(s: State, actor: Principal, username: string, password: string, isAdmin: bool, isReadOnly: bool,
                    enabled: bool, newID: UserId)
    requires StoreInv(s) && actor.isAdmin && NewID(s, newID)
    ensures var (t, r) := CreateUser(s, actor, username, password, isAdmin, isReadOnly, enabled, newID);
      var name := Normalize(username);
      && (r == Failure(Conflict) <==> name != "" && !Weak(password) && Named(s, name))
      && (r.Success? <==> !Named(s, name) && ValidUsername(name) && !Weak(password) && !TooLong(password))
      && (r.Failure? ==> t == s && (r.error.Conflict? || r.error.Invalid?))
      && (r.Success? ==>
            t == s.(users := s.users[newID := User(newID, name, HashOf(password), isAdmin, isReadOnly, false, enabled)],
                    usedIDs := s.usedIDs + {newID})
            && r.value == UserReply(t.users[newID]))
  {
    var name := Normalize(username);
    NormalizeAgain(username);
    NamedBy(s, name, newID);
    var u := User(newID, name, HashOf(password), isAdmin, isReadOnly, false, enabled);
    assert Trim(newID) == newID && newID != "";
    assert NameHeld(s, name, newID) <==> Named(s, name);
    hide StoreInv, Write, Normalize, UserByName, NameHeld, Named, ValidUsername, Trim;
    WriteExact(s, u, UserReply(u));
  }

  /** A reset changes the password of that one account. */
  lemma ResetExact(s: State, actor: Principal, userID: UserId, password: string)
    requires StoreInv(s) && RowsValid(s) && actor.isAdmin
    ensures var (t, r) := ResetPassword(s, actor, userID, password);
      var id := Trim(userID);
      && (r == Failure(NotFound) <==> !Weak(password) && id !in s.users)
      && (r.Success? <==> id in s.users && !Weak(password) && !TooLong(password))
      && (r.Failure? ==> t == s && (r.error.NotFound? || r.error.Invalid?))
      && (r.Success? ==> t == s.(users := s.users[id := s.users[id].(passwordHash := HashOf(password))])
                         && r.value == Ack)
  {
    hide StoreInv, RowsValid, Write;
    var id := Trim(userID);
    if id in s.users {
      StoredRow(s, id);
      RewriteExact(s, id, s.users[id].(passwordHash := HashOf(password)), Ack);
    }
  }

  /** Bootstrapping an account that exists promotes and enables it, and sets its password only when asked to. */
  lemma BootstrapExisting(s: State, username: string, password: string, rotate: bool, newID: UserId, id: UserId)
    requires StoreInv(s) && RowsValid(s) && HasName(s, id, Normalize(username))
    ensures var (t, r) := BootstrapAdmin(s, username, password, rotate, newID);
      var user := s.users[id];
      && (r == Failure(Conflict) <==> !Weak(password) && !user.isAdmin && HasActiveAdmin(s))
      && (r.Success? <==> !Weak(password) && (user.isAdmin || !HasActiveAdmin(s)) && !user.isRobot
                          && !(rotate && TooLong(password)))
      && (r.Failure? ==> t == s && (r.error.Conflict? || r.error.Invalid?))
      && (r.Success? ==>
            t == s.(users := s.users[id := user.(isAdmin := true, enabled := true,
                                                 passwordHash := if rotate then HashOf(password)
                                                                 else user.passwordHash)])
            && r.value == UserReply(t.users[id]))
  {
    var name, user := Normalize(username), s.users[id];
    NormalizeAgain(username);
    NamedBy(s, name, id);
    StoredRow(s, id);
    assert name != "" && UserByName(s, name) == Some(user);
    assert ValidUsername(name) && user.id == id;
    hide StoreInv, RowsValid, Write, Normalize, UserByName, HasActiveAdmin, NameHeld, HasName, ValidUsername, Trim;
    var promoted := user.(username := name, isAdmin := true, enabled := true);
    if rotate { promoted := promoted.(passwordHash := HashOf(password)); }
    RewriteExact(s, id, promoted, UserReply(promoted));
  }

  /** Bootstrapping an unknown name creates the first administrator and is refused once there is one. */
  lemma BootstrapNew(s: State, username: string, password: string, rotate: bool, newID: UserId)
    requires StoreInv(s) && !Named(s, Normalize(username)) && NewID(s, newID)
    ensures var (t, r) := BootstrapAdmin(s, username, password, rotate, newID);
      var name := Normalize(username);
      && (r == Failure(Conflict) <==> name != "" && !Weak(password) && HasActiveAdmin(s))
      && (r.Success? <==> ValidUsername(name) && !Weak(password) && !TooLong(password) && !HasActiveAdmin(s))
      && (r.Failure? ==> t == s && (r.error.Conflict? || r.error.Invalid?))
      && (r.Success? ==>
            t == s.(users := s.users[newID := User(newID, name, HashOf(password), true, false, false, true)],
                    usedIDs := s.usedIDs + {newID})
            && r.value == UserReply(t.users[newID]))
  {
    var name := Normalize(username);
    NormalizeAgain(username);
    NamedBy(s, name, newID);
    var u := User(newID, name, HashOf(password), true, false, false, true);
    hide StoreInv, Write, Normalize, UserByName, HasActiveAdmin;
    WriteExact(s, u, UserReply(u));
  }

  // ---------------------------------------------------------------- deletions

  /** The row is gone with its grants and tokens, and nothing else is. */
  ghost predicate Gone(s: State, t: State, id: UserId) {
    && t == s.(users := s.users - {id}, grants := t.grants, tokens := t.tokens)
    && (forall key :: RoleAt(t, key) == if key.0 == id then None else RoleAt(s, key))
    && (forall x :: x in t.tokens <==> x in s.tokens && s.tokens[x].userID != id)
    && (forall x :: x in t.tokens ==> t.tokens[x] == s.tokens[x])
  }

  /** Only the last enabled administrator cannot be deleted. */
  lemma DeleteExact(s: State, actor: Principal, userID: UserId)
    requires StoreInv(s) && actor.isAdmin
    ensures var (t, r) := DeleteUser(s, actor, userID);
      var id := Trim(userID);
      var last := id in s.users && s.users[id].isAdmin && s.users[id].enabled && !AnotherAdmin(s, id);
      && (r == Failure(NotFound) <==> id !in s.users) && (r == Failure(Conflict) <==> last)
      && (r.Success? <==> id in s.users && !last)
      && (if r.Success? then Gone(s, t, id) && r.value == Ack else t == s)
  {
    RemoveExact(s, Trim(userID));
    hide AnotherAdmin, Remove, Gone, Trim, LinksInv;
  }

  lemma RemoveExact(s: State, id: UserId)
    ensures Gone(s, Remove(s, id), id)
  {
  }

  lemma DeleteRobotExact(s: State, actor: Principal, userID: UserId)
    requires actor.isAdmin
    ensures var (t, r) := DeleteRobot(s, actor, userID);
      var id := Trim(userID);
      && (r == Failure(NotFound) <==> id !in s.users)
      && (r == Failure(Invalid) <==> id in s.users && !s.users[id].isRobot)
      && (r.Success? <==> id in s.users && s.users[id].isRobot)
      && (if r.Success? then Gone(s, t, id) && r.value == Ack else t == s)
  {
  }

  // -------------------------------------------------------------------- tokens

  /** A credential lives for the time asked, thirty days when none is asked for, and never longer. */
  lemma CreateTokenExact(s: State, actor: Principal, userID: UserId, ttl: int, secret: Secret, accessor: string)
    requires actor.isAdmin && (Trim(userID) in s.users ==> s.users[Trim(userID)].id == Trim(userID))
    ensures var (t, r) := CreateAdminToken(s, actor, userID, ttl, secret, accessor);
      var id := Trim(userID);
      var usable := id in s.users && s.users[id].enabled;
      && (r == Failure(NotFound) <==> id !in s.users)
      && (r == Failure(Disabled) <==> id in s.users && !s.users[id].enabled)
      && (r == Failure(Invalid) <==> usable && ttl > DEFAULT_ADMIN_TOKEN_TTL)
      && (r.Success? <==>
            usable && ttl <= DEFAULT_ADMIN_TOKEN_TTL && secret !in s.tokens && !AccessorTaken(s, accessor))
      && (r.Failure? ==> t == s)
      && (r.Success? ==>
            var life := if ttl <= 0 then DEFAULT_ADMIN_TOKEN_TTL else ttl;
            && t == s.(tokens := s.tokens[secret := Token(id, AdminCredential, accessor, [], s.clock + life, false,
                                                          ByAdmin)])
            && r.value == CredentialReply(t.tokens[secret], secret))
  {
    hide AccessorTaken;
  }

  /** What a robot request must satisfy before anything is written. */
  ghost predicate AdmissibleRobot(env: Env, s: State, actor: Principal, name: string, repository: string, role: Role) {
    && actor.isAdmin && ValidUsername(Normalize(name)) && !Named(s, Normalize(name))
    && env.validRepository(Trim(repository)) && !role.OtherRole?
  }

  /** The robot and its grant, without a token yet. */
  function WithRobot(s: State, id: UserId, name: string, repo: Repo, role: Role): State {
    s.(users := s.users[id := User(id, name, RobotPassword, false, false, true, true)], usedIDs := s.usedIDs + {id},
       grants := s.grants[(id, repo) := role])
  }

  /**
   Creating a robot is all or nothing for every request but exactly these: an admissible one whose lifetime
   is too long, or whose drawn secret or accessor is taken. The user and its grant then stay behind.
   */
  lemma RobotAllOrNothingIff(env: Env, s: State, actor: Principal, name: string, repository: string, role: Role,
                             ttl: int, newID: UserId, secret: Secret, accessor: string)
    requires StoreInv(s) && NewID(s, newID)
    ensures var (t, r) := CreateRobot(env, s, actor, name, repository, role, ttl, newID, secret, accessor);
      var late := ttl > DEFAULT_ADMIN_TOKEN_TTL || secret in s.tokens || AccessorTaken(s, accessor);
      var admissible := AdmissibleRobot(env, s, actor, name, repository, role);
      var robot := WithRobot(s, newID, Normalize(name), Trim(repository), role);
      var life := if ttl <= 0 then DEFAULT_ADMIN_TOKEN_TTL else ttl;
      && (r.Success? <==> admissible && !late)
      && ((r.Failure? ==> t == s) <==> !(admissible && late))
      && (r.Failure? ==> t == if admissible then robot else s)
      && (r.Success? ==>
            t == robot.(tokens := s.tokens[secret := Token(newID, AdminCredential, accessor, [], s.clock + life, false,
                                                           ByAdmin)])
            && r.value == CredentialReply(t.tokens[secret], secret))
  {
    var robot := WithRobot(s, newID, Normalize(name), Trim(repository), role);
    assert robot != s by { assert newID !in s.users && newID in robot.users; }
    hide StoreInv, CreateAdminToken, AccessorTaken, CreateRobot, AdmissibleRobot, WithRobot, NewID, Normalize;
    RobotPrefix(env, s, actor, name, repository, role, ttl, newID, secret, accessor);
    if actor.isAdmin { RobotToken(s, robot, actor, ttl, newID, secret, accessor); }
  }

  /** The last of the three writes, over a robot that is stored and enabled. */
  lemma RobotToken(s: State, robot: State, actor: Principal, ttl: int, newID: UserId, secret: Secret, accessor: string)
    requires actor.isAdmin && robot.tokens == s.tokens && robot.clock == s.clock && Trim(newID) == newID
    requires newID in robot.users && robot.users[newID].id == newID && robot.users[newID].enabled
    ensures var o := CreateAdminToken(robot, actor, newID, ttl, secret, accessor);
      var life := if ttl <= 0 then DEFAULT_ADMIN_TOKEN_TTL else ttl;
      var token := Token(newID, AdminCredential, accessor, [], s.clock + life, false, ByAdmin);
      if ttl > DEFAULT_ADMIN_TOKEN_TTL || secret in s.tokens || AccessorTaken(s, accessor)
      then o.0 == robot && o.1.Failure?
      else o == (robot.(tokens := s.tokens[secret := token]), Success(CredentialReply(token, secret)))
  {
    assert AccessorTaken(s, accessor) <==> AccessorTaken(robot, accessor) by { SameAccessors(s, robot, accessor); }
    CreateTokenExact(robot, actor, newID, ttl, secret, accessor);
    hide CreateAdminToken, AccessorTaken, Trim;
  }

  lemma RobotPrefix(env: Env, s: State, actor: Principal, name: string, repository: string, role: Role, ttl: int,
                    newID: UserId, secret: Secret, accessor: string)
    requires StoreInv(s) && NewID(s, newID)
    ensures var o := CreateRobot(env, s, actor, name, repository, role, ttl, newID, secret, accessor);
      if AdmissibleRobot(env, s, actor, name, repository, role)
      then actor.isAdmin && o == CreateAdminToken(WithRobot(s, newID, Normalize(name), Trim(repository), role), actor,
                                                  newID, ttl, secret, accessor)
      else o.0 == s && o.1.Failure?
  {
    var username := Normalize(name);
    NormalizeAgain(name);
    NamedBy(s, username, newID);
    hide StoreInv, Normalize, UserByName, CreateAdminToken, ValidUsername;
    WriteExact(s, User(newID, username, RobotPassword, false, false, true, true), Ack);
  }

  lemma SameAccessors(s: State, t: State, accessor: string)
    requires s.tokens == t.tokens
    ensures AccessorTaken(s, accessor) <==> AccessorTaken(t, accessor)
  {
  }

  /** A revocation marks exactly the tokens of the accessor, and fails when none of them is live. */
  lemma RevokeExact(s: State, actor: Principal, accessor: string)
    requires actor.isAdmin
    ensures var (t, r) := RevokeAdminToken(s, actor, accessor);
      && (r.Success? <==>
            exists x :: x in s.tokens && s.tokens[x].accessor == Trim(accessor) && !s.tokens[x].revoked)
      && (r.Failure? ==> t == s && r.error == NotFound)
      && (r.Success? ==>
            && t == s.(tokens := t.tokens) && t.tokens.Keys == s.tokens.Keys
            && forall x :: x in s.tokens ==>
                 t.tokens[x] == (if s.tokens[x].accessor == Trim(accessor) then s.tokens[x].(revoked := true)
                                 else s.tokens[x]))
  {
    if x :| Revocable(s, x, Trim(accessor)) {
      assert x in s.tokens && s.tokens[x].accessor == Trim(accessor) && !s.tokens[x].revoked;
    }
    if x :| x in s.tokens && s.tokens[x].accessor == Trim(accessor) && !s.tokens[x].revoked {
      assert Revocable(s, x, Trim(accessor));
    }
  }

  // -------------------------------------------------------------------- grants

  /** One grant is set, or removed, and nothing else is changed. */
  ghost predicate GrantIs(s: State, t: State, key: (UserId, Repo), role: Option<Role>) {
    t == s.(grants := t.grants) && forall k :: RoleAt(t, k) == if k == key then role else RoleAt(s, k)
  }

  /** A global administrator's grant: the user is looked up by the trimmed identifier but stored under the given one. */
  lemma PutRepoGrantExact(env: Env, s: State, actor: Principal, userID: UserId, repository: string, role: Role)
    requires StoreInv(s) && actor.isAdmin
    ensures var (t, r) := PutRepoGrant(env, s, actor, userID, repository, role);
      var good := env.validRepository(Trim(repository)) && !role.OtherRole?;
      && (r == Failure(NotFound) <==> Trim(userID) !in s.users)
      && (r == Failure(Invalid) <==> Trim(userID) in s.users && !good)
      && (r.Success? <==> userID in s.users && good)
      && (r.Failure? ==> t == s)
      && (r.Success? ==> GrantIs(s, t, (userID, Trim(repository)), Some(role))
                         && r.value == GrantReply(userID, Trim(repository), role))
  {
  }

  lemma DeleteRepoGrantExact(env: Env, s: State, actor: Principal, userID: UserId, repository: string)
    requires StoreInv(s) && actor.isAdmin
    ensures var (t, r) := DeleteRepoGrant(env, s, actor, userID, repository);
      var (id, repo) := (Trim(userID), Trim(repository));
      && (r == Failure(Invalid) <==> id in s.users && !env.validRepository(repo))
      && (r.Success? <==> env.validRepository(repo) && RoleAt(s, (id, repo)).Some?)
      && (r.Failure? ==> t == s && (r.error.Invalid? || r.error.NotFound?))
      && (r.Success? ==> GrantIs(s, t, (id, repo), None) && r.value == Ack)
  {
    DropGrantExact(s, userID, Trim(repository));
    hide Trim, GrantIs, DropGrant, UsersInv;
  }

  /** Who may grant on the repository, and what a repository administrator may not touch. */
  predicate MayGrant(actor: Principal, repo: Repo) { actor.isAdmin || Grant(repo, RepoAdmin) in actor.grants }

  ghost predicate Peer(s: State, actor: Principal, id: UserId, repo: Repo) {
    !actor.isAdmin && RoleAt(s, (id, repo)) == Some(RepoAdmin)
  }

  lemma PutRepositoryGrantExact(env: Env, s: State, actor: Principal, repository: string, username: string, role: Role,
                                id: UserId)
    requires StoreInv(s) && HasName(s, id, Normalize(username))
    ensures var (t, r) := PutRepositoryGrant(env, s, actor, repository, username, role);
      var repo := Trim(repository);
      && (r == Failure(Invalid) <==> !env.validRepository(repo) || (MayGrant(actor, repo) && role.OtherRole?))
      && (r.Success? <==> env.validRepository(repo) && MayGrant(actor, repo) && !role.OtherRole?
                          && (actor.isAdmin || !role.RepoAdmin?) && !Peer(s, actor, id, repo))
      && (r.Failure? ==> t == s && (r.error.Invalid? || r.error.Forbidden?))
      && (r.Success? ==> GrantIs(s, t, (id, repo), Some(role)) && r.value == GrantReply(id, repo, role))
  {
    NormalizeAgain(username);
    NamedBy(s, Normalize(username), id);
    assert UserByName(s, username) == Some(s.users[id]) && s.users[id].id == id;
    PutGrantExact(s, id, Trim(repository), role);
    hide Normalize, UserByName, StoreInv, Trim, GrantIs, PutGrant;
  }

  lemma PutGrantExact(s: State, id: UserId, repo: Repo, role: Role)
    requires id in s.users
    ensures var (t, r) := PutGrant(s, id, repo, role);
      GrantIs(s, t, (id, repo), Some(role)) && r == Success(GrantReply(id, repo, role))
  {
  }

  lemma DropGrantExact(s: State, id: UserId, repo: Repo)
    ensures DropGrant(s, id, repo).1 == if RoleAt(s, (Trim(id), repo)).Some? then Success(Ack) else Failure(NotFound)
    ensures if DropGrant(s, id, repo).1.Success? then GrantIs(s, DropGrant(s, id, repo).0, (Trim(id), repo), None)
      else DropGrant(s, id, repo).0 == s
  {
    hide Trim;
  }

  lemma DeleteRepositoryGrantExact(env: Env, s: State, actor: Principal, repository: string, username: string,
                                   id: UserId)
    requires StoreInv(s) && HasName(s, id, Normalize(username))
    ensures var (t, r) := DeleteRepositoryGrant(env, s, actor, repository, username);
      var repo := Trim(repository);
      var allowed := env.validRepository(repo) && MayGrant(actor, repo) && !Peer(s, actor, id, repo);
      && (r == Failure(Invalid) <==> !env.validRepository(repo))
      && (r == Failure(NotFound) <==> allowed && RoleAt(s, (id, repo)).None?)
      && (r.Success? <==> allowed && RoleAt(s, (id, repo)).Some?)
      && (r.Failure? ==> t == s && (r.error.Invalid? || r.error.NotFound? || r.error.Forbidden?))
      && (r.Success? ==> GrantIs(s, t, (id, repo), None) && r.value == Ack)
  {
    NormalizeAgain(username);
    NamedBy(s, Normalize(username), id);
    assert UserByName(s, username) == Some(s.users[id]) && Trim(id) == id && s.users[id].id == id;
    hide Normalize, UserByName, StoreInv, Trim, GrantIs;
    DropGrantExact(s, id, Trim(repository));
    hide DropGrant;
  }

  /** An unknown name is granted nothing and loses nothing. */
  lemma UnknownGrantee(env: Env, s: State, actor: Principal, repository: string, username: string, role: Role)
    requires StoreInv(s) && !Named(s, Normalize(username))
    ensures PutRepositoryGrant(env, s, actor, repository, username, role).0 == s
    ensures PutRepositoryGrant(env, s, actor, repository, username, role).1.Failure?
    ensures DeleteRepositoryGrant(env, s, actor, repository, username).0 == s
    ensures DeleteRepositoryGrant(env, s, actor, repository, username).1.Failure?
  {
    NormalizeAgain(username);
    NamedBy(s, Normalize(username), "");
    assert UserByName(s, username).None?;
    hide Normalize, UserByName, StoreInv;
  }
}
