/**
 The auth service over its store, call by call. Each method makes the source's checks in the source's
 order and leaves exactly the state, and returns exactly the reply, of the corresponding step.
 */
module AuthService {
  import opened Wrappers
  import opened Ordering
  import opened Text
  import opened TokenScopes
  import M = AuthModel
  import Inv = AuthInvariants
  import Props = AuthProperties

  type Answer = Result<M.Reply, M.AuthError>

  /** The user listing: every person once, no robots. */
  ghost predicate ListsPeople(s: M.State, people: seq<M.User>) {
    forall u :: u in people <==> u.id in s.users && s.users[u.id] == u && !u.isRobot
  }

  lemma OtherAdminFound(s: M.State, people: seq<M.User>, i: nat, exceptID: M.UserId)
    requires ListsPeople(s, people) && i < |people| && people[i].id != exceptID && people[i].isAdmin
      && people[i].enabled
    ensures M.AnotherAdmin(s, exceptID)
  {
    assert people[i] in people;
    assert M.HumanAdmin(s, people[i].id);
  }

  lemma NoOtherAdmin(s: M.State, people: seq<M.User>, exceptID: M.UserId)
    requires M.StoreInv(s) && ListsPeople(s, people)
    requires forall k :: 0 <= k < |people| ==> people[k].id == exceptID || !(people[k].isAdmin && people[k].enabled)
    ensures !M.AnotherAdmin(s, exceptID)
  {
    forall id | M.HumanAdmin(s, id) ensures id == exceptID { assert s.users[id] in people; }
  }

  /** The grants of a user, once each and sorted, are the store's one listing. */
  lemma OrderedListing(s: M.State, userID: M.UserId, found: seq<Grant>)
    requires DistinctKeys(TokenScopes.RepositoryOf, found)
    requires forall g :: g in found <==> M.IsGrant(s, userID, g)
    ensures SortBy(TokenScopes.RepositoryOf, found) == M.GrantList(s, userID)
    ensures UniqueGrants(SortBy(TokenScopes.RepositoryOf, found))
  {
    var listing := SortBy(TokenScopes.RepositoryOf, found);
    SortByStrict(TokenScopes.RepositoryOf, found);
    assert forall g :: g in listing <==> g in multiset(listing);
    assert forall g :: g in found <==> g in multiset(found);
    Props.GrantListExact(s, userID);
    Props.SameListing(s, userID, listing, M.GrantList(s, userID));
    forall i, j | 0 <= i < j < |listing| ensures listing[i].repository != listing[j].repository {
      LessIrreflexive(listing[i].repository);
      assert Less(TokenScopes.RepositoryOf(listing[i]), TokenScopes.RepositoryOf(listing[j]));
    }
  }

  class Service {
    const env: M.Env
    var users: map<M.UserId, M.User>
    var grants: map<(M.UserId, M.Repo), Role>
    var tokens: map<M.Secret, M.Token>
    var clock: int
    ghost var usedIDs: set<M.UserId>

    constructor (env: M.Env, clock: int)
      ensures Valid() && this.env == env && State() == M.State(map[], map[], map[], clock, {})
    {
      this.env := env;
      users, grants, tokens, this.clock, usedIDs := map[], map[], map[], clock, {};
    }

    ghost function State(): M.State
      reads this
    {
      M.State(users, grants, tokens, clock, usedIDs)
    }

    ghost predicate Valid()
      reads this
    {
      M.StoreInv(State())
    }

    // ----------------------------------------------------------------- store

    method GetUserByUsername(username: string) returns (r: Option<M.User>)
      requires Valid()
      ensures r == M.UserByName(State(), username)
    {
      var name := M.Normalize(username);
      var pending := users.Keys;
      while pending != {}
        invariant pending <= users.Keys
        invariant forall id :: id in users && id !in pending ==> users[id].username != name
        decreases |pending|
      {
        var id :| id in pending;
        pending := pending - {id};
        if users[id].username == name {
          assert M.HasName(State(), id, name);
          return Some(users[id]);
        }
      }
      return None;
    }

    method ListUsers() returns (people: seq<M.User>)
      requires Valid()
      ensures ListsPeople(State(), people)
    {
      people := [];
      var pending := users.Keys;
      while pending != {}
        invariant pending <= users.Keys
        invariant forall u :: u in people <==> u.id in users.Keys - pending && users[u.id] == u && !u.isRobot
        decreases |pending|
      {
        var id :| id in pending;
        pending := pending - {id};
        if !users[id].isRobot { people := people + [users[id]]; }
      }
    }

    method HasActiveGlobalAdmin() returns (found: bool)
      ensures found <==> M.HasActiveAdmin(State())
    {
      var pending := users.Keys;
      while pending != {}
        invariant pending <= users.Keys
        invariant forall id :: id in users && id !in pending ==> !(users[id].isAdmin && users[id].enabled)
        decreases |pending|
      {
        var id :| id in pending;
        pending := pending - {id};
        if users[id].isAdmin && users[id].enabled {
          assert M.ActiveAdmin(State(), id);
          return true;
        }
      }
      return false;
    }

    method NameTaken(name: string, exceptID: M.UserId) returns (taken: bool)
      ensures taken <==> exists id :: M.HasName(State(), id, name) && id != exceptID
    {
      var pending := users.Keys;
      while pending != {}
        invariant pending <= users.Keys
        invariant forall id :: id in users && id !in pending && id != exceptID ==> users[id].username != name
        decreases |pending|
      {
        var id :| id in pending;
        pending := pending - {id};
        if id != exceptID && users[id].username == name {
          assert M.HasName(State(), id, name);
          return true;
        }
      }
      return false;
    }

    /** INSERT ... ON CONFLICT(id) DO UPDATE, after the row has been validated. */
    method UpsertUser(user: M.User) returns (error: Option<M.AuthError>)
      modifies this
      ensures match M.Upsert(old(State()), user)
        case Failure(e) => error == Some(e) && State() == old(State())
        case Success(t) => error == None && State() == t
    {
      var row := user.(username := M.Normalize(user.username));
      if !M.ValidUser(row) { return Some(M.Invalid); }
      ghost var before := State();
      var taken := NameTaken(row.username, row.id);
      assert State() == before;
      if taken { return Some(M.StoreFailed); }
      users := users[row.id := row];
      usedIDs := usedIDs + {row.id};
      return None;
    }

    method DeleteUserRow(userID: M.UserId)
      modifies this
      ensures State() == M.Remove(old(State()), Trim(userID))
    {
      var id := Trim(userID);
      grants := map key | key in grants && key.0 != id :: grants[key];
      tokens := map secret | secret in tokens && tokens[secret].userID != id :: tokens[secret];
      users := users - {id};
    }

    /** Ascending by repository; the primary key makes each repository appear once. */
    method ListRepoGrants(userID: M.UserId) returns (listing: seq<Grant>)
      ensures listing == M.GrantList(State(), userID)
      ensures UniqueGrants(listing)
    {
      var found: seq<Grant> := [];
      var pending := grants.Keys;
      while pending != {}
        invariant pending <= grants.Keys && DistinctKeys(TokenScopes.RepositoryOf, found)
        invariant forall g :: g in found <==> M.IsGrant(State(), userID, g) && (userID, g.repository) !in pending
        decreases |pending|
      {
        var key :| key in pending;
        pending := pending - {key};
        if key.0 == userID {
          assert forall i :: 0 <= i < |found| ==> found[i] in found;
          found := found + [Grant(key.1, grants[key])];
        }
      }
      listing := SortBy(TokenScopes.RepositoryOf, found);
      OrderedListing(State(), userID, found);
    }

    method PutGrantRow(userID: M.UserId, repo: M.Repo, role: Role) returns (r: Answer)
      modifies this
      ensures (State(), r) == M.PutGrant(old(State()), userID, repo, role)
    {
      if userID !in users { return Failure(M.StoreFailed); }
      grants := grants[(userID, repo) := role];
      return Success(M.GrantReply(userID, repo, role));
    }

    method DeleteGrantRow(userID: M.UserId, repo: M.Repo) returns (r: Answer)
      modifies this
      ensures (State(), r) == M.DropGrant(old(State()), userID, repo)
    {
      var key := (Trim(userID), repo);
      if key !in grants { return Failure(M.NotFound); }
      grants := grants - {key};
      return Success(M.Ack);
    }

    method AccessorInUse(accessor: string) returns (used: bool)
      ensures used <==> M.AccessorTaken(State(), accessor)
    {
      var pending := tokens.Keys;
      while pending != {}
        invariant pending <= tokens.Keys
        invariant forall x :: x in tokens && x !in pending ==> tokens[x].accessor != accessor
        decreases |pending|
      {
        var x :| x in pending;
        pending := pending - {x};
        if tokens[x].accessor == accessor { return true; }
      }
      return false;
    }

    method CreateToken(secret: M.Secret, token: M.Token) returns (ok: bool)
      modifies this
      ensures match M.StoreToken(old(State()), secret, token)
        case None => !ok && State() == old(State())
        case Some(t) => ok && State() == t
    {
      var used := AccessorInUse(token.accessor);
      if secret in tokens || used || token.userID !in users { return false; }
      tokens := tokens[secret := token];
      return true;
    }

    // --------------------------------------------------------------- helpers

    /** The guard of every demotion, disabling and deletion. */
    method EnsureAnotherActiveAdmin(exceptUserID: M.UserId, includeTarget: bool) returns (error: Option<M.AuthError>)
      requires Valid()
      ensures error == if includeTarget && !M.AnotherAdmin(State(), exceptUserID) then Some(M.Conflict) else None
    {
      hide M.StoreInv, M.AnotherAdmin, ListsPeople;
      var people := ListUsers();
      for i := 0 to |people|
        invariant forall k :: 0 <= k < i ==> people[k].id == exceptUserID || !(people[k].isAdmin && people[k].enabled)
      {
        var user := people[i];
        if user.id == exceptUserID { continue; }
        if user.isAdmin && user.enabled {
          OtherAdminFound(State(), people, i, exceptUserID);
          return None;
        }
      }
      NoOtherAdmin(State(), people, exceptUserID);
      if includeTarget { return Some(M.Conflict); }
      return None;
    }

    method GetActiveUserByUsername(username: string) returns (r: Result<M.User, M.AuthError>)
      requires Valid()
      ensures r == M.ActiveUser(State(), username)
    {
      var user := GetUserByUsername(username);
      if user.None? { return Failure(M.InvalidCredentials); }
      if !user.value.enabled { return Failure(M.Disabled); }
      return Success(user.value);
    }

    method IssueAccessToken(user: M.User, requested: seq<Scope>, origin: M.Origin, secret: M.Secret, accessor: string)
      returns (r: Answer)
      modifies this
      ensures (State(), r) == M.Issue(old(State()), user, requested, origin, secret, accessor)
    {
      var grants := ListRepoGrants(user.id);
      var granted := GrantedScopes(user.isAdmin, user.isReadOnly, grants, requested);
      var scope := NormalizeScopes(granted);
      assert scope == M.TokenField(granted) by { NormalFormCanonical(granted, granted, scope, M.TokenField(granted)); }
      var token := M.Token(user.id, M.Access, accessor, scope, clock + M.ACCESS_TOKEN_TTL, false, origin);
      var ok := CreateToken(secret, token);
      if !ok { return Failure(M.StoreFailed); }
      var principal := M.Principal(user.id, user.isAdmin, user.isReadOnly, grants, token.scope, token.expiresAt);
      return Success(M.LoginReply(principal, token, secret));
    }

    // ----------------------------------------------------------------- users

    method BootstrapAdmin(username: string, password: string, rotate: bool, newID: M.UserId) returns (r: Answer)
      requires Valid() && M.NewID(State(), newID)
      modifies this
      ensures Valid() && (State(), r) == M.BootstrapAdmin(old(State()), username, password, rotate, newID)
    {
      Inv.BootstrapKeeps(State(), username, password, rotate, newID);
      hide M.StoreInv, M.Upsert, M.UserByName, M.HasActiveAdmin;
      var name := M.Normalize(username);
      if name == "" { return Failure(M.Invalid); }
      if !M.ValidPassword(password) { return Failure(M.Invalid); }
      var existing := GetUserByUsername(name);
      if existing.Some? {
        var user := existing.value;
        if !user.isAdmin {
          var hasOther := HasActiveGlobalAdmin();
          if hasOther { return Failure(M.Conflict); }
        }
        var updated := user.(username := name, isAdmin := true, enabled := true);
        if rotate {
          var hash := M.HashPassword(password);
          if hash.None? { return Failure(M.Invalid); }
          updated := updated.(passwordHash := hash.value);
        }
        var error := UpsertUser(updated);
        if error.Some? { return Failure(error.value); }
        return Success(M.UserReply(updated));
      }
      var hasAdmin := HasActiveGlobalAdmin();
      if hasAdmin { return Failure(M.Conflict); }
      var hash := M.HashPassword(password);
      if hash.None? { return Failure(M.Invalid); }
      var user := M.User(newID, name, hash.value, true, false, false, true);
      var error := UpsertUser(user);
      if error.Some? { return Failure(error.value); }
      return Success(M.UserReply(user));
    }

    method CreateUser(actor: M.Principal, username: string, password: string, isAdmin: bool, isReadOnly: bool,
                      enabled: bool, newID: M.UserId)
      returns (r: Answer)
      requires Valid() && M.NewID(State(), newID)
      modifies this
      ensures Valid()
      ensures (State(), r) == M.CreateUser(old(State()), actor, username, password, isAdmin, isReadOnly, enabled, newID)
    {
      Inv.CreateUserKeeps(State(), actor, username, password, isAdmin, isReadOnly, enabled, newID);
      hide M.StoreInv, M.Upsert, M.UserByName;
      if !actor.isAdmin { return Failure(M.Forbidden); }
      var name := M.Normalize(username);
      if name == "" { return Failure(M.Invalid); }
      if !M.ValidPassword(password) { return Failure(M.Invalid); }
      var existing := GetUserByUsername(name);
      if existing.Some? { return Failure(M.Conflict); }
      var hash := M.HashPassword(password);
      if hash.None? { return Failure(M.Invalid); }
      var user := M.User(newID, name, hash.value, isAdmin, isReadOnly, false, enabled);
      var error := UpsertUser(user);
      if error.Some? { return Failure(error.value); }
      return Success(M.UserReply(user));
    }

    method UpdateUser(actor: M.Principal, userID: M.UserId, username: string, isAdmin: bool,
                      isReadOnly: bool) returns (r: Answer)
      requires Valid()
      modifies this
      ensures Valid() && (State(), r) == M.UpdateUser(old(State()), actor, userID, username, isAdmin, isReadOnly)
    {
      Inv.UpdateKeeps(State(), actor, userID, username, isAdmin, isReadOnly);
      hide M.StoreInv, M.Upsert, M.UserByName, M.AnotherAdmin;
      if !actor.isAdmin { return Failure(M.Forbidden); }
      if Trim(userID) !in users { return Failure(M.NotFound); }
      var user := users[Trim(userID)];
      var nextUsername := M.Normalize(username);
      if nextUsername == "" { nextUsername := user.username; }
      if nextUsername != user.username {
        var other := GetUserByUsername(nextUsername);
        if other.Some? && other.value.id != user.id { return Failure(M.Conflict); }
      }
      if user.isAdmin && !isAdmin {
        var error := EnsureAnotherActiveAdmin(user.id, user.enabled);
        if error.Some? { return Failure(error.value); }
      }
      user := user.(username := nextUsername, isAdmin := isAdmin, isReadOnly := isReadOnly);
      var error := UpsertUser(user);
      if error.Some? { return Failure(error.value); }
      return Success(M.UserReply(user));
    }

    method SetUserEnabled(actor: M.Principal, userID: M.UserId, enabled: bool) returns (r: Answer)
      requires Valid()
      modifies this
      ensures Valid() && (State(), r) == M.SetUserEnabled(old(State()), actor, userID, enabled)
    {
      Inv.EnableKeeps(State(), actor, userID, enabled);
      hide M.StoreInv, M.Upsert, M.AnotherAdmin;
      if !actor.isAdmin { return Failure(M.Forbidden); }
      if Trim(userID) !in users { return Failure(M.NotFound); }
      var user := users[Trim(userID)];
      if user.isAdmin && user.enabled && !enabled {
        var error := EnsureAnotherActiveAdmin(user.id, true);
        if error.Some? { return Failure(error.value); }
      }
      user := user.(enabled := enabled);
      var error := UpsertUser(user);
      if error.Some? { return Failure(error.value); }
      return Success(M.UserReply(user));
    }

    method DeleteUser(actor: M.Principal, userID: M.UserId) returns (r: Answer)
      requires Valid()
      modifies this
      ensures Valid() && (State(), r) == M.DeleteUser(old(State()), actor, userID)
    {
      Inv.DeleteKeeps(State(), actor, userID);
      hide M.StoreInv, M.AnotherAdmin, M.Remove;
      if !actor.isAdmin { return Failure(M.Forbidden); }
      if Trim(userID) !in users { return Failure(M.NotFound); }
      var user := users[Trim(userID)];
      if user.isAdmin && user.enabled {
        var error := EnsureAnotherActiveAdmin(user.id, true);
        if error.Some? { return Failure(error.value); }
      }
      DeleteUserRow(userID);
      return Success(M.Ack);
    }

    method DeleteRobot(actor: M.Principal, userID: M.UserId) returns (r: Answer)
      requires Valid()
      modifies this
      ensures Valid() && (State(), r) == M.DeleteRobot(old(State()), actor, userID)
    {
      Inv.DeleteKeeps(State(), actor, userID);
      hide M.StoreInv, M.Remove;
      if !actor.isAdmin { return Failure(M.Forbidden); }
      if Trim(userID) !in users { return Failure(M.NotFound); }
      if !users[Trim(userID)].isRobot { return Failure(M.Invalid); }
      DeleteUserRow(userID);
      return Success(M.Ack);
    }

    method ResetPassword(actor: M.Principal, userID: M.UserId, newPassword: string) returns (r: Answer)
      requires Valid()
      modifies this
      ensures Valid() && (State(), r) == M.ResetPassword(old(State()), actor, userID, newPassword)
    {
      Inv.ResetKeeps(State(), actor, userID, newPassword);
      hide M.StoreInv, M.Upsert;
      if !actor.isAdmin { return Failure(M.Forbidden); }
      if !M.ValidPassword(newPassword) { return Failure(M.Invalid); }
      if Trim(userID) !in users { return Failure(M.NotFound); }
      var user := users[Trim(userID)];
      var hash := M.HashPassword(newPassword);
      if hash.None? { return Failure(M.Invalid); }
      user := user.(passwordHash := hash.value);
      var error := UpsertUser(user);
      if error.Some? { return Failure(error.value); }
      return Success(M.Ack);
    }

    // --------------------------------------------------------------- credentials

    method LoginWithPassword(username: string, password: string, requested: seq<Scope>, secret: M.Secret,
                             accessor: string) returns (r: Answer)
      requires Valid()
      modifies this
      ensures Valid()
      ensures (State(), r) == M.LoginWithPassword(old(State()), username, password, requested, secret, accessor)
    {
      Inv.LoginKeeps(State(), username, password, "", requested, secret, accessor);
      hide M.StoreInv, M.Issue, M.ActiveUser;
      var user := GetActiveUserByUsername(username);
      if user.Failure? { return Failure(user.error); }
      if user.value.isRobot { return Failure(M.InvalidCredentials); }
      if !M.PasswordMatches(user.value.passwordHash, password) { return Failure(M.InvalidCredentials); }
      r := IssueAccessToken(user.value, requested, M.ByPassword, secret, accessor);
    }

    method LoginWithPreissuedToken(username: string, credential: M.Secret, requested: seq<Scope>, secret: M.Secret,
                                   accessor: string)
      returns (r: Answer)
      requires Valid()
      modifies this
      ensures Valid()
      ensures (State(), r) == M.LoginWithPreissuedToken(old(State()), username, credential, requested, secret, accessor)
    {
      Inv.LoginKeeps(State(), username, "", credential, requested, secret, accessor);
      hide M.StoreInv, M.Issue, M.ActiveUser;
      var user := GetActiveUserByUsername(username);
      if user.Failure? { return Failure(user.error); }
      if credential !in tokens || tokens[credential].kind != M.AdminCredential { return Failure(M.InvalidCredentials); }
      var stored := tokens[credential];
      if stored.userID != user.value.id { return Failure(M.InvalidCredentials); }
      var inactive := M.Inactive(stored, clock);
      if inactive.Some? { return Failure(inactive.value); }
      r := IssueAccessToken(user.value, requested, M.ByPreissuedToken, secret, accessor);
    }

    method VerifyAccessToken(bearer: M.Secret) returns (r: Answer)
      requires Valid()
      ensures r == M.VerifyAccessToken(State(), bearer)
    {
      hide M.StoreInv, M.GrantList;
      if bearer !in tokens || tokens[bearer].kind != M.Access { return Failure(M.InvalidCredentials); }
      var stored := tokens[bearer];
      var inactive := M.Inactive(stored, clock);
      if inactive.Some? { return Failure(inactive.value); }
      if Trim(stored.userID) !in users { return Failure(M.NotFound); }
      var user := users[Trim(stored.userID)];
      if !user.enabled { return Failure(M.Disabled); }
      var grants := ListRepoGrants(user.id);
      var principal := M.Principal(user.id, user.isAdmin, user.isReadOnly, grants, stored.scope, stored.expiresAt);
      return Success(M.PrincipalReply(principal));
    }

    method CreateAdminToken(actor: M.Principal, userID: M.UserId, ttl: int, secret: M.Secret,
                            accessor: string) returns (r: Answer)
      requires Valid()
      modifies this
      ensures Valid() && (State(), r) == M.CreateAdminToken(old(State()), actor, userID, ttl, secret, accessor)
    {
      Inv.CreateTokenInv(State(), actor, userID, ttl, secret, accessor);
      hide M.StoreInv, M.StoreToken;
      if !actor.isAdmin { return Failure(M.Forbidden); }
      if Trim(userID) !in users { return Failure(M.NotFound); }
      var user := users[Trim(userID)];
      if !user.enabled { return Failure(M.Disabled); }
      var life := ttl;
      if life <= 0 { life := M.DEFAULT_ADMIN_TOKEN_TTL; }
      if life > M.DEFAULT_ADMIN_TOKEN_TTL { return Failure(M.Invalid); }
      var token := M.Token(user.id, M.AdminCredential, accessor, [], clock + life, false, M.ByAdmin);
      assert M.CreateAdminToken(State(), actor, userID, ttl, secret, accessor)
          == match M.StoreToken(State(), secret, token)
             case None => (State(), Failure(M.StoreFailed))
             case Some(t) => (t, Success(M.CredentialReply(token, secret)));
      hide M.CreateAdminToken;
      var ok := CreateToken(secret, token);
      if !ok { return Failure(M.StoreFailed); }
      return Success(M.CredentialReply(token, secret));
    }

    method RevokeAdminToken(actor: M.Principal, accessor: string) returns (r: Answer)
      requires Valid()
      modifies this
      ensures Valid() && (State(), r) == M.RevokeAdminToken(old(State()), actor, accessor)
    {
      Inv.RevokeKeeps(State(), actor, accessor);
      hide M.StoreInv, M.Revocable, M.RevokedTokens;
      if !actor.isAdmin { return Failure(M.Forbidden); }
      var found := RevokeTokenByAccessor(Trim(accessor));
      if !found { return Failure(M.NotFound); }
      return Success(M.Ack);
    }

    /** UPDATE the live tokens of the accessor. */
    method RevokeTokenByAccessor(accessor: string) returns (found: bool)
      modifies this
      ensures found <==> exists x :: M.Revocable(old(State()), x, accessor)
      ensures State()
        == if found then old(State()).(tokens := M.RevokedTokens(old(State()), accessor)) else old(State())
    {
      ghost var before := State();
      var affected := set x | x in tokens && tokens[x].accessor == accessor && !tokens[x].revoked;
      assert forall x :: x in affected <==> M.Revocable(before, x, accessor);
      if affected == {} { return false; }
      ghost var some :| some in affected;
      tokens := map x | x in tokens :: if x in affected then tokens[x].(revoked := true) else tokens[x];
      return true;
    }

    method CreateRobot(actor: M.Principal, name: string, repository: string, role: Role, ttl: int,
                       newID: M.UserId, secret: M.Secret, accessor: string)
      returns (r: Answer)
      requires Valid() && M.NewID(State(), newID)
      modifies this
      ensures Valid()
      ensures (State(), r) == M.CreateRobot(env, old(State()), actor, name, repository, role, ttl, newID, secret,
        accessor)
    {
      Inv.RobotKeeps(env, State(), actor, name, repository, role, ttl, newID, secret, accessor);
      hide M.Upsert, M.UserByName, M.CreateAdminToken;
      if !actor.isAdmin { return Failure(M.Forbidden); }
      var username := M.Normalize(name);
      if username == "" { return Failure(M.Invalid); }
      var existing := GetUserByUsername(username);
      if existing.Some? { return Failure(M.Conflict); }
      var repo := M.ParseRepository(env, repository);
      if repo.None? { return Failure(M.Invalid); }
      if !role.Valid() { return Failure(M.Invalid); }
      var user := M.User(newID, username, M.RobotPassword, false, false, true, true);
      ghost var before := State();
      var error := UpsertUser(user);
      if error.Some? { return Failure(error.value); }
      ghost var between := State();
      assert M.StoreInv(between) by {
        if Inv.HasHumanAdmin(before) { Inv.AdminCounts(before, newID); }
        Inv.UpsertKeeps(before, user);
      }
      var granted := PutGrantRow(user.id, repo.value, role);
      assert M.StoreInv(State()) by { Inv.PutGrantKeeps(between, newID, repo.value, role); }
      r := CreateAdminToken(actor, user.id, ttl, secret, accessor);
    }

    // ---------------------------------------------------------------- grants

    method PutRepoGrant(actor: M.Principal, userID: M.UserId, repository: string, role: Role) returns (r: Answer)
      requires Valid()
      modifies this
      ensures Valid() && (State(), r) == M.PutRepoGrant(env, old(State()), actor, userID, repository, role)
    {
      Inv.KeptItself(State());
      Inv.PutGrantKeeps(State(), userID, Trim(repository), role);
      hide M.StoreInv, M.PutGrant;
      if !actor.isAdmin { return Failure(M.Forbidden); }
      if Trim(userID) !in users { return Failure(M.NotFound); }
      var repo := M.ParseRepository(env, repository);
      if repo.None? { return Failure(M.Invalid); }
      if !role.Valid() { return Failure(M.Invalid); }
      r := PutGrantRow(userID, repo.value, role);
    }

    method DeleteRepoGrant(actor: M.Principal, userID: M.UserId, repository: string) returns (r: Answer)
      requires Valid()
      modifies this
      ensures Valid() && (State(), r) == M.DeleteRepoGrant(env, old(State()), actor, userID, repository)
    {
      Inv.PutGrantKeeps(State(), userID, Trim(repository), Reader);
      hide M.StoreInv, M.DropGrant;
      if !actor.isAdmin { return Failure(M.Forbidden); }
      if Trim(userID) !in users { return Failure(M.NotFound); }
      var repo := M.ParseRepository(env, repository);
      if repo.None? { return Failure(M.Invalid); }
      r := DeleteGrantRow(userID, repo.value);
    }

    method RequireAdminOrRepoAdmin(actor: M.Principal, repo: M.Repo) returns (ok: bool)
      ensures ok <==> actor.isAdmin || M.Administers(actor, repo)
    {
      if actor.isAdmin { return true; }
      for i := 0 to |actor.grants|
        invariant forall k :: 0 <= k < i ==> actor.grants[k] != Grant(repo, RepoAdmin)
      {
        if actor.grants[i].repository == repo && actor.grants[i].role.AllowsAdmin() { return true; }
      }
      return false;
    }

    /** Does the target already administer the repository? */
    method HasPeerAdmin(userID: M.UserId, repo: M.Repo) returns (found: bool)
      ensures found <==> M.IsPeerAdmin(State(), userID, repo)
    {
      var existing := ListRepoGrants(userID);
      Props.GrantListExact(State(), userID);
      for i := 0 to |existing|
        invariant forall k :: 0 <= k < i ==> existing[k] != Grant(repo, RepoAdmin)
      {
        if existing[i].repository == repo && existing[i].role == RepoAdmin {
          assert existing[i] in existing;
          assert M.IsGrant(State(), userID, existing[i]);
          return true;
        }
      }
      assert !M.IsGrant(State(), userID, Grant(repo, RepoAdmin));
      return false;
    }

    method PutRepositoryGrant(actor: M.Principal, repository: string, username: string, role: Role) returns (r: Answer)
      requires Valid()
      modifies this
      ensures Valid() && (State(), r) == M.PutRepositoryGrant(env, old(State()), actor, repository, username, role)
    {
      Inv.DelegateInv(env, State(), actor, repository, username, role);
      hide M.StoreInv, M.PutGrant, M.UserByName, M.IsPeerAdmin, M.Administers;
      var repo := M.ParseRepository(env, repository);
      if repo.None? { return Failure(M.Invalid); }
      var allowed := RequireAdminOrRepoAdmin(actor, repo.value);
      if !allowed { return Failure(M.Forbidden); }
      if !role.Valid() { return Failure(M.Invalid); }
      if !actor.isAdmin && role == RepoAdmin { return Failure(M.Forbidden); }
      var target := GetUserByUsername(username);
      if target.None? { return Failure(M.NotFound); }
      if !actor.isAdmin {
        var peer := HasPeerAdmin(target.value.id, repo.value);
        if peer { return Failure(M.Forbidden); }
      }
      r := PutGrantRow(target.value.id, repo.value, role);
    }

    method DeleteRepositoryGrant(actor: M.Principal, repository: string, username: string) returns (r: Answer)
      requires Valid()
      modifies this
      ensures Valid() && (State(), r) == M.DeleteRepositoryGrant(env, old(State()), actor, repository, username)
    {
      Inv.DelegateInv(env, State(), actor, repository, username, Reader);
      hide M.StoreInv, M.DropGrant, M.UserByName, M.IsPeerAdmin, M.Administers;
      var repo := M.ParseRepository(env, repository);
      if repo.None? { return Failure(M.Invalid); }
      var allowed := RequireAdminOrRepoAdmin(actor, repo.value);
      if !allowed { return Failure(M.Forbidden); }
      var target := GetUserByUsername(username);
      if target.None? { return Failure(M.NotFound); }
      if !actor.isAdmin {
        var peer := HasPeerAdmin(target.value.id, repo.value);
        if peer { return Failure(M.Forbidden); }
      }
      r := DeleteGrantRow(target.value.id, repo.value);
    }
  }
}
