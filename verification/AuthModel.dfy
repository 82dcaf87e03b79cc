/**
 The auth service as a state machine: users, repository grants, tokens and the clock, and one atomic
 step per service call. Password hashing is injective, random identifiers and secrets never repeat.
 */
module AuthModel {
  import opened Wrappers
  import opened Ordering
  import opened Text
  import opened TokenScopes

  type UserId = string
  type Repo = string
  type Secret = string

  // Times are nanoseconds.
  const MINUTE: int := 60_000_000_000
  const ACCESS_TOKEN_TTL: int := 15 * MINUTE
  const DEFAULT_ADMIN_TOKEN_TTL: int := 30 * 24 * 60 * MINUTE

  // ------------------------------------------------------------------ state

  /** RobotPassword is the stored text no password hashes to. */
  datatype PasswordHash = HashOf(password: string) | RobotPassword

  datatype User = User(id: UserId, username: string, passwordHash: PasswordHash,
                       isAdmin: bool, isReadOnly: bool, isRobot: bool, enabled: bool)

  datatype TokenKind = Access | AdminCredential

  /** How a token came to be: the service does not store it, the properties speak of it. */
  datatype Origin = ByPassword | ByPreissuedToken | ByAdmin

  datatype Token = Token(userID: UserId, kind: TokenKind, accessor: string, scope: seq<string>,
                         expiresAt: int, revoked: bool, origin: Origin)

  datatype State = State(users: map<UserId, User>, grants: map<(UserId, Repo), Role>, tokens: map<Secret, Token>,
                         clock: int, usedIDs: set<UserId>)

  datatype Principal = Principal(userID: UserId, isAdmin: bool, isReadOnly: bool, grants: seq<Grant>,
                                 scope: seq<string>, expiresAt: int)

  datatype AuthError =
    | Forbidden | Invalid | NotFound | Conflict | InvalidCredentials | Disabled | Revoked | Expired
    | StoreFailed | NoRandomness

  datatype Reply =
    | Ack
    | UserReply(user: User)
    | GrantReply(userID: UserId, repository: Repo, role: Role)
    | CredentialReply(token: Token, secret: Secret)
    | LoginReply(principal: Principal, token: Token, bearer: Secret)
    | PrincipalReply(principal: Principal)

  type Outcome = (State, Result<Reply, AuthError>)

  /** Repository names the parser accepts. */
  datatype Env = Env(validRepository: string -> bool)

  // -------------------------------------------------------------- validation

  function Normalize(username: string): string { Lower(Trim(username)) }

  predicate Alnum(c: char) { 'a' <= c <= 'z' || 'A' <= c <= 'Z' || '0' <= c <= '9' }

  predicate ValidUsername(name: string) {
    && name != "" && Alnum(name[0]) && Alnum(name[|name| - 1])
    && forall i :: 0 <= i < |name| ==> Alnum(name[i]) || name[i] == '.' || name[i] == '_' || name[i] == '-'
  }

  predicate ValidUser(u: User) {
    ValidUsername(Trim(u.username)) && Trim(u.id) != "" && !(u.isRobot && (u.isAdmin || u.isReadOnly))
  }

  predicate ValidPassword(password: string) { |Trim(password)| >= 8 }

  /** bcrypt refuses more than 72 bytes. */
  function HashPassword(password: string): Option<PasswordHash> {
    if |password| > 72 then None else Some(HashOf(password))
  }

  predicate PasswordMatches(hash: PasswordHash, password: string) { hash == HashOf(password) }

  function ParseRepository(env: Env, repository: string): Option<Repo> {
    if env.validRepository(Trim(repository)) then Some(Trim(repository)) else None
  }

  // ------------------------------------------------------------------- store

  ghost predicate HasName(s: State, id: UserId, name: string) { id in s.users && s.users[id].username == name }

  ghost function UserByName(s: State, username: string): Option<User> {
    if id :| HasName(s, id, Normalize(username)) then Some(s.users[id]) else None
  }

  function UserByID(s: State, userID: UserId): Option<User> {
    if Trim(userID) in s.users then Some(s.users[Trim(userID)]) else None
  }

  /** Write one row; the store validates it and keeps usernames unique. */
  ghost function Upsert(s: State, u: User): Result<State, AuthError> {
    var row := u.(username := Normalize(u.username));
    if !ValidUser(row) then Failure(Invalid)
    else if exists id :: HasName(s, id, row.username) && id != row.id then Failure(StoreFailed)
    else Success(s.(users := s.users[row.id := row], usedIDs := s.usedIDs + {row.id}))
  }

  ghost function Write(s: State, u: User, reply: Reply): Outcome {
    match Upsert(s, u)
    case Failure(e) => (s, Failure(e))
    case Success(t) => (t, Success(reply))
  }

  /** Delete the row with its grants and tokens. */
  function Remove(s: State, id: UserId): State {
    s.(users := s.users - {id},
       grants := map key | key in s.grants && key.0 != id :: s.grants[key],
       tokens := map secret | secret in s.tokens && s.tokens[secret].userID != id :: s.tokens[secret])
  }

  /** Grants reference an existing user. */
  function PutGrant(s: State, userID: UserId, repo: Repo, role: Role): Outcome {
    if userID !in s.users then (s, Failure(StoreFailed))
    else (s.(grants := s.grants[(userID, repo) := role]), Success(GrantReply(userID, repo, role)))
  }

  function DropGrant(s: State, userID: UserId, repo: Repo): Outcome {
    if (Trim(userID), repo) !in s.grants then (s, Failure(NotFound))
    else (s.(grants := s.grants - {(Trim(userID), repo)}), Success(Ack))
  }

  ghost predicate AccessorTaken(s: State, accessor: string) {
    exists secret :: secret in s.tokens && s.tokens[secret].accessor == accessor
  }

  /** Secrets and accessors are unique, and a token belongs to a user. */
  ghost function StoreToken(s: State, secret: Secret, token: Token): Option<State> {
    if secret in s.tokens || AccessorTaken(s, token.accessor) || token.userID !in s.users then None
    else Some(s.(tokens := s.tokens[secret := token]))
  }

  function TokenOf(s: State, kind: TokenKind, secret: Secret): Option<Token> {
    if secret in s.tokens && s.tokens[secret].kind == kind then Some(s.tokens[secret]) else None
  }

  function Inactive(token: Token, now: int): Option<AuthError> {
    if token.revoked then Some(Revoked) else if now >= token.expiresAt then Some(Expired) else None
  }

  ghost predicate IsGrant(s: State, userID: UserId, g: Grant) {
    (userID, g.repository) in s.grants && s.grants[(userID, g.repository)] == g.role
  }

  /** The user's grants, ascending by repository. */
  ghost predicate ListsGrants(s: State, userID: UserId, listing: seq<Grant>) {
    StrictlySorted(TokenScopes.RepositoryOf, listing) && forall g :: g in listing <==> IsGrant(s, userID, g)
  }

  ghost function GrantList(s: State, userID: UserId): seq<Grant> {
    if listing :| ListsGrants(s, userID, listing) then listing else []
  }

  ghost predicate ActiveAdmin(s: State, id: UserId) {
    id in s.users && s.users[id].isAdmin && s.users[id].enabled
  }

  /** What the user listing shows: robots are not in it. */
  ghost predicate HumanAdmin(s: State, id: UserId) { ActiveAdmin(s, id) && !s.users[id].isRobot }

  ghost predicate HasActiveAdmin(s: State) { exists id :: ActiveAdmin(s, id) }

  ghost predicate AnotherAdmin(s: State, exceptID: UserId) { exists id :: HumanAdmin(s, id) && id != exceptID }

  /** A generated identifier has no outer space and is new. */
  ghost predicate NewID(s: State, id: UserId) { id != "" && Trim(id) == id && id !in s.usedIDs && id !in s.users }

  // ------------------------------------------------------------ service calls

  ghost function BootstrapAdmin(s: State, username: string, password: string, rotate: bool, newID: UserId): Outcome {
    var name := Normalize(username);
    if name == "" || !ValidPassword(password) then (s, Failure(Invalid))
    else
      match UserByName(s, name)
      case Some(user) =>
        if !user.isAdmin && HasActiveAdmin(s) then (s, Failure(Conflict))
        else
          var promoted := user.(username := name, isAdmin := true, enabled := true);
          if !rotate then Write(s, promoted, UserReply(promoted))
          else
            (match HashPassword(password)
             case None => (s, Failure(Invalid))
             case Some(hash) => Write(s, promoted.(passwordHash := hash), UserReply(promoted.(passwordHash := hash))))
      case None =>
        if HasActiveAdmin(s) then (s, Failure(Conflict))
        else CreateRow(s, name, password, true, false, true, newID)
  }

  ghost function CreateRow(s: State, name: string, password: string, isAdmin: bool, isReadOnly: bool, enabled: bool,
                           newID: UserId): Outcome {
    match HashPassword(password)
    case None => (s, Failure(Invalid))
    case Some(hash) =>
      if !NewID(s, newID) then (s, Failure(NoRandomness))
      else
        var user := User(newID, name, hash, isAdmin, isReadOnly, false, enabled);
        Write(s, user, UserReply(user))
  }

  ghost function CreateUser(s: State, actor: Principal, username: string, password: string,
                            isAdmin: bool, isReadOnly: bool, enabled: bool, newID: UserId): Outcome {
    var name := Normalize(username);
    if !actor.isAdmin then (s, Failure(Forbidden))
    else if name == "" || !ValidPassword(password) then (s, Failure(Invalid))
    else if UserByName(s, name).Some? then (s, Failure(Conflict))
    else CreateRow(s, name, password, isAdmin, isReadOnly, enabled, newID)
  }

  ghost function UpdateUser(s: State, actor: Principal, userID: UserId, username: string, isAdmin: bool,
                            isReadOnly: bool): Outcome {
    if !actor.isAdmin then (s, Failure(Forbidden))
    else
      match UserByID(s, userID)
      case None => (s, Failure(NotFound))
      case Some(user) =>
        var name := if Normalize(username) == "" then user.username else Normalize(username);
        var other := UserByName(s, name);
        if name != user.username && other.Some? && other.value.id != user.id then (s, Failure(Conflict))
        else if user.isAdmin && !isAdmin && user.enabled && !AnotherAdmin(s, user.id) then (s, Failure(Conflict))
        else
          var updated := user.(username := name, isAdmin := isAdmin, isReadOnly := isReadOnly);
          Write(s, updated, UserReply(updated))
  }

  ghost function SetUserEnabled(s: State, actor: Principal, userID: UserId, enabled: bool): Outcome {
    if !actor.isAdmin then (s, Failure(Forbidden))
    else
      match UserByID(s, userID)
      case None => (s, Failure(NotFound))
      case Some(user) =>
        if user.isAdmin && user.enabled && !enabled && !AnotherAdmin(s, user.id) then (s, Failure(Conflict))
        else Write(s, user.(enabled := enabled), UserReply(user.(enabled := enabled)))
  }

  ghost function DeleteUser(s: State, actor: Principal, userID: UserId): Outcome {
    if !actor.isAdmin then (s, Failure(Forbidden))
    else
      match UserByID(s, userID)
      case None => (s, Failure(NotFound))
      case Some(user) =>
        if user.isAdmin && user.enabled && !AnotherAdmin(s, user.id) then (s, Failure(Conflict))
        else (Remove(s, Trim(userID)), Success(Ack))
  }

  function DeleteRobot(s: State, actor: Principal, userID: UserId): Outcome {
    if !actor.isAdmin then (s, Failure(Forbidden))
    else
      match UserByID(s, userID)
      case None => (s, Failure(NotFound))
      case Some(user) => if !user.isRobot then (s, Failure(Invalid)) else (Remove(s, Trim(userID)), Success(Ack))
  }

  ghost function ResetPassword(s: State, actor: Principal, userID: UserId, password: string): Outcome {
    if !actor.isAdmin then (s, Failure(Forbidden))
    else if !ValidPassword(password) then (s, Failure(Invalid))
    else
      match UserByID(s, userID)
      case None => (s, Failure(NotFound))
      case Some(user) =>
        match HashPassword(password)
        case None => (s, Failure(Invalid))
        case Some(hash) => Write(s, user.(passwordHash := hash), Ack)
  }

  ghost function CreateAdminToken(s: State, actor: Principal, userID: UserId, ttl: int, secret: Secret,
                                  accessor: string): Outcome {
    if !actor.isAdmin then (s, Failure(Forbidden))
    else
      match UserByID(s, userID)
      case None => (s, Failure(NotFound))
      case Some(user) =>
        var life := if ttl <= 0 then DEFAULT_ADMIN_TOKEN_TTL else ttl;
        if !user.enabled then (s, Failure(Disabled))
        else if life > DEFAULT_ADMIN_TOKEN_TTL then (s, Failure(Invalid))
        else
          var token := Token(user.id, AdminCredential, accessor, [], s.clock + life, false, ByAdmin);
          match StoreToken(s, secret, token)
          case None => (s, Failure(StoreFailed))
          case Some(t) => (t, Success(CredentialReply(token, secret)))
  }

  /** The user and the grant are written before the token is: a failure there leaves them behind. */
  ghost function CreateRobot(env: Env, s: State, actor: Principal, name: string, repository: string, role: Role,
                             ttl: int,
                             newID: UserId, secret: Secret, accessor: string): Outcome {
    var username, repo := Normalize(name), ParseRepository(env, repository);
    if !actor.isAdmin then (s, Failure(Forbidden))
    else if username == "" then (s, Failure(Invalid))
    else if UserByName(s, username).Some? then (s, Failure(Conflict))
    else if repo.None? || !role.Valid() then (s, Failure(Invalid))
    else if !NewID(s, newID) then (s, Failure(NoRandomness))
    else
      match Upsert(s, User(newID, username, RobotPassword, false, false, true, true))
      case Failure(e) => (s, Failure(e))
      case Success(t) => CreateAdminToken(PutGrant(t, newID, repo.value, role).0, actor, newID, ttl, secret, accessor)
  }

  ghost function Issue(s: State, user: User, requested: seq<Scope>, origin: Origin, secret: Secret,
                       accessor: string): Outcome {
    var grants := GrantList(s, user.id);
    var scope := TokenField(Granted(user.isAdmin, user.isReadOnly, grants, requested));
    var token := Token(user.id, Access, accessor, scope, s.clock + ACCESS_TOKEN_TTL, false, origin);
    match StoreToken(s, secret, token)
    case None => (s, Failure(StoreFailed))
    case Some(t) => (t, Success(LoginReply(PrincipalOf(s, user, token), token, secret)))
  }

  ghost function TokenField(scopes: seq<Scope>): seq<string> {
    if texts :| NormalForm(scopes, texts) then texts else []
  }

  ghost function PrincipalOf(s: State, user: User, token: Token): Principal {
    Principal(user.id, user.isAdmin, user.isReadOnly, GrantList(s, user.id), token.scope, token.expiresAt)
  }

  ghost function ActiveUser(s: State, username: string): Result<User, AuthError> {
    match UserByName(s, username)
    case None => Failure(InvalidCredentials)
    case Some(user) => if user.enabled then Success(user) else Failure(Disabled)
  }

  ghost function LoginWithPassword(s: State, username: string, password: string, requested: seq<Scope>,
                                   secret: Secret, accessor: string): Outcome {
    match ActiveUser(s, username)
    case Failure(e) => (s, Failure(e))
    case Success(user) =>
      if user.isRobot || !PasswordMatches(user.passwordHash, password) then (s, Failure(InvalidCredentials))
      else Issue(s, user, requested, ByPassword, secret, accessor)
  }

  ghost function LoginWithPreissuedToken(s: State, username: string, credential: Secret, requested: seq<Scope>,
                                         secret: Secret, accessor: string): Outcome {
    match ActiveUser(s, username)
    case Failure(e) => (s, Failure(e))
    case Success(user) =>
      match TokenOf(s, AdminCredential, credential)
      case None => (s, Failure(InvalidCredentials))
      case Some(stored) =>
        if stored.userID != user.id then (s, Failure(InvalidCredentials))
        else if Inactive(stored, s.clock).Some? then (s, Failure(Inactive(stored, s.clock).value))
        else Issue(s, user, requested, ByPreissuedToken, secret, accessor)
  }

  ghost function VerifyAccessToken(s: State, bearer: Secret): Result<Reply, AuthError> {
    match TokenOf(s, Access, bearer)
    case None => Failure(InvalidCredentials)
    case Some(token) =>
      if Inactive(token, s.clock).Some? then Failure(Inactive(token, s.clock).value)
      else
        match UserByID(s, token.userID)
        case None => Failure(NotFound)
        case Some(user) =>
          if user.enabled then Success(PrincipalReply(PrincipalOf(s, user, token))) else Failure(Disabled)
  }

  ghost predicate Revocable(s: State, secret: Secret, accessor: string) {
    secret in s.tokens && s.tokens[secret].accessor == accessor && !s.tokens[secret].revoked
  }

  ghost function RevokedTokens(s: State, accessor: string): map<Secret, Token> {
    map x | x in s.tokens :: s.tokens[x].(revoked := s.tokens[x].revoked || s.tokens[x].accessor == accessor)
  }

  ghost function RevokeAdminToken(s: State, actor: Principal, accessor: string): Outcome {
    if !actor.isAdmin then (s, Failure(Forbidden))
    else if !exists x :: Revocable(s, x, Trim(accessor)) then (s, Failure(NotFound))
    else (s.(tokens := RevokedTokens(s, Trim(accessor))), Success(Ack))
  }

  function PutRepoGrant(env: Env, s: State, actor: Principal, userID: UserId, repository: string, role: Role): Outcome {
    var repo := ParseRepository(env, repository);
    if !actor.isAdmin then (s, Failure(Forbidden))
    else if UserByID(s, userID).None? then (s, Failure(NotFound))
    else if repo.None? || !role.Valid() then (s, Failure(Invalid))
    else PutGrant(s, userID, repo.value, role)
  }

  function DeleteRepoGrant(env: Env, s: State, actor: Principal, userID: UserId, repository: string): Outcome {
    var repo := ParseRepository(env, repository);
    if !actor.isAdmin then (s, Failure(Forbidden))
    else if UserByID(s, userID).None? then (s, Failure(NotFound))
    else if repo.None? then (s, Failure(Invalid))
    else DropGrant(s, userID, repo.value)
  }

  predicate Administers(actor: Principal, repo: Repo) { Grant(repo, RepoAdmin) in actor.grants }

  predicate IsPeerAdmin(s: State, userID: UserId, repo: Repo) {
    (userID, repo) in s.grants && s.grants[(userID, repo)].AllowsAdmin()
  }

  ghost function PutRepositoryGrant(env: Env, s: State, actor: Principal, repository: string, username: string,
                                    role: Role): Outcome {
    match ParseRepository(env, repository)
    case None => (s, Failure(Invalid))
    case Some(repo) =>
      if !actor.isAdmin && !Administers(actor, repo) then (s, Failure(Forbidden))
      else if !role.Valid() then (s, Failure(Invalid))
      else if !actor.isAdmin && role.AllowsAdmin() then (s, Failure(Forbidden))
      else
        match UserByName(s, username)
        case None => (s, Failure(NotFound))
        case Some(target) =>
          if !actor.isAdmin && IsPeerAdmin(s, target.id, repo) then (s, Failure(Forbidden))
          else PutGrant(s, target.id, repo, role)
  }

  ghost function DeleteRepositoryGrant(env: Env, s: State, actor: Principal, repository: string,
                                       username: string): Outcome {
    match ParseRepository(env, repository)
    case None => (s, Failure(Invalid))
    case Some(repo) =>
      if !actor.isAdmin && !Administers(actor, repo) then (s, Failure(Forbidden))
      else
        match UserByName(s, username)
        case None => (s, Failure(NotFound))
        case Some(target) =>
          if !actor.isAdmin && IsPeerAdmin(s, target.id, repo) then (s, Failure(Forbidden))
          else DropGrant(s, target.id, repo)
  }

  // -------------------------------------------------------------------- runs

  datatype Call =
    | DoBootstrap(username: string, password: string, rotate: bool, newID: UserId)
    | DoCreateUser(actor: Principal, username: string, password: string, isAdmin: bool, isReadOnly: bool,
                   enabled: bool, newID: UserId)
    | DoUpdateUser(actor: Principal, userID: UserId, username: string, isAdmin: bool, isReadOnly: bool)
    | DoSetEnabled(actor: Principal, userID: UserId, enabled: bool)
    | DoDeleteUser(actor: Principal, userID: UserId)
    | DoCreateRobot(actor: Principal, name: string, repository: string, role: Role, ttl: int, newID: UserId,
                    secret: Secret, accessor: string)
    | DoDeleteRobot(actor: Principal, userID: UserId)
    | DoResetPassword(actor: Principal, userID: UserId, password: string)
    | DoPasswordLogin(username: string, password: string, requested: seq<Scope>, secret: Secret, accessor: string)
    | DoTokenLogin(username: string, credential: Secret, requested: seq<Scope>, secret: Secret, accessor: string)
    | DoVerify(bearer: Secret)
    | DoCreateToken(actor: Principal, userID: UserId, ttl: int, secret: Secret, accessor: string)
    | DoRevoke(actor: Principal, accessor: string)
    | DoPutRepoGrant(actor: Principal, userID: UserId, repository: string, role: Role)
    | DoDeleteRepoGrant(actor: Principal, userID: UserId, repository: string)
    | DoPutRepositoryGrant(actor: Principal, repository: string, username: string, role: Role)
    | DoDeleteRepositoryGrant(actor: Principal, repository: string, username: string)
    | Advance(elapsed: nat)

  ghost function Apply(env: Env, s: State, call: Call): Outcome {
    match call
    case DoBootstrap(u, p, r, id) => BootstrapAdmin(s, u, p, r, id)
    case DoCreateUser(a, u, p, ad, ro, en, id) => CreateUser(s, a, u, p, ad, ro, en, id)
    case DoUpdateUser(a, id, u, ad, ro) => UpdateUser(s, a, id, u, ad, ro)
    case DoSetEnabled(a, id, en) => SetUserEnabled(s, a, id, en)
    case DoDeleteUser(a, id) => DeleteUser(s, a, id)
    case DoCreateRobot(a, n, r, role, ttl, id, x, acc) => CreateRobot(env, s, a, n, r, role, ttl, id, x, acc)
    case DoDeleteRobot(a, id) => DeleteRobot(s, a, id)
    case DoResetPassword(a, id, p) => ResetPassword(s, a, id, p)
    case DoPasswordLogin(u, p, req, x, acc) => LoginWithPassword(s, u, p, req, x, acc)
    case DoTokenLogin(u, c, req, x, acc) => LoginWithPreissuedToken(s, u, c, req, x, acc)
    case DoVerify(b) => (s, VerifyAccessToken(s, b))
    case DoCreateToken(a, id, ttl, x, acc) => CreateAdminToken(s, a, id, ttl, x, acc)
    case DoRevoke(a, acc) => RevokeAdminToken(s, a, acc)
    case DoPutRepoGrant(a, id, r, role) => PutRepoGrant(env, s, a, id, r, role)
    case DoDeleteRepoGrant(a, id, r) => DeleteRepoGrant(env, s, a, id, r)
    case DoPutRepositoryGrant(a, r, u, role) => PutRepositoryGrant(env, s, a, r, u, role)
    case DoDeleteRepositoryGrant(a, r, u) => DeleteRepositoryGrant(env, s, a, r, u)
    case Advance(d) => (s.(clock := s.clock + d), Success(Ack))
  }

  ghost function Run(env: Env, s: State, calls: seq<Call>): State {
    if calls == [] then s else Apply(env, Run(env, s, calls[..|calls| - 1]), calls[|calls| - 1]).0
  }

  /** Rows are filed under their trimmed ID and usernames are normalized and unique. */
  ghost predicate UsersInv(s: State) {
    && (forall id :: id in s.users ==> s.users[id].id == id && Trim(id) == id && id in s.usedIDs)
    && (forall id :: id in s.users ==> Normalize(s.users[id].username) == s.users[id].username)
    && (forall a, b :: a in s.users && b in s.users && s.users[a].username == s.users[b].username ==> a == b)
  }

  /** Grants and tokens belong to existing users and accessors are unique. */
  ghost predicate LinksInv(s: State) {
    && (forall key :: key in s.grants ==> key.0 in s.users)
    && (forall x :: x in s.tokens ==> s.tokens[x].userID in s.users)
    && (forall x, y :: x in s.tokens && y in s.tokens && s.tokens[x].accessor == s.tokens[y].accessor ==> x == y)
  }

  /** What the store's keys and constraints guarantee. */
  ghost predicate StoreInv(s: State) { UsersInv(s) && LinksInv(s) }
}
