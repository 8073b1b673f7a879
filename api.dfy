/** The request handlers of the service: token issue and check, login, registration,
    the bootstrap user, and the owner-scoped todo endpoints over the Crud store. */
module Api {
  import opened Crud

  /** A claim value of a token payload as JSON carries it. */
  datatype ClaimValue = Text(s: string) | Number(n: int) | Null

  type Claims = map<string, ClaimValue>

  /** Token signing and checking, left abstract. encode(claims, key, algorithm) gives a
      token; decode(token, key, allowed algorithms, now) gives its claims, or None where
      the library raises JWTError (bad signature, an algorithm not in the allowed list,
      malformed claims, an exp before now). */
  datatype JwtCodec = JwtCodec(
    encode: (Claims, string, string) -> string,
    decode: (string, string, seq<string>, int) -> Option<Claims>)

  /** The configuration the handlers read; times are whole seconds. */
  datatype Settings = Settings(
    secretKey: string,
    algorithm: string,
    accessTokenExpireMinutes: int,
    defaultUserUsername: string,
    defaultUserPassword: string)

  /** The process-wide collaborators every handler sees. */
  datatype App = App(settings: Settings, jwt: JwtCodec, hasher: PasswordHasher)

  datatype TokenResponse = TokenResponse(accessToken: string, tokenType: string)

  /** A handler's outcome: 200 with a body, or an HTTP error status. */
  datatype Response<T> = Ok(body: T) | HttpError(status: int)

  const BadRequest := 400
  const Unauthorized := 401
  const NotFound := 404

  /** The lifetime create_access_token falls back on: 15 minutes. */
  const DefaultExpiry := 15 * 60

  /** What the store keeps true between requests: the table invariant, unique
      usernames, and every todo owned by an existing user. */
  ghost predicate Consistent(store: Store)
    reads store
  {
    && store.Valid()
    && UniqueUsernames(store.users)
    && OwnersExist(store.users, store.todos)
  }

  /** Every todo's owner_id is the id of a stored user. */
  ghost predicate OwnersExist(users: seq<User>, todos: seq<Todo>) {
    forall t :: t in todos ==> exists u :: u in users && u.id == t.ownerId
  }

  /** Adding a user keeps every owner an existing user. */
  lemma OwnersExistGrow(users: seq<User>, u: User, todos: seq<Todo>)
    requires OwnersExist(users, todos)
    ensures OwnersExist(users + [u], todos)
  {
    forall t | t in todos ensures exists v :: v in users + [u] && v.id == t.ownerId {
      var v :| v in users && v.id == t.ownerId;
      assert v in users + [u];
    }
  }

  // ---------------------------------------------------------------------------
  // Tokens

  /** The exp instant: a given delta counts only when it is truthy, that is non-zero. */
  function Expiry(expiresDelta: Option<int>, now: int): (r: int)
    ensures r <= now <==> expiresDelta.Some? && expiresDelta.value < 0
    ensures expiresDelta.None? || expiresDelta.value == 0 ==> r == now + DefaultExpiry
  {
    if expiresDelta.Some? && expiresDelta.value != 0 then now + expiresDelta.value
    else now + DefaultExpiry
  }

  /** The payload create_access_token signs: a copy of data with exp set. */
  function TokenClaims(data: Claims, expiresDelta: Option<int>, now: int): (r: Claims)
    ensures "exp" in r
    ensures expiresDelta.Some? && expiresDelta.value != 0 ==> r["exp"] == Number(now + expiresDelta.value)
    ensures expiresDelta == None || expiresDelta == Some(0) ==> r["exp"] == Number(now + 15 * 60)
    ensures forall k :: k in data && k != "exp" ==> k in r && r[k] == data[k]
    ensures forall k :: k in r && k != "exp" ==> k in data
  {
    data["exp" := Number(Expiry(expiresDelta, now))]
  }

  /** create_access_token: the payload of TokenClaims, signed with the configured key and
      algorithm. With a faithful codec it decodes to that payload at the instant it is
      issued, unless a negative delta issued it already expired. */
  function CreateAccessToken(app: App, data: Claims, expiresDelta: Option<int>, now: int): (r: string)
    ensures Faithful(app.jwt) && IssuedShape(data) ==>
      Decoded(app, r, now)
      == if expiresDelta.Some? && expiresDelta.value < 0 then None else Some(TokenClaims(data, expiresDelta, now))
  {
    IssuedShapeKept(data, expiresDelta, now);
    app.jwt.encode(TokenClaims(data, expiresDelta, now), app.settings.secretKey, app.settings.algorithm)
  }

  /** The exp check the token library applies when it decodes. */
  predicate Unexpired(c: Claims, now: int) {
    "exp" !in c || (c["exp"].Number? && now <= c["exp"].n)
  }

  /** The only payload shape the service signs: TokenClaims of {"sub": username}, that is
      at most a textual sub and a numeric exp. The token library's decode refuses some
      other shapes (a sub that is not a string, an aud nobody asked for, an nbf in the
      future) and accepts others (extra claims, no sub); nothing is promised about any
      payload outside this shape. */
  predicate IssuedShape(c: Claims) {
    && (forall k :: k in c ==> k == "sub" || k == "exp")
    && ("sub" in c ==> c["sub"].Text?)
    && ("exp" in c ==> c["exp"].Number?)
  }

  /** Setting exp keeps a payload within the issued shape. */
  lemma IssuedShapeKept(data: Claims, expiresDelta: Option<int>, now: int)
    ensures IssuedShape(data) ==> IssuedShape(TokenClaims(data, expiresDelta, now))
  {
  }

  /** A codec that, checked against the algorithm it signed with, gives back exactly
      the payload it signed while it is unexpired, and fails after, for every payload
      of the issued shape. */
  ghost predicate Faithful(jwt: JwtCodec) {
    forall c: Claims, key: string, alg: string, now: int | IssuedShape(c) ::
      jwt.decode(jwt.encode(c, key, alg), key, [alg], now) == if Unexpired(c, now) then Some(c) else None
  }

  /** Decoding as get_current_user does it: only the configured algorithm is allowed. */
  function Decoded(app: App, token: string, now: int): Option<Claims> {
    app.jwt.decode(token, app.settings.secretKey, [app.settings.algorithm], now)
  }

  /** payload.get("sub"): None when the claim is missing or null. */
  function Subject(c: Claims): (r: Option<ClaimValue>)
    ensures r.Some? <==> "sub" in c && c["sub"] != Null
    ensures r.Some? ==> r.value == c["sub"]
  {
    if "sub" in c && c["sub"] != Null then Some(c["sub"]) else None
  }

  /** A token issued now decodes to its claims until its exp, and not after. */
  lemma TokenRoundTrip(app: App, data: Claims, expiresDelta: Option<int>, issuedAt: int, now: int)
    requires Faithful(app.jwt)
    requires IssuedShape(data)
    ensures Decoded(app, CreateAccessToken(app, data, expiresDelta, issuedAt), now)
         == if now <= Expiry(expiresDelta, issuedAt) then Some(TokenClaims(data, expiresDelta, issuedAt)) else None
  {
    var c := TokenClaims(data, expiresDelta, issuedAt);
    IssuedShapeKept(data, expiresDelta, issuedAt);
    assert Unexpired(c, now) <==> now <= Expiry(expiresDelta, issuedAt);
  }

  /** get_current_user: 401 when decoding fails, when sub is missing, or when no user
      has that name; otherwise the user named by sub. A sub that is not a string is
      refused by the library's decode with a JWTError, so it is answered 401 as well. */
  function GetCurrentUser(store: Store, app: App, token: string, now: int): (r: Response<User>)
    reads store
    ensures r.HttpError? ==> r.status == Unauthorized
    ensures r.HttpError? <==>
      || Decoded(app, token, now).None?
      || Subject(Decoded(app, token, now).value).None?
      || !Subject(Decoded(app, token, now).value).value.Text?
      || store.GetUserByUsername(Subject(Decoded(app, token, now).value).value.s).None?
    ensures r.Ok? ==>
      && Decoded(app, token, now).Some?
      && Subject(Decoded(app, token, now).value) == Some(Text(r.body.username))
      && store.GetUserByUsername(r.body.username) == Some(r.body)
  {
    match Decoded(app, token, now)
    case None => HttpError(Unauthorized)
    case Some(payload) =>
      match Subject(payload)
      case None => HttpError(Unauthorized)
      case Some(Number(_)) => HttpError(Unauthorized)
      case Some(Text(username)) =>
        match store.GetUserByUsername(username)
        case None => HttpError(Unauthorized)
        case Some(user) => Ok(user)
  }

  /** The outcome of get_current_user depends on the codec only through decoding with
      the configured algorithm: what a token itself names as its algorithm cannot matter. */
  lemma OnlyConfiguredAlgorithm(store: Store, app: App, other: JwtCodec, token: string, now: int)
    requires other.decode(token, app.settings.secretKey, [app.settings.algorithm], now) == Decoded(app, token, now)
    ensures GetCurrentUser(store, app.(jwt := other), token, now) == GetCurrentUser(store, app, token, now)
  {
  }

  // ---------------------------------------------------------------------------
  // Login

  /** timedelta(minutes=access_token_expire_minutes) in seconds. */
  function TokenLifetime(settings: Settings): (r: int)
    ensures r != 0 <==> settings.accessTokenExpireMinutes != 0
    ensures r < 0 <==> settings.accessTokenExpireMinutes < 0
  {
    settings.accessTokenExpireMinutes * 60
  }

  /** login_for_access_token: 401 unless the user exists and the password checks out;
      otherwise a bearer token for that user's name. */
  function LoginForAccessToken(store: Store, app: App, username: string, password: string, now: int): (r: Response<TokenResponse>)
    reads store
    ensures r.HttpError? ==> r.status == Unauthorized
    ensures r.Ok? <==>
      && store.GetUserByUsername(username).Some?
      && app.hasher.verify(password, store.GetUserByUsername(username).value.hashedPassword)
    ensures r.Ok? ==>
      && r.body.tokenType == "bearer"
      && r.body.accessToken
         == CreateAccessToken(app, map["sub" := Text(username)], Some(TokenLifetime(app.settings)), now)
  {
    match store.GetUserByUsername(username)
    case None => HttpError(Unauthorized)
    case Some(user) =>
      if !app.hasher.verify(password, user.hashedPassword) then HttpError(Unauthorized)
      else
        var token := CreateAccessToken(app, map["sub" := Text(user.username)], Some(TokenLifetime(app.settings)), now);
        Ok(TokenResponse(token, "bearer"))
  }

  /** A configured lifetime of zero minutes is falsy and so gives the 15-minute default. */
  lemma LoginTokenExpiry(settings: Settings, now: int)
    ensures Expiry(Some(TokenLifetime(settings)), now)
         == if settings.accessTokenExpireMinutes != 0 then now + 60 * settings.accessTokenExpireMinutes
            else now + 15 * 60
  {
  }

  /** A token from a successful login authenticates as the same user until it
      expires, and is rejected with 401 after. */
  lemma IssuedTokenAuthenticates(store: Store, app: App, username: string, password: string, issuedAt: int, now: int)
    requires Faithful(app.jwt)
    requires LoginForAccessToken(store, app, username, password, issuedAt).Ok?
    ensures var token := LoginForAccessToken(store, app, username, password, issuedAt).body.accessToken;
      GetCurrentUser(store, app, token, now)
      == if now <= Expiry(Some(TokenLifetime(app.settings)), issuedAt)
         then Ok(store.GetUserByUsername(username).value)
         else HttpError(Unauthorized)
  {
    var data := map["sub" := Text(username)];
    var delta := Some(TokenLifetime(app.settings));
    TokenRoundTrip(app, data, delta, issuedAt, now);
    var c := TokenClaims(data, delta, issuedAt);
    assert "sub" in c && c["sub"] == Text(username);
  }

  /** With a sound hasher, the password a user was stored with logs that user in. */
  lemma StoredPasswordLogsIn(store: Store, app: App, username: string, password: string, now: int)
    requires Sound(app.hasher)
    requires store.GetUserByUsername(username).Some?
    requires store.GetUserByUsername(username).value.hashedPassword == app.hasher.hash(password)
    ensures LoginForAccessToken(store, app, username, password, now).Ok?
  {
    assert app.hasher.verify(password, app.hasher.hash(password));
  }

  // ---------------------------------------------------------------------------
  // Users

  /** POST /users/: 400 when the name is taken and the store is unchanged; otherwise
      the new user, who owns no todos yet. */
  method CreateUser(store: Store, app: App, user: UserCreate) returns (r: Response<User>)
    requires Consistent(store)
    modifies store
    ensures Consistent(store)
    ensures old(store.GetUserByUsername(user.username)).Some? ==>
      r == HttpError(BadRequest) && store.users == old(store.users)
    ensures old(store.GetUserByUsername(user.username)).None? ==>
      && r.Ok?
      && r.body.username == user.username
      && r.body.hashedPassword == app.hasher.hash(user.password)
      && store.users == old(store.users) + [r.body]
      && store.GetUserByUsername(user.username) == Some(r.body)
      && OwnedBy(store.todos, r.body.id) == []
    ensures store.todos == old(store.todos)
  {
    if store.GetUserByUsername(user.username).Some? {
      return HttpError(BadRequest);
    }
    var before := store.users;
    var created := store.CreateUser(user, app.hasher);
    AppendKeepsUnique(before, created);
    OwnersExistGrow(before, created, store.todos);
    forall t | t in store.todos ensures t.ownerId != created.id {
      var u :| u in old(store.users) && u.id == t.ownerId;
    }
    NoneOwned(store.todos, created.id);
    r := Ok(created);
  }

  /** Registering one name twice in a row: the first succeeds, the second is 400, and
      the name belongs to exactly one user. */
  method RegisterTwice(store: Store, app: App, user: UserCreate) returns (first: Response<User>, second: Response<User>)
    requires Consistent(store)
    requires store.GetUserByUsername(user.username).None?
    modifies store
    ensures Consistent(store)
    ensures first.Ok? && first.body.username == user.username
    ensures second == HttpError(BadRequest)
    ensures store.users == old(store.users) + [first.body]
    ensures CountNamed(store.users, user.username) == 1
  {
    first := CreateUser(store, app, user);
    second := CreateUser(store, app, user);
    UniqueNamedOnce(store.users, user.username);
  }

  /** The startup hook: creates the default user only when no user has that name, so
      afterwards exactly one does, and a second run changes nothing. */
  method StartupEvent(store: Store, app: App)
    requires Consistent(store)
    modifies store
    ensures Consistent(store)
    ensures store.todos == old(store.todos)
    ensures old(store.GetUserByUsername(app.settings.defaultUserUsername)).Some? ==> store.users == old(store.users)
    ensures old(store.GetUserByUsername(app.settings.defaultUserUsername)).None? ==>
      && |store.users| == |old(store.users)| + 1
      && store.users[..|old(store.users)|] == old(store.users)
      && store.GetUserByUsername(app.settings.defaultUserUsername).Some?
      && store.GetUserByUsername(app.settings.defaultUserUsername).value.hashedPassword
         == app.hasher.hash(app.settings.defaultUserPassword)
    ensures CountNamed(store.users, app.settings.defaultUserUsername) == 1
  {
    var name := app.settings.defaultUserUsername;
    var existing := store.GetUserByUsername(name);
    if existing.None? {
      var before := store.users;
      var created := store.CreateUser(UserCreate(name, app.settings.defaultUserPassword), app.hasher);
      AppendKeepsUnique(before, created);
      OwnersExistGrow(before, created, store.todos);
      assert store.users[..|before|] == before;
    }
    UniqueNamedOnce(store.users, name);
  }

  // ---------------------------------------------------------------------------
  // Todos: every handler authenticates first and scopes by the caller's id

  /** GET /todos/: the caller's todos in the window skip, limit (0 and 100 by default). */
  function ReadTodos(store: Store, app: App, token: string, now: int, skip: nat := 0, limit: nat := 100): (r: Response<seq<Todo>>)
    reads store
    ensures GetCurrentUser(store, app, token, now).HttpError? ==>
      r == HttpError(GetCurrentUser(store, app, token, now).status)
    ensures r.Ok? ==>
      && GetCurrentUser(store, app, token, now).Ok?
      && |r.body| <= limit
      && forall t :: t in r.body ==> t in store.todos && t.ownerId == GetCurrentUser(store, app, token, now).body.id
    ensures GetCurrentUser(store, app, token, now).Ok? ==>
      r == Ok(store.GetTodos(GetCurrentUser(store, app, token, now).body.id, skip, limit))
  {
    match GetCurrentUser(store, app, token, now)
    case HttpError(status) => HttpError(status)
    case Ok(user) => Ok(store.GetTodos(user.id, skip, limit))
  }

  /** GET /todos/{id}: 404 unless the caller owns a todo with that id. */
  function ReadTodo(store: Store, app: App, token: string, now: int, todoId: int): (r: Response<Todo>)
    reads store
    ensures GetCurrentUser(store, app, token, now).HttpError? ==>
      r == HttpError(GetCurrentUser(store, app, token, now).status)
    ensures GetCurrentUser(store, app, token, now).Ok? ==>
      (r == HttpError(NotFound) <==>
       forall t :: t in store.todos ==> !Matches(t, todoId, GetCurrentUser(store, app, token, now).body.id))
    ensures r.Ok? ==>
      && GetCurrentUser(store, app, token, now).Ok?
      && r.body in store.todos
      && r.body.id == todoId
      && r.body.ownerId == GetCurrentUser(store, app, token, now).body.id
  {
    match GetCurrentUser(store, app, token, now)
    case HttpError(status) => HttpError(status)
    case Ok(user) =>
      match store.GetTodo(todoId, user.id)
      case None => HttpError(NotFound)
      case Some(todo) => Ok(todo)
  }

  /** Another user's todo is answered 404, exactly like a todo that does not exist. */
  lemma ForeignTodoNotFound(store: Store, app: App, token: string, now: int, t: Todo)
    requires store.Valid()
    requires t in store.todos
    requires GetCurrentUser(store, app, token, now).Ok?
    requires GetCurrentUser(store, app, token, now).body.id != t.ownerId
    ensures ReadTodo(store, app, token, now, t.id) == HttpError(NotFound)
  {
    ForeignTodoIsAbsent(store.todos, t, GetCurrentUser(store, app, token, now).body.id);
  }

  /** POST /todos/: a new todo owned by the caller. */
  method CreateTodo(store: Store, app: App, token: string, now: int, todo: TodoCreate) returns (r: Response<Todo>)
    requires Consistent(store)
    modifies store
    ensures Consistent(store)
    ensures old(GetCurrentUser(store, app, token, now)).HttpError? ==>
      r == HttpError(old(GetCurrentUser(store, app, token, now)).status) && unchanged(store)
    ensures old(GetCurrentUser(store, app, token, now)).Ok? ==>
      && r.Ok?
      && r.body.ownerId == old(GetCurrentUser(store, app, token, now)).body.id
      && r.body.title == todo.title && r.body.description == todo.description
      && r.body.completed == store.completedDefault
      && store.todos == old(store.todos) + [r.body]
      && store.users == old(store.users)
      && store.GetTodo(r.body.id, r.body.ownerId) == Some(r.body)
  {
    var auth := GetCurrentUser(store, app, token, now);
    if auth.HttpError? {
      return HttpError(auth.status);
    }
    var created := store.CreateTodo(todo, auth.body.id);
    r := Ok(created);
  }

  /** PUT /todos/{id}: 404 unless the caller owns it; otherwise title and description
      of that todo are replaced and no other todo changes. */
  method UpdateTodo(store: Store, app: App, token: string, now: int, todoId: int, todo: TodoCreate) returns (r: Response<Todo>)
    requires Consistent(store)
    modifies store
    ensures Consistent(store)
    ensures old(GetCurrentUser(store, app, token, now)).HttpError? ==>
      r == HttpError(old(GetCurrentUser(store, app, token, now)).status) && unchanged(store)
    ensures old(GetCurrentUser(store, app, token, now)).Ok? ==>
      var owner := old(GetCurrentUser(store, app, token, now)).body.id;
      && (r == HttpError(NotFound) <==> old(store.GetTodo(todoId, owner)).None?)
      && (r.HttpError? ==> r.status == NotFound && store.todos == old(store.todos))
      && (r.Ok? ==> r.body == Replaced(old(store.GetTodo(todoId, owner)).value, todo))
      && ReplacedIn(old(store.todos), store.todos, todoId, owner, todo)
    ensures store.users == old(store.users)
  {
    var auth := GetCurrentUser(store, app, token, now);
    if auth.HttpError? {
      return HttpError(auth.status);
    }
    var updated := store.UpdateTodo(todoId, todo, auth.body.id);
    KeepsOwners(old(store.todos), store.todos, store.users);
    if updated.None? {
      return HttpError(NotFound);
    }
    r := Ok(updated.value);
  }

  /** PATCH /todos/{id}: 404 unless the caller owns it; otherwise only the supplied
      fields of that todo change and no other todo changes. */
  method PartialUpdateTodo(store: Store, app: App, token: string, now: int, todoId: int, todo: TodoUpdate) returns (r: Response<Todo>)
    requires Consistent(store)
    modifies store
    ensures Consistent(store)
    ensures old(GetCurrentUser(store, app, token, now)).HttpError? ==>
      r == HttpError(old(GetCurrentUser(store, app, token, now)).status) && unchanged(store)
    ensures old(GetCurrentUser(store, app, token, now)).Ok? ==>
      var owner := old(GetCurrentUser(store, app, token, now)).body.id;
      && (r == HttpError(NotFound) <==> old(store.GetTodo(todoId, owner)).None?)
      && (r.HttpError? ==> r.status == NotFound && store.todos == old(store.todos))
      && (r.Ok? ==> r.body == Patched(old(store.GetTodo(todoId, owner)).value, todo))
      && PatchedIn(old(store.todos), store.todos, todoId, owner, todo)
    ensures store.users == old(store.users)
  {
    var auth := GetCurrentUser(store, app, token, now);
    if auth.HttpError? {
      return HttpError(auth.status);
    }
    var patched := store.PartialUpdateTodo(todoId, todo, auth.body.id);
    KeepsOwners(old(store.todos), store.todos, store.users);
    if patched.None? {
      return HttpError(NotFound);
    }
    r := Ok(patched.value);
  }

  /** DELETE /todos/{id}: 404 unless the caller owns it; otherwise that todo is removed
      and returned, and a later read of it is 404. */
  method DeleteTodo(store: Store, app: App, token: string, now: int, todoId: int) returns (r: Response<Todo>)
    requires Consistent(store)
    modifies store
    ensures Consistent(store)
    ensures old(GetCurrentUser(store, app, token, now)).HttpError? ==>
      r == HttpError(old(GetCurrentUser(store, app, token, now)).status) && unchanged(store)
    ensures old(GetCurrentUser(store, app, token, now)).Ok? ==>
      var owner := old(GetCurrentUser(store, app, token, now)).body.id;
      && (r == HttpError(NotFound) <==> old(store.GetTodo(todoId, owner)).None?)
      && (r.HttpError? ==> r.status == NotFound && store.todos == old(store.todos))
      && (r.Ok? ==> old(store.GetTodo(todoId, owner)) == Some(r.body))
      && store.todos == Without(old(store.todos), todoId, owner)
      && ReadTodo(store, app, token, now, todoId) == HttpError(NotFound)
    ensures store.users == old(store.users)
  {
    var auth := GetCurrentUser(store, app, token, now);
    if auth.HttpError? {
      return HttpError(auth.status);
    }
    var deleted := store.DeleteTodo(todoId, auth.body.id);
    OwnersExistShrink(store.users, old(store.todos), store.todos);
    if deleted.None? {
      return HttpError(NotFound);
    }
    r := Ok(deleted.value);
  }

  /** Removing rows keeps every remaining owner an existing user. */
  lemma OwnersExistShrink(users: seq<User>, before: seq<Todo>, after: seq<Todo>)
    requires OwnersExist(users, before)
    requires forall t :: t in after ==> t in before
    ensures OwnersExist(users, after)
  {
  }

  /** Updates that keep every row's owner keep every owner an existing user. */
  lemma KeepsOwners(before: seq<Todo>, after: seq<Todo>, users: seq<User>)
    requires |after| == |before|
    requires forall k :: 0 <= k < |before| ==> after[k].ownerId == before[k].ownerId
    requires OwnersExist(users, before)
    ensures OwnersExist(users, after)
  {
    forall t | t in after ensures exists u :: u in users && u.id == t.ownerId {
      var k :| 0 <= k < |after| && after[k] == t;
      assert before[k] in before;
    }
  }
}
