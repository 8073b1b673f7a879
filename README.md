# Todo service: owner-scoped store and its authentication, in Dafny

This project models the core of a small task-list web service. Users register
with a username and password and log in for a bearer token. With that token they
create, list, read, replace (PUT), patch and delete their own todo items. The
model covers two parts:

- `crud.dfy`, module `Crud` (crud.py). It holds the records, the pure queries
  over the users and todos tables, and the class `Store`. `Store` keeps both
  tables as `seq` fields, plus the engine's id counters. Its methods are the
  crud operations, each one atomic step. Every single-todo query is scoped by
  both id and owner (`Matches`). Rows stay in insertion order, which is id
  order (`Store.Valid`).
- `api.dfy`, module `Api` (main.py). It models the token payload and its
  expiry rule, the three-way 401 in `get_current_user`, the login check,
  registration with its duplicate check, the idempotent bootstrap user, and
  the todo handlers. Each todo handler authenticates first, scopes by the
  caller's id and maps "absent" to 404. `Consistent` is the invariant every
  mutating handler keeps: the table invariant, unique usernames, and every
  todo owned by an existing user.

Collaborators are left abstract and passed in as values:

- the password hasher is `PasswordHasher(hash, verify)`;
- the token library is `JwtCodec(encode, decode)`. `decode` takes the allowed
  algorithm list and the current time, and gives `None` wherever the library
  raises `JWTError`;
- the clock is an integer `now` in seconds, and a `timedelta` is a whole
  number of seconds;
- the settings are a `Settings` value.

Two properties of the collaborators are stated as predicates, and lemmas
assume them only where they say so. `Sound(hasher)` says the hasher accepts
the digest of the same password. `Faithful(jwt)` says the codec decodes its
own token to the signed claims while `exp` has not passed, and fails after. It
speaks only of the one payload shape the service signs (`IssuedShape`: the
`TokenClaims` of `{"sub": username}`, so at most a textual `sub` and a numeric
`exp`). The token library's decode refuses some other shapes, such as a `sub`
that is not a string, and accepts others, such as extra claims; nothing is
promised about payloads outside the issued shape.

Points where the exact tests in the code decide the model:

- `create_access_token` tests `if expires_delta:`. A delta of zero is falsy
  and gets the 15-minute default, like a missing one. A negative delta is
  truthy, so the token is issued already expired. With
  `access_token_expire_minutes = 0`, login therefore issues 15-minute tokens
  (`Api.LoginTokenExpiry`).
- PATCH tests `is not None`. An empty string overwrites, and a field sent as
  null is treated like an omitted one. So PATCH cannot clear a description,
  while PUT with no description sets it to none (`Crud.PatchAgreesWithPut`
  covers the case where both agree).
- `crud.create_user` does not check for duplicates. Only the `POST /users/`
  handler and the startup hook check first. So the unique-username property
  is proved of those handlers, not of the store.
- The listing query has no explicit ordering. The model returns rows in
  insertion order, which is ascending id order (`Crud.OwnedByAscending`).

## Model

| member | source | states |
|---|---|---|
| `Crud.UserIndex` | crud.py:8-9 | the reported position holds the first user with that name; None exactly when no user has it |
| `Crud.TodoIndex` | crud.py:29-30 | the reported position is the first row matching both id and owner; None exactly when no row matches both |
| `Crud.OwnedBy` | crud.py:19-20 | holds exactly the rows of the table whose owner_id is the given owner |
| `Crud.WithoutMembers` | crud.py:54-59 | reference deletion: a row survives exactly when it is in the table and does not match id and owner |
| `Crud.Replaced` | crud.py:32-39 | PUT sets title and description to the body's values and keeps id, owner_id and completed |
| `Crud.Patched` | crud.py:41-52 | PATCH overwrites each supplied field and keeps each omitted one; id and owner_id never change |
| `Crud.MatchIsUnique` | crud.py:29-30 | with ascending ids at most one row matches an id and owner |
| `Crud.ForeignTodoIsAbsent` | crud.py:29-30 | a todo owned by someone else gives the same None as a missing one |
| `Crud.FirstMatchIsIndex` | crud.py:33 | the first matching row is the one the scoped query returns |
| `Crud.AppendedIsFound` | crud.py:22-27 | a row appended under a fresh id is found by its id and owner |
| `Crud.NoneOwned` | crud.py:19-20 | an owner without rows lists nothing |
| `Crud.WithoutNoMatch` | crud.py:54-59 | deleting when nothing matches leaves the table as it was |
| `Crud.RemoveAtIsWithout` | crud.py:54-59 | cutting the matching row out by position equals the reference deletion |
| `Crud.RemoveAtAscending` | crud.py:57 | removing a row keeps ids ascending |
| `Crud.OwnedByAscending` | crud.py:19-20 | one owner's list keeps ascending id order |
| `Crud.CountNamedZero` | crud.py:8-9 | a name is counted zero times exactly when the lookup finds nobody |
| `Crud.UniqueNamedOnce` | main.py:57-64 | with unique usernames a present name belongs to exactly one user |
| `Crud.AppendKeepsUnique` | main.py:81-86 | adding a user whose name is not taken keeps usernames unique |
| `Crud.PatchCompletedOnly` | test_main.py:128-135 | PATCH of only completed leaves title and description identical |
| `Crud.PatchAgreesWithPut` | crud.py:32-52 | PATCH with title and description and without completed equals PUT |
| `Crud.Store.GetUserByUsername` | crud.py:8-9 | the result is a stored user with that name; None exactly when no stored user has it |
| `Crud.Store.CreateUser` | crud.py:11-17 | appends one user with a fresh id whose stored digest is the hash of the password; a lookup of a previously unused name then finds it; todos are unchanged |
| `Crud.Store.GetTodos` | crud.py:19-20 | at most limit rows, all the owner's; row k is entry skip+k of the owner's list; short only when that list ran out |
| `Crud.Store.CreateTodo` | crud.py:22-27 | appends one row with a fresh id, the body's fields, the given owner and the column default for completed; get_todo then returns it |
| `Crud.Store.GetTodo` | crud.py:29-30 | a result matches both id and owner; None exactly when no row matches both |
| `Crud.Store.UpdateTodo` | crud.py:32-39 | None and table unchanged when nothing matches; otherwise the matching row is replaced and every other row kept |
| `Crud.Store.PartialUpdateTodo` | crud.py:41-52 | None and table unchanged when nothing matches; otherwise only supplied fields of the matching row change, other rows kept |
| `Crud.Store.DeleteTodo` | crud.py:54-59 | returns what get_todo returned; the table becomes the reference deletion, so exactly the non-matching rows stay; a later get_todo is None |
| `Api.TokenClaims` | main.py:28-34 | the payload is data with exp added: now+delta for a non-zero delta, now+15 minutes for none or zero; other claims kept |
| `Api.Expiry` | main.py:30-33 | the exp instant is at or before the issue instant exactly for a negative delta; no delta and a zero delta both give 15 minutes |
| `Api.CreateAccessToken` | main.py:28-36 | the TokenClaims payload signed with the configured key and algorithm; with a faithful codec it decodes to that payload when issued, and to nothing when a negative delta issued it expired (TokenRoundTrip covers every later instant) |
| `Api.TokenRoundTrip` | main.py:28-36 | with a faithful codec, an issued token whose data has the issued shape decodes to its payload up to exp and fails after |
| `Api.Decoded` | main.py:45 | the decode call of get_current_user, allowing only the configured algorithm; its property is stated by OnlyConfiguredAlgorithm |
| `Api.Subject` | main.py:46-48 | the subject is absent exactly when sub is missing or null |
| `Api.GetCurrentUser` | main.py:38-55 | every failure is 401; it fails exactly when decoding fails, sub is absent or not text, or no user has that name; otherwise the user named by sub |
| `Api.OnlyConfiguredAlgorithm` | main.py:45 | the outcome depends on the codec only through decoding with the configured algorithm |
| `Api.LoginForAccessToken` | main.py:66-79 | succeeds exactly when the user exists and verify accepts the password; otherwise 401; the token carries sub and the configured lifetime |
| `Api.TokenLifetime` | main.py:75 | the configured lifetime in seconds is falsy exactly when the minutes are zero, and negative exactly when they are |
| `Api.LoginTokenExpiry` | main.py:75-78 | the login token expires after the configured minutes, or after 15 minutes when that setting is zero |
| `Api.IssuedTokenAuthenticates` | main.py:38-79 | with a faithful codec a login token authenticates as that user until exp, and is 401 after |
| `Api.StoredPasswordLogsIn` | main.py:68-69 | with a sound hasher the stored password logs its user in |
| `Api.CreateUser` | main.py:81-86 | 400 and users unchanged when the name is taken; otherwise the new user with hashed password and no todos |
| `Api.RegisterTwice` | main.py:81-86 | registering a name twice gives success then 400, and one user with that name |
| `Api.StartupEvent` | main.py:57-64 | creates the default user only when absent; afterwards exactly one user has that name |
| `Api.ReadTodos` | main.py:88-91 | auth failures pass through; otherwise at most limit todos, all the caller's, from get_todos scoped by the caller's id |
| `Api.ReadTodo` | main.py:97-102 | auth failures pass through; 404 exactly when the caller owns no todo with that id; otherwise that todo |
| `Api.ForeignTodoNotFound` | main.py:97-102 | another user's todo is answered 404 |
| `Api.CreateTodo` | main.py:93-95 | auth failures change nothing; otherwise one new todo owned by the caller |
| `Api.UpdateTodo` | main.py:104-109 | auth failures change nothing; 404 exactly when the caller owns no such todo; otherwise the PUT result, other todos kept |
| `Api.PartialUpdateTodo` | main.py:111-116 | auth failures change nothing; 404 exactly when the caller owns no such todo; otherwise the PATCH result, other todos kept |
| `Api.DeleteTodo` | main.py:118-123 | auth failures change nothing; 404 exactly when the caller owns no such todo; otherwise it is removed and a later read is 404 |
| `Api.KeepsOwners` | main.py:104-116 | updates that keep every row's owner keep every owner an existing user |

## Left out

- Persistence plumbing is not modelled: sessions, commit and refresh, the engine, `get_db` and table creation at import. Each crud call is one atomic step on the in-memory tables.
- Crud.Store.CreateTodo: models.py is not part of this model, so the column default of `completed` is a constructor parameter (`completedDefault`) and is not asserted to be false.
- Crud.Store.CreateUser: models.py is not part of this model, so a unique constraint on `username` is not modelled. The store appends a user under a taken name, where a unique column would raise `IntegrityError` and the request would answer 500. Both callers, `POST /users/` and the startup hook, check the name first, so only the check-then-create race below reaches this case.
- Id assignment by the engine is modelled as a counter per table that only grows. The model does not say whether the ids of deleted rows are reused.
- Crud.Store.GetTodos: `skip` and `limit` are natural numbers. Negative values reach the storage engine, and their meaning is the engine's.
- Api.ReadTodos: its `skip` and `limit` are natural numbers too, though the handler declares them as plain integers, so negative query values are not modelled; they would be passed on to the storage engine unchanged.
- Framework I/O is not modelled: routing, dependency injection, `async`, form and header parsing, and the `WWW-Authenticate` header. Each todo handler calls `GetCurrentUser` first, which stands for the `Depends(get_current_user)` chain.
- A request with no bearer header is rejected by the framework before `get_current_user` runs. It is not modelled apart from an invalid token.
- Password hashing is modelled as a fixed function. bcrypt's salting, which gives a different digest on every call, is not modelled. The core only ever checks a digest with `verify`.
- JWT signing, signature checks and the library's own checks of the expiry instant are not modelled. They sit inside the abstract `decode`. `Faithful` states what the lemmas assume of it.
- Api.GetCurrentUser: a payload whose `sub` is a number is one the library's decode already refuses with a `JWTError`; the model answers it 401 like any other refused token. schemas.py is not part of this model, so the `TokenData` validation step adds nothing beyond that.
- The wall clock is not modelled. `now` is a parameter, and timestamps and `timedelta` values are whole seconds, so microseconds are dropped.
- Api.Expiry: the range of Python's `datetime` (years 1 to 9999) is not modelled. An expiry that falls outside it raises `OverflowError` in the program; the model computes the instant anyway.
- Api.TokenLifetime: the range of `timedelta` (at most 999999999 days) is not modelled. A larger `access_token_expire_minutes` raises `OverflowError` in the program; the model returns the lifetime anyway.
- Api.LoginForAccessToken: because of the two lines above, a configured lifetime that overflows the date range makes the program answer 500, while the model issues a token.
- config.py and `.env` loading are not modelled. The settings are one constant `Settings` value; `database_url` is not used.
- Concurrency is not modelled, including the check-then-create race in `POST /users/`.
