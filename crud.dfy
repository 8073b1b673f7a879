/** The users and todos tables of the service and the queries and updates on them.
    Every lookup, update and delete of a todo is scoped by both its id and its owner. */
module Crud {

  datatype Option<T> = None | Some(value: T)

  /** A row of the users table. */
  datatype User = User(id: int, username: string, hashedPassword: string)

  /** A row of the todos table; ownerId refers to the id of a User. */
  datatype Todo = Todo(id: int, title: string, description: Option<string>, completed: bool, ownerId: int)

  /** Body of a registration request. */
  datatype UserCreate = UserCreate(username: string, password: string)

  /** Body of POST and PUT on a todo: a title and an optional description. */
  datatype TodoCreate = TodoCreate(title: string, description: Option<string>)

  /** Body of PATCH on a todo. None stands for a field that was omitted or sent as null. */
  datatype TodoUpdate = TodoUpdate(title: Option<string>, description: Option<string>, completed: Option<bool>)

  /** The one-way password hash and its check, left abstract. */
  datatype PasswordHasher = PasswordHasher(hash: string -> string, verify: (string, string) -> bool)

  /** A hasher whose check accepts the digest of the same password. */
  ghost predicate Sound(h: PasswordHasher) {
    forall p :: h.verify(p, h.hash(p))
  }

  /** The ownership-scoped filter every single-todo query applies. */
  predicate Matches(t: Todo, id: int, owner: int) {
    t.id == id && t.ownerId == owner
  }

  /** Rows are kept in insertion order, which is the order of their ids. */
  ghost predicate AscendingUserIds(users: seq<User>) {
    forall i, j :: 0 <= i < j < |users| ==> users[i].id < users[j].id
  }

  ghost predicate AscendingTodoIds(todos: seq<Todo>) {
    forall i, j :: 0 <= i < j < |todos| ==> todos[i].id < todos[j].id
  }

  ghost predicate UniqueUsernames(users: seq<User>) {
    forall i, j :: 0 <= i < j < |users| ==> users[i].username != users[j].username
  }

  /** Position of the first user with the given name. */
  function UserIndex(users: seq<User>, name: string): (r: Option<nat>)
    ensures r.Some? ==> r.value < |users| && users[r.value].username == name
    ensures r.Some? ==> forall k :: 0 <= k < r.value ==> users[k].username != name
    ensures r.None? ==> forall k :: 0 <= k < |users| ==> users[k].username != name
  {
    if users == [] then None
    else if users[0].username == name then Some(0)
    else match UserIndex(users[1..], name)
      case None => None
      case Some(i) => Some(i + 1)
  }

  /** Position of the first todo with the given id and owner. */
  function TodoIndex(todos: seq<Todo>, id: int, owner: int): (r: Option<nat>)
    ensures r.Some? ==> r.value < |todos| && Matches(todos[r.value], id, owner)
    ensures r.Some? ==> forall k :: 0 <= k < r.value ==> !Matches(todos[k], id, owner)
    ensures r.None? ==> forall k :: 0 <= k < |todos| ==> !Matches(todos[k], id, owner)
  {
    if todos == [] then None
    else if Matches(todos[0], id, owner) then Some(0)
    else match TodoIndex(todos[1..], id, owner)
      case None => None
      case Some(i) => Some(i + 1)
  }

  /** The todos of one owner, in table order. */
  function OwnedBy(todos: seq<Todo>, owner: int): (r: seq<Todo>)
    ensures |r| <= |todos|
    ensures forall t :: t in r ==> t in todos && t.ownerId == owner
    ensures forall t :: t in todos && t.ownerId == owner ==> t in r
  {
    if todos == [] then []
    else (if todos[0].ownerId == owner then [todos[0]] else []) + OwnedBy(todos[1..], owner)
  }

  /** The table with every row matching id and owner taken out. */
  function Without(todos: seq<Todo>, id: int, owner: int): seq<Todo> {
    if todos == [] then []
    else (if Matches(todos[0], id, owner) then [] else [todos[0]]) + Without(todos[1..], id, owner)
  }

  /** Number of users with the given name. */
  function CountNamed(users: seq<User>, name: string): nat {
    if users == [] then 0
    else (if users[0].username == name then 1 else 0) + CountNamed(users[1..], name)
  }

  /** What PUT does to a todo: title and description are replaced, nothing else. */
  function Replaced(t: Todo, body: TodoCreate): (r: Todo)
    ensures r.title == body.title && r.description == body.description
    ensures r.id == t.id && r.ownerId == t.ownerId && r.completed == t.completed
  {
    t.(title := body.title, description := body.description)
  }

  /** What PATCH does to a todo: each supplied field overwrites, each omitted one stays. */
  function Patched(t: Todo, patch: TodoUpdate): (r: Todo)
    ensures patch.title.Some? ==> r.title == patch.title.value
    ensures patch.title.None? ==> r.title == t.title
    ensures patch.description.Some? ==> r.description == Some(patch.description.value)
    ensures patch.description.None? ==> r.description == t.description
    ensures patch.completed.Some? ==> r.completed == patch.completed.value
    ensures patch.completed.None? ==> r.completed == t.completed
    ensures r.id == t.id && r.ownerId == t.ownerId
  {
    var t1 := if patch.title.Some? then t.(title := patch.title.value) else t;
    var t2 := if patch.description.Some? then t1.(description := Some(patch.description.value)) else t1;
    if patch.completed.Some? then t2.(completed := patch.completed.value) else t2
  }

  /** after is before with f applied to every row matching id and owner, and to no other row. */
  ghost predicate ReplacedIn(before: seq<Todo>, after: seq<Todo>, id: int, owner: int, body: TodoCreate) {
    && |after| == |before|
    && forall k :: 0 <= k < |before| ==>
         after[k] == if Matches(before[k], id, owner) then Replaced(before[k], body) else before[k]
  }

  ghost predicate PatchedIn(before: seq<Todo>, after: seq<Todo>, id: int, owner: int, patch: TodoUpdate) {
    && |after| == |before|
    && forall k :: 0 <= k < |before| ==>
         after[k] == if Matches(before[k], id, owner) then Patched(before[k], patch) else before[k]
  }

  // ---------------------------------------------------------------------------
  // Lemmas about the table functions

  /** With ascending ids at most one row has a given id, so at most one row matches. */
  lemma MatchIsUnique(todos: seq<Todo>, i: nat, k: nat, id: int, owner: int)
    requires AscendingTodoIds(todos)
    requires i < |todos| && k < |todos|
    requires Matches(todos[i], id, owner) && Matches(todos[k], id, owner)
    ensures i == k
  {
  }

  /** A todo that belongs to someone else is as absent as one that does not exist. */
  lemma ForeignTodoIsAbsent(todos: seq<Todo>, t: Todo, owner: int)
    requires AscendingTodoIds(todos)
    requires t in todos && t.ownerId != owner
    ensures TodoIndex(todos, t.id, owner) == None
  {
    // TodoIndex's contract: a reported row would match t.id, and only t has that id.
  }

  /** The first matching position is what TodoIndex reports. */
  lemma FirstMatchIsIndex(todos: seq<Todo>, i: nat, id: int, owner: int)
    requires i < |todos| && Matches(todos[i], id, owner)
    requires forall k :: 0 <= k < i ==> !Matches(todos[k], id, owner)
    ensures TodoIndex(todos, id, owner) == Some(i)
  {
    // TodoIndex's contract: whatever it reports is the first matching position.
  }

  /** A row appended with an id nobody else has is found at the end. */
  lemma {:induction false} AppendedIsFound(todos: seq<Todo>, t: Todo)
    requires forall s :: s in todos ==> s.id != t.id
    ensures TodoIndex(todos + [t], t.id, t.ownerId) == Some(|todos|)
  {
    if todos == [] {
    } else {
      assert (todos + [t])[1..] == todos[1..] + [t];
      AppendedIsFound(todos[1..], t);
    }
  }

  /** A row survives the reference deletion exactly when it does not match. */
  lemma {:induction false} WithoutMembers(todos: seq<Todo>, id: int, owner: int)
    ensures forall t :: t in Without(todos, id, owner) <==> t in todos && !Matches(t, id, owner)
  {
    if todos != [] {
      WithoutMembers(todos[1..], id, owner);
      assert todos == [todos[0]] + todos[1..];
    }
  }

  /** An owner with no rows has an empty list. */
  lemma {:induction false} NoneOwned(todos: seq<Todo>, owner: int)
    requires forall t :: t in todos ==> t.ownerId != owner
    ensures OwnedBy(todos, owner) == []
  {
    if todos != [] {
      NoneOwned(todos[1..], owner);
    }
  }

  /** When nothing matches, deleting keeps the table as it is. */
  lemma {:induction false} WithoutNoMatch(todos: seq<Todo>, id: int, owner: int)
    requires forall k :: 0 <= k < |todos| ==> !Matches(todos[k], id, owner)
    ensures Without(todos, id, owner) == todos
  {
    if todos != [] {
      WithoutNoMatch(todos[1..], id, owner);
      assert [todos[0]] + todos[1..] == todos;
    }
  }

  /** Dropping the first row keeps the ids ascending. */
  lemma TailAscending(todos: seq<Todo>)
    requires AscendingTodoIds(todos) && todos != []
    ensures AscendingTodoIds(todos[1..])
  {
    var tail := todos[1..];
    forall a, b | 0 <= a < b < |tail| ensures tail[a].id < tail[b].id {
      assert tail[a] == todos[a + 1] && tail[b] == todos[b + 1];
    }
  }

  /** No row after the first has the first row's id. */
  lemma FirstIdNotRepeated(todos: seq<Todo>, id: int, owner: int)
    requires AscendingTodoIds(todos) && todos != [] && todos[0].id == id
    ensures forall k :: 0 <= k < |todos[1..]| ==> !Matches(todos[1..][k], id, owner)
  {
    forall k | 0 <= k < |todos[1..]| ensures todos[1..][k].id != id {
      assert todos[1..][k] == todos[k + 1];
    }
  }

  /** Cutting the matching row out by position is the reference deletion Without. */
  lemma {:induction false} RemoveAtIsWithout(todos: seq<Todo>, i: nat, id: int, owner: int)
    requires AscendingTodoIds(todos)
    requires i < |todos| && Matches(todos[i], id, owner)
    ensures todos[..i] + todos[i + 1..] == Without(todos, id, owner)
  {
    var tail := todos[1..];
    assert Without(todos, id, owner)
        == (if Matches(todos[0], id, owner) then [] else [todos[0]]) + Without(tail, id, owner);
    if i == 0 {
      FirstIdNotRepeated(todos, id, owner);
      WithoutNoMatch(tail, id, owner);
      assert todos[..0] + todos[1..] == tail;
    } else {
      assert todos[0].id < todos[i].id;
      TailAscending(todos);
      RemoveAtIsWithout(tail, i - 1, id, owner);
      calc {
        todos[..i] + todos[i + 1..];
        { assert todos[..i] == [todos[0]] + tail[..i - 1]; assert todos[i + 1..] == tail[i..]; }
        [todos[0]] + (tail[..i - 1] + tail[i..]);
      }
    }
  }

  /** Taking a row out keeps the ids ascending. */
  lemma RemoveAtAscending(todos: seq<Todo>, i: nat)
    requires AscendingTodoIds(todos) && i < |todos|
    ensures AscendingTodoIds(todos[..i] + todos[i + 1..])
  {
    var r := todos[..i] + todos[i + 1..];
    forall a, b | 0 <= a < b < |r| ensures r[a].id < r[b].id {
      var a' := if a < i then a else a + 1;
      var b' := if b < i then b else b + 1;
      assert r[a] == todos[a'] && r[b] == todos[b'];
    }
  }

  /** A row placed before an ascending list of larger ids keeps it ascending. */
  lemma ConsAscending(x: Todo, rest: seq<Todo>)
    requires AscendingTodoIds(rest)
    requires forall t :: t in rest ==> x.id < t.id
    ensures AscendingTodoIds([x] + rest)
  {
    var r := [x] + rest;
    forall a, b | 0 <= a < b < |r| ensures r[a].id < r[b].id {
      assert r[b] == rest[b - 1];
      if a > 0 {
        assert r[a] == rest[a - 1];
      } else {
        assert rest[b - 1] in rest;
      }
    }
  }

  /** One owner's list keeps the id order of the table. */
  lemma {:induction false} OwnedByAscending(todos: seq<Todo>, owner: int)
    requires AscendingTodoIds(todos)
    ensures AscendingTodoIds(OwnedBy(todos, owner))
  {
    if todos != [] {
      var tail := todos[1..];
      TailAscending(todos);
      OwnedByAscending(tail, owner);
      var rest := OwnedBy(tail, owner);
      assert OwnedBy(todos, owner) == (if todos[0].ownerId == owner then [todos[0]] else []) + rest;
      if todos[0].ownerId == owner {
        forall t | t in rest ensures todos[0].id < t.id {
          var k :| 0 <= k < |tail| && tail[k] == t;
          assert todos[k + 1] == t;
        }
        ConsAscending(todos[0], rest);
      } else {
        assert OwnedBy(todos, owner) == rest;
      }
    }
  }

  /** No user has the name exactly when the name is counted zero times. */
  lemma {:induction false} CountNamedZero(users: seq<User>, name: string)
    ensures CountNamed(users, name) == 0 <==> UserIndex(users, name).None?
  {
    if users != [] {
      CountNamedZero(users[1..], name);
    }
  }

  /** With unique usernames a name that is present is present exactly once. */
  lemma {:induction false} UniqueNamedOnce(users: seq<User>, name: string)
    requires UniqueUsernames(users)
    requires UserIndex(users, name).Some?
    ensures CountNamed(users, name) == 1
  {
    var tail := users[1..];
    assert UniqueUsernames(tail) by {
      forall a, b | 0 <= a < b < |tail| ensures tail[a].username != tail[b].username {
        assert tail[a] == users[a + 1] && tail[b] == users[b + 1];
      }
    }
    if users[0].username == name {
      forall k | 0 <= k < |tail| ensures tail[k].username != name {
        assert tail[k] == users[k + 1];
      }
      CountNamedZero(tail, name);
    } else {
      UniqueNamedOnce(tail, name);
    }
  }

  /** Appending a user whose name is not taken keeps usernames unique. */
  lemma AppendKeepsUnique(users: seq<User>, u: User)
    requires UniqueUsernames(users)
    requires UserIndex(users, u.username).None?
    ensures UniqueUsernames(users + [u])
  {
    var r := users + [u];
    forall i, j | 0 <= i < j < |r| ensures r[i].username != r[j].username {
      if j == |users| {
        assert r[i] == users[i];
      } else {
        assert r[i] == users[i] && r[j] == users[j];
      }
    }
  }

  /** PATCH of only the completed flag leaves title and description as they were. */
  lemma PatchCompletedOnly(t: Todo, done: bool)
    ensures Patched(t, TodoUpdate(None, None, Some(done))) == t.(completed := done)
  {
  }

  /** PATCH supplying title and description and omitting completed is the same as PUT. */
  lemma PatchAgreesWithPut(t: Todo, title: string, description: string)
    ensures Patched(t, TodoUpdate(Some(title), Some(description), None))
         == Replaced(t, TodoCreate(title, Some(description)))
  {
  }

  /** The in-memory database: both tables and the id counters of the engine. */
  class Store {
    var users: seq<User>
    var todos: seq<Todo>
    var nextUserId: int
    var nextTodoId: int
    /** The column default of Todo.completed, which create_todo does not set. */
    const completedDefault: bool

    ghost predicate Valid()
      reads this
    {
      && AscendingUserIds(users) && (forall u :: u in users ==> u.id < nextUserId)
      && AscendingTodoIds(todos) && (forall t :: t in todos ==> t.id < nextTodoId)
    }

    constructor (completedDefault: bool)
      ensures Valid()
      ensures users == [] && todos == [] && this.completedDefault == completedDefault
    {
      users := [];
      todos := [];
      nextUserId := 1;
      nextTodoId := 1;
      this.completedDefault := completedDefault;
    }

    /** get_user_by_username: the first user with that name, if any. */
    function GetUserByUsername(username: string): (r: Option<User>)
      reads this
      ensures r.Some? ==> r.value in users && r.value.username == username
      ensures r.None? <==> forall u :: u in users ==> u.username != username
    {
      match UserIndex(users, username)
      case None => None
      case Some(i) => Some(users[i])
    }

    /** create_user: stores the digest of the password, never the password itself. */
    method CreateUser(user: UserCreate, hasher: PasswordHasher) returns (r: User)
      requires Valid()
      modifies this
      ensures Valid()
      ensures r.username == user.username && r.hashedPassword == hasher.hash(user.password)
      ensures forall u :: u in old(users) ==> u.id != r.id
      ensures users == old(users) + [r]
      ensures todos == old(todos) && nextTodoId == old(nextTodoId)
      ensures old(GetUserByUsername(user.username)).None? ==> GetUserByUsername(user.username) == Some(r)
    {
      r := User(nextUserId, user.username, hasher.hash(user.password));
      users := users + [r];
      nextUserId := nextUserId + 1;
      if old(GetUserByUsername(user.username)).None? {
        assert forall k :: 0 <= k < |old(users)| ==> users[k].username != user.username;
        assert users[|old(users)|] == r;
      }
    }

    /** get_todos: the owner's todos with the first skip dropped and at most limit kept. */
    function GetTodos(owner: int, skip: nat := 0, limit: nat := 100): (r: seq<Todo>)
      reads this
      ensures |r| <= limit
      ensures forall t :: t in r ==> t in todos && t.ownerId == owner
      ensures var owned := OwnedBy(todos, owner);
        && (forall k :: 0 <= k < |r| ==> skip + k < |owned| && r[k] == owned[skip + k])
        && (|r| == limit || skip + |r| >= |owned|)
    {
      var owned := OwnedBy(todos, owner);
      var rest := if skip <= |owned| then owned[skip..] else [];
      if limit <= |rest| then rest[..limit] else rest
    }

    /** create_todo: a new row with a fresh id, the given owner and the column default for completed. */
    method CreateTodo(todo: TodoCreate, owner: int) returns (r: Todo)
      requires Valid()
      modifies this
      ensures Valid()
      ensures r.title == todo.title && r.description == todo.description
      ensures r.completed == completedDefault && r.ownerId == owner
      ensures forall t :: t in old(todos) ==> t.id != r.id
      ensures todos == old(todos) + [r]
      ensures users == old(users) && nextUserId == old(nextUserId)
      ensures GetTodo(r.id, owner) == Some(r)
    {
      r := Todo(nextTodoId, todo.title, todo.description, completedDefault, owner);
      AppendedIsFound(todos, r);
      todos := todos + [r];
      nextTodoId := nextTodoId + 1;
    }

    /** get_todo: the row with this id only if it also has this owner. */
    function GetTodo(id: int, owner: int): (r: Option<Todo>)
      reads this
      ensures r.Some? ==> r.value in todos && r.value.id == id && r.value.ownerId == owner
      ensures r.None? <==> forall t :: t in todos ==> !Matches(t, id, owner)
    {
      match TodoIndex(todos, id, owner)
      case None => None
      case Some(i) => Some(todos[i])
    }

    /** update_todo: replaces title and description of the matching row, touches nothing else. */
    method UpdateTodo(id: int, todo: TodoCreate, owner: int) returns (r: Option<Todo>)
      requires Valid()
      modifies this
      ensures Valid()
      ensures users == old(users) && nextUserId == old(nextUserId) && nextTodoId == old(nextTodoId)
      ensures r.None? <==> old(GetTodo(id, owner)).None?
      ensures r.None? ==> todos == old(todos)
      ensures r.Some? ==> r.value == Replaced(old(GetTodo(id, owner)).value, todo)
      ensures ReplacedIn(old(todos), todos, id, owner, todo)
      ensures GetTodo(id, owner) == r
    {
      match TodoIndex(todos, id, owner)
      case None =>
        r := None;
      case Some(i) =>
        var t := Replaced(todos[i], todo);
        forall k | 0 <= k < |todos| && Matches(todos[k], id, owner) ensures k == i {
          MatchIsUnique(todos, i, k, id, owner);
        }
        todos := todos[i := t];
        r := Some(t);
        FirstMatchIsIndex(todos, i, id, owner);
    }

    /** partial_update_todo: overwrites exactly the supplied fields of the matching row. */
    method PartialUpdateTodo(id: int, todo: TodoUpdate, owner: int) returns (r: Option<Todo>)
      requires Valid()
      modifies this
      ensures Valid()
      ensures users == old(users) && nextUserId == old(nextUserId) && nextTodoId == old(nextTodoId)
      ensures r.None? <==> old(GetTodo(id, owner)).None?
      ensures r.None? ==> todos == old(todos)
      ensures r.Some? ==> r.value == Patched(old(GetTodo(id, owner)).value, todo)
      ensures PatchedIn(old(todos), todos, id, owner, todo)
      ensures GetTodo(id, owner) == r
    {
      match TodoIndex(todos, id, owner)
      case None =>
        r := None;
      case Some(i) =>
        var t := Patched(todos[i], todo);
        forall k | 0 <= k < |todos| && Matches(todos[k], id, owner) ensures k == i {
          MatchIsUnique(todos, i, k, id, owner);
        }
        todos := todos[i := t];
        r := Some(t);
        FirstMatchIsIndex(todos, i, id, owner);
    }

    /** delete_todo: removes the matching row and returns it. */
    method DeleteTodo(id: int, owner: int) returns (r: Option<Todo>)
      requires Valid()
      modifies this
      ensures Valid()
      ensures users == old(users) && nextUserId == old(nextUserId) && nextTodoId == old(nextTodoId)
      ensures r == old(GetTodo(id, owner))
      ensures r.None? ==> todos == old(todos)
      ensures todos == Without(old(todos), id, owner)
      ensures forall t :: t in todos <==> t in old(todos) && !Matches(t, id, owner)
      ensures GetTodo(id, owner) == None
    {
      match TodoIndex(todos, id, owner)
      case None =>
        r := None;
        WithoutNoMatch(todos, id, owner);
        WithoutMembers(todos, id, owner);
      case Some(i) =>
        r := Some(todos[i]);
        RemoveAtIsWithout(todos, i, id, owner);
        RemoveAtAscending(todos, i);
        WithoutMembers(todos, id, owner);
        todos := todos[..i] + todos[i + 1..];
    }
  }
}
