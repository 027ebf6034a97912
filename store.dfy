/**
 The process-wide store and the route handlers that change it. `Store.users` is the
 global `users` array; each method is one route: it runs the route's guards in order
 and, when they all pass, makes the handler's change to the store.
 */
module TodoApi {
  import opened Seqs
  import opened Records
  import opened Guards

  /** The store with the user at `i` given the to-do list `todos`. */
  function WithTodos(users: seq<User>, i: nat, todos: seq<Todo>): seq<User>
    requires i < |users|
  {
    users[i := users[i].(todos := todos)]
  }

  // ---------------------------------------------------------------------------
  // What each kind of change keeps of the store invariant and of the way users evolve.

  /** Registering a user whose username and id are both new keeps the invariant. */
  lemma AddUserKeepsInvariant(users: seq<User>, u: User)
    requires StoreInvariant(users)
    requires !UsernameInUse(users, u.username) && !UserIdInUse(users, u.id)
    requires UserValid(u)
    ensures StoreInvariant(users + [u]) && Evolves(users, users + [u])
  {
  }

  /** Upgrading a user to pro keeps the invariant: a pro user has no quota. */
  lemma UpgradeKeepsInvariant(users: seq<User>, i: nat)
    requires StoreInvariant(users) && i < |users|
    ensures StoreInvariant(users[i := users[i].(pro := true)])
    ensures Evolves(users, users[i := users[i].(pro := true)])
  {
  }

  /** Appending a to-do with an unused valid id to a user the quota guard lets through
      keeps the invariant: in particular a free user still has at most the limit. */
  lemma AppendTodoKeepsInvariant(users: seq<User>, i: nat, t: Todo)
    requires StoreInvariant(users) && i < |users|
    requires CheckQuota(users[i]).Pass?
    requires ValidUuid(t.id) && !TodoIdInUse(users, t.id)
    ensures StoreInvariant(WithTodos(users, i, users[i].todos + [t]))
    ensures Evolves(users, WithTodos(users, i, users[i].todos + [t]))
  {
  }

  /** Replacing a to-do by one with the same id keeps the invariant. */
  lemma ReplaceTodoKeepsInvariant(users: seq<User>, i: nat, k: nat, t: Todo)
    requires StoreInvariant(users) && i < |users| && k < |users[i].todos|
    requires t.id == users[i].todos[k].id
    ensures StoreInvariant(WithTodos(users, i, users[i].todos[k := t]))
    ensures Evolves(users, WithTodos(users, i, users[i].todos[k := t]))
  {
  }

  /** Removing a to-do keeps the invariant. */
  lemma RemoveTodoKeepsInvariant(users: seq<User>, i: nat, k: nat)
    requires StoreInvariant(users) && i < |users| && k < |users[i].todos|
    ensures StoreInvariant(WithTodos(users, i, RemoveAt(users[i].todos, k)))
    ensures Evolves(users, WithTodos(users, i, RemoveAt(users[i].todos, k)))
  {
  }

  // ---------------------------------------------------------------------------
  // How the guards see the store after a handler's change.

  /** `FindIndex` depends only on which elements satisfy the callback. */
  lemma FindIndexPointwise<T, U>(s: seq<T>, p: T -> bool, s': seq<U>, q: U -> bool)
    requires |s| == |s'|
    requires forall j :: 0 <= j < |s| ==> p(s[j]) == q(s'[j])
    ensures FindIndex(s, p) == FindIndex(s', q)
  {
  }

  /** A to-do list change leaves every user where the lookups found them. */
  lemma UserLookupsUnchanged(users: seq<User>, i: nat, todos: seq<Todo>, username: string)
    requires i < |users|
    ensures CheckUserAccount(WithTodos(users, i, todos), username) == CheckUserAccount(users, username)
  {
    FindIndexPointwise(users, HasUsername(username), WithTodos(users, i, todos), HasUsername(username));
  }

  /** Writing a to-do in place (update, mark-done) keeps its id, so the same request
      resolves it again at the same place. */
  lemma ResolutionStable(users: seq<User>, username: string, id: string, at: Found, t: Todo)
    requires CheckTodoExists(users, username, id) == Ok(at)
    requires t.id == id
    ensures CheckTodoExists(WithTodos(users, at.user, users[at.user].todos[at.todo := t]), username, id) == Ok(at)
  {
    var todos := users[at.user].todos;
    var after := WithTodos(users, at.user, todos[at.todo := t]);
    UserLookupsUnchanged(users, at.user, todos[at.todo := t], username);
    FindIndexPointwise(todos, HasTodoId(id), after[at.user].todos, HasTodoId(id));
  }

  /** Once a to-do is deleted its id no longer resolves for its owner, so deleting,
      updating or marking it done again ends with TodoNotFound. */
  lemma DeletedTodoNoLongerResolves(users: seq<User>, username: string, id: string, at: Found)
    requires StoreInvariant(users)
    requires CheckTodoExists(users, username, id) == Ok(at)
    ensures var after := WithTodos(users, at.user, RemoveAt(users[at.user].todos, at.todo));
            && CheckTodoExists(after, username, id) == Err(TodoNotFound)
            && DeleteGuards(after, username, id) == Err(TodoNotFound)
  {
    var todos := users[at.user].todos;
    var rest := RemoveAt(todos, at.todo);
    UserLookupsUnchanged(users, at.user, rest, username);
    forall m | 0 <= m < |rest| ensures rest[m].id != id {
      var m' := if m < at.todo then m else m + 1;
      assert rest[m] == todos[m'] && m' != at.todo;
    }
  }

  class Store {
    /** Every registered user, in registration order. */
    var users: seq<User>

    ghost predicate Valid()
      reads this
    {
      StoreInvariant(users)
    }

    /** The store is empty when the process starts. */
    constructor ()
      ensures Valid() && users == []
    {
      users := [];
    }

    /** `POST /users`: registers a user under an unused username, with the fresh id
        `freshId` (drawn from `uuidv4()`), the free plan and no to-dos. */
    method CreateUser(name: string, username: string, freshId: string) returns (r: Result<User>)
      requires Valid()
      requires ValidUuid(freshId) && !UserIdInUse(users, freshId)
      modifies this
      ensures Valid() && Evolves(old(users), users)
      ensures UsernameInUse(old(users), username) ==> r == Err(UsernameTaken) && users == old(users)
      ensures !UsernameInUse(old(users), username) ==>
                && r == Ok(User(freshId, name, username, false, []))
                && users == old(users) + [r.value]
    {
      var alreadyExists := FindIndex(users, HasUsername(username)).Some?;
      if alreadyExists {
        return Err(UsernameTaken);
      }
      var user := User(freshId, name, username, false, []);
      AddUserKeepsInvariant(users, user);
      users := users + [user];
      r := Ok(user);
    }

    /** `GET /users/:id`: the user with that id. */
    method GetUser(id: string) returns (r: Result<User>)
      ensures r.Err? <==> !UserIdInUse(users, id)
      ensures r.Err? ==> r.failure == UserNotFound
      ensures r.Ok? ==> r.value.id == id && r.value in users
    {
      var found := FindUserById(users, id);
      match found {
        case Err(e) => r := Err(e);
        case Ok(i) => r := Ok(users[i]);
      }
    }

    /** `PATCH /users/:id/pro`: moves a free user to the pro plan; a user already on
        it is refused. */
    method UpgradeToPro(id: string) returns (r: Result<User>)
      requires Valid()
      modifies this
      ensures Valid() && Evolves(old(users), users)
      ensures !UserIdInUse(old(users), id) ==> r == Err(UserNotFound) && users == old(users)
      ensures UserIdInUse(old(users), id) ==>
                var i := FindUserById(old(users), id).value;
                if old(users)[i].pro then
                  r == Err(AlreadyPro) && users == old(users)
                else
                  && r == Ok(old(users)[i].(pro := true))
                  && users == old(users)[i := r.value]
    {
      var found := FindUserById(users, id);
      if found.Err? {
        return Err(found.failure);
      }
      var i := found.value;
      if users[i].pro {
        return Err(AlreadyPro);
      }
      UpgradeKeepsInvariant(users, i);
      var user := users[i].(pro := true);
      users := users[i := user];
      r := Ok(user);
    }

    /** `GET /todos`: the to-dos of the user named in the header, in creation order. */
    method ListTodos(username: string) returns (r: Result<seq<Todo>>)
      ensures r.Err? <==> !UsernameInUse(users, username)
      ensures r.Err? ==> r.failure == UserNotFound
      ensures r.Ok? ==> exists i :: 0 <= i < |users| && users[i].username == username && r.value == users[i].todos
    {
      var found := CheckUserAccount(users, username);
      match found {
        case Err(e) => r := Err(e);
        case Ok(i) => r := Ok(users[i].todos);
      }
    }

    /** `POST /todos`: appends a new to-do, not done, to the list of the user named in
        the header, unless that user is unknown or is a free user already at the
        limit. `freshId` stands for `uuidv4()`, `deadline` for the parsed deadline and
        `now` for the clock. */
    method CreateTodo(username: string, title: string, deadline: Date, now: Date, freshId: string)
      returns (r: Result<Todo>)
      requires Valid()
      requires ValidUuid(freshId) && !TodoIdInUse(users, freshId)
      modifies this
      ensures Valid() && Evolves(old(users), users)
      ensures CreateTodoGuards(old(users), username).Err? ==>
                r == Err(CreateTodoGuards(old(users), username).failure) && users == old(users)
      ensures CreateTodoGuards(old(users), username).Ok? ==>
                var i := CreateTodoGuards(old(users), username).value;
                && r == Ok(Todo(freshId, title, deadline, false, now))
                && users == WithTodos(old(users), i, old(users)[i].todos + [r.value])
    {
      var account := CheckUserAccount(users, username);
      if account.Err? {
        return Err(account.failure);
      }
      var i := account.value;
      var quota := CheckQuota(users[i]);
      if quota.Fail? {
        return Err(quota.failure);
      }
      var todo := Todo(freshId, title, deadline, false, now);
      AppendTodoKeepsInvariant(users, i, todo);
      users := WithTodos(users, i, users[i].todos + [todo]);
      r := Ok(todo);
    }

    /** `PUT /todos/:id`: overwrites the title and deadline of the resolved to-do. */
    method UpdateTodo(username: string, id: string, title: string, deadline: Date) returns (r: Result<Todo>)
      requires Valid()
      modifies this
      ensures Valid() && Evolves(old(users), users)
      ensures CheckTodoExists(old(users), username, id).Err? ==>
                r == Err(CheckTodoExists(old(users), username, id).failure) && users == old(users)
      ensures CheckTodoExists(old(users), username, id).Ok? ==>
                var at := CheckTodoExists(old(users), username, id).value;
                var before := old(users)[at.user].todos;
                && r == Ok(before[at.todo].(title := title, deadline := deadline))
                && users == WithTodos(old(users), at.user, before[at.todo := r.value])
    {
      var found := CheckTodoExists(users, username, id);
      if found.Err? {
        return Err(found.failure);
      }
      var at := found.value;
      var todo := users[at.user].todos[at.todo].(title := title, deadline := deadline);
      ReplaceTodoKeepsInvariant(users, at.user, at.todo, todo);
      users := WithTodos(users, at.user, users[at.user].todos[at.todo := todo]);
      r := Ok(todo);
    }

    /** `PATCH /todos/:id/done`: marks the resolved to-do done, whether or not it was. */
    method MarkDone(username: string, id: string) returns (r: Result<Todo>)
      requires Valid()
      modifies this
      ensures Valid() && Evolves(old(users), users)
      ensures CheckTodoExists(old(users), username, id).Err? ==>
                r == Err(CheckTodoExists(old(users), username, id).failure) && users == old(users)
      ensures CheckTodoExists(old(users), username, id).Ok? ==>
                var at := CheckTodoExists(old(users), username, id).value;
                var before := old(users)[at.user].todos;
                && r == Ok(before[at.todo].(done := true))
                && users == WithTodos(old(users), at.user, before[at.todo := r.value])
    {
      var found := CheckTodoExists(users, username, id);
      if found.Err? {
        return Err(found.failure);
      }
      var at := found.value;
      var todo := users[at.user].todos[at.todo].(done := true);
      ReplaceTodoKeepsInvariant(users, at.user, at.todo, todo);
      users := WithTodos(users, at.user, users[at.user].todos[at.todo := todo]);
      r := Ok(todo);
    }

    /** `DELETE /todos/:id`: removes the resolved to-do from its owner's list. The
        handler's `indexOf` of the resolved to-do always finds it where the guard did
        (`IndexOfFound`), so its 404 branch is never taken and is not modelled as a
        branch. */
    method DeleteTodo(username: string, id: string) returns (r: Outcome)
      requires Valid()
      modifies this
      ensures Valid() && Evolves(old(users), users)
      ensures DeleteGuards(old(users), username, id).Err? ==>
                r == Fail(DeleteGuards(old(users), username, id).failure) && users == old(users)
      ensures DeleteGuards(old(users), username, id).Ok? ==>
                var at := DeleteGuards(old(users), username, id).value;
                && r == Pass
                && users == WithTodos(old(users), at.user, RemoveAt(old(users)[at.user].todos, at.todo))
    {
      var account := CheckUserAccount(users, username);
      if account.Err? {
        return Fail(account.failure);
      }
      var found := CheckTodoExists(users, username, id);
      if found.Err? {
        return Fail(found.failure);
      }
      var at := found.value;
      var todos := users[at.user].todos;
      IndexOfFound(todos, HasTodoId(id));
      var index := IndexOf(todos, todos[at.todo]).value;
      RemoveTodoKeepsInvariant(users, at.user, index);
      users := WithTodos(users, at.user, RemoveAt(todos, index));
      r := Pass;
    }
  }
}
