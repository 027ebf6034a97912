/**
 Request sequences against the store, proved from the route contracts alone.
 */
module Scenarios {
  import opened Seqs
  import opened Records
  import opened Guards
  import opened TodoApi

  /** Registering a username twice: the second request is refused and the store
      keeps the one user it registered. */
  method RegisterTwice(s: Store, name: string, username: string, id1: string, id2: string)
    returns (first: Result<User>, second: Result<User>)
    requires s.Valid() && !UsernameInUse(s.users, username)
    requires ValidUuid(id1) && ValidUuid(id2) && id1 != id2
    requires !UserIdInUse(s.users, id1) && !UserIdInUse(s.users, id2)
    modifies s
    ensures first.Ok? && second == Err(UsernameTaken)
    ensures s.users == old(s.users) + [first.value]
  {
    first := s.CreateUser(name, username, id1);
    assert s.users[|s.users| - 1].username == username;
    second := s.CreateUser(name, username, id2);
  }

  /** Upgrading twice: the second request is refused and the user stays pro. */
  method UpgradeTwice(s: Store, id: string) returns (first: Result<User>, second: Result<User>)
    requires s.Valid() && UserIdInUse(s.users, id)
    requires !s.users[FindUserById(s.users, id).value].pro
    modifies s
    ensures first.Ok? && first.value.pro && second == Err(AlreadyPro)
    ensures s.users == old(s.users)[FindUserById(old(s.users), id).value := first.value]
  {
    ghost var i := FindUserById(s.users, id).value;
    first := s.UpgradeToPro(id);
    assert s.users[i].id == id;
    assert FindUserById(s.users, id) == Ok(i) by {
      FindIndexPointwise(old(s.users), HasUserId(id), s.users, HasUserId(id));
    }
    second := s.UpgradeToPro(id);
  }

  /** A free user with no to-dos can create exactly `FreeTodoLimit` of them; the next
      request is refused and the list stays at the limit. */
  method FillFreeQuota(s: Store, username: string, title: string, deadline: Date, now: Date, ids: seq<string>)
    returns (last: Result<Todo>)
    requires s.Valid() && UsernameInUse(s.users, username)
    requires var u := s.users[CheckUserAccount(s.users, username).value]; !u.pro && u.todos == []
    requires |ids| == FreeTodoLimit + 1
    requires forall k :: 0 <= k < |ids| ==> ValidUuid(ids[k]) && !TodoIdInUse(s.users, ids[k])
    requires forall k, l :: 0 <= k < l < |ids| ==> ids[k] != ids[l]
    modifies s
    ensures last == Err(QuotaExceeded)
    ensures |s.users| == |old(s.users)|
    ensures |s.users[CheckUserAccount(old(s.users), username).value].todos| == FreeTodoLimit
  {
    var i := CheckUserAccount(s.users, username).value;
    var n := 0;
    while n < FreeTodoLimit
      invariant 0 <= n <= FreeTodoLimit
      invariant s.Valid() && |s.users| == |old(s.users)|
      invariant CheckUserAccount(s.users, username) == Ok(i)
      invariant !s.users[i].pro && |s.users[i].todos| == n
      invariant forall k :: n <= k < |ids| ==> !TodoIdInUse(s.users, ids[k])
    {
      ghost var before := s.users;
      var r := s.CreateTodo(username, title, deadline, now, ids[n]);
      UserLookupsUnchanged(before, i, before[i].todos + [r.value], username);
      forall k | n < k < |ids| ensures !TodoIdInUse(s.users, ids[k]) {
        AppendKeepsIdUnused(before, i, r.value, ids[k]);
      }
      n := n + 1;
    }
    last := s.CreateTodo(username, title, deadline, now, ids[FreeTodoLimit]);
  }

  /** An id nobody uses stays unused when a to-do with another id is appended. */
  lemma AppendKeepsIdUnused(users: seq<User>, i: nat, t: Todo, x: string)
    requires i < |users| && !TodoIdInUse(users, x) && t.id != x
    ensures !TodoIdInUse(WithTodos(users, i, users[i].todos + [t]), x)
  {
  }

  /** A pro user is never held to the free-plan limit, however many to-dos they hold. */
  method ProBeyondQuota(s: Store, username: string, title: string, deadline: Date, now: Date, freshId: string)
    returns (r: Result<Todo>)
    requires s.Valid() && UsernameInUse(s.users, username)
    requires s.users[CheckUserAccount(s.users, username).value].pro
    requires ValidUuid(freshId) && !TodoIdInUse(s.users, freshId)
    modifies s
    ensures r.Ok? && r.value.id == freshId && |s.users| == |old(s.users)|
    ensures var i := CheckUserAccount(old(s.users), username).value;
            |s.users[i].todos| == |old(s.users)[i].todos| + 1
  {
    r := s.CreateTodo(username, title, deadline, now, freshId);
  }

  /** Deleting a to-do twice: the second request finds nothing to delete. */
  method DeleteTwice(s: Store, username: string, id: string) returns (first: Outcome, second: Outcome)
    requires s.Valid() && CheckTodoExists(s.users, username, id).Ok?
    modifies s
    ensures first == Pass && second == Fail(TodoNotFound)
  {
    ghost var at := CheckTodoExists(s.users, username, id).value;
    DeletedTodoNoLongerResolves(s.users, username, id, at);
    first := s.DeleteTodo(username, id);
    second := s.DeleteTodo(username, id);
  }

  /** Marking a to-do done twice: the second request answers the same to-do, and the
      store ends as the first request left it. */
  method MarkDoneTwice(s: Store, username: string, id: string) returns (first: Result<Todo>, second: Result<Todo>)
    requires s.Valid() && CheckTodoExists(s.users, username, id).Ok?
    modifies s
    ensures first.Ok? && first.value.done && second == first
    ensures var at := CheckTodoExists(old(s.users), username, id).value;
            s.users == WithTodos(old(s.users), at.user, old(s.users)[at.user].todos[at.todo := first.value])
  {
    ghost var at := CheckTodoExists(s.users, username, id).value;
    first := s.MarkDone(username, id);
    ghost var after := s.users;
    ResolutionStable(old(s.users), username, id, at, first.value);
    second := s.MarkDone(username, id);
    assert after[at.user].todos[at.todo := first.value] == after[at.user].todos;
    assert s.users == after;
  }

  /** Updating a to-do: listing it afterwards shows the new title and deadline, and
      its id, done flag and creation time are those it had. */
  method UpdateThenList(s: Store, username: string, id: string, title: string, deadline: Date)
    returns (listed: Result<seq<Todo>>)
    requires s.Valid() && CheckTodoExists(s.users, username, id).Ok?
    modifies s
    ensures var at := CheckTodoExists(old(s.users), username, id).value;
            var was := old(s.users)[at.user].todos[at.todo];
            && listed.Ok? && at.todo < |listed.value|
            && listed.value[at.todo] == Todo(was.id, title, deadline, was.done, was.createdAt)
  {
    ghost var at := CheckTodoExists(s.users, username, id).value;
    var updated := s.UpdateTodo(username, id, title, deadline);
    UserLookupsUnchanged(old(s.users), at.user, s.users[at.user].todos, username);
    listed := s.ListTodos(username);
  }
}
