/**
 The middleware that runs before the route handlers. Each guard either lets the request
 through, carrying what it resolved (the position of the user, and of the to-do, in the
 store), or ends it with a failure; a route runs its guards in order and stops at the
 first failure.
 */
module Guards {
  import opened Seqs
  import opened Records

  /** Where a to-do was resolved: the owner's index among the users and the to-do's
      index in the owner's list. */
  datatype Found = Found(user: nat, todo: nat)

  /** A guard that resolves nothing: it passes or it fails. */
  datatype Outcome = Pass | Fail(failure: Failure)

  /** `checksExistsUserAccount`: the first user whose username is the one in the
      `username` header. */
  function CheckUserAccount(users: seq<User>, username: string): (r: Result<nat>)
    ensures r.Ok? ==> r.value < |users| && users[r.value].username == username
    ensures r.Ok? ==> forall j :: 0 <= j < r.value ==> users[j].username != username
    ensures r.Err? <==> !UsernameInUse(users, username)
    ensures r.Err? ==> r.failure == UserNotFound
  {
    match FindIndex(users, HasUsername(username))
    case None => Err(UserNotFound)
    case Some(i) => Ok(i)
  }

  /** `checksCreateTodosUserAvailability`: a pro user always passes; a free user is
      refused once they hold the free-plan limit of to-dos.
      The source calls `next()` for a pro user and then, with no `return` in between,
      reaches the final `next()` too, so control is handed on twice. The evidently
      intended behaviour is modelled here: a pro user by-passes the count and the
      request continues once. */
  function CheckQuota(u: User): (r: Outcome)
    ensures r == Pass || r == Fail(QuotaExceeded)
    ensures u.pro ==> r == Pass
    ensures r.Fail? <==> !u.pro && |u.todos| >= FreeTodoLimit
  {
    if u.pro then Pass
    else if |u.todos| >= FreeTodoLimit then Fail(QuotaExceeded)
    else Pass
  }

  /** The quota guard passes exactly when one more to-do keeps the user within the
      quota of their plan. */
  lemma QuotaGuardKeepsQuota(u: User, t: Todo)
    requires WithinQuota(u)
    ensures CheckQuota(u).Pass? <==> WithinQuota(u.(todos := u.todos + [t]))
  {
  }

  /** `checksTodoExists`: the id must be a valid UUID before anything is looked up;
      then the user named in the header must exist; then that user must own a to-do
      with the id. */
  function CheckTodoExists(users: seq<User>, username: string, id: string): (r: Result<Found>)
    ensures !ValidUuid(id) ==> r == Err(InvalidId)
    ensures ValidUuid(id) && !UsernameInUse(users, username) ==> r == Err(UserNotFound)
    ensures ValidUuid(id) && CheckUserAccount(users, username).Ok? ==>
              var owner := users[CheckUserAccount(users, username).value];
              (r == Err(TodoNotFound) <==> forall k :: 0 <= k < |owner.todos| ==> owner.todos[k].id != id)
    ensures ValidUuid(id) && CheckUserAccount(users, username).Ok? ==> r.Ok? || r == Err(TodoNotFound)
    ensures r.Ok? ==>
              && ValidUuid(id)
              && CheckUserAccount(users, username) == Ok(r.value.user)
              && r.value.todo < |users[r.value.user].todos|
              && users[r.value.user].todos[r.value.todo].id == id
              && FindIndex(users[r.value.user].todos, HasTodoId(id)) == Some(r.value.todo)
  {
    if !ValidUuid(id) then Err(InvalidId)
    else match CheckUserAccount(users, username)
      case Err(e) => Err(e)
      case Ok(i) =>
        match FindIndex(users[i].todos, HasTodoId(id))
        case None => Err(TodoNotFound)
        case Some(k) => Ok(Found(i, k))
  }

  /** `findUserById`: the first user whose id is the `:id` path parameter. */
  function FindUserById(users: seq<User>, id: string): (r: Result<nat>)
    ensures r.Ok? ==> r.value < |users| && users[r.value].id == id
    ensures r.Ok? ==> forall j :: 0 <= j < r.value ==> users[j].id != id
    ensures r.Err? <==> !UserIdInUse(users, id)
    ensures r.Err? ==> r.failure == UserNotFound
  {
    match FindIndex(users, HasUserId(id))
    case None => Err(UserNotFound)
    case Some(i) => Ok(i)
  }

  /** The guards of `POST /todos`: the user account, then the quota. */
  function CreateTodoGuards(users: seq<User>, username: string): (r: Result<nat>)
    ensures !UsernameInUse(users, username) ==> r == Err(UserNotFound)
    ensures UsernameInUse(users, username) ==>
              var i := CheckUserAccount(users, username).value;
              r == if CheckQuota(users[i]).Pass? then Ok(i) else Err(QuotaExceeded)
  {
    match CheckUserAccount(users, username)
    case Err(e) => Err(e)
    case Ok(i) =>
      match CheckQuota(users[i])
      case Fail(e) => Err(e)
      case Pass => Ok(i)
  }

  /** The guards of `DELETE /todos/:id`: the user account first and `checksTodoExists`
      after it. Once the user is known to exist the second guard decides alone, so the
      two orders differ only in which failure wins when both the username and the id
      are bad. */
  function DeleteGuards(users: seq<User>, username: string, id: string): (r: Result<Found>)
    ensures !UsernameInUse(users, username) ==> r == Err(UserNotFound)
    ensures UsernameInUse(users, username) ==> r == CheckTodoExists(users, username, id)
  {
    match CheckUserAccount(users, username)
    case Err(e) => Err(e)
    case Ok(_) => CheckTodoExists(users, username, id)
  }

  /** An unknown user with a malformed id: DELETE answers 404, while PUT and PATCH
      answer 400 because their only guard checks the id first. */
  lemma GuardOrderOnBadRequest(users: seq<User>, username: string, id: string)
    requires !UsernameInUse(users, username) && !ValidUuid(id)
    ensures DeleteGuards(users, username, id) == Err(UserNotFound)
    ensures CheckTodoExists(users, username, id) == Err(InvalidId)
  {
  }
}
