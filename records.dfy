/**
 The records held by the in-memory store: users, each owning an ordered list of
 to-dos, the failures a request can end with, and the invariants the store keeps.
 */
module Records {
  import opened Seqs

  /** A point in time; parsing a deadline and reading the clock happen outside the model. */
  type Date(==)

  datatype Todo = Todo(id: string, title: string, deadline: Date, done: bool, createdAt: Date)

  datatype User = User(id: string, name: string, username: string, pro: bool, todos: seq<Todo>)

  /** How a request can end without reaching its handler's effect. */
  datatype Failure =
    | UserNotFound   // 404 'User not found' / 'Id does not belong to any user'
    | TodoNotFound   // 404 'Todo not found'
    | InvalidId      // 400 'Id in request parameters is not a valid UUID'
    | QuotaExceeded  // 403 'You have reached the limit of free todos ...'
    | UsernameTaken  // 400 'Username already exists'
    | AlreadyPro     // 400 'Pro plan is already activated.'

  datatype Result<+T> = Ok(value: T) | Err(failure: Failure)

  /** The HTTP status code each failure is answered with. */
  function StatusCode(f: Failure): (code: int)
    ensures code == 404 <==> f == UserNotFound || f == TodoNotFound
    ensures code == 403 <==> f == QuotaExceeded
    ensures code == 400 <==> f == InvalidId || f == UsernameTaken || f == AlreadyPro
  {
    match f
    case UserNotFound => 404
    case TodoNotFound => 404
    case InvalidId => 400
    case QuotaExceeded => 403
    case UsernameTaken => 400
    case AlreadyPro => 400
  }

  /** A free-plan user may hold at most this many to-dos. */
  const FreeTodoLimit: nat := 10

  predicate IsHex(c: char) {
    '0' <= c <= '9' || 'a' <= c <= 'f' || 'A' <= c <= 'F'
  }

  const NilUuid: string := "00000000-0000-0000-0000-000000000000"

  /** The textual UUID form the `uuid` package's `validate` accepts: five groups of
      8-4-4-4-12 hexadecimal digits (either case) separated by hyphens, with a version
      digit 1-5 and a variant digit 8, 9, a or b, or else the nil UUID. */
  predicate ValidUuid(s: string) {
    && |s| == 36
    && (forall i :: 0 <= i < 36 ==> if i in {8, 13, 18, 23} then s[i] == '-' else IsHex(s[i]))
    && (s == NilUuid || ('1' <= s[14] <= '5' && s[19] in "89abAB"))
  }

  /** The callbacks the lookups pass to `find`. */
  function HasUsername(username: string): User -> bool {
    (u: User) => u.username == username
  }

  function HasUserId(id: string): User -> bool {
    (u: User) => u.id == id
  }

  function HasTodoId(id: string): Todo -> bool {
    (t: Todo) => t.id == id
  }

  predicate UsernameInUse(users: seq<User>, username: string) {
    exists i :: 0 <= i < |users| && users[i].username == username
  }

  predicate UserIdInUse(users: seq<User>, id: string) {
    exists i :: 0 <= i < |users| && users[i].id == id
  }

  predicate TodoIdInUse(users: seq<User>, id: string) {
    exists i, k :: 0 <= i < |users| && 0 <= k < |users[i].todos| && users[i].todos[k].id == id
  }

  /** A user keeps to the quota of their plan. */
  predicate WithinQuota(u: User) {
    u.pro || |u.todos| <= FreeTodoLimit
  }

  /** No two to-dos of one user share an id, and every id is a valid UUID. */
  predicate TodoIdsValid(todos: seq<Todo>) {
    && (forall k :: 0 <= k < |todos| ==> ValidUuid(todos[k].id))
    && (forall k, l :: 0 <= k < l < |todos| ==> todos[k].id != todos[l].id)
  }

  /** What holds of a user record at every request boundary. */
  predicate UserValid(u: User) {
    ValidUuid(u.id) && TodoIdsValid(u.todos) && WithinQuota(u)
  }

  /** What holds of the whole store at every request boundary: usernames and user ids
      are unique, and every user is valid. */
  predicate StoreInvariant(users: seq<User>) {
    && (forall i :: 0 <= i < |users| ==> UserValid(users[i]))
    && (forall i, j :: 0 <= i < j < |users| ==> users[i].username != users[j].username)
    && (forall i, j :: 0 <= i < j < |users| ==> users[i].id != users[j].id)
  }

  /** How the list of users may change from one request to the next: no user is ever
      removed or reordered, ids and usernames never change, and the pro plan, once
      granted, is never taken away. */
  predicate Evolves(before: seq<User>, after: seq<User>) {
    && |before| <= |after|
    && forall i :: 0 <= i < |before| ==>
         && after[i].id == before[i].id
         && after[i].username == before[i].username
         && (before[i].pro ==> after[i].pro)
  }

  /** A pro user never returns to the free plan: across any chain of requests. */
  lemma {:induction false} ProIsPermanent(trace: seq<seq<User>>, i: nat)
    requires |trace| > 0
    requires forall k :: 0 <= k < |trace| - 1 ==> Evolves(trace[k], trace[k + 1])
    requires i < |trace[0]| && trace[0][i].pro
    ensures i < |trace[|trace| - 1]| && trace[|trace| - 1][i].pro
  {
    if |trace| > 1 {
      ProIsPermanent(trace[1..], i);
    }
  }
}
