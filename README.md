# To-do list API with a free-plan quota — a Dafny model

The system is a small multi-tenant to-do list service. Users register under a unique
username, may upgrade once from the free plan to the pro plan, and keep an ordered list
of to-dos. A free user may hold at most 10 to-dos; a pro user has no limit. All state is
one in-memory array of users, and every request passes through a chain of guards
(middleware) before its handler changes that array.

The model has five modules:

- `Seqs` (`seqs.dfy`): the array built-ins the code calls: `find`/`some` as `FindIndex`,
  `indexOf` as `IndexOf`, and `splice(i, 1)` as `RemoveAt`.
- `Records` (`records.dfy`): users, to-dos, the failures a request can end with and
  their HTTP status codes. It also holds the UUID shape that `validate` accepts and the
  store invariant: unique usernames and user ids, unique valid to-do ids per user, and
  free users within the limit. Finally it defines `Evolves`, the way the user list may
  change between requests (no user removed, ids and usernames fixed, pro one-way).
- `Guards` (`guards.dfy`): the four guards as pure functions. The account, to-do and
  user-id guards search the user list and return the resolved position (user index,
  and to-do index for the to-do guard) or a failure. The quota guard takes the user
  already resolved and passes or fails. The module also holds the guard chains of
  `POST /todos` and `DELETE /todos/:id`.
- `TodoApi` (`store.dfy`): the class `Store`, whose field `users` is the global array.
  Each route is one method. It runs the route's guards in order and, when they pass,
  makes the handler's change in place. The module's lemmas show that each change keeps
  the store invariant. They also show what the guards resolve after a change.
- `Scenarios` (`scenarios.dfy`): request sequences proved from the route contracts:
  - registering a username twice;
  - upgrading twice;
  - filling the free quota;
  - a pro user going past the limit;
  - deleting twice;
  - marking done twice;
  - updating a to-do and then listing it.

Success statuses are 201 for `POST /users` and `POST /todos`, 204 for `DELETE`, and 200
otherwise. They are fixed per route, so the model does not carry them. Failure statuses
come from `Records.StatusCode`.

Behaviour of the code worth noting:

- A duplicate username is answered with 400.
- On `DELETE /todos/:id` the user account guard runs before the id check. An unknown
  user with a malformed id therefore gets 404 there, but 400 on `PUT` and
  `PATCH .../done` (`Guards.GuardOrderOnBadRequest`).
- The delete handler's `indexOf` check (answering 404 on -1) can never fail: `indexOf`
  of the to-do the guard found is always the guard's own index (`Seqs.IndexOfFound`).
  The method therefore uses that index and has no dead branch.
- For a pro user, the quota guard calls `next()` and then falls through to a second
  `next()`, because there is no `return` in between. `Guards.CheckQuota` models the
  intended behaviour instead: a pro user skips the count and the request goes on once.

## Model

| member | source | states |
|---|---|---|
| `Seqs.FindIndex` | src/index.js:16 | `find`: the result is the first index whose element satisfies the callback; it is None exactly when no element does |
| `Seqs.IndexOf` | src/index.js:173 | `indexOf`: the first index holding the value; it is None (-1) exactly when the value is absent |
| `Seqs.RemoveAt` | src/index.js:179 | `splice(i, 1)`: one element shorter; elements before `i` stay in place and later ones shift down by one, in order |
| `Seqs.RemoveAtMultiset` | src/index.js:179 | the removal takes away exactly the element at `i` and nothing else |
| `Seqs.IndexOfFound` | src/index.js:173-177 | `indexOf` of the element `find` returned is `find`'s own index, so the delete handler's 404 branch is unreachable |
| `Records.StatusCode` | src/index.js:20-121 | 404 for an unknown user or to-do, 403 for the quota, 400 for a malformed id, a taken username or an existing pro plan |
| `Records.ProIsPermanent` | src/index.js:120-124 | along any chain of requests that each evolve the store, a user who is pro stays pro |
| `Guards.CheckUserAccount` | src/index.js:12-26 | passes with the index of the first user with the header's username; fails with UserNotFound exactly when no user has it |
| `Guards.CheckQuota` | src/index.js:28-43 | a pro user always passes; the guard fails, with QuotaExceeded only, exactly when a free user already holds 10 or more to-dos |
| `Guards.QuotaGuardKeepsQuota` | src/index.js:37-40 | for a user within quota, the guard passes exactly when the user stays within quota after one more to-do |
| `Guards.CheckTodoExists` | src/index.js:45-73 | checks in order: malformed id gives InvalidId, then unknown username gives UserNotFound, then TodoNotFound exactly when the id is not in that user's list, and Ok otherwise; success gives the owner found by username and the first to-do in the owner's list with that id |
| `Guards.FindUserById` | src/index.js:75-87 | passes with the index of the first user with the path id; fails with UserNotFound exactly when no user has it |
| `Guards.CreateTodoGuards` | src/index.js:135 | `POST /todos` guards: an unknown username gives UserNotFound; otherwise the quota decides |
| `Guards.DeleteGuards` | src/index.js:170 | `DELETE` guards: an unknown username gives UserNotFound whatever the id; otherwise `checksTodoExists` decides alone |
| `Guards.GuardOrderOnBadRequest` | src/index.js:152-170 | with an unknown user and a malformed id, DELETE fails with UserNotFound while the PUT/PATCH guard fails with InvalidId |
| `TodoApi.AddUserKeepsInvariant` | src/index.js:92-106 | appending a user with an unused username and id keeps usernames and ids unique and evolves the store |
| `TodoApi.UpgradeKeepsInvariant` | src/index.js:124 | setting `pro` keeps the invariant and evolves the store |
| `TodoApi.AppendTodoKeepsInvariant` | src/index.js:135-147 | appending a to-do with a fresh valid id to a user the quota guard passes keeps every free user within 10 and to-do ids unique |
| `TodoApi.ReplaceTodoKeepsInvariant` | src/index.js:156-165 | overwriting a to-do with one of the same id keeps the invariant |
| `TodoApi.RemoveTodoKeepsInvariant` | src/index.js:179 | removing a to-do keeps the invariant |
| `TodoApi.UserLookupsUnchanged` | src/index.js:56 | changing one user's to-do list does not change what the username lookup finds |
| `TodoApi.ResolutionStable` | src/index.js:152-168 | after an update or mark-done, the same request resolves the same to-do at the same place |
| `TodoApi.DeletedTodoNoLongerResolves` | src/index.js:63-67 | after a delete, the id no longer resolves for its owner: both `checksTodoExists` and the DELETE chain give TodoNotFound |
| `TodoApi.Store.constructor` | src/index.js:10 | the store starts with no users and satisfies the invariant |
| `TodoApi.Store.CreateUser` | src/index.js:89-109 | a taken username gives UsernameTaken and no change; otherwise exactly one user is appended, with the fresh id, `pro = false` and no to-dos; the invariant (unique usernames) is kept |
| `TodoApi.Store.GetUser` | src/index.js:111-115 | returns a stored user with the requested id; UserNotFound exactly when there is none |
| `TodoApi.Store.UpgradeToPro` | src/index.js:117-127 | unknown id gives UserNotFound, an already-pro user gives AlreadyPro, and neither changes anything; otherwise only that user's `pro` becomes true and every other user is unchanged |
| `TodoApi.Store.ListTodos` | src/index.js:129-133 | the full to-do list of the user with the header's username, in order; UserNotFound exactly when there is none |
| `TodoApi.Store.CreateTodo` | src/index.js:135-150 | the failure of the `POST /todos` guard chain (unknown user gives UserNotFound, a free user at 10 gives QuotaExceeded) changes nothing; otherwise one not-done to-do with the fresh id is appended at the end of the owner's list and nothing else changes |
| `TodoApi.Store.UpdateTodo` | src/index.js:152-160 | guard failures change nothing; otherwise only the resolved to-do's title and deadline are overwritten (id, done, creation time kept) and no other to-do or user changes |
| `TodoApi.Store.MarkDone` | src/index.js:162-168 | guard failures change nothing; otherwise only the resolved to-do's `done` becomes true |
| `TodoApi.Store.DeleteTodo` | src/index.js:170-182 | DELETE guard failures change nothing; otherwise exactly the resolved to-do is removed from its owner's list, the rest keeping their order |
| `Scenarios.RegisterTwice` | src/index.js:92-95 | the second registration of a username fails with UsernameTaken and the store holds the one user the first registration added |
| `Scenarios.UpgradeTwice` | src/index.js:120-121 | the second upgrade fails with AlreadyPro and the user stays pro |
| `Scenarios.FillFreeQuota` | src/index.js:37-40 | a free user with no to-dos creates ten, the eleventh is refused with QuotaExceeded, and the list stays at ten |
| `Scenarios.ProBeyondQuota` | src/index.js:32-33 | a pro user's create succeeds whatever their count and adds exactly one to-do |
| `Scenarios.DeleteTwice` | src/index.js:170-182 | the first delete succeeds and deleting the same id again fails with TodoNotFound |
| `Scenarios.MarkDoneTwice` | src/index.js:162-168 | marking done twice returns the same to-do, and the store ends as after one call |
| `Scenarios.UpdateThenList` | src/index.js:152-160 | after an update the listing shows the new title and deadline, with id, done and creation time unchanged |

## Left out

- HTTP framing: Express routing, CORS, JSON parsing and serialisation, response
  messages and success status codes (src/index.js:1-8, 184-191). Only the outcome of
  each request is modelled.
- `uuidv4()` (src/index.js:99, 140) is foreign code. It is modelled as a `freshId`
  parameter that must be a valid UUID not already in use: no other user's id for users,
  no to-do's id anywhere in the store for to-dos.
- `validate()` (src/index.js:50) is modelled by `Records.ValidUuid`. This is the form
  the `uuid` package's validation pattern accepts: 8-4-4-4-12 hexadecimal digits, version
  digit 1-5 and variant digit 8, 9, a or b, or else the nil UUID. The package version is
  not part of this model, so later widenings of that pattern are not followed.
- Dates (src/index.js:142, 144, 157): `new Date(deadline)` and `new Date()` are not
  modelled. The parsed deadline and the current time are parameters of the abstract type
  `Date`. Invalid dates are not distinguished.
- Request fields that are missing or are not strings (JavaScript `undefined`, numbers,
  objects) are not modelled. Every name, username, title and id is a string, so a user
  registered without a username, and later found by a request without the header, is
  not represented.
- Object identity: users and to-dos are values in a sequence, and an in-place field
  write is a sequence update. The JavaScript objects returned by reference in responses
  are not modelled, which makes no difference within one request.
- `Guards.CheckQuota`: the second `next()` call for a pro user (src/index.js:33, 42) is
  not modelled. What a second call does depends on the framework's dispatcher, which is
  not part of this model.
- Concurrency: there is none. The event loop serialises requests, and each method runs
  to completion.
