# Todo API with JWT: verified model of the store and the token gate

This project models the in-memory core of a small Express task-list service (`app.js`).
The service keeps two process-wide arrays: registered users and tasks ("todos").
A bearer-token gate protects the task routes. Each task belongs to the user whose token created it.

The model is split into modules:

- `Http` (http.dfy): the user and task records, the JSON responses, the status codes and the exact Spanish messages of `app.js`.
- `Gate` (gate.dfy): `verifyToken`. It covers JavaScript's `header.split(" ")[1]` and the decisions 403 (no header), 401 (token rejected) and "run the handler as `userId`".
- `Users` (users.dfy): `users.find` by username and the `/login` decision, as pure functions with lemmas.
- `Todos` (todos.dfy): the owner filter of `GET /todos`, the append of `POST /todos`, and the `findIndex` + `splice` of `DELETE /todos/:id`, as pure functions with lemmas.
- `App` (app.dfy): class `TodoApp`. Its `users` and `todos` fields are the two arrays. Each route is one method, and the methods that mutate state carry `modifies this`.
- `Scenario` (scenario.dfy): one full session against a fresh `TodoApp` (register, log in, create, list, delete, list) and the two gate rejections.

External collaborators are parameters:

- `compare: (string, string) -> bool` stands for bcrypt's `compare`.
- `sign: int -> string` stands for jsonwebtoken's `sign`.
- `verify: Option<string> -> Option<int>` stands for jsonwebtoken's `verify` with the server secret and the one-hour expiry. `None` in its argument is JavaScript's `undefined`. `None` in its result is any verification error.
- `/register` receives the bcrypt hash already computed, because a salted hash is not a function of the password.

Behaviour of the code worth noting:

- The gate splits the header on the single character `" "` (app.js:43). A double space therefore hands `""` to verification (`Gate.DoubleSpaceHeader`). A header with no space hands `undefined` to it (`Gate.HeaderWithoutSpace`).
- Tasks store their owner in the field `userId` (app.js:144).
- Both login failures answer 401 with the single message "Credenciales incorrectas" (app.js:100-101).
- Usernames are not checked for uniqueness (app.js:73). Login takes the first user with the name (app.js:99), so a later user with the same name can log in only with a password that also matches the first user's hash (`Users.LaterDuplicateShadowed`).
- A new task's id is the current array length + 1 (app.js:144), and delete splices the array (app.js:169). After a delete, a later create can therefore reuse the id of a live task (`Todos.CreateAfterDeleteReusesId`, `Todos.IdReuseExample`). `DELETE /todos/:id` then removes the first of the requester's tasks with that id (app.js:167).

## Model

| member | source | states |
|---|---|---|
| Gate.Split | app.js:43 | `split(" ")` yields at least one piece and no piece contains a space |
| Gate.JoinOfSplit | app.js:43 | joining the pieces with single spaces gives back the header |
| Gate.SplitOfJoin | app.js:43 | splitting space-free pieces joined by single spaces gives back those pieces, so split and join are inverse |
| Gate.SplitSingle | app.js:43 | a header splits into a single piece exactly when it has no space |
| Gate.SecondPiece | app.js:43 | `split(" ")[1]` is `undefined` exactly when the header has no space, and otherwise a piece without a space; `Gate.SecondPieceOf` says which piece |
| Gate.SecondPieceOf | app.js:43 | the second piece of `scheme + " " + token + rest` is `token` when neither holds a space and `rest` is empty or starts with a space |
| Gate.VerifyToken | app.js:39-48 | 403 "Token requerido" iff the header is missing or empty; otherwise 401 "Token inválido" iff verification of the second piece fails; otherwise the handler runs with the decoded id |
| Gate.BearerHeaderAuthorizes | app.js:40-46 | a `Bearer <token>` header whose token verifies to `id` authorizes `id` |
| Gate.HeaderWithoutSpace | app.js:43-45 | a non-empty header without a space hands `undefined` to verification, and the outcome is whatever verification makes of it |
| Gate.DoubleSpaceHeader | app.js:43-45 | with two spaces after the scheme, the empty string is verified, not the token |
| Users.AppendKeepsSequentialIds | app.js:73 | appending keeps user i at id i + 1 exactly when the new id is the old length + 1 |
| Users.SequentialIdsDistinct | app.js:73 | sequential user ids are pairwise distinct, also for duplicate usernames |
| Users.FindUser | app.js:99 | no result iff no user has that name; otherwise the result is the user at the first index with that name |
| Users.FindUserIsFirst | app.js:99 | whenever index i holds the first user of a name, the lookup returns that user |
| Users.LoginResponse | app.js:97-105 | status is 200 iff the first user of that name exists and the password matches its hash, and then the token is signed for that user's id; every other outcome is 401 "Credenciales incorrectas" |
| Users.LoginRejectionIsUniform | app.js:99-101 | an unknown username and a wrong password for a known one produce the identical 401 response |
| Users.EarliestDuplicateWins | app.js:99-103 | among users sharing a name, the earliest registered (id i + 1) is the token's subject |
| Users.LaterDuplicateShadowed | app.js:99-101 | a later user with a duplicate name cannot log in with a password that only matches its own hash |
| Todos.OwnedBy | app.js:119 | the `todos.filter` of the list route: it holds a task iff the store holds it and its `userId` is the requester's, so another user's task is never listed; with `Todos.OwnedByConcat` and `Todos.OwnedBySingle` this fixes the result and its order |
| Todos.OwnedByConcat | app.js:119 | filtering a concatenation concatenates the filtered parts, so store order is kept |
| Todos.OwnedBySingle | app.js:119 | a single task is kept iff its `userId` is the requester's |
| Todos.NextTodo | app.js:144 | the created record is owned by the requester, carries the text, and takes its id from the store length alone, not from the live ids |
| Todos.Appended | app.js:144-145 | create grows the store by one, keeps every earlier task, and the new task has id = old length + 1, the given text and the requester's id |
| Todos.AppendedOwnedBy | app.js:143-146 | after create, the creator's list ends with the new task and every other user's list is unchanged |
| Todos.Matches | app.js:167 | the `findIndex` predicate: a NaN id matches no task, and another user's task never matches |
| Todos.FindTodoIndex | app.js:167 | -1 iff no task matches both id and owner; otherwise a matching index with no match before it |
| Todos.RemoveAt | app.js:169 | splice drops exactly the element at the index: length drops by one, the others keep their order, and the multiset loses only that task |
| Todos.RemoveAtKeepsOthers | app.js:169 | every task other than the spliced one is still in the store |
| Todos.AfterDelete | app.js:167-169 | `findIndex` then `splice`: the store is unchanged iff no task matches id and owner; otherwise it is the store with the first matching task spliced out (one task fewer, the others in order), and every non-matching task stays |
| Todos.OwnedByAround | app.js:119-169 | an owner's list before and after the splice, split around the removed index |
| Todos.AfterDeleteKeepsOthers | app.js:166-170 | a delete never changes another user's list, so another user's task can never be deleted |
| Todos.RemoveAtOwnList | app.js:119-169 | splicing out one of the owner's tasks drops exactly that task from the owner's list, the rest in order |
| Todos.AfterDeleteOwnList | app.js:167-169 | a successful delete removes exactly the first matching task from the owner's own list and keeps the rest in order |
| Todos.CreateAfterDeleteReusesId | app.js:144-169 | after any successful delete, if a remaining task has id = the old length, it is still live and the next create gives a new task with that same id |
| Todos.IdReuseExample | app.js:144-169 | create, create, delete id 1, create leaves two tasks both with id 2 |
| App.TodoApp.constructor | app.js:19-20 | the server starts with no users and no tasks |
| App.TodoApp.Register | app.js:70-75 | appends exactly one user with id = old length + 1, distinct from every earlier id, leaves users and tasks otherwise unchanged, and answers 200 "Usuario registrado" |
| App.TodoApp.Login | app.js:97-105 | answers the login response for the current users, and 200 iff the first user of that name accepts the password; the store is unchanged |
| App.TodoApp.ListTodos | app.js:118-120 | a gate rejection is returned as is; otherwise 200 with the requester's tasks in store order; the store is unchanged |
| App.TodoApp.CreateTodo | app.js:142-147 | on gate rejection nothing changes; otherwise exactly one task `{id: old length + 1, text, userId}` is appended and that record is returned |
| App.TodoApp.DeleteTodo | app.js:166-171 | on gate rejection nothing changes; with no task matching id and owner the answer is 404 "Tarea no encontrada" and nothing changes; otherwise the first match is spliced out and the answer is 200 "Tarea eliminada" |
| Scenario.AliceSession | app.js:70-171 | register, login, create "buy milk", list, delete id 1, list gives token for id 1, `{id: 1, text: "buy milk", userId: 1}`, that one task, "Tarea eliminada", then `[]` |
| Scenario.BuyMilk | app.js:118-171 | on an empty store with a header authorizing user 1: create, list, delete id 1, list answer `{id: 1, text: "buy milk", userId: 1}`, that one task, "Tarea eliminada", then `[]`, and the store ends empty |
| Scenario.OneTaskLifecycle | app.js:119-169 | on an empty store, create gives task 1, its owner lists it alone, and deleting id 1 empties the store |
| Scenario.MissingAndGarbageHeaders | app.js:40-44 | no header is 403; `Bearer garbage` with a rejected token is 401 |

## Left out

- bcrypt (app.js:72, app.js:100) is a foreign cryptographic library. The hash is an input to `Register` and the password check is the `compare` parameter.
- jsonwebtoken signing, signature checking and the one-hour expiry (app.js:43, app.js:103) depend on a secret and the clock. They are the `sign` and `verify` parameters. Whether `undefined` or `""` is rejected is up to `verify` (jsonwebtoken rejects both).
- The process secret `SECRET_KEY` (app.js:18) is folded into `verify` and `sign`. Its absence is not modelled: without it every verification fails (401), and `jwt.sign` throws after a correct password (app.js:103), so login sends no response.
- Express routing, body parsing, CORS, Swagger, dotenv and `app.listen` (app.js:1-36, app.js:173-177) are HTTP and I/O plumbing.
- The duplicate `const express` declaration (app.js:8) is a load-time error, not behaviour.
- Handlers are modelled as atomic methods. `/register` awaits the hash before its push; `/login` reads `users` once before awaiting `compare` and then uses only the user found, and users are never removed.
- `parseInt` of the route parameter (app.js:167): the parameter arrives already parsed as `Option<int>`, and `None` (NaN) matches no task.
- App.TodoApp.Register: request bodies are assumed to carry strings. A missing `username`, `password` or `text` (`undefined`, and bcrypt throwing on it) is not modelled.
- App.TodoApp.CreateTodo: `text` is assumed to be a string. A missing `text` (stored as `undefined` by the source) is not modelled.
- Unhandled rejections are not modelled. When bcrypt rejects `undefined` (app.js:72, app.js:100) or `jwt.sign` throws (app.js:103), the async handler's promise is rejected and no response is sent. Nothing in app.js installs an error handler.
