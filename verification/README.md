# Task backend: authentication and ownership-scoped task routes

A Dafny model of the Express/Mongoose backend of a task tracker. It covers three parts:

- the `/api/auth` routes: registration with four seeded starter tasks, and login that issues a five-hour token;
- the `/api/tasks` routes: list, create, update and delete, each scoped to the authenticated caller;
- the Mongoose `Task` schema: trimmed `text` and `details`, the `priority` enum with its `Medium` default, and the `createdAt` stamp.

Each route handler is a pure function from the store, the caller and the request to a `Step`. A `Step` holds the HTTP response (status and body) and the store afterwards. The store (`Store.Db`) holds the two collections as sequences in insertion order, plus a counter that hands out fresh ids.

Outside effects are parameters:

- the caller's id, which the auth middleware supplies;
- the clock (`now`);
- the bcrypt salt;
- a `Hasher` with `hash(password, salt)` and `compare(password, digest)`.

The model assumes one fact about bcrypt, as a hypothesis where needed: `AuthRoutes.Sound` says a password always matches a digest made from it. The token is modelled by its claims only (`Jwt.Claims`): the payload `{ user: { id } }`, the issue time `iat` in seconds, and `exp = iat + 5h` (section 4.1.4 of RFC 7519).

Mongoose behaviour as modelled:

- `trim: true` is a setter. It runs both when a document is built and when a `$set` update is cast, so text and details are trimmed on create and on update.
- On create, the `required` and `enum` validators run after the setters. A rejected document is never saved, and the route's `catch` answers 500 "Server Error".
- `findByIdAndUpdate` runs no validators. An owner can therefore store a priority that is not in the enum, or a blank text trimmed to `""`. `Invariants.UpdateSkipsPriorityEnum` and `Invariants.UpdateSkipsTextRequired` exhibit both. The schema invariant is proved for updates only when the fields are ones the validators would accept (`Invariants.UpdateKeepsSchema`).
- Update applies only the truthy fields. An absent field, or an empty string, leaves the stored value as it was.

Registration does not log the user in. It answers `201 { message: 'User registered successfully' }` with no token, and the model follows that. `Invariants.RegisterThenLogin` proves that a login with the same credentials then succeeds.

## Model

| member | source | states |
|---|---|---|
| JsText.Trim | backend/models/Task.js:10-18 | the trimmed value has no whitespace at either end and is no longer than the input |
| JsText.Truthy | backend/routes/tasks.js:45-47 | a request field passes `if (field)` exactly when it is present and not the empty string |
| JsText.TrimIsSlice | backend/models/Task.js:13 | what `trim` keeps is one contiguous piece of the input, with only whitespace before and after it |
| JsText.TrimIdempotent | backend/models/Task.js:13 | trimming an already trimmed value changes nothing |
| JsText.TrimEmptyIffBlank | backend/models/Task.js:10-14 | a value trims to the empty string exactly when it is all whitespace, so a blank `text` fails `required` |
| TaskModel.ParsePriority | backend/models/Task.js:19-23 | a stored string is accepted exactly when it names one of Low, Medium, High |
| TaskModel.ParsePriorityName | backend/models/Task.js:21 | every enum value is accepted back after being written out |
| TaskModel.Valid | backend/models/Task.js:4-28 | a saved task has non-empty trimmed text, trimmed details when present, and a priority in the enum |
| TaskModel.ValidIffSavedUnchanged | backend/models/Task.js:4-28 | a document meets the schema exactly when saving it (setters, then validators) stores it unchanged |
| TaskModel.TrimField | backend/models/Task.js:15-18 | the `trim` setter on the optional `details` keeps an absent value absent and leaves a present one trimmed and no longer |
| TaskModel.NewTask | backend/models/Task.js:4-28 | a document saves exactly when its trimmed text is non-empty and its priority is absent or in the enum; the saved document is valid, trims text and details, defaults the priority to Medium, and keeps owner, id and timestamp |
| TaskModel.NewTaskOfTrimmed | backend/models/Task.js:10-23 | already trimmed strings and an enum priority are saved unchanged |
| Store.FindFirst | backend/routes/tasks.js:50 | the lookup yields the first position whose key matches, and yields none exactly when no element's key matches |
| Store.FindTask | backend/routes/tasks.js:50-51 | `findById` finds the first task with the id, and finds none only when no task has it |
| Store.FindUser | backend/routes/auth.js:28-29 | `findOne({ username })` finds the first user with the name, and finds none only when no user has it |
| Store.OwnedBy | backend/routes/tasks.js:12 | `find({ user })` keeps every task of the owner, with its multiplicity, and nothing else |
| Store.RemoveAt | backend/routes/tasks.js:84 | `findByIdAndRemove` drops one position: the result is one shorter, with the tasks before it in place and the tasks after it shifted down by one |
| Store.SortNewestFirst | backend/routes/tasks.js:12 | the sorted list is ordered by `createdAt`, newest first, and is a permutation of its input |
| Store.FreshIdOwnsNothing | backend/routes/auth.js:38-42 | in a consistent store no task belongs to the id the next registration receives |
| Jwt.Sign | backend/routes/auth.js:72-81 | the token claims carry exactly the user id, an issue time equal to the clock in whole seconds, and an expiry 5 hours later |
| TaskRoutes.List | backend/routes/tasks.js:10-18 | the store is unchanged; the listed tasks are exactly the caller's, with multiplicity, newest first |
| TaskRoutes.Create | backend/routes/tasks.js:22-37 | 200 exactly when the schema accepts the body; the new task is owned by the caller whatever the body says, stamped now, trimmed, defaulted and appended; otherwise 500 with the store unchanged |
| TaskRoutes.FieldsOf | backend/routes/tasks.js:42-47 | the `$set` document has a key exactly for each truthy request field, and each present key carries the request's own value |
| TaskRoutes.ApplySet | backend/routes/tasks.js:58-62 | the update keeps id, owner and timestamp, writes each field in the `$set` document (text and details trimmed, priority as given), and leaves every other field as it was |
| TaskRoutes.ApplySetIdempotent | backend/routes/tasks.js:58-62 | applying the same `$set` twice is the same as applying it once |
| TaskRoutes.Update | backend/routes/tasks.js:41-70 | 404 with no change when no task has the id, checked before ownership; 401 with no change for a non-owner; otherwise only that task changes, each truthy field is written (text and details trimmed), and the new task is returned |
| TaskRoutes.Delete | backend/routes/tasks.js:74-90 | 404 with no change when no task has the id; 401 with no change for a non-owner; otherwise exactly that task is removed and the rest keep their order |
| TaskRoutes.Handle | backend/routes/tasks.js:10-90 | no task request touches the accounts, and none adds, removes or alters a task of another user |
| TaskRoutes.UpdateIsolated | backend/routes/tasks.js:53-62 | an update leaves the tasks of every other user exactly as they were |
| TaskRoutes.DeleteIsolated | backend/routes/tasks.js:79-84 | a delete leaves the tasks of every other user exactly as they were |
| AuthRoutes.SeedTasks | backend/routes/auth.js:41-42 | one stored task per starter entry, in order, owned by the new user, with consecutive fresh ids |
| AuthRoutes.InitialTasksOk | backend/routes/auth.js:11-16 | there are four starter entries, each with non-empty text and no surrounding whitespace |
| AuthRoutes.SeedCastAsSchema | backend/routes/auth.js:41-42 | storing a starter entry as written is exactly what the schema's setters and validators would save |
| AuthRoutes.SeedTasksValid | backend/routes/auth.js:41-42 | starter entries with trimmed strings give schema-valid tasks |
| AuthRoutes.InitialTasksShape | backend/routes/auth.js:11-16 | registration seeds four tasks with priorities High, Medium, Low, Medium, all owned by the new user and stamped alike |
| AuthRoutes.InitialTasksValid | backend/routes/auth.js:11-16 | the seeded tasks satisfy the schema |
| AuthRoutes.Enroll | backend/routes/auth.js:33-42 | the user is appended with the digest, and the seed tasks follow the existing tasks, which are unchanged |
| AuthRoutes.Register | backend/routes/auth.js:20-50 | 400 "Please enter all fields" for a falsy field; 400 "User already exists" for a taken name; 201 exactly when both fields are truthy and the name is free, and then exactly one user is added, holding the digest of the password rather than the password, followed by four tasks owned by it whose text, details and priority are the starter entries' |
| AuthRoutes.Login | backend/routes/auth.js:54-87 | the store is never written; "Invalid credentials" exactly when the name is unknown or the password does not match; truthy fields naming a stored user whose digest matches the password give 200 with the token signed for that user's id; any 200 carries a token for a matching stored user, expiring 5 hours after issue |
| Invariants.CreateKeepsConsistent | backend/routes/tasks.js:22-37 | creating a task keeps ids unique and below the counter, and every task owned by a registered user |
| Invariants.UpdateKeepsConsistent | backend/routes/tasks.js:41-70 | an update keeps the store invariant |
| Invariants.DeleteKeepsConsistent | backend/routes/tasks.js:74-90 | a delete keeps the store invariant |
| Invariants.TaskRequestKeepsConsistent | backend/routes/tasks.js:10-90 | every task request by a registered caller keeps the store invariant |
| Invariants.UpdateKeepsSchema | backend/routes/tasks.js:41-70 | an update whose fields the validators would accept keeps every stored task valid |
| Invariants.CreateKeepsSchema | backend/routes/tasks.js:22-37 | a create keeps every stored task valid |
| Invariants.DeleteKeepsSchema | backend/routes/tasks.js:74-90 | a delete keeps every stored task valid |
| Invariants.TaskRequestKeepsSchema | backend/routes/tasks.js:10-90 | create and delete keep every stored task valid, and so does an update with acceptable fields |
| Invariants.UpdateSkipsPriorityEnum | backend/routes/tasks.js:58-62 | an owner can store the priority "Urgent", and the stored task is then outside the schema |
| Invariants.UpdateSkipsTextRequired | backend/routes/tasks.js:42-62 | an owner's blank text passes the truthiness test and is stored trimmed to the empty string |
| Invariants.UpdateIdempotent | backend/routes/tasks.js:41-70 | repeating an update gives the same response and the same store |
| Invariants.ForeignTaskRefused | backend/routes/tasks.js:53-56 | another user's task can be neither updated nor deleted: both answer 401 and the store is unchanged |
| Invariants.DeleteRemovesExactly | backend/routes/tasks.js:84 | an owner's delete removes exactly the task with that id and keeps every other task |
| Invariants.CreateThenList | backend/routes/tasks.js:12-31 | a created task appears in its owner's list |
| Invariants.RegisterKeepsUsernamesUnique | backend/routes/auth.js:28-38 | registration never creates a second account with a username already in use |
| Invariants.EnrollKeepsConsistent | backend/routes/auth.js:33-42 | adding a user with a free name and its seed tasks keeps the store invariant |
| Invariants.RegisterKeepsConsistent | backend/routes/auth.js:20-50 | registration keeps the store invariant |
| Invariants.EnrollKeepsSchema | backend/routes/auth.js:41-42 | seeds stored as written keep every stored task valid |
| Invariants.RegisterKeepsSchema | backend/routes/auth.js:20-50 | registration keeps every stored task valid |
| Invariants.ListOfFreshOwner | backend/routes/tasks.js:12 | tasks added for a fresh id make up that id's whole list |
| Invariants.EnrollThenList | backend/routes/auth.js:41-42 | after enrolling, the new account's list holds exactly its seed tasks |
| Invariants.RegisterThenList | backend/routes/auth.js:38-44 | after a registration, the new account's list holds exactly the four seeded tasks |
| Invariants.RegisterThenLogin | backend/routes/auth.js:35-81 | with a sound hasher, logging in with the registered credentials succeeds, and the token names the new account |
| Invariants.LoginFailuresAlike | backend/routes/auth.js:62-70 | an unknown username and a wrong password get the same response |

## Left out

- The auth middleware (`backend/middleware/authMiddleware.js`) is not part of this model. The caller's id is a parameter of every task route, so token verification, the 401 for a missing or expired token, and the JWT signature are not modelled.
- The `User` model file is not part of this model. A user is a record of id, username and digest, with no schema validation.
- bcrypt is uninterpreted. The cost factor 10, the salt's randomness and the digest format are not modelled, and the salt is a parameter.
- `jwt.sign`'s secret, its signature and its callback error are left out. Only the claims are modelled.
- The 500 answers caused by database exceptions are left out of every route. These include the auth routes' "Server error" text and a failure between `user.save()` and `Task.insertMany`, which would leave an account without its seed tasks. The store operations are total in the model.
- Concurrency is left out: handlers run one at a time. In particular, two simultaneous registrations of the same name both passing `findOne` is not modelled.
- A malformed `:id` in the path, which Mongoose rejects with a CastError and the route answers with 500, is left out: path ids are `Id` values.
- Request fields are absent or strings. JSON `null`, numbers and other non-string values, and Mongoose's casting of them, are left out.
- ObjectIds are values of one counter shared by users and tasks. Their byte layout and embedded timestamp are not modelled.
- `AuthRoutes.SeedTasks` stamps all four seed tasks with the same `now`. `insertMany` evaluates `Date.now` per document, so the real stamps can differ by a few milliseconds.
- `TaskRoutes.List` fixes one order for tasks with equal `createdAt`. MongoDB leaves that order unspecified, so the contract promises only newest-first ordering and the set of tasks with their multiplicities.
- The trim-on-update behaviour is assumed from Mongoose 5 and later, which run setters when an update is cast. Older versions would store update values untrimmed.
- `backend/server.js` is not part of this model. Process start-up, CORS, the JSON body parser and the database connection are left out.
