# Daily routines backend: a Dafny model

This project models the backend of the "daily routines" service
(`functions/src/index.ts`). The service keeps shared checklists called
routine lists in the `routine_lists` collection. Each list has a `name`, a
`timezone`, `admins` (an array of user ids) and `tasks`. Each task has an
`id`, a `description`, a boolean `status` (true means done) and a
`refreshTime` written as "HH:MM".

The backend has six callable functions and one scheduled function:

- `createRoutineList` creates a list whose only admin is the caller.
- `getRoutineLists` returns the lists the caller administers.
- `getRoutineListDetails` checks its guards in order, then returns one list.
- `addTask` appends a pending task.
- `updateTaskStatus` rewrites the status of the tasks with a given id.
- `inviteAdmin` adds a user, found by email, to a list's admins.
- `dailyReset` runs every hour. In each list, it sets back to pending every
  completed task whose refreshTime hour equals the current hour in the
  list's timezone. It writes a list back only when it reset something.

The reset is by hour of the day. The code has no refresh durations, refresh
timestamps or undo snapshots, and neither does the model.

Layout:

- `Types.dfy` (module `RoutineTypes`): documents, callers, error codes,
  request fields.
- `Tasks.dfy` (module `Tasks`): the two rewrites of a task array. One is the
  status update. The other is the per-list reset, a pure function plus the
  loop (`ResetList`) that computes it together with the `needsUpdate` flag.
  The module also reads the hour out of a refreshTime.
- `Callables.dfy` (module `Callables`): each callable as a pure transition
  `(collection, caller, request fields) -> (reply, collection)`. It also holds
  the invariant all of them keep and the lemmas that relate them.
- `Sweep.dfy` (module `Sweep`): the scheduled run as a transition of the
  whole collection, with its idempotence.
- `Store.dfy` (module `RoutineStore`): class `Database`. Its field `lists`
  is the collection, which its methods update in place. Each method follows
  the handler's steps and is proved equal to the transition of the same name.
  `DailyReset` is a loop over the documents.

Outside pieces are parameters:

- `freshId` is the document id `collection.add` picks. It names no existing
  document.
- `newId` is the value of `uuidv4()`.
- `users: map<Email, Uid>` is the set of accounts `getUserByEmail` can find.
- `zones: map<string, Hour>` is the current hour in every timezone that can
  be converted. A zone missing from it is one where the conversion throws.
- A request field is an `Option`. A string field counts as given when
  JavaScript treats it as truthy: present and not empty. `status` is `None`
  when it is not a boolean.
- `FieldValue.arrayUnion(x)` is "append `x` unless an equal element is
  already there" (`ArrayUnion`).

## Model

| member | source | states |
|---|---|---|
| `Callables.CreateRoutineList` | functions/src/index.ts:36-53 | unauthenticated when there is no uid; invalid-argument exactly when name or timezone is missing or empty, and then nothing changes; success exactly when the caller is authenticated and both are given, and then the reply is the new id, the collection gains exactly that one document (named as asked, admins `[uid]`, no tasks) and every other document is unchanged |
| `Callables.GetRoutineLists` | functions/src/index.ts:59-63 | unauthenticated when there is no uid; otherwise exactly the documents whose admins contain the caller, each as stored |
| `Callables.GetRoutineListDetails` | functions/src/index.ts:68-87 | guards in order, each as an if-and-only-if: unauthenticated, invalid-argument for a missing listId, not-found for an absent document, permission-denied for a non-admin; success exactly when an authenticated caller names a list they administer, and then the stored document |
| `Callables.AddTask` | functions/src/index.ts:93-122 | invalid-argument exactly when listId, description or refreshTime is missing; permission-denied exactly when the list is absent or the caller is not an admin; no change on any error; success exactly when every guard passes, and then only that list changes, only by `arrayUnion` of a pending task with the given id, description and refreshTime |
| `Callables.UpdateTaskStatus` | functions/src/index.ts:127-153 | invalid-argument exactly when an id is missing or status is not a boolean; permission-denied exactly for a missing list or a non-admin; no change on any error; success exactly when every guard passes, whether or not a task has the id, and then only that list's tasks change, as `SetStatus` |
| `Callables.InviteAdmin` | functions/src/index.ts:158-193 | success exactly when the caller is an admin, the email resolves and the uid is not yet an admin, and then only that list's admins grow by that uid; every failure after the permission check is not-found; already-exists is never returned; no change on any error |
| `Callables.CreatePreservesValid` | functions/src/index.ts:44-51 | a created list keeps the collection valid: non-empty name and timezone, at least one admin and no duplicate admins, tasks with non-empty fields and distinct ids |
| `Callables.AddTaskAppendsPending` | functions/src/index.ts:109-118 | with an id no task has, `addTask` appends exactly one pending task and keeps the collection valid |
| `Callables.UpdateTaskStatusPreservesValid` | functions/src/index.ts:143-150 | the status rewrite keeps the collection valid |
| `Callables.InviteAdminPreservesValid` | functions/src/index.ts:179-185 | an invitation keeps the admins free of duplicates and the collection valid |
| `Callables.NonAdminsCannotChangeList` | functions/src/index.ts:36-172 | a caller who is not an admin of a list changes nothing in it through addTask, updateTaskStatus or inviteAdmin, and creating a list leaves existing lists alone |
| `Callables.AdminsNeverLost` | functions/src/index.ts:116-185 | no callable (createRoutineList, addTask, updateTaskStatus, inviteAdmin) removes a list or an admin from it |
| `Callables.DetailsAgreeWithListing` | functions/src/index.ts:59-86 | a list's details can be read exactly when the list is among the caller's lists, and both return the same document |
| `Callables.CreatorSeesNewList` | functions/src/index.ts:44-53 | after a successful creation the creator can read the new, empty list and finds it among their lists |
| `Callables.UnknownTaskIdStillSucceeds` | functions/src/index.ts:143-152 | an authorised status update whose task id matches no task reports success and leaves the collection as it was |
| `Callables.GetUid` | functions/src/index.ts:18-28 | succeeds exactly when the request carries a non-empty uid, and returns that uid; otherwise unauthenticated |
| `Callables.TryInvite` | functions/src/index.ts:175-188 | the `try` block: not-found exactly when the email has no account, already-exists exactly when its uid is already an admin; success exactly when the email resolves to a uid that is not yet an admin, and then the list with that uid appended to the admins |
| `Tasks.TaskHour` | functions/src/index.ts:222 | an hour exactly when the text before the first colon is all decimal digits, never negative, and 0 for an empty text (the rest of `Number` is listed under Left out) |
| `Sweep.EffectiveZone` | functions/src/index.ts:213 | never empty; the list's own timezone whenever it is non-empty (otherwise "UTC") |
| `RoutineTypes.ArrayUnion` | functions/src/index.ts:117 | keeps every element and contains `x`; unchanged when an equal element is present, otherwise `x` appended at the end |
| `Callables.InviteeGainsAccess` | functions/src/index.ts:183-185 | after a successful invitation both the invitee and the inviter can read the list |
| `Callables.InvitingAnAdminReportsNotFound` | functions/src/index.ts:179-191 | inviting an existing admin raises already-exists inside the `try` block, and the caller gets not-found with nothing changed |
| `Tasks.BeforeColon` | functions/src/index.ts:222 | `split(':')[0]`: the result is a prefix of the text without a colon, and it stops exactly at the first colon |
| `Tasks.BeforeColonOfPrefix` | functions/src/index.ts:222 | splitting `p + ":" + rest` gives back any colon-free `p` |
| `Tasks.TaskHourOfClockText` | functions/src/index.ts:222 | a refreshTime written "HH:MM" parses to hour HH, whatever follows the colon |
| `Tasks.ResetTasks` | functions/src/index.ts:220-229 | same length and order; ids, descriptions and refreshTimes kept; a task's status is false afterwards exactly when it was false or its refreshTime hour is the current hour; no task goes from pending to done |
| `Tasks.ResetList` | functions/src/index.ts:219-229 | the loop builds `ResetTasks` and its flag is exactly "some completed task has the current hour" |
| `Tasks.NeedsResetIffChanged` | functions/src/index.ts:231-232 | the `needsUpdate` flag is raised exactly when the reset changes the task array |
| `Tasks.ResetTasksIdempotent` | functions/src/index.ts:220-229 | resetting twice in the same hour equals resetting once, and the second pass raises no flag |
| `Tasks.SetStatus` | functions/src/index.ts:143-148 | same length and order; every task with the id gets the requested status and keeps its other fields; every other task is identical |
| `Tasks.SetStatusNoop` | functions/src/index.ts:143-148 | the array is unchanged exactly when every task with the id already has the requested status, in particular for an unknown id |
| `Tasks.ResetUndoesCompletion` | functions/src/index.ts:220-226 | a task marked done whose refreshTime hour is the current hour is pending after the reset; a task marked pending stays pending |
| `Sweep.SweepList` | functions/src/index.ts:211-234 | one list of the run: name, timezone and admins kept; unchanged when the timezone cannot be converted; otherwise its tasks are the reset array, written or not |
| `Sweep.DailyReset` | functions/src/index.ts:210-238 | same documents; each list whose timezone converts has its tasks reset at its own hour, whatever happens to the other lists; a list whose conversion fails is unchanged |
| `Sweep.WrittenIffChanged` | functions/src/index.ts:231-234 | the run writes a list back exactly when the list changes |
| `Sweep.DailyResetIdempotent` | functions/src/index.ts:219-234 | a second run in the same hour changes nothing and writes nothing |
| `Sweep.DailyResetOnlyClears` | functions/src/index.ts:220-229 | the run never marks a task done and keeps each task's position, id, description and refreshTime |
| `Sweep.DailyResetPreservesValid` | functions/src/index.ts:220-232 | the run keeps the collection valid |
| `Sweep.CompletedTaskResetsAtItsHour` | functions/src/index.ts:220-225 | a task marked done through updateTaskStatus, whose refreshTime is "HH:MM", is pending after the run in hour HH of its list's timezone |
| `RoutineStore.Database.CreateRoutineList` | functions/src/index.ts:36-53 | the reply and the new collection are those of `Callables.CreateRoutineList` |
| `RoutineStore.Database.GetRoutineLists` | functions/src/index.ts:59-63 | returns `Callables.GetRoutineLists` of the current collection and changes nothing |
| `RoutineStore.Database.GetRoutineListDetails` | functions/src/index.ts:68-87 | returns `Callables.GetRoutineListDetails` of the current collection and changes nothing |
| `RoutineStore.Database.AddTask` | functions/src/index.ts:93-122 | the reply and the new collection are those of `Callables.AddTask` |
| `RoutineStore.Database.UpdateTaskStatus` | functions/src/index.ts:127-153 | the reply and the new collection are those of `Callables.UpdateTaskStatus` |
| `RoutineStore.Database.InviteAdmin` | functions/src/index.ts:158-193 | the `try`/`catch` in place: the reply and the new collection are those of `Callables.InviteAdmin` |
| `RoutineStore.ProcessList` | functions/src/index.ts:211-234 | one pass of the loop body: it writes exactly when `Sweep.Writes` holds, the list it writes is `Sweep.SweepList` of the document, and it writes nothing otherwise |
| `RoutineStore.Database.DailyReset` | functions/src/index.ts:199-240 | the loop over all documents leaves the collection as `Sweep.DailyReset` and returns exactly the documents `Sweep.Written` names |

## Left out

- Firestore, Firebase Auth and the logger. The collection is an in-memory map, and `getUserByEmail` is the `users` map.
- `initializeApp`. The `Database` constructor gives an empty collection.
- A failing store write. A write that throws inside `inviteAdmin`'s `try` block would also become not-found, and one that throws inside `dailyReset` would be logged. The model's writes always succeed.
- The emulator branch of `getUid`, which fakes a uid. The model has only the production path.
- `uuidv4()` and the id chosen by `collection.add`. Both are parameters. Task ids are assumed distinct only where a lemma needs it (`FreshTaskId`).
- The timezone conversion by `date-fns-tz`. The current hour per zone is an input. A zone that cannot be converted is simply absent from that input.
- The order of `getRoutineLists`' results. The reply is a map from document id to list.
- The order in which `dailyReset` visits the documents. The model's loop picks any remaining document. The result does not depend on the order.
- A request with no data. When a client calls with no argument, `request.data` is null, and the destructuring at index.ts:39, :71, :96, :130 and :161 throws a TypeError, which `onCall` reports as `internal`. The model has no null request: every field is then absent, and an authenticated caller gets invalid-argument instead.
- A listId that contains '/'. `collection("routine_lists").doc(listId)` at index.ts:76, :101, :135 and :166 reads such an id as a document path. It throws (`internal`) when the id splits at '/' into an even number of segments, so that the whole path names a collection, or when a segment is empty ("//"). Otherwise it addresses a document in a nested collection. The model treats every listId as a plain key of the collection, so such an id gets not-found or permission-denied.
- Request fields of other JavaScript types, such as numbers or objects where strings are expected. String fields are optional strings.
- Tasks.TaskHour: `Number` of the text before the first colon is modelled for the empty text (0) and for strings of decimal digits. Every other text is `None`, which never matches an hour. JavaScript would also read surrounding blanks, a sign, a fraction, an exponent, or a hex (`0x`), binary (`0b`) or octal (`0o`) prefix, so a refreshTime such as " 6:00" resets at 6 there but never in the model.
- Concurrency between callables and the scheduled run. There are no transactions in the code, and each operation is modelled as atomic.
- The web client, its Firebase wiring and its hash-based routing. These are UI code.
