# Task manager backend: task store and subtask reconciliation

A Dafny model of the data core of an Express/Mongoose task-manager backend:

- each user document embeds an ordered array of tasks;
- each task embeds an ordered array of subtasks;
- nothing is ever removed, because deletion only sets a `deleted` flag;
- reads show only the records that are not flagged.

The model covers the following:

- **Records** (`task_schema.dfy`, module `TaskSchema`):
  - the `Task` and `Subtask` records;
  - the defaults a new record receives (`status` is `"pending"`, `deadline` is null, `deleted` is false);
  - the `required` validator on `subject`.
- **Store** (`user_store.dfy`, module `UserStore`): the user's stored task array.
  - A non-lean `findById` hydrates the document: a record stored without a `status` reads as `"pending"`, the schema default (`Load`). The lean read of `getTasks` skips this and sees the stored fields as they are.
  - `.id()` lookup returns the first record with that id.
  - The active view hides soft-deleted records.
  - A whole-document save validates every embedded record. It commits all of the change or, on a validation error, none of it.
- **Task handlers** (`task_controller.dfy`, module `TaskController`):
  - `getTasks` lists tasks;
  - `createTask` appends a task;
  - `updateTask` is a partial update;
  - `deleteTask` is a soft delete.
- **Subtask handlers** (`subtask_controller.dfy`, module `SubtaskController`):
  - `getSubtasks`;
  - `updateSubtasks`, a bulk reconciliation written as the code runs it. A deletion pass over the stored subtasks is followed by a patch-or-push pass over the incoming list.
- **Reconciliation properties** (`subtask_properties.dfy`, module `SubtaskProperties`):
  - a declarative reference definition of the reconciliation, proved equal to the sequential one (`ReconcileMatchesSpec`);
  - the properties that follow from it.

The two read handlers are pure functions of the stored tasks: `getTasks` gives the listing, `getSubtasks` gives `Ok(list)` or `Err(NotFound)`. Each handler that saves is a pure function from the stored tasks to a `Handled(tasks, reply)` pair:
- the reply is `Ok(value)` or `Err(NotFound | ValidationError)`;
- `NotFound` comes only from a missing or deleted task, and a failed save is always `ValidationError`;
- every `Err` leaves the stored tasks unchanged;
- every handler except `getTasks` works on the loaded (hydrated) tasks, replies from them, and on success stores the loaded tasks with its edit.

Things the program takes from outside are passed in as parameters:
- the ids MongoDB generates for new records (`id` for a task, `newIds` for subtasks, one per incoming entry without an id);
- the request body.

Properties that rely on the generated ids being distinct and unused take this as a hypothesis (`FreshIds`, `UniqueSubtaskIds`, `UniqueTaskIds`).

Behaviour of the code worth noting:
- **Unknown ids.** An incoming subtask whose `_id` names no stored subtask is ignored. It is neither inserted nor does it raise an error (`UnmatchedIdIgnored`).
- **Whole-field overwrite.** A matched subtask gets the entry's `subject`, `deadline` and `status` wholesale. An absent field unsets the stored value instead of keeping it. The handler's reply and the saved record carry no `status` then; the default comes back only on a later non-lean load, so `getSubtasks` shows `"pending"` where `getTasks` shows no status.
- **Falsy `_id`.** An entry whose `_id` is missing, empty or otherwise falsy counts as an entry without an id (`Entry.id == None`), both in the deletion pass and in the patch-or-push pass.
- **`deleted` flag.** A matched or pushed subtask always has `deleted` set to false. The entry's own `deleted` field is never read.
- **Validation errors.** A failed validation is caught by the handler's `catch` and answered with status 500, not 400. The model reports it as `ValidationError` and does not model status codes.

## Model

| member | source | states |
|---|---|---|
| TaskSchema.StatusOrDefault | models/taskSchema.js:15 | a status is always present: the given one, or `"pending"` when none was given |
| TaskSchema.NewSubtask | models/taskSchema.js:12-17 | a new subtask has the given fields, the default status, is not deleted, and is valid exactly when its subject is present and non-empty |
| TaskSchema.NewTask | models/taskSchema.js:30-36 | a new task has the given fields, the default status, no subtasks, is not deleted, and is valid exactly when its subject is present and non-empty |
| UserStore.TaskIndex | controllers/task.controller.js:43 | `tasks.id(x)` finds the first task carrying id `x`, none earlier carries it, and `None` means no task carries it |
| UserStore.SubtaskIndex | controllers/subtask.controller.js:39 | `subtasks.id(x)` finds the first subtask carrying `x`, and `None` means no subtask carries it |
| UserStore.LiveTask | controllers/task.controller.js:43-46 | a task is found exactly when the first task with that id exists and is not soft-deleted; the index found is that first index, carries the id and is not deleted |
| UserStore.ActiveSubtasks | controllers/subtask.controller.js:13 | the active view holds exactly the stored subtasks that are not deleted, and is no longer than the stored list |
| UserStore.ActiveSubtasksAppend | controllers/task.controller.js:14 | the active view keeps stored order: the view of a concatenation is the concatenation of the views |
| UserStore.LoadSubtask | models/taskSchema.js:12-17 | a loaded subtask keeps id, subject, deadline and deleted flag, keeps a stored status, and has `"pending"` where none was stored |
| UserStore.LoadTask | models/taskSchema.js:30-36 | a loaded task keeps id, subject, deadline and deleted flag, keeps a stored status or gets `"pending"`, and its subtasks are loaded one by one |
| UserStore.Load | controllers/subtask.controller.js:7 | `findById` without `.lean()` gives one loaded task per stored task, position by position |
| UserStore.LoadIdempotent | models/taskSchema.js:15 | every loaded task and subtask has a status, and loading an array in which all of them have one changes nothing |
| UserStore.LoadSubtasksOfLoaded | models/taskSchema.js:15 | loading subtasks that all have a status changes nothing |
| UserStore.LoadKeepsLookup | controllers/task.controller.js:42-46 | loading does not change which task `.id()` finds nor whether it is live |
| UserStore.LoadKeepsValid | controllers/task.controller.js:52 | a loaded array passes validation exactly when the stored one does |
| UserStore.ActiveOfLoad | controllers/subtask.controller.js:13 | the active view of the loaded subtasks is the loaded active view: hydration and the `deleted` filter commute |
| UserStore.Save | controllers/task.controller.js:52-56 | a save succeeds exactly when every embedded record passes validation; on success the new tasks are stored and the value returned, on failure the old tasks stay and a validation error is reported |
| UserStore.ValidStoreReplace | models/user.model.js:8 | in a valid store, replacing one task gives a valid store exactly when the new task is valid |
| TaskController.View | controllers/task.controller.js:12-15 | a listed task is the stored task with all its fields kept and its subtasks reduced to the active view: exactly the ones not deleted, in stored order |
| TaskController.GetTasks | controllers/task.controller.js:7-17 | on the stored tasks as they are (a lean read), the listing holds a view of every task that is not deleted and nothing else, and no listed task or listed subtask is deleted |
| TaskController.GetTasksAppend | controllers/task.controller.js:10-15 | the listing keeps the stored order of tasks |
| TaskController.CreateTask | controllers/task.controller.js:24-37 | on success the new task with defaults is appended to the loaded tasks and returned; on a valid store that happens exactly when a subject is given; on failure nothing changes |
| TaskController.CreatedTaskListedLast | controllers/task.controller.js:29-33 | after a successful create, the listing is the listing of the loaded tasks followed by the new task |
| TaskController.CreateTaskKeepsIdsUnique | controllers/task.controller.js:29 | creating a task under an unused id keeps task ids unique |
| TaskController.Patch | controllers/task.controller.js:48-50 | each of subject, deadline and status is replaced when given and kept when absent; id, deleted flag and subtasks are kept |
| TaskController.UpdateTask | controllers/task.controller.js:39-57 | a missing or deleted task gives NotFound, and only such a task does (a failed save is a ValidationError); on success every other task is stored as loaded, and the addressed task is its loaded form patched field by field (a status not given keeps the stored one or `"pending"`); on a valid store the update succeeds exactly when the subject is absent or non-empty |
| TaskController.UpdateTaskIdempotent | controllers/task.controller.js:48-52 | applying the same update twice gives the same tasks as applying it once |
| TaskController.EmptyUpdateChangesNothing | controllers/task.controller.js:48-53 | an update that gives no field stores the tasks as loaded (so, when every status is present, unchanged) and returns the loaded task |
| TaskController.DeleteTask | controllers/task.controller.js:60-75 | a missing or already deleted task gives NotFound, and only such a task does; on success the addressed task, as loaded, is flagged deleted, every other task is stored as loaded, nothing is removed, and a valid store always accepts it |
| TaskController.DeleteTwiceNotFound | controllers/task.controller.js:65-68 | deleting a task a second time answers NotFound and changes nothing |
| TaskController.DeletedTaskNotListed | controllers/task.controller.js:11 | after a delete, with unique task ids, no listed task carries the deleted id |
| SubtaskController.GetSubtasks | controllers/subtask.controller.js:5-18 | NotFound exactly when the task is missing or deleted; otherwise the reply is that task's loaded subtasks that are not deleted, in stored order |
| SubtaskController.Carries | controllers/subtask.controller.js:32 | an id is carried exactly when some incoming entry has that `_id` |
| SubtaskController.MarkOmitted | controllers/subtask.controller.js:31-34 | the deletion pass changes only `deleted` flags, and a subtask ends deleted exactly when it already was or no incoming entry carries its id |
| SubtaskController.Overwrite | controllers/subtask.controller.js:41-44 | a matched subtask keeps its id, takes the entry's subject, deadline and status as given, is not deleted, and is valid exactly when the entry's subject is present and non-empty |
| SubtaskController.Create | controllers/subtask.controller.js:47-52 | a pushed subtask has the fresh id, the entry's subject and deadline, the entry's status or `"pending"`, is not deleted, and is valid exactly when the entry's subject is present and non-empty |
| SubtaskController.NewEntries | controllers/subtask.controller.js:46-52 | the entries that create subtasks are exactly the incoming entries without an id |
| SubtaskController.NewEntriesAppend | controllers/subtask.controller.js:37 | the entries without an id keep their incoming order |
| SubtaskController.PatchFirst | controllers/subtask.controller.js:38-45 | an entry with an id overwrites the first subtask with that id with its fields and clears its deleted flag; later subtasks with the same id and subtasks with other ids are unchanged; ids and length are kept |
| SubtaskController.PatchInsert | controllers/subtask.controller.js:37-54 | the patch-or-push pass adds exactly one subtask per entry without an id |
| SubtaskController.PatchInsertIds | controllers/subtask.controller.js:37-54 | the patch-or-push pass keeps the stored ids in place and gives the pushed subtasks the generated ids, one per entry without an id, in order |
| SubtaskController.PatchInsertUntouched | controllers/subtask.controller.js:37-54 | a subtask no incoming entry names comes out of the patch-or-push pass unchanged |
| SubtaskController.Reconcile | controllers/subtask.controller.js:31-54 | the result has one subtask per stored subtask plus one per entry without an id; stored ids keep their place; a stored subtask no entry names ends up flagged deleted and otherwise unchanged |
| SubtaskController.UpdateSubtasks | controllers/subtask.controller.js:21-62 | a missing or deleted task gives NotFound, and only such a task does (a failed save is a ValidationError); on success every other task is stored as loaded, the addressed task is stored as loaded with its subtasks replaced by the reconciliation of its loaded subtasks, and the reply is their active view; the save succeeds exactly when that array is valid; on failure nothing changes |
| SubtaskProperties.LastIndex | controllers/subtask.controller.js:37-45 | finds the last incoming entry carrying an id, with no later entry carrying it, and finds nothing exactly when no entry carries it |
| SubtaskProperties.LastEntrySkips | controllers/subtask.controller.js:38-40 | an entry with another id does not change which entry is the last one for an id |
| SubtaskProperties.PatchInsertMatches | controllers/subtask.controller.js:37-54 | with unique stored ids and fresh new ids, the patch-or-push pass settles each stored subtask by its last naming entry and appends the created subtasks in order |
| SubtaskProperties.ReconcileMatchesSpec | controllers/subtask.controller.js:31-54 | with unique stored ids and fresh new ids, the sequential reconciliation equals the declarative one: each stored subtask is overwritten by the last entry naming it or, if none names it, flagged deleted; then one created subtask per entry without an id |
| SubtaskProperties.MatchedTakeLastEntry | controllers/subtask.controller.js:38-45 | a stored subtask named by some entry ends up live, with the id kept and subject, deadline and status from the last entry naming it |
| SubtaskProperties.NewSubtasksAppended | controllers/subtask.controller.js:46-53 | each entry without an id becomes one live subtask, after all stored ones and in incoming order, with its fields and the default status when none is given |
| SubtaskProperties.UnmatchedIdIgnored | controllers/subtask.controller.js:38-40 | an entry whose id names no stored subtask can be removed from the input without changing the result |
| SubtaskProperties.ReconcileIdempotent | controllers/subtask.controller.js:31-54 | reconciling with an echo of the active subtasks creates nothing and leaves the stored subtasks exactly as they were |
| SubtaskProperties.UpdateSubtasksIdempotent | controllers/subtask.controller.js:21-58 | sending back the listed subtasks unchanged succeeds, stores the tasks as loaded (so, when every status is present, unchanged), and replies with the same list |
| SubtaskProperties.UpdateSubtasksAcceptedIff | controllers/subtask.controller.js:41-56 | on a valid store and a live task, the reconciliation is saved exactly when every entry without an id, and the last entry naming each stored subtask, has a non-empty subject |
| SubtaskProperties.MissingSubjectRejected | controllers/subtask.controller.js:47-56 | one entry without an id and without a subject makes the whole call fail, and nothing of it is saved |
| SubtaskProperties.ReconcileKeepsIdsUnique | controllers/subtask.controller.js:47-52 | with fresh new ids, reconciliation keeps subtask ids unique |
| SubtaskProperties.GetSubtasksMatchesListing | controllers/subtask.controller.js:13 | the subtask listing of a task is the subtask list of that task's entry in the task listing with missing statuses read as `"pending"`; when every status is present the two are equal |

## Left out

- Authentication: the register and login handlers, the JWT middleware, routing, database configuration and server start-up are outside this model. The handlers act on the tasks of an already loaded user.
- The user record: only its embedded `tasks` array is modelled. A missing user is not modelled either: `getTasks` answers 404 and the other handlers fail with status 500.
- Status codes and JSON serialisation are not modelled. The reply is `Ok(value)`, `Err(NotFound)` or `Err(ValidationError)`.
- Malformed bodies are not modelled:
  - `subtasks` missing or not an array, where the code throws and answers 500;
  - a JSON `null` field, which the model cannot tell apart from an absent one;
  - values that fail a Date or ObjectId cast.
- Persistence concurrency: two requests that interleave their load and save are not modelled. Each call is one atomic step.
- Id generation: MongoDB's ObjectId creation is passed in as the `id`/`newIds` parameters. Their freshness is a hypothesis of the lemmas that need it, not something the handlers guarantee.
- Dates are integers. Their calendar meaning is never used.
- The subtask routes name a `createSubtasks` handler that the subtask controller does not define, so there is nothing of it to model.
- The deletion pass compares an incoming `_id` with the stored id's string form, while the patch pass casts it through `.id()`. Both are modelled as plain id equality.
- Persisting hydration: a save is modelled as writing the whole loaded document, so a default filled in by the load is stored along with the edit. Mongoose may write only the paths that changed; in that case a lean read could still see a missing status on records the call did not touch.
- TaskController.UpdateTask: an explicitly null field is treated as absent (kept) rather than assigned.
- SubtaskProperties.ReconcileMatchesSpec: proved under unique stored subtask ids and fresh new ids. Without them, `.id()`'s first-match lookup can patch a different element than the last naming entry suggests.
