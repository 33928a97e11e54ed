/** The user document that owns the tasks (models/user.model.js), seen as
    the array of embedded tasks a handler loads, edits in memory and saves
    back whole. Also holds what every handler shares: the `.id()` lookup of
    an embedded array, the "active view" that hides soft-deleted records,
    and the all-or-nothing save. */
module UserStore {
  import opened Wrappers
  import opened TaskSchema

  /** The error kinds a handler can answer with. `NotFound` is the 404 of an
      absent or soft-deleted task; `ValidationError` is a save the schema
      rejected (caught by the handler and answered with status 500). */
  datatype Failure = NotFound | ValidationError

  /** What a handler leaves behind: the user's tasks as persisted afterwards
      and the reply it sends. */
  datatype Handled<T> = Handled(tasks: seq<Task>, reply: Result<T, Failure>)

  /** Every stored task (and subtask) passes validation. */
  predicate ValidStore(tasks: seq<Task>) {
    forall i :: 0 <= i < |tasks| ==> ValidTask(tasks[i])
  }

  predicate UniqueTaskIds(tasks: seq<Task>) {
    forall i, j :: 0 <= i < j < |tasks| ==> tasks[i].id != tasks[j].id
  }

  predicate UniqueSubtaskIds(subs: seq<Subtask>) {
    forall i, j :: 0 <= i < j < |subs| ==> subs[i].id != subs[j].id
  }

  /** `user.tasks.id(x)`: the position of the first task whose id is `x`. */
  function TaskIndex(tasks: seq<Task>, x: Id): (r: Option<nat>)
    ensures r.Some? ==> r.value < |tasks| && tasks[r.value].id == x
    ensures r.Some? ==> forall i :: 0 <= i < r.value ==> tasks[i].id != x
    ensures r.None? ==> forall i :: 0 <= i < |tasks| ==> tasks[i].id != x
  {
    if |tasks| == 0 then None
    else if tasks[0].id == x then Some(0)
    else match TaskIndex(tasks[1..], x)
      case Some(k) => Some(k + 1)
      case None => None
  }

  /** `task.subtasks.id(x)`: the position of the first subtask whose id is `x`.
      The same search as `TaskIndex`, kept apart because the two embedded
      arrays hold different record types. */
  function SubtaskIndex(subs: seq<Subtask>, x: Id): (r: Option<nat>)
    ensures r.Some? ==> r.value < |subs| && subs[r.value].id == x
    ensures r.Some? ==> forall i :: 0 <= i < r.value ==> subs[i].id != x
    ensures r.None? ==> forall i :: 0 <= i < |subs| ==> subs[i].id != x
  {
    if |subs| == 0 then None
    else if subs[0].id == x then Some(0)
    else match SubtaskIndex(subs[1..], x)
      case Some(k) => Some(k + 1)
      case None => None
  }

  /** The position of the task a handler may act on: the first task with id
      `x`, unless that one is soft-deleted (`!task || task.deleted`). */
  function LiveTask(tasks: seq<Task>, x: Id): (r: Option<nat>)
    ensures r.Some? ==> r.value < |tasks| && tasks[r.value].id == x && !tasks[r.value].deleted
    ensures r.Some? <==> TaskIndex(tasks, x).Some? && !tasks[TaskIndex(tasks, x).value].deleted
    ensures r.Some? ==> r == TaskIndex(tasks, x)
  {
    match TaskIndex(tasks, x)
    case Some(k) => if tasks[k].deleted then None else Some(k)
    case None => None
  }

  /** The active view of a subtask array: the subtasks not soft-deleted, in
      stored order. */
  function ActiveSubtasks(subs: seq<Subtask>): (r: seq<Subtask>)
    ensures |r| <= |subs|
    ensures forall s :: s in r <==> s in subs && !s.deleted
  {
    if |subs| == 0 then []
    else
      assert subs == [subs[0]] + subs[1..];
      if subs[0].deleted then ActiveSubtasks(subs[1..])
      else [subs[0]] + ActiveSubtasks(subs[1..])
  }

  /** The active view is taken piecewise: it keeps the stored order. */
  lemma {:induction false} ActiveSubtasksAppend(a: seq<Subtask>, b: seq<Subtask>)
    ensures ActiveSubtasks(a + b) == ActiveSubtasks(a) + ActiveSubtasks(b)
    decreases |a|
  {
    if |a| == 0 {
      assert a + b == b;
    } else {
      assert (a + b)[1..] == a[1..] + b;
      ActiveSubtasksAppend(a[1..], b);
    }
  }

  /** An array with no soft-deleted subtask is its own active view. */
  lemma {:induction false} ActiveSubtasksOfLive(subs: seq<Subtask>)
    requires forall i :: 0 <= i < |subs| ==> !subs[i].deleted
    ensures ActiveSubtasks(subs) == subs
    decreases |subs|
  {
    if |subs| > 0 {
      ActiveSubtasksOfLive(subs[1..]);
    }
  }

  /** A subtask as a load without `.lean()` builds it: Mongoose fills a
      missing `status` with the schema default and leaves the rest alone. */
  function LoadSubtask(s: Subtask): (r: Subtask)
    ensures r.id == s.id && r.subject == s.subject && r.deadline == s.deadline && r.deleted == s.deleted
    ensures r.status.Some? && (s.status.Some? ==> r.status == s.status)
    ensures s.status.None? ==> r.status == Some(DefaultStatus)
  {
    s.(status := StatusOrDefault(s.status))
  }

  function LoadSubtasks(subs: seq<Subtask>): (r: seq<Subtask>)
    ensures |r| == |subs|
    ensures forall i :: 0 <= i < |subs| ==> r[i] == LoadSubtask(subs[i])
  {
    seq(|subs|, i requires 0 <= i < |subs| => LoadSubtask(subs[i]))
  }

  /** A task as a load without `.lean()` builds it: the task and each of its
      subtasks get the default for a missing `status`. */
  function LoadTask(t: Task): (r: Task)
    ensures r.id == t.id && r.subject == t.subject && r.deadline == t.deadline && r.deleted == t.deleted
    ensures r.status.Some? && (t.status.Some? ==> r.status == t.status)
    ensures t.status.None? ==> r.status == Some(DefaultStatus)
    ensures r.subtasks == LoadSubtasks(t.subtasks)
  {
    t.(status := StatusOrDefault(t.status), subtasks := LoadSubtasks(t.subtasks))
  }

  /** `User.findById(...)` without `.lean()`: the tasks as every handler
      except the task listing sees them before it edits and saves. */
  function Load(tasks: seq<Task>): (r: seq<Task>)
    ensures |r| == |tasks|
    ensures forall i :: 0 <= i < |tasks| ==> r[i] == LoadTask(tasks[i])
  {
    seq(|tasks|, i requires 0 <= i < |tasks| => LoadTask(tasks[i]))
  }

  /** Every task and subtask carries a status: a load changes nothing. */
  predicate LoadedSubtasks(subs: seq<Subtask>) {
    forall i :: 0 <= i < |subs| ==> subs[i].status.Some?
  }

  predicate LoadedTask(t: Task) {
    t.status.Some? && LoadedSubtasks(t.subtasks)
  }

  predicate Loaded(tasks: seq<Task>) {
    forall i :: 0 <= i < |tasks| ==> LoadedTask(tasks[i])
  }

  /** Loading is idempotent: what it builds is loaded, and a loaded array
      loads as itself. */
  lemma {:induction false} LoadIdempotent(tasks: seq<Task>)
    ensures Loaded(Load(tasks))
    ensures Loaded(tasks) ==> Load(tasks) == tasks
  {
    if Loaded(tasks) {
      forall i | 0 <= i < |tasks|
        ensures LoadTask(tasks[i]) == tasks[i]
      {
        LoadSubtasksOfLoaded(tasks[i].subtasks);
      }
    }
  }

  lemma {:induction false} LoadSubtasksOfLoaded(subs: seq<Subtask>)
    requires LoadedSubtasks(subs)
    ensures LoadSubtasks(subs) == subs
  {
  }

  /** Loading neither moves nor revives a task: lookups agree. */
  lemma {:induction false} LoadKeepsLookup(tasks: seq<Task>, x: Id)
    ensures TaskIndex(Load(tasks), x) == TaskIndex(tasks, x)
    ensures LiveTask(Load(tasks), x) == LiveTask(tasks, x)
  {
  }

  /** Loading does not touch what validation looks at. */
  lemma {:induction false} LoadKeepsValid(tasks: seq<Task>)
    ensures ValidStore(Load(tasks)) <==> ValidStore(tasks)
  {
  }

  /** Loading is taken piecewise. */
  lemma {:induction false} LoadSubtasksAppend(a: seq<Subtask>, b: seq<Subtask>)
    ensures LoadSubtasks(a + b) == LoadSubtasks(a) + LoadSubtasks(b)
  {
  }

  /** The active view of a loaded array is the loaded active view. */
  lemma {:induction false} ActiveOfLoad(subs: seq<Subtask>)
    ensures ActiveSubtasks(LoadSubtasks(subs)) == LoadSubtasks(ActiveSubtasks(subs))
    decreases |subs|
  {
    if |subs| > 0 {
      var first := [subs[0]];
      var tail := subs[1..];
      assert subs == first + tail;
      LoadSubtasksAppend(first, tail);
      ActiveSubtasksAppend(LoadSubtasks(first), LoadSubtasks(tail));
      ActiveSubtasksAppend(first, tail);
      LoadSubtasksAppend(ActiveSubtasks(first), ActiveSubtasks(tail));
      ActiveOfLoad(tail);
      assert ActiveSubtasks(LoadSubtasks(first)) == LoadSubtasks(ActiveSubtasks(first));
    }
  }

  /** `user.save()`: the whole document is validated; a valid one replaces
      the stored tasks and the reply carries `value`, an invalid one leaves
      the stored tasks as they were. */
  function Save<T>(before: seq<Task>, after: seq<Task>, value: T): (h: Handled<T>)
    ensures h.reply.Ok? <==> ValidStore(after)
    ensures h.reply.Ok? ==> h.tasks == after && h.reply.value == value
    ensures h.reply.Err? ==> h.tasks == before && h.reply.error == ValidationError
  {
    if ValidStore(after) then Handled(after, Ok(value))
    else Handled(before, Err(ValidationError))
  }

  /** Replacing one task of a valid store yields a valid store exactly when
      the new task is valid. */
  lemma ValidStoreReplace(tasks: seq<Task>, k: nat, t: Task)
    requires k < |tasks|
    ensures ValidStore(tasks) ==> (ValidStore(tasks[k := t]) <==> ValidTask(t))
  {
    if ValidStore(tasks[k := t]) {
      assert tasks[k := t][k] == t;
    }
  }
}
