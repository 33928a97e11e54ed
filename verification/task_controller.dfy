/** The task handlers (controllers/task.controller.js): list, create,
    partial update and soft delete, over the loaded user's task array. */
module TaskController {
  import opened Wrappers
  import opened TaskSchema
  import opened UserStore

  /** How a task is shown by the list handler: its subtasks reduced to their
      active view, every other field as stored. */
  function View(t: Task): (r: Task)
    ensures r.(subtasks := t.subtasks) == t
    ensures forall s :: s in r.subtasks <==> s in t.subtasks && !s.deleted
    ensures r.subtasks == ActiveSubtasks(t.subtasks)
  {
    t.(subtasks := ActiveSubtasks(t.subtasks))
  }

  /** `getTasks`: the tasks that are not soft-deleted, in stored order, each
      shown through `View`. The stored tasks are not touched. */
  function GetTasks(tasks: seq<Task>): (r: seq<Task>)
    ensures |r| <= |tasks|
    ensures forall v :: v in r ==> !v.deleted && forall s :: s in v.subtasks ==> !s.deleted
    ensures forall t :: t in tasks && !t.deleted ==> View(t) in r
    ensures forall v :: v in r ==> exists t :: t in tasks && !t.deleted && v == View(t)
  {
    if |tasks| == 0 then []
    else
      assert tasks == [tasks[0]] + tasks[1..];
      if tasks[0].deleted then GetTasks(tasks[1..])
      else [View(tasks[0])] + GetTasks(tasks[1..])
  }

  /** The list is taken piecewise: it keeps the stored order. */
  lemma {:induction false} GetTasksAppend(a: seq<Task>, b: seq<Task>)
    ensures GetTasks(a + b) == GetTasks(a) + GetTasks(b)
    decreases |a|
  {
    if |a| == 0 {
      assert a + b == b;
    } else {
      assert (a + b)[1..] == a[1..] + b;
      GetTasksAppend(a[1..], b);
    }
  }

  /** `createTask`: the user is loaded, a new task (fresh id `id`, schema
      defaults, no subtasks) is pushed at the end and the document saved;
      the reply is that last task. A missing subject makes the save, and so
      the whole call, fail. */
  function CreateTask(tasks: seq<Task>, id: Id, subject: Option<string>, deadline: Option<Date>,
                      status: Option<string>): (h: Handled<Task>)
    ensures h.reply.Ok? ==> h.tasks == Load(tasks) + [h.reply.value]
    ensures h.reply.Ok? ==> h.reply.value == NewTask(id, subject, deadline, status)
    ensures h.reply.Err? ==> h == Handled(tasks, Err(ValidationError))
    ensures ValidStore(tasks) ==> (h.reply.Ok? <==> Required(subject))
  {
    var loaded := Load(tasks);
    var t := NewTask(id, subject, deadline, status);
    LoadKeepsValid(tasks);
    assert ValidStore(loaded + [t]) <==> ValidStore(loaded) && ValidTask(t) by {
      assert (loaded + [t])[|loaded|] == t;
      assert forall i :: 0 <= i < |loaded| ==> (loaded + [t])[i] == loaded[i];
    }
    Save(tasks, loaded + [t], t)
  }

  /** A created task is listed last, after the tasks listed before. The
      earlier tasks are listed as the load left them: with every missing
      status filled in. */
  lemma CreatedTaskListedLast(tasks: seq<Task>, id: Id, subject: Option<string>, deadline: Option<Date>,
                              status: Option<string>)
    requires CreateTask(tasks, id, subject, deadline, status).reply.Ok?
    ensures GetTasks(CreateTask(tasks, id, subject, deadline, status).tasks)
         == GetTasks(Load(tasks)) + [CreateTask(tasks, id, subject, deadline, status).reply.value]
  {
    var t := NewTask(id, subject, deadline, status);
    GetTasksAppend(Load(tasks), [t]);
    ActiveSubtasksOfLive(t.subtasks);
  }

  /** Creating a task whose id no stored task carries keeps task ids unique. */
  lemma CreateTaskKeepsIdsUnique(tasks: seq<Task>, id: Id, subject: Option<string>, deadline: Option<Date>,
                                 status: Option<string>)
    requires UniqueTaskIds(tasks)
    requires forall i :: 0 <= i < |tasks| ==> tasks[i].id != id
    ensures UniqueTaskIds(CreateTask(tasks, id, subject, deadline, status).tasks)
  {
  }

  /** The body of an update request: a field is `None` when the request
      leaves it undefined. */
  datatype TaskPatch = TaskPatch(subject: Option<string>, deadline: Option<Date>, status: Option<string>)

  /** Writes exactly the fields the patch defines. */
  function Patch(t: Task, p: TaskPatch): (r: Task)
    ensures r.id == t.id && r.deleted == t.deleted && r.subtasks == t.subtasks
    ensures r.subject == (if p.subject.Some? then p.subject else t.subject)
    ensures r.deadline == (if p.deadline.Some? then p.deadline else t.deadline)
    ensures r.status == (if p.status.Some? then p.status else t.status)
  {
    var t1 := if p.subject.Some? then t.(subject := p.subject) else t;
    var t2 := if p.deadline.Some? then t1.(deadline := p.deadline) else t1;
    if p.status.Some? then t2.(status := p.status) else t2
  }

  /** `updateTask`: 404 when the task is absent or soft-deleted; otherwise the
      defined fields are written on the loaded task, the document saved, and
      the task replied. */
  function UpdateTask(tasks: seq<Task>, taskId: Id, p: TaskPatch): (h: Handled<Task>)
    ensures LiveTask(tasks, taskId).None? ==> h == Handled(tasks, Err(NotFound))
    ensures h.reply.Err? ==> h.tasks == tasks
    ensures h.reply.Err? ==> (h.reply.error == NotFound <==> LiveTask(tasks, taskId).None?)
    ensures h.reply.Ok? ==>
      && LiveTask(tasks, taskId).Some?
      && var k := LiveTask(tasks, taskId).value;
      && |h.tasks| == |tasks|
      && h.tasks[k] == h.reply.value
      && (forall i :: 0 <= i < |tasks| && i != k ==> h.tasks[i] == LoadTask(tasks[i]))
      && h.reply.value.id == tasks[k].id
      && h.reply.value.deleted == tasks[k].deleted
      && h.reply.value.subtasks == LoadSubtasks(tasks[k].subtasks)
      && h.reply.value.subject == (if p.subject.Some? then p.subject else tasks[k].subject)
      && h.reply.value.deadline == (if p.deadline.Some? then p.deadline else tasks[k].deadline)
      && h.reply.value.status == (if p.status.Some? then p.status else StatusOrDefault(tasks[k].status))
    ensures ValidStore(tasks) && LiveTask(tasks, taskId).Some? ==>
      (h.reply.Ok? <==> p.subject.None? || Required(p.subject))
  {
    var loaded := Load(tasks);
    LoadKeepsLookup(tasks, taskId);
    LoadKeepsValid(tasks);
    match LiveTask(loaded, taskId)
    case None => Handled(tasks, Err(NotFound))
    case Some(k) =>
      var t := Patch(loaded[k], p);
      ValidStoreReplace(loaded, k, t);
      Save(tasks, loaded[k := t], t)
  }

  /** Sending the same update twice leaves what sending it once left. */
  lemma UpdateTaskIdempotent(tasks: seq<Task>, taskId: Id, p: TaskPatch)
    requires UpdateTask(tasks, taskId, p).reply.Ok?
    ensures UpdateTask(UpdateTask(tasks, taskId, p).tasks, taskId, p) == UpdateTask(tasks, taskId, p)
  {
    var h := UpdateTask(tasks, taskId, p);
    var k := LiveTask(tasks, taskId).value;
    LoadIdempotent(tasks);
    LoadSubtasksOfLoaded(LoadSubtasks(tasks[k].subtasks));
    assert Loaded(h.tasks);
    LoadIdempotent(h.tasks);
    assert TaskIndex(h.tasks, taskId) == Some(k) by {
      assert forall i :: 0 <= i < k ==> h.tasks[i].id == tasks[i].id;
    }
    assert Patch(h.tasks[k], p) == h.tasks[k];
    assert h.tasks[k := h.tasks[k]] == h.tasks;
  }

  /** An update that defines no field stores the task array as loaded and
      replies with the loaded task; on an array whose statuses are all
      present that is no change at all. */
  lemma EmptyUpdateChangesNothing(tasks: seq<Task>, taskId: Id)
    requires ValidStore(tasks)
    requires LiveTask(tasks, taskId).Some?
    ensures UpdateTask(tasks, taskId, TaskPatch(None, None, None)).tasks == Load(tasks)
    ensures UpdateTask(tasks, taskId, TaskPatch(None, None, None)).reply == Ok(LoadTask(tasks[LiveTask(tasks, taskId).value]))
    ensures Loaded(tasks) ==> UpdateTask(tasks, taskId, TaskPatch(None, None, None)).tasks == tasks
  {
    var k := LiveTask(tasks, taskId).value;
    assert Load(tasks)[k := Load(tasks)[k]] == Load(tasks);
    LoadIdempotent(tasks);
  }

  /** `deleteTask`: 404 when the task is absent or already soft-deleted;
      otherwise the loaded task's flag is set and it stays stored in place. */
  function DeleteTask(tasks: seq<Task>, taskId: Id): (h: Handled<()>)
    ensures LiveTask(tasks, taskId).None? ==> h == Handled(tasks, Err(NotFound))
    ensures h.reply.Err? ==> h.tasks == tasks
    ensures h.reply.Err? ==> (h.reply.error == NotFound <==> LiveTask(tasks, taskId).None?)
    ensures |h.tasks| == |tasks|
    ensures h.reply.Ok? ==>
      && LiveTask(tasks, taskId).Some?
      && var k := LiveTask(tasks, taskId).value;
      && h.tasks[k] == LoadTask(tasks[k]).(deleted := true)
      && (forall i :: 0 <= i < |tasks| && i != k ==> h.tasks[i] == LoadTask(tasks[i]))
    ensures ValidStore(tasks) && LiveTask(tasks, taskId).Some? ==> h.reply.Ok?
  {
    var loaded := Load(tasks);
    LoadKeepsLookup(tasks, taskId);
    LoadKeepsValid(tasks);
    match LiveTask(loaded, taskId)
    case None => Handled(tasks, Err(NotFound))
    case Some(k) =>
      var t := loaded[k].(deleted := true);
      ValidStoreReplace(loaded, k, t);
      Save(tasks, loaded[k := t], ())
  }

  /** Deleting the same task a second time answers 404 and changes nothing. */
  lemma DeleteTwiceNotFound(tasks: seq<Task>, taskId: Id)
    requires DeleteTask(tasks, taskId).reply.Ok?
    ensures var after := DeleteTask(tasks, taskId).tasks;
            DeleteTask(after, taskId) == Handled(after, Err(NotFound))
  {
  }

  /** With unique task ids, a deleted task is never listed again. */
  lemma DeletedTaskNotListed(tasks: seq<Task>, taskId: Id)
    requires UniqueTaskIds(tasks)
    requires DeleteTask(tasks, taskId).reply.Ok?
    ensures forall v :: v in GetTasks(DeleteTask(tasks, taskId).tasks) ==> v.id != taskId
  {
  }
}
