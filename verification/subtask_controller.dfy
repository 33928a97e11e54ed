/** The subtask handlers (controllers/subtask.controller.js): the active
    listing of one task's subtasks, and the bulk reconciliation that syncs a
    task's stored subtasks with an incoming list, written the way the
    handler runs it: a soft-delete pass over the stored subtasks, then one
    patch-or-insert step per incoming entry, in order. */
module SubtaskController {
  import opened Wrappers
  import opened TaskSchema
  import opened UserStore

  /** One element of the request's `subtasks` array. `id == None` when the
      entry carries no truthy `_id`. A `deleted` member of the entry is never
      read by the handler and so is not part of the model. */
  datatype Entry = Entry(id: Option<Id>, subject: Option<string>, deadline: Option<Date>, status: Option<string>)

  /** `getSubtasks`: 404 when the task is absent or soft-deleted, otherwise
      the active view of the task's subtasks as the load builds them: in
      stored order, a missing status filled with the default. */
  function GetSubtasks(tasks: seq<Task>, taskId: Id): (r: Result<seq<Subtask>, Failure>)
    ensures r.Err? <==> LiveTask(tasks, taskId).None?
    ensures r.Err? ==> r.error == NotFound
    ensures r.Ok? ==> r.value == ActiveSubtasks(LoadSubtasks(tasks[LiveTask(tasks, taskId).value].subtasks))
    ensures r.Ok? ==> forall s :: s in r.value <==>
      s in LoadSubtasks(tasks[LiveTask(tasks, taskId).value].subtasks) && !s.deleted
  {
    var loaded := Load(tasks);
    LoadKeepsLookup(tasks, taskId);
    match LiveTask(loaded, taskId)
    case None => Err(NotFound)
    case Some(k) => Ok(ActiveSubtasks(loaded[k].subtasks))
  }

  /** Whether some incoming entry carries the id `x` (the `find` of the
      soft-delete pass). */
  function Carries(incoming: seq<Entry>, x: Id): (b: bool)
    ensures b <==> exists j :: 0 <= j < |incoming| && incoming[j].id == Some(x)
  {
    if |incoming| == 0 then false
    else incoming[0].id == Some(x) || Carries(incoming[1..], x)
  }

  /** The soft-delete pass: every stored subtask whose id no incoming entry
      carries is flagged deleted; nothing else changes. */
  function MarkOmitted(stored: seq<Subtask>, incoming: seq<Entry>): (r: seq<Subtask>)
    ensures |r| == |stored|
    ensures forall i :: 0 <= i < |r| ==> r[i].(deleted := stored[i].deleted) == stored[i]
    ensures forall i :: 0 <= i < |r| ==> (r[i].deleted <==> stored[i].deleted || !Carries(incoming, stored[i].id))
  {
    seq(|stored|, i requires 0 <= i < |stored| =>
      if Carries(incoming, stored[i].id) then stored[i] else stored[i].(deleted := true))
  }

  /** A matched subtask takes the entry's subject, deadline and status as
      they are (absent ones included) and is live again. */
  function Overwrite(s: Subtask, e: Entry): (r: Subtask)
    ensures r.id == s.id && !r.deleted
    ensures r.subject == e.subject && r.deadline == e.deadline && r.status == e.status
    ensures ValidSubtask(r) <==> Required(e.subject)
  {
    s.(subject := e.subject, deadline := e.deadline, status := e.status, deleted := false)
  }

  /** The subtask pushed for an id-less entry, under the fresh id `x`, with
      the schema defaults for what the entry leaves out. */
  function Create(x: Id, e: Entry): (r: Subtask)
    ensures r.id == x && !r.deleted
    ensures r.subject == e.subject && r.deadline == e.deadline
    ensures r.status.Some? && (e.status.Some? ==> r.status == e.status)
    ensures e.status.None? ==> r.status == Some(DefaultStatus)
    ensures ValidSubtask(r) <==> Required(e.subject)
  {
    NewSubtask(x, e.subject, e.deadline, e.status)
  }

  /** The id-less entries, in incoming order: the ones that become new
      subtasks. */
  function NewEntries(incoming: seq<Entry>): (r: seq<Entry>)
    ensures |r| <= |incoming|
    ensures forall e :: e in r <==> e in incoming && e.id.None?
  {
    if |incoming| == 0 then []
    else
      assert incoming == [incoming[0]] + incoming[1..];
      if incoming[0].id.None? then [incoming[0]] + NewEntries(incoming[1..])
      else NewEntries(incoming[1..])
  }

  /** The new entries are taken piecewise: they keep the incoming order. */
  lemma {:induction false} NewEntriesAppend(a: seq<Entry>, b: seq<Entry>)
    ensures NewEntries(a + b) == NewEntries(a) + NewEntries(b)
    decreases |a|
  {
    if |a| == 0 {
      assert a + b == b;
    } else {
      assert (a + b)[1..] == a[1..] + b;
      NewEntriesAppend(a[1..], b);
    }
  }

  /** A list in which every entry carries an id creates nothing. */
  lemma {:induction false} NewEntriesNone(incoming: seq<Entry>)
    requires forall j :: 0 <= j < |incoming| ==> incoming[j].id.Some?
    ensures NewEntries(incoming) == []
    decreases |incoming|
  {
    if |incoming| > 0 {
      NewEntriesNone(incoming[1..]);
    }
  }

  /** One patch step: the first subtask carrying the entry's id takes the
      entry's fields and is live again; every other subtask, a later one
      with the same id included, is left alone. */
  function PatchFirst(list: seq<Subtask>, e: Entry): (r: seq<Subtask>)
    requires e.id.Some?
    ensures |r| == |list|
    ensures forall i :: 0 <= i < |list| ==> r[i].id == list[i].id
    ensures forall i :: 0 <= i < |list| && list[i].id != e.id.value ==> r[i] == list[i]
    ensures forall i ::
      (0 <= i < |list| && list[i].id == e.id.value && forall j :: 0 <= j < i ==> list[j].id != e.id.value) ==>
        && r[i].subject == e.subject && r[i].deadline == e.deadline && r[i].status == e.status
        && !r[i].deleted
    ensures forall i, j :: 0 <= j < i < |list| && list[j].id == e.id.value && list[i].id == e.id.value ==>
      r[i] == list[i]
  {
    match SubtaskIndex(list, e.id.value)
    case Some(k) => list[k := Overwrite(list[k], e)]
    case None => list
  }

  /** The patch-or-insert pass. `newIds` holds the ids the store assigns to
      the pushed subtasks, one per id-less entry, in order. An entry with an
      id overwrites the first subtask carrying it, if any, and is otherwise
      ignored; an id-less entry pushes a new subtask. */
  function PatchInsert(list: seq<Subtask>, incoming: seq<Entry>, newIds: seq<Id>): (r: seq<Subtask>)
    requires |newIds| == |NewEntries(incoming)|
    ensures |r| == |list| + |newIds|
    decreases |incoming|
  {
    if |incoming| == 0 then list
    else if incoming[0].id.Some? then PatchInsert(PatchFirst(list, incoming[0]), incoming[1..], newIds)
    else PatchInsert(list + [Create(newIds[0], incoming[0])], incoming[1..], newIds[1..])
  }

  /** The patch-or-insert pass keeps the ids of the subtasks it starts from
      in place and gives the pushed ones the `newIds` ids, in order. */
  lemma {:induction false} PatchInsertIds(list: seq<Subtask>, incoming: seq<Entry>, newIds: seq<Id>)
    requires |newIds| == |NewEntries(incoming)|
    ensures forall i :: 0 <= i < |list| ==> PatchInsert(list, incoming, newIds)[i].id == list[i].id
    ensures forall j :: 0 <= j < |newIds| ==> PatchInsert(list, incoming, newIds)[|list| + j].id == newIds[j]
    decreases |incoming|
  {
    if |incoming| == 0 {
    } else if incoming[0].id.Some? {
      PatchInsertIds(PatchFirst(list, incoming[0]), incoming[1..], newIds);
    } else {
      var grown := list + [Create(newIds[0], incoming[0])];
      PatchInsertIds(grown, incoming[1..], newIds[1..]);
      ShiftedIds(PatchInsert(grown, incoming[1..], newIds[1..]), grown, newIds);
    }
  }

  /** A subtask no entry names comes out of the patch-or-insert pass as it
      went in. */
  lemma {:induction false} PatchInsertUntouched(list: seq<Subtask>, incoming: seq<Entry>, newIds: seq<Id>)
    requires |newIds| == |NewEntries(incoming)|
    ensures forall i :: 0 <= i < |list| && !Carries(incoming, list[i].id) ==> PatchInsert(list, incoming, newIds)[i] == list[i]
    decreases |incoming|
  {
    if |incoming| == 0 {
    } else if incoming[0].id.Some? {
      var patched := PatchFirst(list, incoming[0]);
      PatchInsertUntouched(patched, incoming[1..], newIds);
      assert forall i :: 0 <= i < |list| && !Carries(incoming, list[i].id) ==>
        list[i].id != incoming[0].id.value && !Carries(incoming[1..], patched[i].id);
    } else {
      var grown := list + [Create(newIds[0], incoming[0])];
      PatchInsertUntouched(grown, incoming[1..], newIds[1..]);
      assert forall i :: 0 <= i < |list| && !Carries(incoming, list[i].id) ==>
        !Carries(incoming[1..], grown[i].id);
    }
  }

  /** Index bookkeeping for the insert step of `PatchInsert`. */
  lemma ShiftedIds(r: seq<Subtask>, grown: seq<Subtask>, newIds: seq<Id>)
    requires |grown| >= 1 && |newIds| >= 1
    requires grown[|grown| - 1].id == newIds[0]
    requires |r| == |grown| + |newIds| - 1
    requires forall i :: 0 <= i < |grown| ==> r[i].id == grown[i].id
    requires forall j :: 0 <= j < |newIds| - 1 ==> r[|grown| + j].id == newIds[1..][j]
    ensures forall j :: 0 <= j < |newIds| ==> r[|grown| - 1 + j].id == newIds[j]
  {
    forall j | 0 <= j < |newIds|
      ensures r[|grown| - 1 + j].id == newIds[j]
    {
      if j > 0 {
        assert r[|grown| + (j - 1)].id == newIds[1..][j - 1];
      }
    }
  }

  /** The two passes together. Stored subtasks are never removed or
      reordered; the new ones follow them under the newIds ids; a stored
      subtask no entry names ends up soft-deleted and otherwise as it was. */
  function Reconcile(stored: seq<Subtask>, incoming: seq<Entry>, newIds: seq<Id>): (r: seq<Subtask>)
    requires |newIds| == |NewEntries(incoming)|
    ensures |r| == |stored| + |NewEntries(incoming)|
    ensures forall i :: 0 <= i < |stored| ==> r[i].id == stored[i].id
    ensures forall j :: 0 <= j < |newIds| ==> r[|stored| + j].id == newIds[j]
    ensures forall i :: 0 <= i < |stored| && !Carries(incoming, stored[i].id) ==> r[i] == stored[i].(deleted := true)
  {
    var marked := MarkOmitted(stored, incoming);
    PatchInsertIds(marked, incoming, newIds);
    PatchInsertUntouched(marked, incoming, newIds);
    PatchInsert(marked, incoming, newIds)
  }

  /** `updateSubtasks`: 404 when the task is absent or soft-deleted;
      otherwise the loaded task's subtasks are reconciled, the document
      saved, and the reply is the active view of the reconciled subtasks. A
      failed save leaves the stored tasks as they were. */
  function UpdateSubtasks(tasks: seq<Task>, taskId: Id, incoming: seq<Entry>, newIds: seq<Id>): (h: Handled<seq<Subtask>>)
    requires |newIds| == |NewEntries(incoming)|
    ensures LiveTask(tasks, taskId).None? ==> h == Handled(tasks, Err(NotFound))
    ensures h.reply.Err? ==> h.tasks == tasks
    ensures h.reply.Err? ==> (h.reply.error == NotFound <==> LiveTask(tasks, taskId).None?)
    ensures h.reply.Ok? ==>
      && LiveTask(tasks, taskId).Some?
      && var k := LiveTask(tasks, taskId).value;
      && |h.tasks| == |tasks|
      && (forall i :: 0 <= i < |tasks| && i != k ==> h.tasks[i] == LoadTask(tasks[i]))
      && h.tasks[k] == LoadTask(tasks[k]).(subtasks := Reconcile(LoadSubtasks(tasks[k].subtasks), incoming, newIds))
      && h.reply.value == ActiveSubtasks(h.tasks[k].subtasks)
    ensures LiveTask(tasks, taskId).Some? ==>
      var k := LiveTask(tasks, taskId).value;
      var t := LoadTask(tasks[k]).(subtasks := Reconcile(LoadSubtasks(tasks[k].subtasks), incoming, newIds));
      (h.reply.Ok? <==> ValidStore(Load(tasks)[k := t]))
  {
    var loaded := Load(tasks);
    LoadKeepsLookup(tasks, taskId);
    match LiveTask(loaded, taskId)
    case None => Handled(tasks, Err(NotFound))
    case Some(k) =>
      var subs := Reconcile(loaded[k].subtasks, incoming, newIds);
      Save(tasks, loaded[k := loaded[k].(subtasks := subs)], ActiveSubtasks(subs))
  }
}
