/** What a reconciliation leaves stored, described declaratively (position
    by position, instead of entry by entry), proved equal to the sequential
    handler, and the properties of the subtask handlers derived from it. */
module SubtaskProperties {
  import opened Wrappers
  import opened TaskSchema
  import opened UserStore
  import opened TaskController
  import opened SubtaskController

  /** The position of the last incoming entry carrying the id `x`. */
  function LastIndex(incoming: seq<Entry>, x: Id): (r: Option<nat>)
    ensures r.Some? ==> r.value < |incoming| && incoming[r.value].id == Some(x)
    ensures r.Some? ==> forall j :: r.value < j < |incoming| ==> incoming[j].id != Some(x)
    ensures r.None? <==> !Carries(incoming, x)
  {
    if |incoming| == 0 then None
    else match LastIndex(incoming[1..], x)
      case Some(j) => Some(j + 1)
      case None => if incoming[0].id == Some(x) then Some(0) else None
  }

  /** The last incoming entry carrying the id `x`: later duplicates win. */
  function LastEntry(incoming: seq<Entry>, x: Id): Option<Entry> {
    match LastIndex(incoming, x)
    case Some(j) => Some(incoming[j])
    case None => None
  }

  /** `LastEntry` read from the front of the list. */
  lemma {:induction false} LastEntryCons(incoming: seq<Entry>, x: Id)
    requires |incoming| > 0
    ensures LastEntry(incoming, x) ==
      match LastEntry(incoming[1..], x)
      case Some(e) => Some(e)
      case None => if incoming[0].id == Some(x) then Some(incoming[0]) else None
  {
  }

  /** An entry that does not carry `x` has no say in which entry is the last
      to carry it. */
  lemma {:induction false} LastEntrySkips(a: seq<Entry>, e: Entry, b: seq<Entry>, x: Id)
    requires e.id != Some(x)
    ensures LastEntry(a + [e] + b, x) == LastEntry(a + b, x)
    decreases |a|
  {
    if |a| == 0 {
      assert a + [e] + b == [e] + b && a + b == b;
      LastEntryCons([e] + b, x);
      assert ([e] + b)[1..] == b;
    } else {
      assert (a + [e] + b)[1..] == a[1..] + [e] + b;
      assert (a + b)[1..] == a[1..] + b;
      LastEntrySkips(a[1..], e, b, x);
      LastEntryCons(a + [e] + b, x);
      LastEntryCons(a + b, x);
    }
  }

  /** The ids the store hands out for pushed subtasks: pairwise distinct,
      carried by no subtask of `list`, and named by no incoming entry. */
  predicate FreshIds(newIds: seq<Id>, list: seq<Subtask>, incoming: seq<Entry>) {
    && (forall j, k :: 0 <= j < k < |newIds| ==> newIds[j] != newIds[k])
    && (forall j, i :: 0 <= j < |newIds| && 0 <= i < |list| ==> newIds[j] != list[i].id)
    && (forall j :: 0 <= j < |newIds| ==> !Carries(incoming, newIds[j]))
  }

  /** Where a stored subtask ends up: overwritten by the last entry naming
      it, or soft-deleted when no entry names it. */
  function Settle(s: Subtask, incoming: seq<Entry>): Subtask {
    match LastEntry(incoming, s.id)
    case Some(e) => Overwrite(s, e)
    case None => s.(deleted := true)
  }

  /** The subtasks pushed for the id-less entries, in incoming order. */
  function Appended(incoming: seq<Entry>, newIds: seq<Id>): seq<Subtask>
    requires |newIds| == |NewEntries(incoming)|
  {
    seq(|newIds|, j requires 0 <= j < |newIds| => Create(newIds[j], NewEntries(incoming)[j]))
  }

  /** The reference result of a reconciliation: every stored subtask settled
      in place, then the pushed ones. */
  function Expected(stored: seq<Subtask>, incoming: seq<Entry>, newIds: seq<Id>): seq<Subtask>
    requires |newIds| == |NewEntries(incoming)|
  {
    seq(|stored|, i requires 0 <= i < |stored| => Settle(stored[i], incoming)) + Appended(incoming, newIds)
  }

  /** Where a subtask ends up under the patch pass alone. */
  function Patched(s: Subtask, incoming: seq<Entry>): Subtask {
    match LastEntry(incoming, s.id)
    case Some(e) => Overwrite(s, e)
    case None => s
  }

  function PatchedAll(list: seq<Subtask>, incoming: seq<Entry>): seq<Subtask> {
    seq(|list|, i requires 0 <= i < |list| => Patched(list[i], incoming))
  }

  /** Across a patch step, every stored position settles the same way. */
  lemma {:induction false} PatchCaseSettles(list: seq<Subtask>, incoming: seq<Entry>)
    requires |incoming| > 0 && incoming[0].id.Some?
    requires UniqueSubtaskIds(list)
    ensures PatchedAll(PatchFirst(list, incoming[0]), incoming[1..]) == PatchedAll(list, incoming)
  {
  }

  /** Across a push step, every stored position settles the same way and the
      pushed subtask stays as created. */
  lemma {:induction false} PushCaseSettles(list: seq<Subtask>, incoming: seq<Entry>, n: Subtask)
    requires |incoming| > 0 && incoming[0].id.None?
    requires !Carries(incoming, n.id)
    ensures PatchedAll(list + [n], incoming[1..]) == PatchedAll(list, incoming) + [n]
  {
  }

  /** Pushing a subtask under a fresh id keeps ids unique, and the remaining
      new ids stay fresh. */
  lemma {:induction false} PushCaseFresh(list: seq<Subtask>, incoming: seq<Entry>, newIds: seq<Id>, n: Subtask)
    requires |incoming| > 0 && |newIds| > 0 && n.id == newIds[0]
    requires UniqueSubtaskIds(list)
    requires FreshIds(newIds, list, incoming)
    ensures UniqueSubtaskIds(list + [n])
    ensures FreshIds(newIds[1..], list + [n], incoming[1..])
  {
  }

  /** A patch step keeps ids, so the new ids stay fresh for the rest of the
      entries. */
  lemma {:induction false} PatchCaseFresh(list: seq<Subtask>, incoming: seq<Entry>, newIds: seq<Id>)
    requires |incoming| > 0 && incoming[0].id.Some?
    requires FreshIds(newIds, list, incoming)
    ensures FreshIds(newIds, PatchFirst(list, incoming[0]), incoming[1..])
  {
  }

  /** An entry with an id pushes nothing. */
  lemma {:induction false} AppendedSkip(incoming: seq<Entry>, newIds: seq<Id>)
    requires |incoming| > 0 && incoming[0].id.Some?
    requires |newIds| == |NewEntries(incoming)|
    ensures |newIds| == |NewEntries(incoming[1..])|
    ensures Appended(incoming[1..], newIds) == Appended(incoming, newIds)
  {
  }

  /** An id-less entry pushes the first created subtask. */
  lemma {:induction false} AppendedPush(incoming: seq<Entry>, newIds: seq<Id>)
    requires |incoming| > 0 && incoming[0].id.None?
    requires |newIds| == |NewEntries(incoming)|
    ensures |newIds| > 0 && |newIds[1..]| == |NewEntries(incoming[1..])|
    ensures Appended(incoming, newIds) == [Create(newIds[0], incoming[0])] + Appended(incoming[1..], newIds[1..])
  {
  }

  /** The patch-or-insert pass on a list with unique ids and fresh new ids
      equals its position-by-position description. */
  lemma {:induction false} PatchInsertMatches(list: seq<Subtask>, incoming: seq<Entry>, newIds: seq<Id>)
    requires |newIds| == |NewEntries(incoming)|
    requires UniqueSubtaskIds(list)
    requires FreshIds(newIds, list, incoming)
    ensures PatchInsert(list, incoming, newIds) == PatchedAll(list, incoming) + Appended(incoming, newIds)
    decreases |incoming|, 2
  {
    if |incoming| == 0 {
      assert PatchedAll(list, incoming) == list;
    } else if incoming[0].id.Some? {
      PatchInsertMatchesPatch(list, incoming, newIds);
    } else {
      PatchInsertMatchesPush(list, incoming, newIds);
    }
  }

  /** `PatchInsertMatches` when the first entry carries an id. */
  lemma {:induction false} PatchInsertMatchesPatch(list: seq<Subtask>, incoming: seq<Entry>, newIds: seq<Id>)
    requires |incoming| > 0 && incoming[0].id.Some?
    requires |newIds| == |NewEntries(incoming)|
    requires UniqueSubtaskIds(list)
    requires FreshIds(newIds, list, incoming)
    ensures PatchInsert(list, incoming, newIds) == PatchedAll(list, incoming) + Appended(incoming, newIds)
    decreases |incoming|, 0
  {
    var patched := PatchFirst(list, incoming[0]);
    PatchCaseSettles(list, incoming);
    PatchCaseFresh(list, incoming, newIds);
    AppendedSkip(incoming, newIds);
    PatchInsertMatches(patched, incoming[1..], newIds);
    assert PatchInsert(list, incoming, newIds) == PatchInsert(patched, incoming[1..], newIds);
  }

  /** One push step of the patch-or-insert pass. */
  lemma {:induction false} PushUnfolds(list: seq<Subtask>, incoming: seq<Entry>, newIds: seq<Id>)
    requires |incoming| > 0 && incoming[0].id.None?
    requires |newIds| == |NewEntries(incoming)|
    ensures |newIds| > 0 && |newIds[1..]| == |NewEntries(incoming[1..])|
    ensures PatchInsert(list, incoming, newIds)
         == PatchInsert(list + [Create(newIds[0], incoming[0])], incoming[1..], newIds[1..])
  {
  }

  /** `PatchInsertMatches` when the first entry has no id. */
  lemma {:induction false} PatchInsertMatchesPush(list: seq<Subtask>, incoming: seq<Entry>, newIds: seq<Id>)
    requires |incoming| > 0 && incoming[0].id.None?
    requires |newIds| == |NewEntries(incoming)|
    requires UniqueSubtaskIds(list)
    requires FreshIds(newIds, list, incoming)
    ensures PatchInsert(list, incoming, newIds) == PatchedAll(list, incoming) + Appended(incoming, newIds)
    decreases |incoming|, 1
  {
    AppendedPush(incoming, newIds);
    var n := Create(newIds[0], incoming[0]);
    var settled := PatchedAll(list, incoming);
    var pushed := Appended(incoming[1..], newIds[1..]);
    calc {
      PatchInsert(list, incoming, newIds);
      { PushUnfolds(list, incoming, newIds); }
      PatchInsert(list + [n], incoming[1..], newIds[1..]);
      { PushCaseRest(list, incoming, newIds); }
      (settled + [n]) + pushed;
      settled + ([n] + pushed);
      settled + Appended(incoming, newIds);
    }
  }

  /** The rest of the pass after a push step, by the induction hypothesis. */
  lemma {:induction false} PushCaseRest(list: seq<Subtask>, incoming: seq<Entry>, newIds: seq<Id>)
    requires |incoming| > 0 && incoming[0].id.None?
    requires |newIds| > 0 && |newIds[1..]| == |NewEntries(incoming[1..])|
    requires UniqueSubtaskIds(list)
    requires FreshIds(newIds, list, incoming)
    ensures PatchInsert(list + [Create(newIds[0], incoming[0])], incoming[1..], newIds[1..])
         == (PatchedAll(list, incoming) + [Create(newIds[0], incoming[0])]) + Appended(incoming[1..], newIds[1..])
    decreases |incoming|, 0
  {
    var n := Create(newIds[0], incoming[0]);
    PushCaseSettles(list, incoming, n);
    PushCaseFresh(list, incoming, newIds, n);
    PatchInsertMatches(list + [n], incoming[1..], newIds[1..]);
  }

  /** Reconciliation agrees with its reference description whenever the
      stored ids are unique and the new ids fresh. */
  lemma {:induction false} ReconcileMatchesSpec(stored: seq<Subtask>, incoming: seq<Entry>, newIds: seq<Id>)
    requires |newIds| == |NewEntries(incoming)|
    requires UniqueSubtaskIds(stored)
    requires FreshIds(newIds, stored, incoming)
    ensures Reconcile(stored, incoming, newIds) == Expected(stored, incoming, newIds)
  {
    var marked := MarkOmitted(stored, incoming);
    PatchInsertMatches(marked, incoming, newIds);
    forall i | 0 <= i < |stored|
      ensures PatchedAll(marked, incoming)[i] == Settle(stored[i], incoming)
    {
    }
    assert PatchedAll(marked, incoming) == seq(|stored|, i requires 0 <= i < |stored| => Settle(stored[i], incoming));
  }

  /** A stored subtask some entry names ends up live, with the subject,
      deadline and status of the LAST entry naming it. */
  lemma {:induction false} MatchedTakeLastEntry(stored: seq<Subtask>, incoming: seq<Entry>, newIds: seq<Id>)
    requires |newIds| == |NewEntries(incoming)|
    requires UniqueSubtaskIds(stored)
    requires FreshIds(newIds, stored, incoming)
    ensures forall i :: 0 <= i < |stored| && Carries(incoming, stored[i].id) ==>
      var r := Reconcile(stored, incoming, newIds)[i];
      var e := incoming[LastIndex(incoming, stored[i].id).value];
      && r.id == stored[i].id && !r.deleted
      && r.subject == e.subject && r.deadline == e.deadline && r.status == e.status
  {
    ReconcileMatchesSpec(stored, incoming, newIds);
  }

  /** Each id-less entry pushes exactly one live subtask, in incoming order,
      after all the stored ones, with the schema defaults filling its absent
      fields. */
  lemma {:induction false} NewSubtasksAppended(stored: seq<Subtask>, incoming: seq<Entry>, newIds: seq<Id>)
    requires |newIds| == |NewEntries(incoming)|
    requires UniqueSubtaskIds(stored)
    requires FreshIds(newIds, stored, incoming)
    ensures |Reconcile(stored, incoming, newIds)| == |stored| + |NewEntries(incoming)|
    ensures forall j :: 0 <= j < |newIds| ==>
      var r := Reconcile(stored, incoming, newIds)[|stored| + j];
      var e := NewEntries(incoming)[j];
      && r.id == newIds[j] && !r.deleted
      && r.subject == e.subject && r.deadline == e.deadline && r.status == StatusOrDefault(e.status)
  {
    ReconcileMatchesSpec(stored, incoming, newIds);
  }

  /** An id is carried by a list with one more entry in it. */
  lemma {:induction false} CarriesWiden(a: seq<Entry>, e: Entry, b: seq<Entry>, x: Id)
    requires Carries(a + b, x)
    ensures Carries(a + [e] + b, x)
  {
    var m :| 0 <= m < |a + b| && (a + b)[m].id == Some(x);
    if m < |a| {
      assert (a + [e] + b)[m] == (a + b)[m];
    } else {
      assert (a + [e] + b)[m + 1] == (a + b)[m];
    }
  }

  /** Dropping an entry that carries an id leaves the new entries as they
      were and keeps fresh ids fresh. */
  lemma {:induction false} DropNamedEntry(stored: seq<Subtask>, a: seq<Entry>, e: Entry, b: seq<Entry>,
                                          newIds: seq<Id>)
    requires e.id.Some?
    requires FreshIds(newIds, stored, a + [e] + b)
    ensures NewEntries(a + [e] + b) == NewEntries(a + b)
    ensures FreshIds(newIds, stored, a + b)
  {
    NewEntriesAppend(a + [e], b);
    NewEntriesAppend(a, [e]);
    NewEntriesAppend(a, b);
    assert NewEntries([e]) == [];
    forall j | 0 <= j < |newIds|
      ensures !Carries(a + b, newIds[j])
    {
      if Carries(a + b, newIds[j]) {
        CarriesWiden(a, e, b, newIds[j]);
      }
    }
  }

  /** An incoming entry whose id names no stored subtask changes nothing:
      leaving it out gives the same result. */
  lemma {:induction false} UnmatchedIdIgnored(stored: seq<Subtask>, a: seq<Entry>, e: Entry, b: seq<Entry>,
                                              newIds: seq<Id>)
    requires e.id.Some? && forall i :: 0 <= i < |stored| ==> stored[i].id != e.id.value
    requires |newIds| == |NewEntries(a + [e] + b)|
    requires UniqueSubtaskIds(stored)
    requires FreshIds(newIds, stored, a + [e] + b)
    ensures NewEntries(a + [e] + b) == NewEntries(a + b)
    ensures Reconcile(stored, a + [e] + b, newIds) == Reconcile(stored, a + b, newIds)
  {
    DropNamedEntry(stored, a, e, b, newIds);
    ExpectedSkips(stored, a, e, b, newIds);
    ReconcileMatchesSpec(stored, a + [e] + b, newIds);
    ReconcileMatchesSpec(stored, a + b, newIds);
  }

  /** The reference result does not see an entry whose id names no stored
      subtask. */
  lemma {:induction false} ExpectedSkips(stored: seq<Subtask>, a: seq<Entry>, e: Entry, b: seq<Entry>,
                                         newIds: seq<Id>)
    requires e.id.Some? && forall i :: 0 <= i < |stored| ==> stored[i].id != e.id.value
    requires |newIds| == |NewEntries(a + [e] + b)|
    requires NewEntries(a + [e] + b) == NewEntries(a + b)
    ensures Expected(stored, a + [e] + b, newIds) == Expected(stored, a + b, newIds)
  {
    forall i | 0 <= i < |stored|
      ensures Settle(stored[i], a + [e] + b) == Settle(stored[i], a + b)
    {
      LastEntrySkips(a, e, b, stored[i].id);
    }
    assert Appended(a + [e] + b, newIds) == Appended(a + b, newIds);
  }

  /** What a client sends back when it echoes subtasks unchanged: each one
      under its own id, with its own fields. */
  function Echo(subs: seq<Subtask>): (r: seq<Entry>)
    ensures |r| == |subs|
    ensures forall i :: 0 <= i < |subs| ==>
      r[i] == Entry(Some(subs[i].id), subs[i].subject, subs[i].deadline, subs[i].status)
  {
    seq(|subs|, i requires 0 <= i < |subs| => Entry(Some(subs[i].id), subs[i].subject, subs[i].deadline, subs[i].status))
  }

  /** Under the echo of the active view, every stored subtask settles as
      itself. */
  lemma {:induction false} EchoSettles(stored: seq<Subtask>, i: nat)
    requires UniqueSubtaskIds(stored)
    requires i < |stored|
    ensures Settle(stored[i], Echo(ActiveSubtasks(stored))) == stored[i]
  {
  }

  /** Reconciling with the echo of the current active subtasks (and so with
      no new entry) leaves the stored subtasks exactly as they were:
      live ones keep their fields, deleted ones stay deleted. */
  lemma {:induction false} ReconcileIdempotent(stored: seq<Subtask>)
    requires UniqueSubtaskIds(stored)
    ensures NewEntries(Echo(ActiveSubtasks(stored))) == []
    ensures Reconcile(stored, Echo(ActiveSubtasks(stored)), []) == stored
  {
    var inc := Echo(ActiveSubtasks(stored));
    NewEntriesNone(inc);
    ReconcileMatchesSpec(stored, inc, []);
    forall i | 0 <= i < |stored|
      ensures Settle(stored[i], inc) == stored[i]
    {
      EchoSettles(stored, i);
    }
    assert Expected(stored, inc, []) == stored;
  }

  /** Loading a task's subtasks keeps what reconciliation depends on: the
      ids, and so their uniqueness and which new ids are fresh. */
  lemma {:induction false} LoadKeepsIds(subs: seq<Subtask>, incoming: seq<Entry>, newIds: seq<Id>)
    ensures UniqueSubtaskIds(subs) ==> UniqueSubtaskIds(LoadSubtasks(subs))
    ensures FreshIds(newIds, subs, incoming) ==> FreshIds(newIds, LoadSubtasks(subs), incoming)
  {
  }

  /** Sending back the listed subtasks unchanged is accepted, answers with
      the same list, and stores the task array as it was loaded (so, on an
      array whose statuses are all present, as it was). */
  lemma {:induction false} UpdateSubtasksIdempotent(tasks: seq<Task>, taskId: Id)
    requires ValidStore(tasks)
    requires GetSubtasks(tasks, taskId).Ok?
    requires UniqueSubtaskIds(tasks[LiveTask(tasks, taskId).value].subtasks)
    ensures var listed := GetSubtasks(tasks, taskId).value;
      && NewEntries(Echo(listed)) == []
      && UpdateSubtasks(tasks, taskId, Echo(listed), []) == Handled(Load(tasks), Ok(listed))
    ensures Loaded(tasks) ==> Load(tasks) == tasks
  {
    var k := LiveTask(tasks, taskId).value;
    var subs := LoadSubtasks(tasks[k].subtasks);
    var loaded := Load(tasks);
    LoadKeepsIds(tasks[k].subtasks, [], []);
    ReconcileIdempotent(subs);
    LoadKeepsValid(tasks);
    LoadIdempotent(tasks);
    assert loaded[k := LoadTask(tasks[k]).(subtasks := subs)] == loaded;
  }

  /** The subjects a reconciliation would store are all there: every id-less
      entry has one, and so does the last entry naming each stored subtask. */
  predicate SubjectsSupplied(stored: seq<Subtask>, incoming: seq<Entry>) {
    && (forall j :: 0 <= j < |incoming| && incoming[j].id.None? ==> Required(incoming[j].subject))
    && (forall i :: 0 <= i < |stored| && LastEntry(incoming, stored[i].id).Some? ==>
          Required(LastEntry(incoming, stored[i].id).value.subject))
  }

  /** Supplied subjects make every reconciled subtask of a valid task valid. */
  lemma {:induction false} SuppliedMakesValid(stored: seq<Subtask>, incoming: seq<Entry>, newIds: seq<Id>)
    requires |newIds| == |NewEntries(incoming)|
    requires forall i :: 0 <= i < |stored| ==> ValidSubtask(stored[i])
    requires SubjectsSupplied(stored, incoming)
    ensures forall m :: 0 <= m < |Expected(stored, incoming, newIds)| ==> ValidSubtask(Expected(stored, incoming, newIds)[m])
  {
  }

  /** A valid reconciled list means every subject was supplied. */
  lemma {:induction false} ValidNeedsSupplied(stored: seq<Subtask>, incoming: seq<Entry>, newIds: seq<Id>)
    requires |newIds| == |NewEntries(incoming)|
    requires forall m :: 0 <= m < |Expected(stored, incoming, newIds)| ==> ValidSubtask(Expected(stored, incoming, newIds)[m])
    ensures SubjectsSupplied(stored, incoming)
  {
    var r := Expected(stored, incoming, newIds);
    var ne := NewEntries(incoming);
    forall j | 0 <= j < |incoming| && incoming[j].id.None?
      ensures Required(incoming[j].subject)
    {
      assert incoming[j] in ne;
      var q :| 0 <= q < |ne| && ne[q] == incoming[j];
      assert r[|stored| + q] == Create(newIds[q], ne[q]);
    }
    forall i | 0 <= i < |stored| && LastEntry(incoming, stored[i].id).Some?
      ensures Required(LastEntry(incoming, stored[i].id).value.subject)
    {
      assert r[i] == Settle(stored[i], incoming);
    }
  }

  /** Supplied subjects do not depend on statuses, so loading keeps them. */
  lemma {:induction false} LoadKeepsSupplied(subs: seq<Subtask>, incoming: seq<Entry>)
    ensures SubjectsSupplied(LoadSubtasks(subs), incoming) <==> SubjectsSupplied(subs, incoming)
  {
  }

  /** On a valid store, a reconciliation of a live task is saved exactly when
      every subject it would store was supplied; otherwise nothing is saved. */
  lemma {:induction false} UpdateSubtasksAcceptedIff(tasks: seq<Task>, taskId: Id, incoming: seq<Entry>, newIds: seq<Id>)
    requires |newIds| == |NewEntries(incoming)|
    requires ValidStore(tasks)
    requires LiveTask(tasks, taskId).Some?
    requires UniqueSubtaskIds(tasks[LiveTask(tasks, taskId).value].subtasks)
    requires FreshIds(newIds, tasks[LiveTask(tasks, taskId).value].subtasks, incoming)
    ensures UpdateSubtasks(tasks, taskId, incoming, newIds).reply.Ok? <==>
            SubjectsSupplied(tasks[LiveTask(tasks, taskId).value].subtasks, incoming)
  {
    var k := LiveTask(tasks, taskId).value;
    var stored := LoadSubtasks(tasks[k].subtasks);
    var loaded := Load(tasks);
    var t := LoadTask(tasks[k]).(subtasks := Reconcile(stored, incoming, newIds));
    LoadKeepsIds(tasks[k].subtasks, incoming, newIds);
    LoadKeepsSupplied(tasks[k].subtasks, incoming);
    LoadKeepsValid(tasks);
    ValidStoreReplace(loaded, k, t);
    assert ValidTask(loaded[k]);
    ReconcileMatchesSpec(stored, incoming, newIds);
    if SubjectsSupplied(stored, incoming) {
      SuppliedMakesValid(stored, incoming, newIds);
    } else if ValidTask(t) {
      ValidNeedsSupplied(stored, incoming, newIds);
    }
  }

  /** An id-less entry without a subject makes the whole reconciliation fail:
      nothing of it is saved. */
  lemma {:induction false} MissingSubjectRejected(tasks: seq<Task>, taskId: Id, incoming: seq<Entry>, newIds: seq<Id>,
                                                  j: nat)
    requires |newIds| == |NewEntries(incoming)|
    requires j < |incoming| && incoming[j].id.None? && !Required(incoming[j].subject)
    requires LiveTask(tasks, taskId).Some? ==>
      && UniqueSubtaskIds(tasks[LiveTask(tasks, taskId).value].subtasks)
      && FreshIds(newIds, tasks[LiveTask(tasks, taskId).value].subtasks, incoming)
    ensures UpdateSubtasks(tasks, taskId, incoming, newIds).reply.Err?
    ensures UpdateSubtasks(tasks, taskId, incoming, newIds).tasks == tasks
  {
    if LiveTask(tasks, taskId).Some? {
      var k := LiveTask(tasks, taskId).value;
      var stored := LoadSubtasks(tasks[k].subtasks);
      var r := Reconcile(stored, incoming, newIds);
      var ne := NewEntries(incoming);
      LoadKeepsIds(tasks[k].subtasks, incoming, newIds);
      NewSubtasksAppended(stored, incoming, newIds);
      assert incoming[j] in ne;
      var q :| 0 <= q < |ne| && ne[q] == incoming[j];
      assert r[|stored| + q].subject == incoming[j].subject;
      var after := Load(tasks)[k := LoadTask(tasks[k]).(subtasks := r)];
      assert !ValidTask(after[k]);
    }
  }

  /** Reconciling keeps subtask ids unique when the new ids are fresh. */
  lemma {:induction false} ReconcileKeepsIdsUnique(stored: seq<Subtask>, incoming: seq<Entry>, newIds: seq<Id>)
    requires |newIds| == |NewEntries(incoming)|
    requires UniqueSubtaskIds(stored)
    requires FreshIds(newIds, stored, incoming)
    ensures UniqueSubtaskIds(Reconcile(stored, incoming, newIds))
  {
    var r := Reconcile(stored, incoming, newIds);
    forall p, q | 0 <= p < q < |r|
      ensures r[p].id != r[q].id
    {
      if q >= |stored| {
        assert r[|stored| + (q - |stored|)].id == newIds[q - |stored|];
        if p >= |stored| {
          assert r[|stored| + (p - |stored|)].id == newIds[p - |stored|];
        }
      }
    }
  }

  /** The subtask listing of a task is that task's entry in the task
      listing with every missing status filled with the default: the task
      listing reads the stored document as it is, the subtask listing reads
      it through a load. On an array whose statuses are all present the two
      agree exactly. */
  lemma {:induction false} GetSubtasksMatchesListing(tasks: seq<Task>, taskId: Id)
    requires GetSubtasks(tasks, taskId).Ok?
    ensures exists v :: v in GetTasks(tasks) && v.id == taskId && GetSubtasks(tasks, taskId).value == LoadSubtasks(v.subtasks)
    ensures Loaded(tasks) ==>
      exists v :: v in GetTasks(tasks) && v.id == taskId && GetSubtasks(tasks, taskId).value == v.subtasks
  {
    var k := LiveTask(tasks, taskId).value;
    var v := View(tasks[k]);
    assert tasks[k] in tasks;
    assert v in GetTasks(tasks);
    ActiveOfLoad(tasks[k].subtasks);
    if Loaded(tasks) {
      assert LoadedSubtasks(v.subtasks) by {
        assert LoadedTask(tasks[k]);
        forall s | s in v.subtasks
          ensures s.status.Some?
        {
        }
      }
      LoadSubtasksOfLoaded(v.subtasks);
    }
  }
}
