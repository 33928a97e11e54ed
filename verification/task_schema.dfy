/** The embedded Task and Subtask records (models/taskSchema.js): their
    fields, the defaults a new record receives, and the `required`
    validation a save applies to them. */
module TaskSchema {
  import opened Wrappers

  /** An embedded document's `_id`. Only equality between ids is observed. */
  type Id = nat

  /** A `Date` path. Its calendar meaning is never observed. */
  type Date = int

  /** The default of the `status` path on both record kinds. */
  const DefaultStatus: string := "pending"

  /** A subtask embedded in a task. `subject` and `status` are optional
      because a reconciliation copies an incoming entry's fields wholesale,
      absent ones included; `deadline == None` is the null default. */
  datatype Subtask = Subtask(
    id: Id,
    subject: Option<string>,
    deadline: Option<Date>,
    status: Option<string>,
    deleted: bool)

  /** A task embedded in a user; it owns its ordered subtasks. */
  datatype Task = Task(
    id: Id,
    subject: Option<string>,
    deadline: Option<Date>,
    status: Option<string>,
    deleted: bool,
    subtasks: seq<Subtask>)

  /** The `required: true` validator of a String path: the value is present
      and is not the empty string. */
  predicate Required(subject: Option<string>) {
    subject.Some? && subject.value != ""
  }

  predicate ValidSubtask(s: Subtask) {
    Required(s.subject)
  }

  /** A task passes validation when it and every subtask it holds (deleted
      ones included) carry a subject. */
  predicate ValidTask(t: Task) {
    && Required(t.subject)
    && forall i :: 0 <= i < |t.subtasks| ==> ValidSubtask(t.subtasks[i])
  }

  /** The stored status of a new record: the supplied one, else the default. */
  function StatusOrDefault(status: Option<string>): (r: Option<string>)
    ensures r.Some?
    ensures status.Some? ==> r == status
    ensures status.None? ==> r.value == DefaultStatus
  {
    match status
    case Some(_) => status
    case None => Some(DefaultStatus)
  }

  /** A subtask built from the given fields, the schema's defaults filling
      the absent ones: null deadline, "pending" status, not deleted. */
  function NewSubtask(id: Id, subject: Option<string>, deadline: Option<Date>, status: Option<string>): (s: Subtask)
    ensures s.id == id && s.subject == subject && s.deadline == deadline
    ensures s.status == StatusOrDefault(status)
    ensures !s.deleted
    ensures ValidSubtask(s) <==> Required(subject)
  {
    Subtask(id, subject, deadline, StatusOrDefault(status), false)
  }

  /** A task built from the given fields, with the same defaults as a
      subtask and no subtasks. */
  function NewTask(id: Id, subject: Option<string>, deadline: Option<Date>, status: Option<string>): (t: Task)
    ensures t.id == id && t.subject == subject && t.deadline == deadline
    ensures t.status == StatusOrDefault(status)
    ensures !t.deleted && t.subtasks == []
    ensures ValidTask(t) <==> Required(subject)
  {
    Task(id, subject, deadline, StatusOrDefault(status), false, [])
  }
}
