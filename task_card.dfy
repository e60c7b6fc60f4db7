/** The task card's constant lookup records and its overdue flag. */
module TaskCard {
  import opened Schema

  /** `STATUS_CYCLE`: todo, then in-progress, then done, then todo again. */
  function NextStatus(s: Status): (r: Status)
    ensures r != s
    ensures s == Todo ==> r == InProgress
    ensures s == InProgress ==> r == Done
    ensures s == Done ==> r == Todo
  {
    match s
    case Todo => InProgress
    case InProgress => Done
    case Done => Todo
  }

  /** The cycle run backwards. */
  function PreviousStatus(s: Status): Status
  {
    match s
    case Todo => Done
    case InProgress => Todo
    case Done => InProgress
  }

  /** The cycle is a bijection: running it backwards undoes it and vice versa. */
  lemma CycleInverse(s: Status)
    ensures PreviousStatus(NextStatus(s)) == s
    ensures NextStatus(PreviousStatus(s)) == s
  {
  }

  /** Two statuses that advance to the same status are the same. */
  lemma NextStatusInjective(a: Status, b: Status)
    requires NextStatus(a) == NextStatus(b)
    ensures a == b
  {
    CycleInverse(a);
    CycleInverse(b);
  }

  /** Three clicks bring a task back to where it started. */
  lemma CycleReturns(s: Status)
    ensures NextStatus(NextStatus(NextStatus(s))) == s
  {
  }

  /** `STATUS_LABELS`. */
  function StatusLabel(s: Status): (r: string)
    ensures r != ""
  {
    match s
    case Todo => "To Do"
    case InProgress => "In Progress"
    case Done => "Done"
  }

  /** `STATUS_COLORS`. */
  function StatusColor(s: Status): (r: string)
    ensures r != ""
  {
    match s
    case Todo => "bg-slate-400/10 text-slate-400"
    case InProgress => "bg-amber-400/10 text-amber-400"
    case Done => "bg-emerald-400/10 text-emerald-400"
  }

  /** `PRIORITY_COLORS`. */
  function PriorityColor(p: Priority): (r: string)
    ensures r != ""
  {
    match p
    case Low => "bg-blue-400/10 text-blue-400"
    case Medium => "bg-amber-400/10 text-amber-400"
    case High => "bg-red-400/10 text-red-400"
  }

  /** The labels tell the statuses apart. */
  lemma LabelsDistinct()
    ensures forall a: Status, b: Status :: StatusLabel(a) == StatusLabel(b) ==> a == b
  {
  }

  /** `isOverdue`: a non-empty due date in the past on a task that is not done.
      `isPast(parseISO(d))` is the clock-dependent `isPast` parameter. */
  predicate IsOverdue(t: Task, isPast: string -> bool)
    ensures IsOverdue(t, isPast) <==>
      t.status != Done && t.dueDate.Some? && |t.dueDate.value| >= 1 && isPast(t.dueDate.value)
  {
    t.dueDate.Some? && t.dueDate.value != "" && isPast(t.dueDate.value) && t.status != Done
  }

  /** A finished task, or one without a due date, is never flagged, whatever
      the clock says. */
  lemma NeverOverdue(t: Task, isPast: string -> bool)
    requires t.status == Done || t.dueDate.None? || t.dueDate == Some("")
    ensures !IsOverdue(t, isPast)
  {
  }

  /** Whether a task is flagged depends on its due date and status only. */
  lemma OverdueIgnoresOtherFields(t: Task, u: Task, isPast: string -> bool)
    requires t.dueDate == u.dueDate && t.status == u.status
    ensures IsOverdue(t, isPast) == IsOverdue(u, isPast)
  {
  }

  /** Clicking the status badge: `onStatusChange(task.id, STATUS_CYCLE[task.status])`. */
  function BadgeClick(t: Task): (r: (nat, Status))
    ensures r.0 == t.id && r.1 != t.status
    ensures r.1 == NextStatus(t.status)
  {
    (t.id, NextStatus(t.status))
  }
}
