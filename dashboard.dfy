/** The dashboard page: the client-side filter over the fetched tasks, and the
    page state (`modalOpen`, `editingTask`, `filters`) that the edit, new-task,
    close and submit handlers update. A mutation the page asks react-query to
    run is returned as a value. */
module DashboardPage {
  import opened Schema
  import opened Text
  import opened Collections

  /** `Task['status'] | 'all'`. */
  datatype StatusFilter = AnyStatus | OnlyStatus(status: Status)

  /** `Task['priority'] | 'all'`. */
  datatype PriorityFilter = AnyPriority | OnlyPriority(priority: Priority)

  /** The filter bar's state. */
  datatype Filters = Filters(search: string, status: StatusFilter, priority: PriorityFilter)

  /** The initial filters: empty search, every status, every priority. */
  const NoFilters := Filters("", AnyStatus, AnyPriority)

  /** The lowercased search text occurs in the lowercased title or description. */
  predicate MatchesSearch(t: Task, search: string)
  {
    var needle := ToLower(search);
    Contains(ToLower(t.title), needle) || Contains(ToLower(t.description), needle)
  }

  predicate MatchesStatus(t: Task, f: StatusFilter)
  {
    f.AnyStatus? || t.status == f.status
  }

  predicate MatchesPriority(t: Task, f: PriorityFilter)
  {
    f.AnyPriority? || t.priority == f.priority
  }

  predicate Matches(t: Task, f: Filters)
  {
    MatchesSearch(t, f.search) && MatchesStatus(t, f.status) && MatchesPriority(t, f.priority)
  }

  /** The `filtered` list: the tasks that match, in the order fetched. */
  function Filtered(tasks: seq<Task>, f: Filters): (r: seq<Task>)
    ensures IsSubsequence(r, tasks)
    ensures forall i :: 0 <= i < |r| ==> r[i] in tasks
    ensures forall i :: 0 <= i < |r| ==> MatchesSearch(r[i], f.search)
    ensures forall i :: 0 <= i < |r| ==> f.status.OnlyStatus? ==> r[i].status == f.status.status
    ensures forall i :: 0 <= i < |r| ==> f.priority.OnlyPriority? ==> r[i].priority == f.priority.priority
    ensures forall i :: 0 <= i < |tasks| && Matches(tasks[i], f) ==> tasks[i] in r
  {
    Filter(tasks, (t: Task) => Matches(t, f))
  }

  /** With the initial filters every task is shown, in order. */
  lemma NoFiltersShowAll(tasks: seq<Task>)
    ensures Filtered(tasks, NoFilters) == tasks
  {
    forall t: Task | t in tasks ensures Matches(t, NoFilters) {
      ContainsEmpty(ToLower(t.title));
    }
    FilterKeepsAll(tasks, (t: Task) => Matches(t, NoFilters));
  }

  /** The search ignores the case of the search text. */
  lemma SearchIgnoresCase(t: Task, search: string)
    ensures MatchesSearch(t, search) == MatchesSearch(t, ToLower(search))
  {
    ToLowerIdempotent(search);
  }

  /** Filtering the filtered list again with filters that are at least as
      strict gives what those filters give on the full list: tightening a
      filter only hides more tasks. */
  lemma TighterFiltersNarrow(tasks: seq<Task>, f: Filters, g: Filters)
    requires forall t: Task :: Matches(t, g) ==> Matches(t, f)
    ensures Filtered(Filtered(tasks, f), g) == Filtered(tasks, g)
  {
    FilterFilter(tasks, (t: Task) => Matches(t, f), (t: Task) => Matches(t, g));
  }

  /** Picking a status while every status is shown narrows what is already shown. */
  lemma PickingStatusNarrows(tasks: seq<Task>, f: Filters, s: Status)
    requires f.status.AnyStatus?
    ensures Filtered(Filtered(tasks, f), f.(status := OnlyStatus(s))) == Filtered(tasks, f.(status := OnlyStatus(s)))
  {
    TighterFiltersNarrow(tasks, f, f.(status := OnlyStatus(s)));
  }

  /** A mutation the page asks to run: `createMutation.mutate(data)` or
      `updateMutation.mutate({ id, payload })`. */
  datatype Mutation = CreateTask(payload: Payload) | UpdateTask(id: nat, payload: Payload)

  /** `handleStatusChange(id, status)`: an update whose payload holds the status only. */
  function StatusChange(id: nat, status: Status): (m: Mutation)
    ensures m.UpdateTask? && m.id == id && m.payload.status == Some(status)
    ensures m.payload.title.None? && m.payload.description.None? && m.payload.priority.None? && m.payload.dueDate.None?
  {
    UpdateTask(id, Payload(None, None, Some(status), None, None))
  }

  class Dashboard {
    var modalOpen: bool
    var editingTask: Option<Task>
    var filters: Filters

    constructor ()
      ensures !modalOpen && editingTask == None && filters == NoFilters
    {
      modalOpen := false;
      editingTask := None;
      filters := NoFilters;
    }

    /** The tasks the grid shows. */
    function Visible(tasks: seq<Task>): (r: seq<Task>)
      reads this
      ensures IsSubsequence(r, tasks)
      ensures forall i :: 0 <= i < |tasks| ==> (tasks[i] in r <==> Matches(tasks[i], filters))
    {
      Filtered(tasks, filters)
    }

    /** `handleSubmit(data)`: update the task being edited, or create one. */
    function Submit(data: Payload): (m: Mutation)
      reads this
      ensures m.payload == data
      ensures m.UpdateTask? <==> editingTask.Some?
      ensures m.UpdateTask? ==> m.id == editingTask.value.id
    {
      if editingTask.Some? then UpdateTask(editingTask.value.id, data) else CreateTask(data)
    }

    /** `handleEdit(task)`. */
    method HandleEdit(task: Task)
      modifies this
      ensures editingTask == Some(task) && modalOpen && filters == old(filters)
    {
      editingTask := Some(task);
      modalOpen := true;
    }

    /** The filter bar's `onNewTask`. */
    method OpenNew()
      modifies this
      ensures editingTask == None && modalOpen && filters == old(filters)
    {
      editingTask := None;
      modalOpen := true;
    }

    /** The modal's `onClose`. */
    method CloseModal()
      modifies this
      ensures editingTask == None && !modalOpen && filters == old(filters)
    {
      modalOpen := false;
      editingTask := None;
    }

    /** The filter bar's `onChange`. */
    method SetFilters(f: Filters)
      modifies this
      ensures filters == f && modalOpen == old(modalOpen) && editingTask == old(editingTask)
    {
      filters := f;
    }

    /** `createMutation`'s `onSuccess`: the modal closes. */
    method OnCreateSuccess()
      modifies this
      ensures !modalOpen && editingTask == old(editingTask) && filters == old(filters)
    {
      modalOpen := false;
    }

    /** `updateMutation`'s `onSuccess`: the modal closes and editing ends. */
    method OnUpdateSuccess()
      modifies this
      ensures !modalOpen && editingTask == None && filters == old(filters)
    {
      modalOpen := false;
      editingTask := None;
    }
  }

  /** Editing a task and submitting the modal updates that task; opening the
      modal for a new task after closing it creates one. */
  method EditThenSubmit(d: Dashboard, task: Task, data: Payload) returns (edit: Mutation, create: Mutation)
    modifies d
    ensures edit == UpdateTask(task.id, data)
    ensures create == CreateTask(data)
    ensures !d.modalOpen && d.editingTask == None
  {
    d.HandleEdit(task);
    edit := d.Submit(data);
    d.CloseModal();
    d.OpenNew();
    create := d.Submit(data);
    d.CloseModal();
  }
}
