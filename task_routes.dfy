/** The task routes behind the guard: `GET /api/tasks`, `POST /api/tasks`,
    `PUT /api/tasks/:id` and `DELETE /api/tasks/:id`, every one scoped by the
    user id the guard passed on. The tasks table is a class whose rows the
    handlers change in place. */
module TaskRoutes {
  import opened Schema
  import opened Text
  import opened Collections

  /** The five members `POST` reads from the body; any other member is ignored.
      A missing description, status or priority takes its default; a missing
      or `null` due date is stored as NULL. */
  datatype CreateBody = CreateBody(
    title: Field<string>,
    description: Option<string>,
    status: Option<string>,
    priority: Option<string>,
    dueDate: Field<string>)

  /** The five members `PUT` reads from the body, each possibly missing or `null`. */
  datatype UpdateBody = UpdateBody(
    title: Field<string>,
    description: Field<string>,
    status: Field<string>,
    priority: Field<string>,
    dueDate: Field<string>)

  const TitleRequired := Response(400, Message("Title is required"))
  const TaskNotFound := Response(404, Message("Task not found"))

  datatype Result<T> = Ok(value: T) | Err(response: Response)

  // ---------------------------------------------------------------------------
  // Create

  /** `!title || title.trim() === ''`. */
  predicate MissingTitle(title: Field<string>)
    ensures MissingTitle(title) <==> !title.Given? || forall i :: 0 <= i < |title.value| ==> IsWhitespace(title.value[i])
  {
    !title.Given? || Trim(title.value) == ""
  }

  /** A status or priority the CHECK constraints refuse: the INSERT or UPDATE
      throws and the error handler answers 500. */
  predicate BadEnum(status: Option<string>, priority: Option<string>)
    ensures BadEnum(status, priority) <==>
      (status.Some? && status.value !in {"todo", "in-progress", "done"})
      || (priority.Some? && priority.value !in {"low", "medium", "high"})
  {
    (status.Some? && ParseStatus(status.value).None?) || (priority.Some? && ParsePriority(priority.value).None?)
  }

  /** The row `POST` inserts under the id the table assigns, or the reply that
      refuses it. */
  function NewTask(id: nat, userId: nat, body: CreateBody, now: int): (r: Result<Task>)
    ensures r == Err(TitleRequired) <==> MissingTitle(body.title)
    ensures r == Err(InternalServerError) <==> !MissingTitle(body.title) && BadEnum(body.status, body.priority)
    ensures r.Err? ==> r.response in {TitleRequired, InternalServerError}
    ensures r.Ok? ==>
      var t := r.value;
      && t.id == id && t.userId == userId
      && t.title == Trim(body.title.value) && t.title != ""
      && t.description == body.description.GetOr("")
      && StatusName(t.status) == body.status.GetOr("todo")
      && PriorityName(t.priority) == body.priority.GetOr("medium")
      && t.dueDate == (if body.dueDate.Given? then Some(body.dueDate.value) else None)
      && t.createdAt == now && t.updatedAt == now
  {
    if MissingTitle(body.title) then Err(TitleRequired)
    else
      var status := ParseStatus(body.status.GetOr("todo"));
      var priority := ParsePriority(body.priority.GetOr("medium"));
      if status.None? || priority.None? then Err(InternalServerError)
      else
        var dueDate := if body.dueDate.Given? then Some(body.dueDate.value) else None;
        Ok(Task(id, userId, Trim(body.title.value), body.description.GetOr(""),
                status.value, priority.value, dueDate, now, now))
  }

  // ---------------------------------------------------------------------------
  // Update

  /** `value ?? current`: a missing or `null` member keeps the current value. */
  function Coalesce<T>(value: Field<T>, current: T): (r: T)
    ensures value.Given? ==> r == value.value
    ensures !value.Given? ==> r == current
  {
    if value.Given? then value.value else current
  }

  /** `value !== undefined ? value : current` on a nullable column: only a
      missing member keeps the current value; `null` clears it. */
  function UnlessUndefined<T>(value: Field<T>, current: Option<T>): (r: Option<T>)
    ensures value.Absent? ==> r == current
    ensures value.Null? ==> r.None?
    ensures value.Given? ==> r == Some(value.value)
  {
    match value
    case Absent => current
    case Null => None
    case Given(v) => Some(v)
  }

  /** The row `PUT` writes back: the merge of the stored row with the body,
      under a refreshed `updated_at`. */
  function Merge(task: Task, body: UpdateBody, now: int): (r: Result<Task>)
    ensures r.Err? <==>
      (body.status.Given? && ParseStatus(body.status.value).None?)
      || (body.priority.Given? && ParsePriority(body.priority.value).None?)
    ensures r.Err? ==> r.response == InternalServerError
    ensures r.Ok? ==>
      var t := r.value;
      && t.id == task.id && t.userId == task.userId && t.createdAt == task.createdAt
      && t.updatedAt == now
      && t.title == (if body.title.Given? then body.title.value else task.title)
      && t.description == (if body.description.Given? then body.description.value else task.description)
      && StatusName(t.status) == (if body.status.Given? then body.status.value else StatusName(task.status))
      && PriorityName(t.priority) == (if body.priority.Given? then body.priority.value else PriorityName(task.priority))
      && t.dueDate == (match body.dueDate case Absent => task.dueDate case Null => None case Given(d) => Some(d))
  {
    var status := ParseStatus(Coalesce(body.status, StatusName(task.status)));
    var priority := ParsePriority(Coalesce(body.priority, PriorityName(task.priority)));
    if status.None? || priority.None? then Err(InternalServerError)
    else
      Ok(task.(
        title := Coalesce(body.title, task.title),
        description := Coalesce(body.description, task.description),
        status := status.value,
        priority := priority.value,
        dueDate := UnlessUndefined(body.dueDate, task.dueDate),
        updatedAt := now))
  }

  /** A body holding only a status changes the status and the timestamp and
      nothing else. */
  lemma StatusOnlyUpdate(task: Task, s: Status, now: int)
    ensures Merge(task, UpdateBody(Absent, Absent, Given(StatusName(s)), Absent, Absent), now)
         == Ok(task.(status := s, updatedAt := now))
  {
  }

  /** `null` keeps every `??` field but clears the due date. */
  lemma NullMembers(task: Task, now: int)
    ensures Merge(task, UpdateBody(Null, Null, Null, Null, Null), now)
         == Ok(task.(dueDate := None, updatedAt := now))
  {
  }

  /** An empty body only refreshes the timestamp. */
  lemma EmptyUpdate(task: Task, now: int)
    ensures Merge(task, UpdateBody(Absent, Absent, Absent, Absent, Absent), now)
         == Ok(task.(updatedAt := now))
  {
  }

  /** Sending the same update twice gives the same row as sending it once. */
  lemma MergeIdempotent(task: Task, body: UpdateBody, now: int)
    requires Merge(task, body, now).Ok?
    ensures Merge(Merge(task, body, now).value, body, now) == Merge(task, body, now)
  {
  }

  // ---------------------------------------------------------------------------
  // The table as a sequence of rows

  /** `WHERE user_id = ?`. */
  function Owned(rows: seq<Task>, userId: nat): (r: seq<Task>)
    ensures forall t :: t in r <==> t in rows && t.userId == userId
  {
    Filter(rows, (t: Task) => t.userId == userId)
  }

  /** `SELECT * FROM tasks WHERE id = ? AND user_id = ?`. */
  function FindOwned(rows: seq<Task>, id: int, userId: nat): (r: Option<Task>)
    ensures r.Some? ==> r.value in rows && r.value.id == id && r.value.userId == userId
    ensures r.None? <==> forall i :: 0 <= i < |rows| ==> !(rows[i].id == id && rows[i].userId == userId)
  {
    if rows == [] then None
    else if rows[0].id == id && rows[0].userId == userId then Some(rows[0])
    else
      var r := FindOwned(rows[1..], id, userId);
      assert forall i :: 1 <= i < |rows| ==> rows[i] == rows[1..][i - 1];
      r
  }

  /** `UPDATE tasks SET ... WHERE id = ?` with the merged row. */
  function ReplaceRow(rows: seq<Task>, t: Task): (r: seq<Task>)
    ensures |r| == |rows|
    ensures forall i :: 0 <= i < |rows| ==> r[i] == if rows[i].id == t.id then t else rows[i]
  {
    if rows == [] then []
    else [if rows[0].id == t.id then t else rows[0]] + ReplaceRow(rows[1..], t)
  }

  /** `DELETE FROM tasks WHERE id = ?`. */
  function RemoveRow(rows: seq<Task>, id: int): (r: seq<Task>)
    ensures forall t :: t in r <==> t in rows && t.id != id
    ensures IsSubsequence(r, rows)
  {
    Filter(rows, (t: Task) => t.id != id)
  }

  /** Row ids increase along the table (the AUTOINCREMENT order of insertion). */
  ghost predicate IdsIncreasing(rows: seq<Task>)
  {
    forall i, j :: 0 <= i < j < |rows| ==> rows[i].id < rows[j].id
  }

  /** Removing the row with a present id takes away exactly one row. */
  lemma {:induction false} RemoveRowCount(rows: seq<Task>, k: nat)
    requires IdsIncreasing(rows) && k < |rows|
    ensures |RemoveRow(rows, rows[k].id)| == |rows| - 1
  {
    var id := rows[k].id;
    if k == 0 {
      assert forall t :: t in rows[1..] ==> t.id != id;
      FilterKeepsAll(rows[1..], (t: Task) => t.id != id);
    } else {
      RemoveRowCount(rows[1..], k - 1);
    }
  }

  /** `ORDER BY created_at DESC`. */
  ghost predicate NewestFirst(s: seq<Task>)
  {
    forall i, j :: 0 <= i < j < |s| ==> s[i].createdAt >= s[j].createdAt
  }

  /** A row at least as new as every row of `s`, put in front of `s`, keeps it newest first. */
  lemma NewestFirstCons(x: Task, s: seq<Task>)
    requires NewestFirst(s)
    requires forall j :: 0 <= j < |s| ==> s[j].createdAt <= x.createdAt
    ensures NewestFirst([x] + s)
  {
    var r := [x] + s;
    forall i, j | 0 <= i < j < |r| ensures r[i].createdAt >= r[j].createdAt {
      if i > 0 {
        assert r[i] == s[i - 1] && r[j] == s[j - 1];
      } else {
        assert r[j] == s[j - 1];
      }
    }
  }

  /** Inserting a row older than the head of `s` into the rest of `s` gives
      rows none of which is newer than that head. */
  lemma NoNewerThanHead(t: Task, s: seq<Task>, rest: seq<Task>)
    requires NewestFirst(s) && s != [] && t.createdAt < s[0].createdAt
    requires multiset(rest) == multiset(s[1..]) + multiset{t}
    ensures forall j :: 0 <= j < |rest| ==> rest[j].createdAt <= s[0].createdAt
  {
    forall j | 0 <= j < |rest| ensures rest[j].createdAt <= s[0].createdAt {
      var x := rest[j];
      assert x in multiset(rest);
      if x != t {
        assert x in multiset(s[1..]);
        var k :| 0 <= k < |s[1..]| && s[1..][k] == x;
        assert s[k + 1] == x;
      }
    }
  }

  function InsertByAge(t: Task, s: seq<Task>): (r: seq<Task>)
    requires NewestFirst(s)
    ensures NewestFirst(r)
    ensures multiset(r) == multiset(s) + multiset{t}
  {
    if s == [] then [t]
    else if t.createdAt >= s[0].createdAt then
      NewestFirstCons(t, s);
      [t] + s
    else
      var rest := InsertByAge(t, s[1..]);
      NoNewerThanHead(t, s, rest);
      NewestFirstCons(s[0], rest);
      assert s == [s[0]] + s[1..];
      [s[0]] + rest
  }

  /** The rows sorted newest first (rows with equal timestamps in table order). */
  function SortNewestFirst(s: seq<Task>): (r: seq<Task>)
    ensures NewestFirst(r)
    ensures multiset(r) == multiset(s)
  {
    if s == [] then []
    else
      assert s == [s[0]] + s[1..];
      InsertByAge(s[0], SortNewestFirst(s[1..]))
  }

  // ---------------------------------------------------------------------------
  // The tasks table

  class TaskTable {
    var rows: seq<Task>
    /** The AUTOINCREMENT counter: the id the next inserted task receives. */
    var nextId: nat

    ghost predicate Valid()
      reads this
    {
      && 1 <= nextId
      && (forall i :: 0 <= i < |rows| ==> 1 <= rows[i].id < nextId)
      && IdsIncreasing(rows)
    }

    constructor ()
      ensures Valid() && rows == [] && nextId == 1
    {
      rows := [];
      nextId := 1;
    }

    /** `GET /`: exactly the caller's rows (each as often as stored), newest first. */
    function List(userId: nat): (r: Response)
      reads this
      ensures r.status == 200 && r.body.TaskList?
      ensures forall t :: t in r.body.tasks <==> t in rows && t.userId == userId
      ensures multiset(r.body.tasks) == multiset(Owned(rows, userId))
      ensures NewestFirst(r.body.tasks)
    {
      var listed := SortNewestFirst(Owned(rows, userId));
      assert forall t :: t in listed <==> t in multiset(Owned(rows, userId));
      Response(200, TaskList(listed))
    }

    /** `POST /`: a missing or blank title is refused with 400 and a status or
        priority outside the enumerations with 500, both leaving the table
        alone; otherwise one row is appended under the next id and returned
        with 201. */
    method Create(userId: nat, body: CreateBody, now: int) returns (res: Response)
      requires Valid()
      modifies this
      ensures Valid()
      ensures NewTask(old(nextId), userId, body, now).Err? ==>
        res == NewTask(old(nextId), userId, body, now).response && rows == old(rows) && nextId == old(nextId)
      ensures NewTask(old(nextId), userId, body, now).Ok? ==>
        var t := NewTask(old(nextId), userId, body, now).value;
        rows == old(rows) + [t] && nextId == old(nextId) + 1 && res == Response(201, OneTask(t))
    {
      var created := NewTask(nextId, userId, body, now);
      if created.Err? {
        return created.response;
      }
      rows := rows + [created.value];
      nextId := nextId + 1;
      res := Response(201, OneTask(created.value));
    }

    /** `PUT /:id`: a row that does not exist or belongs to someone else is
        answered 404; a status or priority outside the enumerations 500; both
        leave the table alone. Otherwise the caller's row is replaced by the
        merge and returned with 200, and every other row is untouched. */
    method Update(userId: nat, taskId: int, body: UpdateBody, now: int) returns (res: Response)
      requires Valid()
      modifies this
      ensures Valid() && nextId == old(nextId)
      ensures FindOwned(old(rows), taskId, userId).None? ==> res == TaskNotFound && rows == old(rows)
      ensures FindOwned(old(rows), taskId, userId).Some? ==>
        var merged := Merge(FindOwned(old(rows), taskId, userId).value, body, now);
        && (merged.Err? ==> res == InternalServerError && rows == old(rows))
        && (merged.Ok? ==> rows == ReplaceRow(old(rows), merged.value) && res == Response(200, OneTask(merged.value)))
    {
      var task := FindOwned(rows, taskId, userId);
      if task.None? {
        return TaskNotFound;
      }
      var merged := Merge(task.value, body, now);
      if merged.Err? {
        return merged.response;
      }
      rows := ReplaceRow(rows, merged.value);
      res := Response(200, OneTask(merged.value));
    }

    /** `DELETE /:id`: a row that does not exist or belongs to someone else is
        answered 404 and nothing changes; otherwise the row is removed, every
        other row keeps its place, and the reply is 204. */
    method Delete(userId: nat, taskId: int) returns (res: Response)
      requires Valid()
      modifies this
      ensures Valid() && nextId == old(nextId)
      ensures FindOwned(old(rows), taskId, userId).None? ==> res == TaskNotFound && rows == old(rows)
      ensures FindOwned(old(rows), taskId, userId).Some? ==>
        rows == RemoveRow(old(rows), taskId) && |rows| == |old(rows)| - 1 && res == Response(204, NoContent)
    {
      var task := FindOwned(rows, taskId, userId);
      if task.None? {
        return TaskNotFound;
      }
      var k :| 0 <= k < |rows| && rows[k] == task.value;
      RemoveRowCount(rows, k);
      FilterPairwise(rows, (t: Task) => t.id != taskId, (a: Task, b: Task) => a.id < b.id);
      rows := RemoveRow(rows, taskId);
      res := Response(204, NoContent);
    }
  }

  // ---------------------------------------------------------------------------
  // Isolation between users

  /** Another user's task is never listed for the caller and is "not found"
      for the caller's update and delete, exactly like an id nobody has. */
  lemma CrossUserIsolation(rows: seq<Task>, t: Task, caller: nat)
    requires IdsIncreasing(rows)
    requires t in rows && t.userId != caller
    ensures t !in Owned(rows, caller)
    ensures FindOwned(rows, t.id, caller).None?
  {
  }

  /** A row the caller inserts does not change what anyone else owns. */
  lemma {:induction false} CreateIsolated(rows: seq<Task>, t: Task, other: nat)
    requires t.userId != other
    ensures Owned(rows + [t], other) == Owned(rows, other)
  {
    FilterAppend(rows, [t], (x: Task) => x.userId == other);
  }

  /** Replacing one of the caller's rows does not change what anyone else owns. */
  lemma {:induction false} UpdateIsolated(rows: seq<Task>, t: Task, other: nat)
    requires t.userId != other
    requires forall i :: 0 <= i < |rows| && rows[i].id == t.id ==> rows[i].userId == t.userId
    ensures Owned(ReplaceRow(rows, t), other) == Owned(rows, other)
  {
    if rows != [] {
      UpdateIsolated(rows[1..], t, other);
      assert ReplaceRow(rows, t)[1..] == ReplaceRow(rows[1..], t);
    }
  }

  /** Removing one of the caller's rows does not change what anyone else owns. */
  lemma DeleteIsolated(rows: seq<Task>, id: int, owner: nat, other: nat)
    requires owner != other
    requires forall i :: 0 <= i < |rows| && rows[i].id == id ==> rows[i].userId == owner
    ensures Owned(RemoveRow(rows, id), other) == Owned(rows, other)
  {
    FilterFilter(rows, (x: Task) => x.id != id, (x: Task) => x.userId == other);
  }
}
