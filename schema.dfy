/** The records the backend stores and the frontend renders, the shape of a parsed
    JSON request body, and the (status code, JSON body) pair every handler answers
    with. The status and priority enumerations are datatypes, so the CHECK
    constraints of the tasks table hold of every stored row by construction; the
    strings a client sends are parsed against them. */
module Schema {

  datatype Option<T> = None | Some(value: T)
  {
    function GetOr(default: T): T
    {
      if Some? then value else default
    }
  }

  /** A member of a parsed JSON body: missing (`undefined`), `null`, or a value. */
  datatype Field<T> = Absent | Null | Given(value: T)

  datatype Status = Todo | InProgress | Done

  datatype Priority = Low | Medium | High

  /** The text the database and the wire use for a status. */
  function StatusName(s: Status): string
  {
    match s
    case Todo => "todo"
    case InProgress => "in-progress"
    case Done => "done"
  }

  /** The CHECK constraint on `tasks.status`: only the three names are accepted. */
  function ParseStatus(name: string): (r: Option<Status>)
    ensures forall s :: r == Some(s) <==> StatusName(s) == name
  {
    if name == "todo" then Some(Todo)
    else if name == "in-progress" then Some(InProgress)
    else if name == "done" then Some(Done)
    else None
  }

  /** The text the database and the wire use for a priority. */
  function PriorityName(p: Priority): string
  {
    match p
    case Low => "low"
    case Medium => "medium"
    case High => "high"
  }

  /** The CHECK constraint on `tasks.priority`: only the three names are accepted. */
  function ParsePriority(name: string): (r: Option<Priority>)
    ensures forall p :: r == Some(p) <==> PriorityName(p) == name
  {
    if name == "low" then Some(Low)
    else if name == "medium" then Some(Medium)
    else if name == "high" then Some(High)
    else None
  }

  /** A row of the users table. Timestamps are clock readings in seconds. */
  datatype User = User(id: nat, username: string, passwordHash: string, createdAt: int)

  /** A row of the tasks table, as both ends of the system type it. */
  datatype Task = Task(
    id: nat,
    userId: nat,
    title: string,
    description: string,
    status: Status,
    priority: Priority,
    dueDate: Option<string>,
    createdAt: int,
    updatedAt: int)

  /** The task payload the frontend sends: members that are `undefined` are left
      out of the JSON text. */
  datatype Payload = Payload(
    title: Option<string>,
    description: Option<string>,
    status: Option<Status>,
    priority: Option<Priority>,
    dueDate: Option<string>)

  /** The JSON body of a response. */
  datatype Body =
    | Message(text: string)
    | Session(token: string, username: string)
    | OneTask(task: Task)
    | TaskList(tasks: seq<Task>)
    | NoContent

  datatype Response = Response(status: nat, body: Body)

  /** What the global error handler answers when a handler throws. */
  const InternalServerError := Response(500, Message("Internal server error"))
}
