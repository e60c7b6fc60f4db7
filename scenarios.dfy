/** The two ends of the system put together: the JSON body the frontend's task
    service sends for a payload, what the backend handlers make of it, and a
    whole session from registration to an emptied task list. */
module Scenarios {
  import opened Schema
  import opened Crypto
  import opened AuthRoutes
  import opened AuthGuard
  import opened TaskRoutes
  import opened DashboardPage
  import opened TaskCard
  import opened TaskModal
  import opened Text

  /** `JSON.stringify` leaves out members that are `undefined`. */
  function Member<T>(v: Option<T>): (f: Field<T>)
    ensures f.Absent? <==> v.None?
    ensures v.Some? ==> f == Given(v.value)
  {
    match v
    case None => Absent
    case Some(x) => Given(x)
  }

  /** The body `createTask(payload)` posts, as the create handler reads it. */
  function ToCreateBody(p: Payload): (b: CreateBody)
    ensures b.title == Member(p.title) && b.dueDate == Member(p.dueDate)
    ensures b.description == p.description
    ensures p.status.Some? ==> b.status == Some(StatusName(p.status.value))
    ensures p.status.None? ==> b.status.None?
    ensures p.priority.Some? ==> b.priority == Some(PriorityName(p.priority.value))
    ensures p.priority.None? ==> b.priority.None?
  {
    CreateBody(
      Member(p.title),
      p.description,
      if p.status.Some? then Some(StatusName(p.status.value)) else None,
      if p.priority.Some? then Some(PriorityName(p.priority.value)) else None,
      Member(p.dueDate))
  }

  /** The body `updateTask(id, payload)` puts, as the update handler reads it:
      no member of it is ever `null`. */
  function ToUpdateBody(p: Payload): (b: UpdateBody)
    ensures !b.title.Null? && !b.description.Null? && !b.status.Null? && !b.priority.Null? && !b.dueDate.Null?
    ensures b.title == Member(p.title) && b.description == Member(p.description)
    ensures b.dueDate == Member(p.dueDate)
    ensures p.status.Some? ==> b.status == Given(StatusName(p.status.value))
    ensures p.status.None? ==> b.status.Absent?
    ensures p.priority.Some? ==> b.priority == Given(PriorityName(p.priority.value))
    ensures p.priority.None? ==> b.priority.Absent?
  {
    UpdateBody(
      Member(p.title),
      Member(p.description),
      if p.status.Some? then Given(StatusName(p.status.value)) else Absent,
      if p.priority.Some? then Given(PriorityName(p.priority.value)) else Absent,
      Member(p.dueDate))
  }

  /** Clearing the date in the modal submits the due date as omitted, so the
      update handler keeps the stored date: the modal cannot clear a due date. */
  lemma ModalCannotClearDueDate(t: Task, now: int)
    ensures var p := SubmitPayload(FormFor(Some(t)).(dueDate := ""));
      Merge(t, ToUpdateBody(p), now).Ok? && Merge(t, ToUpdateBody(p), now).value.dueDate == t.dueDate
  {
  }

  /** Submitting the modal for a task without touching it changes nothing on
      the server except `updated_at`. */
  lemma UntouchedEditKeepsTask(t: Task, now: int)
    ensures Merge(t, ToUpdateBody(SubmitPayload(FormFor(Some(t)))), now) == Ok(t.(updatedAt := now))
  {
  }

  /** A badge click reaches the server as a status-only update that advances
      the status along the cycle and touches no other column. */
  lemma BadgeClickAdvancesStatus(t: Task, now: int)
    ensures var (id, s) := BadgeClick(t);
      var m := StatusChange(id, s);
      m.id == t.id && Merge(t, ToUpdateBody(m.payload), now) == Ok(t.(status := NextStatus(t.status), updatedAt := now))
  {
    StatusOnlyUpdate(t, NextStatus(t.status), now);
  }

  /** A new task submitted from the modal with only a title filled in is
      stored with the defaults the modal shows. */
  lemma NewTaskFromDefaults(id: nat, userId: nat, title: string, now: int)
    requires Trim(title) != ""
    ensures var b := ToCreateBody(SubmitPayload(DefaultForm.(title := title)));
      NewTask(id, userId, b, now) == Ok(Task(id, userId, Trim(title), "", Todo, Medium, None, now, now))
  {
  }

  /** A user who registers can log in at once: the login answers 200 with a
      token for the new id, and that token passes the guard for seven days
      after the login. */
  method RegisterThenLogin(t: UserTable, body: Credentials, c: Primitives, salt: string, now: int, later: int, at: int)
    returns (registered: Response, login: Response, guard: GuardOutcome)
    requires t.Valid() && Sound(c)
    requires RegisterFailure(t.users, body) == None
    modifies t
    ensures t.Valid()
    ensures registered == Response(201, Session(c.sign(old(t.nextId), now), body.username.value))
    ensures login == Response(200, Session(c.sign(old(t.nextId), later), body.username.value))
    ensures guard == if at < later + TokenLifetime then Next(old(t.nextId)) else Reject(InvalidOrExpired)
  {
    var id := t.nextId;
    AcceptedCredentials(t.users, body);
    registered := t.Register(body, c, salt, now);
    assert t.users[|t.users| - 1] == User(id, body.username.value, c.hash(body.password.value, salt), now);
    t.LoginSucceeds(body, c, later, |t.users| - 1);
    login := t.Login(body, c, later);
    SignedTokenAuthenticates(c, id, later, at);
    guard := Authenticate(Some(AuthHeader(login.body.token)), c, at);
  }

  /** The credentials of the session below pass every rule on an empty table. */
  lemma AliceAccepted()
    ensures RegisterFailure([], Credentials(Some("alice1"), Some("Secret1!"))) == None
  {
    var p := "Secret1!";
    assert '0' <= p[6] <= '9';
    assert p[7] in SpecialCharacters;
  }

  /** The padded title of the session below trims to the bare title. */
  lemma TitleTrimmed()
    ensures Trim(" Write spec ") == "Write spec"
  {
    var title := "Write spec";
    TitleEnds();
    TrimPadded(" ", title, " ");
    LiteralConcat();
  }

  /** The bare title starts and ends with a letter; the padding is a space. */
  lemma TitleEnds()
    ensures !IsWhitespace("Write spec"[0]) && !IsWhitespace("Write spec"[9]) && IsWhitespace(" "[0])
  {
  }

  /** The padded title is the bare title with one space on each side. */
  lemma LiteralConcat()
    ensures " " + "Write spec" + " " == " Write spec "
  {
  }

  /** The row the session's create request makes. */
  lemma SessionTaskCreated(now: int)
    ensures NewTask(1, 1, CreateBody(Given(" Write spec "), None, None, None, Absent), now)
         == Ok(Task(1, 1, "Write spec", "", Todo, Medium, None, now, now))
  {
    TitleTrimmed();
    TitleOnlyCreate(1, 1, " Write spec ", now);
  }

  /** A create body holding only a title that is not blank gets every default. */
  lemma TitleOnlyCreate(id: nat, userId: nat, title: string, now: int)
    requires Trim(title) != ""
    ensures NewTask(id, userId, CreateBody(Given(title), None, None, None, Absent), now)
         == Ok(Task(id, userId, Trim(title), "", Todo, Medium, None, now, now))
  {
  }

  /** A table of one row lists that row for its owner. */
  lemma OwnedSingleton(t: Task)
    ensures Owned([t], t.userId) == [t]
    ensures SortNewestFirst([t]) == [t]
  {
  }

  /** A whole session against fresh tables: register `alice1`, use the token,
      create a task, list it, delete it, and list nothing. */
  method WholeSession(c: Primitives, salt: string, now: int)
    returns (registered: Response, guard: GuardOutcome, created: Response, listed: Response, deleted: Response, emptied: Response)
    requires Sound(c)
    ensures registered == Response(201, Session(c.sign(1, now), "alice1"))
    ensures guard == Next(1)
    ensures created == Response(201, OneTask(Task(1, 1, "Write spec", "", Todo, Medium, None, now, now)))
    ensures listed == Response(200, TaskList([created.body.task]))
    ensures deleted == Response(204, NoContent)
    ensures emptied == Response(200, TaskList([]))
  {
    var users := new UserTable();
    AliceAccepted();
    registered := users.Register(Credentials(Some("alice1"), Some("Secret1!")), c, salt, now);
    SignedTokenAuthenticates(c, 1, now, now);
    guard := Authenticate(Some(AuthHeader(registered.body.token)), c, now);

    var tasks := new TaskTable();
    SessionTaskCreated(now);
    created := tasks.Create(1, CreateBody(Given(" Write spec "), None, None, None, Absent), now);
    OwnedSingleton(tasks.rows[0]);
    listed := tasks.List(1);
    deleted := tasks.Delete(1, 1);
    emptied := tasks.List(1);
  }
}
