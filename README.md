# Task manager: authentication, token guard and owner-scoped tasks

This project models the core of a small task manager. The backend is an
Express server over SQLite. It registers and logs in users, guards every task
route with a bearer token, and lets each user list, create, update and delete
only their own tasks. The React frontend filters the fetched tasks on the
client, cycles a task's status from its card, counts statuses in the header,
keeps a list of toasts, and maps its task form to the request payload.

The model is in Dafny, in these modules:

- `Schema` holds the records: users, tasks, the status and priority
  enumerations, the parsed JSON body member (missing, `null`, or a value),
  and the (status code, body) response.
- `Crypto` holds bcrypt and the JWT library. They enter as a record of
  functions, together with the laws the model assumes of them (`Sound`).
  One lemma shows that the laws are consistent.
- `Text` holds the JavaScript string built-ins the code calls: `split`,
  `trim`, `toLowerCase` and `includes`.
- `Collections` holds `Array.filter` and the counting built on it.
- `AuthRoutes` covers registration and login. The users table is a class
  whose `Register` method appends a row.
- `AuthGuard` covers the `authenticate` middleware.
- `TaskRoutes` covers the four task handlers. The tasks table is a class
  whose methods change its rows in place.
- The frontend is five modules: `DashboardPage`, `TaskCard`, `Header`,
  `Toasts` and `TaskModal`.
- `Scenarios` joins the two ends and walks through a whole session.

## Model

| member | source | states |
|---|---|---|
| Schema.ParseStatus | backend/src/db/database.ts:22 | a status string is accepted exactly when it is the name of one of the three statuses |
| Schema.ParsePriority | backend/src/db/database.ts:23 | a priority string is accepted exactly when it is the name of one of the three priorities |
| Crypto.SoundIsSatisfiable | backend/src/routes/auth.ts:84-88 | the assumed laws of hashing, of signing with a seven-day `exp` and of verifying hold together for some library |
| Text.Split | backend/src/middleware/auth.ts:19 | `split(' ')` returns at least one piece, no piece holds the separator, and joining the pieces gives the string back |
| Text.Trim | backend/src/routes/tasks.ts:72 | `trim()` returns a part of the string that neither starts nor ends with whitespace; it is empty exactly when the string is all whitespace |
| Text.TrimPadded | backend/src/routes/tasks.ts:81 | trimming removes exactly the whitespace around a string whose ends are not whitespace |
| Text.TrimIdempotent | backend/src/routes/tasks.ts:81 | a stored title is already trimmed: trimming it again changes nothing |
| Text.ToLower | frontend/src/pages/DashboardPage.tsx:57-58 | lowercasing keeps the length, maps each character, and leaves no upper-case ASCII letter |
| Text.ToLowerIdempotent | frontend/src/pages/DashboardPage.tsx:57-58 | lowercasing twice is lowercasing once |
| Text.Contains | frontend/src/pages/DashboardPage.tsx:57-58 | `includes` holds exactly when the needle is a contiguous slice of the string, so never for a needle longer than the string |
| Text.ContainsEmpty | frontend/src/pages/DashboardPage.tsx:57 | every string includes the empty search text |
| Collections.Filter | frontend/src/hooks/useToast.ts:18 | `filter` keeps exactly the elements that pass, as a subsequence in the original order |
| Collections.FilterKeepsAll | frontend/src/pages/DashboardPage.tsx:56-62 | filtering with a test every element passes returns the list unchanged |
| Collections.FilterAppend | frontend/src/hooks/useToast.ts:12 | filtering distributes over concatenation |
| Collections.FilterFilter | frontend/src/pages/DashboardPage.tsx:56-62 | filtering a filtered list again with a stricter test is filtering once with that test |
| Collections.FilterPairwise | backend/src/routes/tasks.ts:173 | removing rows keeps every pairwise relation between the rows that stay |
| Collections.Count | frontend/src/components/Header.tsx:13-15 | a count never exceeds the length of the list |
| AuthRoutes.Provided | backend/src/routes/auth.ts:37 | a credential member counts as given exactly when it is a string of at least one character |
| AuthRoutes.HasDigit | backend/src/routes/auth.ts:53 | `/\d/` finds a match exactly when one of the password's characters is an ASCII digit |
| AuthRoutes.HasSpecial | backend/src/routes/auth.ts:61 | the character class finds a match exactly when one of the password's characters is one of `!@#$%^&*` |
| AuthRoutes.RegisterError.Reply | backend/src/routes/auth.ts:37-75 | a duplicate username is answered 409; every other rule failure is answered 400 with its own message |
| AuthRoutes.RegisterFailure | backend/src/routes/auth.ts:37-75 | the rule reported is the one that fails while every earlier rule of the chain holds; nothing is reported exactly when every rule holds |
| AuthRoutes.RankOrder | backend/src/routes/auth.ts:37-75 | the order of the rules in the chain |
| AuthRoutes.AcceptedCredentials | backend/src/routes/auth.ts:47-75 | an accepted password has at least six characters, a digit and one of `!@#$%^&*`; an accepted username has at least three characters and is free |
| AuthRoutes.ShortUsernameWins | backend/src/routes/auth.ts:42-45 | a username shorter than three characters is reported whatever the password is |
| AuthRoutes.DigitReportedBeforeSpecial | backend/src/routes/auth.ts:53-66 | a password missing both a digit and a special character is reported as missing the digit |
| AuthRoutes.FindUser | backend/src/routes/auth.ts:126 | the lookup finds a user with the name exactly when one exists |
| AuthRoutes.UserTable.constructor | backend/src/db/database.ts:10-15 | the users table starts empty, with the counter at id 1 |
| AuthRoutes.UserTable.Register | backend/src/routes/auth.ts:34-91 | a failed rule leaves the table unchanged and gives its reply; otherwise exactly one user is appended, under the next id, holding the hash of the password; the reply is 201 with a token for that id and the username; ids stay increasing and usernames unique |
| AuthRoutes.UserTable.Login | backend/src/routes/auth.ts:118-144 | missing fields give 400; an unknown user gives 401; a 200 carries a token for a stored user whose hash matches the password, with that user's stored name; login reads the table and never changes it |
| AuthRoutes.UserTable.LoginSucceeds | backend/src/routes/auth.ts:126-143 | a stored user whose hash matches the password logs in: 200 with a token for that user's id and the stored username |
| AuthRoutes.UserTable.WrongPasswordLooksLikeUnknownUser | backend/src/routes/auth.ts:126-134 | a wrong password gets the same reply as an unknown username |
| AuthRoutes.SecondRegistrationConflicts | backend/src/routes/auth.ts:69-75 | registering the same username a second time is refused as taken |
| AuthRoutes.FindRegisteredUser | backend/src/routes/auth.ts:126-128 | after a registration the lookup finds the new user |
| AuthGuard.AuthHeader | frontend/src/lib/apiClient.ts:15 | the frontend's header is `Bearer ` followed by the token |
| AuthGuard.ExtractToken | backend/src/middleware/auth.ts:19 | the extracted token holds no space, follows `Bearer ` in the header, and runs to a space or to the end |
| AuthGuard.Authenticate | backend/src/middleware/auth.ts:10-29 | each request ends in exactly one outcome: "No token provided" when the header is missing or lacks the case-sensitive `Bearer ` prefix, "Invalid or expired token" when verification fails, or the next handler with the verified user id; every rejection is 401 |
| AuthGuard.HeaderRoundTrip | backend/src/middleware/auth.ts:19 | for a token without spaces, the token taken from the header the frontend builds is the token itself |
| AuthGuard.SignedTokenAuthenticates | backend/src/routes/auth.ts:84-88 | a token the backend signed passes the guard with its user id for seven days, and is refused afterwards |
| AuthGuard.EmptyBearerIsInvalid | backend/src/middleware/auth.ts:14-28 | `Bearer ` with nothing after it is an invalid token, not a missing one |
| AuthGuard.LowercaseSchemeRefused | backend/src/middleware/auth.ts:14-17 | `bearer ` in lower case is answered as if no token were given |
| TaskRoutes.MissingTitle | backend/src/routes/tasks.ts:72 | the title is refused exactly when it is missing, `null`, or made of whitespace only (the empty string included) |
| TaskRoutes.BadEnum | backend/src/db/database.ts:22-23 | the CHECK constraints refuse a status outside `todo`, `in-progress`, `done` or a priority outside `low`, `medium`, `high` |
| TaskRoutes.Coalesce | backend/src/routes/tasks.ts:124-127 | `??` takes the body's value when one is given and keeps the current value when the member is missing or `null` |
| TaskRoutes.UnlessUndefined | backend/src/routes/tasks.ts:128 | `!== undefined` keeps the current due date only when the member is missing; `null` clears it and a value replaces it |
| TaskRoutes.NewTask | backend/src/routes/tasks.ts:68-86 | a missing or blank title gives 400, an unknown status or priority 500; otherwise the row has the trimmed title, the caller as owner, the defaults `''`, `todo`, `medium` and no due date, and the clock reading as both timestamps |
| TaskRoutes.Merge | backend/src/routes/tasks.ts:122-133 | title, description, status and priority change only when the member is neither missing nor `null`; the due date changes whenever the member is present, and `null` clears it; id, owner and creation time are kept; `updated_at` is the clock reading; an unknown status or priority gives 500 |
| TaskRoutes.StatusOnlyUpdate | backend/src/routes/tasks.ts:123-133 | a body holding only a status changes the status and the timestamp and nothing else |
| TaskRoutes.NullMembers | backend/src/routes/tasks.ts:124-128 | `null` members keep every `??` field but clear the due date |
| TaskRoutes.EmptyUpdate | backend/src/routes/tasks.ts:123-133 | an empty body only refreshes the timestamp |
| TaskRoutes.MergeIdempotent | backend/src/routes/tasks.ts:123-133 | sending the same update twice gives the same row as sending it once |
| TaskRoutes.Owned | backend/src/routes/tasks.ts:31 | the caller's rows are exactly the rows with the caller's user id |
| TaskRoutes.FindOwned | backend/src/routes/tasks.ts:116 | the lookup finds a row with the id and the owner exactly when one exists |
| TaskRoutes.ReplaceRow | backend/src/routes/tasks.ts:131-133 | the row with the id is replaced and every other row stays where it was |
| TaskRoutes.RemoveRow | backend/src/routes/tasks.ts:173 | exactly the rows with the id go; the others keep their order |
| TaskRoutes.RemoveRowCount | backend/src/routes/tasks.ts:173 | with unique ids the delete removes exactly one row |
| TaskRoutes.InsertByAge | backend/src/routes/tasks.ts:31 | inserting into a newest-first list keeps it newest first and adds exactly that row |
| TaskRoutes.SortNewestFirst | backend/src/routes/tasks.ts:31 | the sort returns the same rows, newest first |
| TaskRoutes.TaskTable.constructor | backend/src/db/database.ts:17-28 | the tasks table starts empty, with the counter at id 1 |
| TaskRoutes.TaskTable.List | backend/src/routes/tasks.ts:29-33 | the listing holds exactly the caller's rows, each as often as stored, newest first |
| TaskRoutes.TaskTable.Create | backend/src/routes/tasks.ts:68-86 | a refused body leaves the table unchanged; otherwise exactly one row is appended under the next id and returned with 201 |
| TaskRoutes.TaskTable.Update | backend/src/routes/tasks.ts:110-138 | a row that is missing or owned by someone else gives 404, and an unknown status or priority gives 500, both leaving the table unchanged; otherwise only the target row is replaced by the merge, which is returned with 200 |
| TaskRoutes.TaskTable.Delete | backend/src/routes/tasks.ts:162-175 | a row that is missing or owned by someone else gives 404 and the table is unchanged; otherwise exactly that row goes, the others keep their places, and the reply is 204 |
| TaskRoutes.CrossUserIsolation | backend/src/routes/tasks.ts:116-120 | another user's task is never listed for the caller, and the caller's update and delete cannot find it |
| TaskRoutes.CreateIsolated | backend/src/routes/tasks.ts:77-81 | a create by one user leaves every other user's rows as they were |
| TaskRoutes.UpdateIsolated | backend/src/routes/tasks.ts:131-133 | an update by one user leaves every other user's rows as they were |
| TaskRoutes.DeleteIsolated | backend/src/routes/tasks.ts:173 | a delete by one user leaves every other user's rows as they were |
| DashboardPage.Filtered | frontend/src/pages/DashboardPage.tsx:56-62 | the shown tasks are an order-preserving subsequence; each matches the search and the chosen status and priority; every task that matches is shown |
| DashboardPage.NoFiltersShowAll | frontend/src/pages/DashboardPage.tsx:15 | with an empty search and both filters on `all`, every task is shown, in order |
| DashboardPage.SearchIgnoresCase | frontend/src/pages/DashboardPage.tsx:57-58 | the search ignores the case of the search text |
| DashboardPage.TighterFiltersNarrow | frontend/src/pages/DashboardPage.tsx:56-62 | tightening the filters only hides more tasks |
| DashboardPage.PickingStatusNarrows | frontend/src/pages/DashboardPage.tsx:59 | picking a status narrows what the `all` setting showed |
| DashboardPage.StatusChange | frontend/src/pages/DashboardPage.tsx:51-53 | a status change requests an update of that id whose payload holds the status only |
| DashboardPage.Dashboard.constructor | frontend/src/pages/DashboardPage.tsx:13-15 | the page starts with the modal closed, no task being edited, and no filters |
| DashboardPage.Dashboard.Visible | frontend/src/pages/DashboardPage.tsx:56-62 | a task is shown exactly when it matches the current filters |
| DashboardPage.Dashboard.Submit | frontend/src/pages/DashboardPage.tsx:38-44 | the submit updates the task being edited, under its id, and creates a task otherwise; the payload is passed on as given |
| DashboardPage.Dashboard.HandleEdit | frontend/src/pages/DashboardPage.tsx:46-49 | editing sets the task being edited and opens the modal |
| DashboardPage.Dashboard.OpenNew | frontend/src/pages/DashboardPage.tsx:72 | the new-task button clears the task being edited and opens the modal |
| DashboardPage.Dashboard.CloseModal | frontend/src/pages/DashboardPage.tsx:110 | closing the modal closes it and clears the task being edited |
| DashboardPage.Dashboard.SetFilters | frontend/src/pages/DashboardPage.tsx:71 | the filter bar replaces the filters and nothing else |
| DashboardPage.Dashboard.OnCreateSuccess | frontend/src/pages/DashboardPage.tsx:25 | a successful create closes the modal |
| DashboardPage.Dashboard.OnUpdateSuccess | frontend/src/pages/DashboardPage.tsx:30 | a successful update closes the modal and clears the task being edited |
| DashboardPage.EditThenSubmit | frontend/src/pages/DashboardPage.tsx:38-49 | editing a task and submitting updates that task; opening the modal anew and submitting creates a task |
| TaskCard.NextStatus | frontend/src/components/TaskCard.tsx:12-16 | the cycle goes todo, then in-progress, then done, then todo; it never returns the current status |
| TaskCard.CycleInverse | frontend/src/components/TaskCard.tsx:12-16 | the cycle is a bijection with the backwards cycle as its inverse |
| TaskCard.NextStatusInjective | frontend/src/components/TaskCard.tsx:12-16 | no two statuses advance to the same status |
| TaskCard.CycleReturns | frontend/src/components/TaskCard.tsx:12-16 | three clicks bring a task back to its status |
| TaskCard.StatusLabel | frontend/src/components/TaskCard.tsx:18-22 | every status has a non-empty label |
| TaskCard.LabelsDistinct | frontend/src/components/TaskCard.tsx:18-22 | the labels tell the statuses apart |
| TaskCard.StatusColor | frontend/src/components/TaskCard.tsx:30-34 | every status has a colour |
| TaskCard.PriorityColor | frontend/src/components/TaskCard.tsx:24-28 | every priority has a colour |
| TaskCard.IsOverdue | frontend/src/components/TaskCard.tsx:42-43 | a task is flagged exactly when it is not done and has a non-empty due date that lies in the past |
| TaskCard.NeverOverdue | frontend/src/components/TaskCard.tsx:42-43 | a done task, or one without a due date, is never flagged overdue, whatever the clock says |
| TaskCard.OverdueIgnoresOtherFields | frontend/src/components/TaskCard.tsx:42-43 | the flag depends on the due date and the status only |
| TaskCard.BadgeClick | frontend/src/components/TaskCard.tsx:114 | a badge click asks for the next status of the cycle for the card's task, which differs from its current status |
| Header.CountStatus | frontend/src/components/Header.tsx:13-15 | a status count never exceeds the number of tasks |
| Header.CountsPartition | frontend/src/components/Header.tsx:13-15 | the done, in-progress and todo counts add up to the number of tasks |
| Header.StatsOf | frontend/src/components/Header.tsx:11-16 | the total is the number of tasks; `done`, `inProgress` and `todo` are the numbers of tasks with status done, in-progress and todo; each count is at most the total; the three counts add up to the total |
| Header.RoundPercent | frontend/src/components/Header.tsx:105 | the nearest whole percentage, halves rounded up; it lies between 0 and 100 and is 100 when every task is done |
| Header.CompletionPercent | frontend/src/components/Header.tsx:95-105 | the read-out is only computed when tasks exist; it is the rounded share of done tasks, 100 when all are done and 0 when none is |
| Toasts.WithoutId | frontend/src/hooks/useToast.ts:17-19 | no toast with the id remains; the others stay, in order |
| Toasts.WithoutAbsentId | frontend/src/hooks/useToast.ts:18 | removing an id nobody has leaves the list unchanged |
| Toasts.WithoutIdIdempotent | frontend/src/hooks/useToast.ts:18 | removing twice is removing once |
| Toasts.AddThenRemove | frontend/src/hooks/useToast.ts:9-19 | dismissing a toast with a new id restores the list from before it was added |
| Toasts.ToastList.constructor | frontend/src/hooks/useToast.ts:6 | the list starts empty |
| Toasts.ToastList.AddToast | frontend/src/hooks/useToast.ts:9-13 | exactly one toast is appended at the end; the list grows by one |
| Toasts.ToastList.RemoveToast | frontend/src/hooks/useToast.ts:17-19 | the list loses every toast with the id and keeps the rest in order |
| TaskModal.FormFor | frontend/src/components/TaskModal.tsx:27-39 | with no task the form is the defaults: empty title and description, `todo`, `medium`, empty due date; with a task it copies the fields, and a missing due date becomes `''` |
| TaskModal.SubmitPayload | frontend/src/components/TaskModal.tsx:44 | an empty due date is sent as omitted; every other field is sent as it is |
| TaskModal.SubmitUntouchedCopy | frontend/src/components/TaskModal.tsx:28-44 | submitting an untouched copy of a task sends its fields back, an empty due date as omitted |
| TaskModal.ModalForm.constructor | frontend/src/components/TaskModal.tsx:23 | the form starts as the defaults |
| TaskModal.ModalForm.Open | frontend/src/components/TaskModal.tsx:27-39 | opening sets the form to the copy of the task or to the defaults |
| TaskModal.ModalForm.SetTitle | frontend/src/components/TaskModal.tsx:87 | the title input changes the title only |
| TaskModal.ModalForm.SetDescription | frontend/src/components/TaskModal.tsx:100 | the description input changes the description only |
| TaskModal.ModalForm.SetStatus | frontend/src/components/TaskModal.tsx:110 | the status select changes the status only |
| TaskModal.ModalForm.SetPriority | frontend/src/components/TaskModal.tsx:122 | the priority select changes the priority only |
| TaskModal.ModalForm.SetDueDate | frontend/src/components/TaskModal.tsx:137 | the date input changes the due date only |
| TaskModal.ModalForm.Submit | frontend/src/components/TaskModal.tsx:42-45 | the payload carries the form's title, description, status and priority; it omits the due date exactly when it is empty and otherwise carries the form's due date |
| Scenarios.Member | frontend/src/services/taskService.ts:14-23 | a payload member that is `undefined` is left out of the JSON body; any other is sent as given |
| Scenarios.ToCreateBody | frontend/src/services/taskService.ts:14-17 | the create body the backend reads carries the payload's title, description and due date, and its status and priority by name; a member the payload omits is omitted from the body |
| Scenarios.ToUpdateBody | frontend/src/services/taskService.ts:20-23 | the update body never holds `null`; title, description and due date carry the payload's members, and status and priority their names; a member the payload omits is absent from the body |
| Scenarios.ModalCannotClearDueDate | frontend/src/components/TaskModal.tsx:44 | a due date cleared in the modal is sent as omitted, so the update keeps the stored date (`backend/src/routes/tasks.ts:128`) |
| Scenarios.UntouchedEditKeepsTask | frontend/src/components/TaskModal.tsx:28-44 | submitting the modal for a task without changes leaves the stored task as it was apart from `updated_at` |
| Scenarios.BadgeClickAdvancesStatus | frontend/src/components/TaskCard.tsx:114 | a badge click reaches the server as an update that advances the status and changes no other column |
| Scenarios.NewTaskFromDefaults | frontend/src/components/TaskModal.tsx:14-20 | a new task submitted with only a title is stored with the defaults the modal shows |
| Scenarios.RegisterThenLogin | backend/src/routes/auth.ts:78-143 | right after a successful registration the same credentials log in with 200 and a token for the new id, which passes the guard for seven days after the login |
| Scenarios.AliceAccepted | backend/src/routes/auth.ts:37-75 | the credentials `alice1` / `Secret1!` pass every rule on an empty table |
| Scenarios.TitleOnlyCreate | backend/src/routes/tasks.ts:70-81 | a create body holding only a non-blank title gets every default |
| Scenarios.SessionTaskCreated | backend/src/routes/tasks.ts:70-81 | the title around which the session sends spaces is stored trimmed |
| Scenarios.WholeSession | backend/src/routes/tasks.ts:29-175 | on fresh tables: the registration answers 201 with a token, the token passes the guard as user 1, the create answers 201 with the trimmed task, the list shows it, the delete answers 204, and the list is then empty |

## Left out

- bcrypt and the JWT library are not implemented. They are parameters, and
  `Crypto.Sound` states what the model assumes of them: a password matches
  every hash of itself; a token verifies to its subject for seven days after
  it is signed; a token holds no space; an empty token is refused.
  Signatures, the secret and the salt draw are not modelled. The salt is an
  input.
- The SQLite layer is replaced by sequences of rows. The AUTOINCREMENT
  counter is a field, and `datetime('now')` is a clock parameter. Timestamps
  are integers rather than SQLite date strings. The UNIQUE username and the
  CHECK enumerations are kept: the first as a class invariant, the second as
  datatypes.
- TaskRoutes.TaskTable.List: `ORDER BY created_at DESC` leaves the order of
  rows with equal timestamps to SQLite. The model sorts them one fixed way,
  and the contract promises only "newest first" and "the same rows".
- TaskRoutes.CreateBody: an explicit `null` for description, status or
  priority is not modelled. None of these is a default trigger, and each
  would store SQL NULL where the task type expects a string.
- Values of the wrong JSON type, such as a number as title, are not
  modelled. Body members are strings, missing, or `null`.
- The `:id` route parameter is taken after `Number(...)`, as an integer. An
  id that fails to parse matches no row, just like any absent id.
- Express wiring, CORS, JSON parsing and the swagger text are not modelled.
  So are the backend entry file and the global error handler, apart from its
  500 reply, which a CHECK failure produces.
- The frontend's axios calls, async state, `localStorage` session and
  redirect are not modelled. react-query's refetch after a mutation is not
  modelled either.
- JSX rendering, animation, styling, the filter bar markup and the
  confirmation dialog are not modelled.
- The toast auto-dismiss timer is not modelled. The toast id from
  `Date.now()` is an input, so duplicate ids are allowed.
- TaskCard.IsOverdue: `isPast(parseISO(d))` is a parameter. date-fns
  parsing and the clock are not modelled.
- Header.CompletionPercent: it is computed on exact numbers, where the
  source uses floating point. At exact halves, floating-point rounding may
  differ by one. The progress bar's width uses the same ratio and is not
  modelled separately.
- Text.ToLower: it changes ASCII letters only, where `toLowerCase` follows
  Unicode.
- String lengths count characters, where JavaScript counts UTF-16 code
  units. The two agree outside the supplementary planes.
- Requests to the server run one at a time, each as one atomic step.
  Concurrency between them is not modelled.
