# GESTION-CONGE leave management, modelled in Dafny

GESTION-CONGE is a small leave-management application. An Express backend
keeps two MySQL tables, `users` and `leave_requests`, behind the routes of
`gestion_conge_back/routes/leaves.js` and `gestion_conge_back/routes/users.js`.
A React client keeps its own copies of those tables in two contexts
(`LeaveContext`, `EmployeeProvider`). Its components compute the figures
and guards shown to an employee or a manager.

This project models that core:

- `Types` (`types.dfy`): the declared records `User` and `LeaveRequest`
  and their three enumerations, each with a name/parse pair proved inverse.
- `LeavesRoute` (`leaves_route.dfy`): the request table as a class
  `LeaveTable`. It holds a `map<int, LeaveRequest>` and the next
  auto-increment id. Its methods are the list, create, status-update and
  delete handlers.
- `KeyedTable` (`keyed_table.dfy`): a `SELECT` over a table keyed by an
  auto-increment id, shared by both route modules.
- `UsersRoute` (`users_route.dfy`): the user table as a class `UserTable`,
  with login, profile update, adding an employee, and the two employee
  lookups.
- `LeaveContext` (`leave_context.dfy`): the client's `requests` list as a
  class `LeaveProvider`, updated by append, map-by-id and filter-by-id.
- `EmployeeContext` (`employee_provider.dfy`): the client's `employees`
  list, appended on a successful add, and the `getEmployeeById` selection.
- `LeaveRequestForm` (`leave_request_form.dfy`): the inclusive day count,
  the submit guard, the browser's constraints on the fields, and the
  submit handler, which resets the form.
- `LeaveRequestsList` (`leave_requests_list.dfy`): which requests a viewer
  sees, the labels and badges, the action guards, and the two button
  handlers.
- `Dashboard` (`dashboard.dfy`): the viewer's own, pending and approved
  requests, the total balance, the days used and the recent-activity
  excerpt.
- `ListAddEmp` (`list_add_emp.dfy`): the e-mail check, proved equal to the
  language of its regular expression; the validation order of the
  add-employee dialog; and the avatar initials, with split/join proved
  inverse.
- `Flows` (`flows.dfy`): how the two sides line up. It covers what the
  client posts, what it makes of each server answer, and which agreements
  between its lists and the server tables survive each exchange.
- `JsArray` (`jsarray.dfy`): JavaScript's `filter`, `find`, a left-folding
  `reduce` sum and `slice(0, n)`, with the lemmas the other modules use.

Conventions:

- Ids are `int`, because both tables use auto-increment integer keys.
- `status` and `leave_type` stay strings inside the rows, because the
  backend stores whatever string it is sent.
- A date is a string. Its day number comes from a function parameter
  `dayOf`, which stands for the host date library.
- Each HTTP exchange, the welcome and approval mails, and the generated
  password are parameters: an answer datatype, `mailOk`, and a `password`
  of length 10.
- `SELECT` without `ORDER BY` is modelled as primary-key order.
- A JavaScript property that is absent or `undefined` is `None`.

Several behaviours of the source are stated as lemmas rather than
corrected:

- A decided request can be decided again.
- A `rejected` update is written but never answered. The client's `await`
  never resumes, so its list keeps the old status until the next poll
  replaces the list.
- `calculateDays` counts an inverted range, and the server accepts one.
  Only the form's own date constraints keep the browser from submitting
  one.
- The client's local decision writes the undeclared `managerComment` and
  `managerId`, so the declared `manager_comment` shown in the list keeps
  its old value.
- A welcome mail that fails answers 500, but the employee row stays
  stored.
- `addRequest` and `addEmployee` catch every failure. So `handleSubmit`
  shows its success toast and resets the form, and `handleAddEmployee`
  resets its form and closes the dialog, whatever the server answered.
- `updateRequestStatus` catches a failed call and never looks at the
  reply's status. So `handleStatusUpdate` shows its success toast as soon
  as any reply has arrived, even an error reply, or the call has failed.
  For a rejection no reply ever comes, so no toast shows.
- `deleteRequest` does rethrow. So `handleDeleteRequest` toasts the
  server's refusal message instead of success.

The client code comes from two directories, `gestion_conge_front` and
`gestion_conge_frent`. The form and the dashboard are taken from the
first. The contexts, the list, the employee page and the types are taken
from the second. The form's submit handler is modelled against the
`LeaveContext` of `gestion_conge_frent`. The `gestion_conge_front` copy of
`LeaveContext` is not part of this model.

## Model

| member | source | states |
|---|---|---|
| Types.ParseRole | gestion_conge_frent/src/types/index.ts:7 | the two role spellings parse to their role and nothing else parses; inverse of `RoleName` |
| Types.ParseLeaveType | gestion_conge_frent/src/types/index.ts:19 | the five leave categories parse back from their spellings and nothing else parses |
| Types.ParseStatus | gestion_conge_frent/src/types/index.ts:23 | `pending`, `approved`, `rejected` parse back to their status and nothing else parses |
| Types.StatusNamesDistinct | gestion_conge_frent/src/types/index.ts:23 | two statuses have the same spelling exactly when they are equal |
| LeavesRoute.Decide | gestion_conge_back/routes/leaves.js:82-88 | the status update keeps the table's keys and every row other than the updated one |
| LeavesRoute.LeaveTable.constructor | gestion_conge_back/routes/leaves.js:57-65 | an empty table whose first auto-increment id is 1 |
| KeyedTable.SelectWhere | gestion_conge_back/routes/leaves.js:15 | a `SELECT` returns exactly the stored rows satisfying the condition, each once, in increasing key order |
| KeyedTable.ListingSize | gestion_conge_back/routes/leaves.js:15-19 | a listing of every row without repeats has exactly as many entries as the table has rows |
| LeavesRoute.LeaveTable.ListAll | gestion_conge_back/routes/leaves.js:14-21 | list-all returns every row once: as many entries as rows, each a stored row |
| LeavesRoute.LeaveTable.ListByEmployee | gestion_conge_back/routes/leaves.js:25-39 | exactly the rows whose `employee_id` is the parameter, each once |
| LeavesRoute.LeaveTable.Create | gestion_conge_back/routes/leaves.js:42-75 | inserts one row under a fresh id and changes no other row; the row is the body's fields, status `pending` and the server's day |
| LeavesRoute.LeaveTable.UpdateStatus | gestion_conge_back/routes/leaves.js:78-118 | the table becomes `Decide` of the old table, with no guard on the current status; the answer is `StatusOutcome` of the re-read table |
| LeavesRoute.LeaveTable.Delete | gestion_conge_back/routes/leaves.js:121-151 | 404 for an unknown id and 400 for a non-pending row, both leaving the table unchanged; otherwise removes that row |
| LeavesRoute.StatusOutcome | gestion_conge_back/routes/leaves.js:90-116 | the update answers with a mail exactly when the row exists, the status is `approved` and the mail went out, addressed to the row's employee with its day count; it gives no answer exactly when the row exists and the status is anything else |
| LeavesRoute.DeleteOutcome | gestion_conge_back/routes/leaves.js:125-139 | delete is allowed exactly for an existing pending row; 404 exactly when the id is unknown |
| LeavesRoute.CreateIgnoresClientStatus | gestion_conge_back/routes/leaves.js:43-55 | any status or applied date the client sends is ignored: the row is `pending` with the server's day and keeps the body's `days` |
| LeavesRoute.DecideOverwritesDecisionFieldsOnly | gestion_conge_back/routes/leaves.js:82-88 | the update writes exactly status, comment and manager id of that row, and leaves every other field as it was |
| LeavesRoute.ReDecideLastWriteWins | gestion_conge_back/routes/leaves.js:82-88 | deciding twice is the same as deciding the second way: a decided request can be re-decided |
| LeavesRoute.ApprovalMailsEmployee | gestion_conge_back/routes/leaves.js:90-116 | an approval of a known row answers with a mail to the row's employee that carries the new comment; a failed mail answers 500 after the write |
| LeavesRoute.RejectionIsNotAnswered | gestion_conge_back/routes/leaves.js:109-112 | a rejection of a known row is written and never answered |
| LeavesRoute.UnknownIdUpdateFails | gestion_conge_back/routes/leaves.js:88-90 | an update of an unknown id changes no row and answers 500, whatever the new status |
| LeavesRoute.DecideWellTyped | gestion_conge_back/routes/leaves.js:80-88 | the updated row has a declared status exactly when the string sent is one: nothing is validated |
| LeavesRoute.DeleteRemovesExactlyOne | gestion_conge_back/routes/leaves.js:125-148 | delete succeeds iff the row exists and is pending, 404 iff it does not exist; a success removes exactly that one key |
| LeavesRoute.DecidedCannotBeDeleted | gestion_conge_back/routes/leaves.js:135-139 | after a decision other than `pending` the request can no longer be deleted |
| LeavesRoute.CreatedCanBeDeleted | gestion_conge_back/routes/leaves.js:54-55 | a freshly created request can be deleted |
| UsersRoute.ApplyProfile | gestion_conge_back/routes/users.js:41-49 | the profile update never changes a user's id or role |
| UsersRoute.UserTable.constructor | gestion_conge_back/routes/users.js:85-92 | an empty user table whose first auto-increment id is 1 |
| UsersRoute.UserTable.Login | gestion_conge_back/routes/users.js:9-27 | 401 `Email introuvable` iff no row has the email; otherwise the first such row logs in when its password is equal, and 401 `Mot de passe incorrect` otherwise |
| UsersRoute.UserTable.UpdateProfile | gestion_conge_back/routes/users.js:29-63 | overwrites the seven editable columns of that row only, and answers the reloaded row (nothing for an unknown id) |
| UsersRoute.UserTable.AddEmployee | gestion_conge_back/routes/users.js:65-128 | inserts one `employee` row under a fresh id; the reply is 201 with the id, or 500 when the mail fails, with the row inserted either way |
| UsersRoute.UserTable.ListEmployees | gestion_conge_back/routes/users.js:132-140 | exactly the rows whose role is `employee`, each once |
| UsersRoute.UserTable.EmployeeById | gestion_conge_back/routes/users.js:142-151 | at most one row; empty exactly when the id is unknown or is a manager's |
| UsersRoute.FirstWithEmailUnique | gestion_conge_back/routes/users.js:20 | only one row can be the first with a given email, so login picks a definite row |
| UsersRoute.ProfileOverwritesAll | gestion_conge_back/routes/users.js:41-49 | the new row depends on the old one only through id and role |
| UsersRoute.ProfileThenLogin | gestion_conge_back/routes/users.js:9-25 | after a profile update, the new email and password log the user in when no smaller key has that email |
| UsersRoute.NewEmployeeIsEmployee | gestion_conge_back/routes/users.js:70-92 | an added user has role `employee`, a 10-character password, and 0 for each balance left out |
| LeaveContext.MarkDecided | gestion_conge_frent/src/contexts/LeaveContext.tsx:64-68 | the local decision keeps length and order, changes only elements with that id, and gives them the new status and the camelCase decision properties |
| LeaveContext.LeaveProvider.constructor | gestion_conge_frent/src/contexts/LeaveContext.tsx:15 | the list starts empty |
| LeaveContext.LeaveProvider.AddRequest | gestion_conge_frent/src/contexts/LeaveContext.tsx:36-51 | on success appends one pending element with the server's id; on any failure the list is unchanged and nothing is thrown |
| LeaveContext.LeaveProvider.UpdateRequestStatus | gestion_conge_frent/src/contexts/LeaveContext.tsx:53-72 | marks the elements once any reply has come, even an error reply; a failed or unanswered call leaves the list |
| LeaveContext.LeaveProvider.DeleteRequest | gestion_conge_frent/src/contexts/LeaveContext.tsx:74-90 | an ok reply drops every element with that id; otherwise the list is unchanged and the server's message (or the fallback) is thrown |
| LeaveContext.AfterStatusUpdate | gestion_conge_frent/src/contexts/LeaveContext.tsx:57-72 | once any reply has come, the elements with that id take the new status and every other element stays; a failed or unanswered call leaves the list as it was |
| LeaveContext.DeleteError | gestion_conge_frent/src/contexts/LeaveContext.tsx:76-88 | nothing is thrown exactly when an ok reply came; a refusal with a non-empty server message throws that message |
| LeaveContext.AppendKeepsPrefix | gestion_conge_frent/src/contexts/LeaveContext.tsx:47 | the append adds one pending element at the end with the server's id and the client's day in `appliedDate`, and keeps the earlier elements |
| LeaveContext.DecisionLeavesDeclaredManagerFields | gestion_conge_frent/src/contexts/LeaveContext.tsx:66 | the local decision leaves the declared `manager_comment` and `manager_id` of every element unchanged |
| LeaveContext.WithoutIdRemovesOnlyThatId | gestion_conge_frent/src/contexts/LeaveContext.tsx:85 | the local delete removes every element with that id and keeps every other element as often as it occurred |
| LeaveContext.WithoutIdAppend | gestion_conge_frent/src/contexts/LeaveContext.tsx:85 | the local delete keeps the survivors' order: it splits over any cut of the list |
| LeaveRequestForm.CalculateDays | gestion_conge_front/src/components/LeaveRequestForm.tsx:31-37 | the count is 0 exactly when a date is empty |
| LeaveRequestForm.RequestForm.constructor | gestion_conge_front/src/components/LeaveRequestForm.tsx:16-21 | the form starts with four empty fields |
| LeaveRequestForm.RequestForm.HandleSubmit | gestion_conge_front/src/components/LeaveRequestForm.tsx:39-77 | without a user nothing happens; otherwise the draft is added, the toast announces the day count and the form is reset, whatever the server answered |
| LeaveRequestForm.CalculateDaysCountsDays | gestion_conge_front/src/components/LeaveRequestForm.tsx:35-36 | with both dates present the count is the number of calendar days between them, both included, and at least 1 |
| LeaveRequestForm.CalculateDaysSymmetric | gestion_conge_front/src/components/LeaveRequestForm.tsx:35 | swapping the two dates gives the same count |
| LeaveRequestForm.CalculateDaysSameDay | gestion_conge_front/src/components/LeaveRequestForm.tsx:36 | the same start and end date counts one day |
| LeaveRequestForm.CalculateDaysInverted | gestion_conge_front/src/components/LeaveRequestForm.tsx:35-36 | `calculateDays` accepts an end before the start and counts at least 2 days |
| LeaveRequestForm.SubmitDisabled | gestion_conge_front/src/components/LeaveRequestForm.tsx:175 | the button is disabled while any of the four fields is empty; `EnabledSubmitHasDays` shows an enabled form sends at least one day |
| LeaveRequestForm.MeetsConstraints | gestion_conge_front/src/components/LeaveRequestForm.tsx:137-153 | the browser submits only with both dates and the reason filled, a start not before today and an end not before the start; `ConstrainedRangeIsOrdered` draws the consequences |
| LeaveRequestForm.ConstrainedRangeIsOrdered | gestion_conge_front/src/components/LeaveRequestForm.tsx:137-153 | a form that passes the browser's constraints starts today or later and does not end before it starts, so its count is end minus start plus one |
| LeaveRequestForm.RequestForm.Submit | gestion_conge_front/src/components/LeaveRequestForm.tsx:101 | a disabled button or a failed constraint changes nothing; otherwise `handleSubmit` runs on an ordered range starting today or later, and the toast counts end minus start plus one days |
| LeaveRequestForm.EnabledSubmitHasDays | gestion_conge_front/src/components/LeaveRequestForm.tsx:175 | whenever submit is enabled, the request carries at least one day |
| LeaveRequestForm.DraftCarriesUser | gestion_conge_front/src/components/LeaveRequestForm.tsx:44-56 | the request carries the user's id, name and email, the form's fields, the computed days and an empty `applied_date` |
| LeaveRequestsList.DisplayRequests | gestion_conge_frent/src/components/LeaveRequestsList.tsx:21-23 | a manager sees the whole list; an employee sees exactly the requests with their id |
| LeaveRequestsList.LeaveTypeLabel | gestion_conge_frent/src/components/LeaveRequestsList.tsx:89-98 | a known category shows its label; any other string is shown unchanged |
| LeaveRequestsList.StatusBadge | gestion_conge_frent/src/components/LeaveRequestsList.tsx:76-87 | a badge exactly for the three declared statuses, the one of that status |
| LeaveRequestsList.RequestsListView.constructor | gestion_conge_frent/src/components/LeaveRequestsList.tsx:16-17 | no comment typed and nothing in progress |
| LeaveRequestsList.RequestsListView.HandleStatusUpdate | gestion_conge_frent/src/components/LeaveRequestsList.tsx:25-57 | an id not in the whole list fails before any call; otherwise the success toast shows and the comment clears once the context returns, whatever the server answered; an unanswered call leaves the handler suspended |
| LeaveRequestsList.RequestsListView.HandleDeleteRequest | gestion_conge_frent/src/components/LeaveRequestsList.tsx:108-122 | a successful delete toasts success; otherwise the list is unchanged and the thrown message (or the fallback) is toasted |
| LeaveRequestsList.DisplayRequestsSplits | gestion_conge_frent/src/components/LeaveRequestsList.tsx:21-23 | the employee's view keeps the original order: it splits over any cut of the list |
| LeaveRequestsList.CanDecide | gestion_conge_frent/src/components/LeaveRequestsList.tsx:277 | approve and reject are offered to a manager on a pending request; `ActionsExclusive` shows they never come with a PDF button |
| LeaveRequestsList.CanDelete | gestion_conge_frent/src/components/LeaveRequestsList.tsx:301-303 | the delete guard as written; `CanDeleteIsOwnPending` shows it is the viewer's own pending request whatever the role |
| LeaveRequestsList.CanDownloadPdf | gestion_conge_frent/src/components/LeaveRequestsList.tsx:265 | the PDF button is offered exactly on approved requests; `ActionsExclusive` shows it never comes with a decision or a delete |
| LeaveRequestsList.ShowsManagerComment | gestion_conge_frent/src/components/LeaveRequestsList.tsx:195 | the comment panel shows on a decided request with a non-empty declared comment; `LocalDecisionShowsOldComment` shows a local decision does not change it |
| LeaveRequestsList.CanDeleteIsOwnPending | gestion_conge_frent/src/components/LeaveRequestsList.tsx:301-303 | delete is offered iff the request is pending and the viewer's own, whatever the role |
| LeaveRequestsList.ActionsExclusive | gestion_conge_frent/src/components/LeaveRequestsList.tsx:265-303 | no request offers both a decision and a PDF, nor a PDF and a delete |
| LeaveRequestsList.LabelsDistinct | gestion_conge_frent/src/components/LeaveRequestsList.tsx:89-98 | distinct categories get distinct labels, and a known category never shows its raw name |
| LeaveRequestsList.LocalDecisionShowsOldComment | gestion_conge_frent/src/components/LeaveRequestsList.tsx:195 | after a local decision the comment panel shows iff the old declared comment is non-empty |
| Dashboard.UserRequests | gestion_conge_front/src/components/Dashboard.tsx:15-17 | exactly the requests with the viewer's id; none when the list is not an array |
| Dashboard.PendingRequests | gestion_conge_front/src/components/Dashboard.tsx:19-21 | only pending requests; for a manager every pending one; for an employee only their own |
| Dashboard.RecentActivity | gestion_conge_front/src/components/Dashboard.tsx:138 | the first three pending requests, or all of them when there are fewer |
| Dashboard.ApprovedRequests | gestion_conge_front/src/components/Dashboard.tsx:24 | exactly the viewer's own approved requests from the list |
| Dashboard.TotalLeaveDays | gestion_conge_front/src/components/Dashboard.tsx:25 | the sum of the three balances; `MissingBalanceCountsZero` shows a missing one counts 0 |
| Dashboard.DaysUsed | gestion_conge_front/src/components/Dashboard.tsx:52 | the days of the approved requests, summed; `DaysUsedSplits` and `DaysUsedBoundsEach` state how it adds up and its bounds |
| Dashboard.EmployeePendingIsOwnPending | gestion_conge_front/src/components/Dashboard.tsx:19-21 | for an employee the pending list is exactly the list's own pending requests, in order |
| Dashboard.ApprovedIgnoresRole | gestion_conge_front/src/components/Dashboard.tsx:24 | the approved list is the viewer's own approved requests, the same for a manager as for an employee |
| Dashboard.DaysUsedSplits | gestion_conge_front/src/components/Dashboard.tsx:52 | days used adds up over any cut of the request list |
| Dashboard.DaysUsedBoundsEach | gestion_conge_front/src/components/Dashboard.tsx:52 | with non-negative day counts, days used is non-negative and at least each approved request's days |
| Dashboard.NotAnArrayShowsNothing | gestion_conge_front/src/components/Dashboard.tsx:15-21 | when the list is not an array every list is empty and no day is used |
| Dashboard.MissingBalanceCountsZero | gestion_conge_front/src/components/Dashboard.tsx:25 | the total balance counts a missing balance as 0 and a present one with its value |
| EmployeeContext.GetEmployeeById | gestion_conge_frent/src/contexts/EmployeeProvider.tsx:63-73 | `null` iff the call failed or was refused; `undefined` iff the array was empty; otherwise its first element |
| EmployeeContext.EmployeeProvider.constructor | gestion_conge_frent/src/contexts/EmployeeProvider.tsx:22 | the list starts empty |
| EmployeeContext.EmployeeProvider.AddEmployee | gestion_conge_frent/src/contexts/EmployeeProvider.tsx:46-61 | on success appends the submitted fields with the server's id; on failure the list is unchanged and nothing is thrown |
| EmployeeContext.AddedEmployeeCarriesFields | gestion_conge_frent/src/contexts/EmployeeProvider.tsx:57 | the one new element is last, carries the server's id and exactly the submitted fields, and the earlier elements stay |
| ListAddEmp.IsValidEmail | gestion_conge_frent/src/components/ListAddEmp.tsx:20-22 | an accepted email has at least five characters; `IsValidEmailMatchesPattern` proves the check equal to the regular expression |
| ListAddEmp.IsValidEmailMatchesPattern | gestion_conge_frent/src/components/ListAddEmp.tsx:20-22 | the check (no whitespace, one `@` with something before it, an inner `.` after it) accepts exactly the strings of `^[^\s@]+@[^\s@]+\.[^\s@]+$` |
| ListAddEmp.CheckForm | gestion_conge_frent/src/components/ListAddEmp.tsx:37-53 | missing fields iff name, email or department is empty, checked before the email; invalid email iff all present and the email fails |
| ListAddEmp.AddEmployeeDialog.constructor | gestion_conge_frent/src/components/ListAddEmp.tsx:17-32 | the dialog is closed and the form blank |
| ListAddEmp.AddEmployeeDialog.HandleAddEmployee | gestion_conge_frent/src/components/ListAddEmp.tsx:34-80 | a rejected form changes nothing; an accepted one is passed unchanged to `addEmployee`, then the form is reset and the dialog closed, whatever the server answered |
| ListAddEmp.MalformedEmailNeverAdded | gestion_conge_frent/src/components/ListAddEmp.tsx:20-22 | an email with whitespace or without `@` is never accepted |
| ListAddEmp.SplitOn | gestion_conge_frent/src/components/ListAddEmp.tsx:154 | `split` always yields at least one piece |
| ListAddEmp.JoinSplit | gestion_conge_frent/src/components/ListAddEmp.tsx:154 | joining the pieces of a split with the separator gives the name back |
| ListAddEmp.SplitJoin | gestion_conge_frent/src/components/ListAddEmp.tsx:154 | splitting a join of separator-free pieces gives the pieces back |
| ListAddEmp.SplitPiecesHaveNoSep | gestion_conge_frent/src/components/ListAddEmp.tsx:154 | no piece of a split contains the separator |
| ListAddEmp.SplitAppendSep | gestion_conge_frent/src/components/ListAddEmp.tsx:154 | splitting at a separator between two strings splits each of them |
| ListAddEmp.Initials | gestion_conge_frent/src/components/ListAddEmp.tsx:154 | one initial per non-empty space-separated word, none of them a lower-case ASCII letter |
| ListAddEmp.InitialsSplit | gestion_conge_frent/src/components/ListAddEmp.tsx:154 | the initials of two space-separated parts are the initials of each, in order |
| ListAddEmp.InitialsOfWord | gestion_conge_frent/src/components/ListAddEmp.tsx:154 | a single word's initial is its first character upper-cased; an empty name has none |
| ListAddEmp.FirstCharsCount | gestion_conge_frent/src/components/ListAddEmp.tsx:154 | one initial per non-empty word: an empty word's `undefined` joins as nothing |
| Flows.SubmitStoresPendingRow | gestion_conge_back/routes/leaves.js:42-65 | a submitted form is stored pending for the current user with the form's day count and the server's day; the client's copy differs only in its empty declared `applied_date` |
| Flows.RejectionNeverReachesClient | gestion_conge_back/routes/leaves.js:109-112 | a rejection is stored on the server while the client's list stays as it was |
| Flows.ApprovalReachesClient | gestion_conge_frent/src/contexts/LeaveContext.tsx:57-68 | an approval reaches the client's list even when the mail fails; the element then equals the server row except the declared manager fields |
| Flows.DeleteRefusalShowsServerMessage | gestion_conge_frent/src/contexts/LeaveContext.tsx:80-83 | the client throws iff the server refused, with the server's 404 or 400 message |
| Flows.DeleteKeepsMirror | gestion_conge_back/routes/leaves.js:121-151 | if every client element is the server's row before a delete, that still holds after it, whichever way the server decides |
| Flows.OfferedDeleteSucceeds | gestion_conge_frent/src/components/LeaveRequestsList.tsx:301-303 | a delete button shown on a request that matches the server row always leads to a successful delete |
| Flows.AddedEmployeeAgrees | gestion_conge_back/routes/users.js:86-92 | the stored employee row and the client's new element agree on id, name, email, department and balances; only a 201 reaches the client's list |
| Flows.LookupAgreesWithTable | gestion_conge_frent/src/contexts/EmployeeProvider.tsx:67-68 | `getEmployeeById` finds the stored row exactly for an employee's id; a manager's or unknown id resolves to `undefined`, not `null` |

## Left out

- Outbound mail (nodemailer) is not modelled. The approval mail is a value, and whether a mail went out is the parameter `mailOk`. The message text and its date formatting are not modelled.
- Storage and server wiring are not modelled: the SQL driver, Express routing and CORS. Tables are maps. The 500 answers for a failing SQL query are not modelled, because the database is taken never to fail.
- `SELECT` row order is taken as primary-key order, because MySQL gives no order without `ORDER BY`.
- UsersRoute.UserTable.Login: e-mail comparison is exact string equality. MySQL's default collation is case- and trailing-space-insensitive, which this model does not capture.
- UsersRoute.UserTable.UpdateProfile: only the three balances may be absent from the body (written as NULL). The other four columns would be written as NULL too when absent; that case is not modelled.
- Password generation is a library call, so the password is a parameter of length 10.
- Polling is not modelled. The one-second re-fetch timers replace the client lists wholesale, and they are timer and network plumbing.
- PDF generation is not modelled: it is layout over a library.
- LeaveRequestForm.MeetsConstraints: the browser's comparison of date values is modelled through `dayOf`. The start field's `min` is computed from the UTC clock at render time; it is taken to be the same `today` the request is stamped with.
- Date parsing and locale formatting are not modelled. Dates are strings, and the day number comes from the parameter `dayOf`. `calculateDays` works on millisecond floats with `Math.ceil`, which the model replaces with whole day numbers.
- Ids are `int`, while the declared types say `string`. The strict comparisons in the client are modelled as equality of those ints.
- The form balances in the add-employee dialog come from `+e.target.value`. NaN and fractional values are not modelled: balances are integers.
- LeaveRequestsList.LeaveTypeLabel: keys inherited from `Object.prototype` (such as `constructor`) are not modelled; any other string is shown unchanged.
- ListAddEmp.Initials: `toUpperCase` is modelled for ASCII letters only. Other characters are kept unchanged. `n[0]` is modelled as the first character of the word, while JavaScript takes the first UTF-16 code unit: for a word starting with a character outside the Basic Multilingual Plane (an emoji, say) the source shows half a surrogate pair, and the model the whole character.
- Extra JSON properties are not modelled. The server sends whole `users` rows (with the password) where the client expects `Employee`, and the client reads them as opaque values.
- The `isProcessing` flag is modelled as state, but not as a guard against concurrent clicks. Rendering, toasts as UI and React scheduling are left out.
- The logged-in user comes from `localStorage` through `JSON.parse`. It is a parameter (`managerId`, `user`).
- The UI-only files are not part of this model: Layout.tsx, Index.tsx, EditProfil.tsx, AuthContext.tsx and pdfGenerator.ts.
