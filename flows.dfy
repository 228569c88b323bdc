/** How the client and the server views line up: what the client posts
    for a submitted form, what it makes of each server answer, and which
    agreements between its lists and the server's tables survive each
    exchange. */
module Flows {
  import opened Types
  import opened LeavesRoute
  import opened UsersRoute
  import opened LeaveContext
  import opened LeaveRequestForm
  import opened LeaveRequestsList
  import opened EmployeeContext

  // ---------------------------------------------------------------------
  // Leave requests.

  /** `JSON.stringify(request)` of `addRequest`, as the create route reads
      it: the draft's fields, no `status`, and its `applied_date`. */
  function PostBody(d: RequestDraft): CreateBody {
    CreateBody(d.employeeId, d.employeeMail, d.employeeName, d.leaveType, d.startDate, d.endDate,
               d.reason, d.days, None, Some(d.appliedDate))
  }

  /** A submitted form is stored as a pending row of the current user with
      the form's day count and the server's day, while the client's copy
      keeps an empty declared `applied_date` and puts its own day in the
      undeclared `appliedDate`. */
  lemma SubmitStoresPendingRow(user: User, f: FormData, dayOf: string -> int, id: int,
                               serverToday: string, clientToday: string)
    ensures var stored := NewRow(id, PostBody(DraftFor(user, f, dayOf)), serverToday);
      && IsPending(stored) && stored.employeeId == user.id && stored.employeeMail == user.email
      && stored.days == CalculateDays(f.startDate, f.endDate, dayOf) && stored.appliedDate == serverToday
    ensures var stored := NewRow(id, PostBody(DraftFor(user, f, dayOf)), serverToday);
            var local := Appended(DraftFor(user, f, dayOf), id, clientToday);
      && local.row == stored.(appliedDate := "")
      && local.appliedDateProp == Some(clientToday)
  {
  }

  /** What `updateRequestStatus` observes of a `PUT /:id/status` answer. */
  function ClientSeesStatus(reply: StatusReply): PutAnswer {
    match reply
    case MailSent(_) => PutAnswered(true)
    case ServerError => PutAnswered(false)
    case NoResponse => PutUnanswered
  }

  /** Every element of the client's list is a server row as it stands. */
  ghost predicate Mirrors(s: seq<ClientRequest>, rows: map<int, LeaveRequest>) {
    forall i :: 0 <= i < |s| ==> s[i].row.id in rows && rows[s[i].row.id] == s[i].row
  }

  /** A rejection is stored but never answered, so the client's list stays
      as it was and still shows the request as before, until the next poll
      replaces the list. */
  lemma RejectionNeverReachesClient(s: seq<ClientRequest>, rows: map<int, LeaveRequest>, id: int,
                                    comment: Option<string>, managerId: int, mailOk: bool)
    requires id in rows
    ensures var after := Decide(rows, id, StatusName(Rejected), comment, Some(managerId));
      && after[id].status == StatusName(Rejected)
      && AfterStatusUpdate(s, id, Rejected, comment, managerId,
                           ClientSeesStatus(StatusOutcome(after, id, StatusName(Rejected), mailOk))) == s
  {
  }

  /** An approval reaches the client whether or not the mail went out; the
      client's element then agrees with the server row except for the
      declared manager fields, which keep their old values locally. */
  lemma ApprovalReachesClient(s: seq<ClientRequest>, rows: map<int, LeaveRequest>, id: int,
                              comment: Option<string>, managerId: int, mailOk: bool, i: int)
    requires id in rows && Mirrors(s, rows) && 0 <= i < |s| && s[i].row.id == id
    ensures var after := Decide(rows, id, StatusName(Approved), comment, Some(managerId));
            var s' := AfterStatusUpdate(s, id, Approved, comment, managerId,
                                        ClientSeesStatus(StatusOutcome(after, id, StatusName(Approved), mailOk)));
      && s' == MarkDecided(s, id, Approved, comment, managerId)
      && s'[i].row == after[id].(managerComment := rows[id].managerComment, managerId := rows[id].managerId)
      && s'[i].managerCommentProp == comment && s'[i].managerIdProp == Some(managerId)
  {
  }

  /** `res.ok`: the status code is in the 2xx range. */
  predicate IsOk(code: int) {
    200 <= code < 300
  }

  /** What `deleteRequest` observes of a `DELETE /:id` answer: `res.ok`
      and the reply's `message`. */
  function ClientSeesDelete(reply: DeleteReply): DeleteAnswer {
    DeleteAnswered(IsOk(reply.Code()), Some(reply.Message()))
  }

  /** A refused delete surfaces the server's own message in the list's
      toast; a successful one throws nothing. */
  lemma DeleteRefusalShowsServerMessage(reply: DeleteReply)
    ensures DeleteError(ClientSeesDelete(reply)).None? <==> reply == Deleted
    ensures reply != Deleted ==> DeleteError(ClientSeesDelete(reply)) == Some(reply.Message())
  {
  }

  /** A delete keeps the client's list a mirror of the table, whichever way
      the server decides. */
  lemma DeleteKeepsMirror(s: seq<ClientRequest>, rows: map<int, LeaveRequest>, id: int)
    requires Mirrors(s, rows)
    ensures var reply := DeleteOutcome(rows, id);
            var rows' := if reply == Deleted then rows - {id} else rows;
            var s' := if DeleteError(ClientSeesDelete(reply)).None? then WithoutId(s, id) else s;
      Mirrors(s', rows')
  {
    var reply := DeleteOutcome(rows, id);
    if reply == Deleted {
      var s' := WithoutId(s, id);
      forall i | 0 <= i < |s'| ensures s'[i].row.id in rows - {id} && (rows - {id})[s'[i].row.id] == s'[i].row {
        assert s'[i] in s;
      }
    }
  }

  /** A delete button shown on a mirrored request always leads to a
      successful delete on the server. */
  lemma OfferedDeleteSucceeds(s: seq<ClientRequest>, rows: map<int, LeaveRequest>, user: User, i: int)
    requires Mirrors(s, rows) && 0 <= i < |s| && CanDelete(user, s[i])
    ensures DeleteOutcome(rows, s[i].row.id) == Deleted
  {
  }

  // ---------------------------------------------------------------------
  // Employees.

  /** `JSON.stringify(employee)` of `addEmployee`, as the route reads it:
      every balance present. */
  function EmployeeBodyOf(f: EmployeeFields): EmployeeBody {
    EmployeeBody(f.name, f.email, f.department, Some(f.leaveAnnual), Some(f.leaveSick), Some(f.leavePersonal))
  }

  /** What `addEmployee` observes of a `POST /employees` answer. */
  function ClientSeesAdd(reply: AddEmployeeReply): AddAnswer {
    if IsOk(reply.Code()) then EmployeeAdded(reply.id) else AddRefused
  }

  /** The stored row and the client's new element agree on every field the
      client keeps; a failed welcome mail leaves the row stored but the
      client's list without it. */
  lemma AddedEmployeeAgrees(f: EmployeeFields, id: int, password: string, reply: AddEmployeeReply)
    requires reply == EmployeeCreated(id) || reply == MailFailed
    ensures var u := NewEmployeeRow(id, EmployeeBodyOf(f), password);
            var e := WithId(f, id);
      && u.id == e.id && u.name == e.name && u.email == e.email && u.department == e.department
      && u.leaveAnnual == Some(e.leaveAnnual) && u.leaveSick == Some(e.leaveSick)
      && u.leavePersonal == Some(e.leavePersonal) && u.role == Role.Employee
    ensures ClientSeesAdd(reply).EmployeeAdded? <==> reply.EmployeeCreated?
  {
  }

  /** `getEmployeeById` on an answered lookup finds the stored employee
      row; a manager's or an unknown id resolves to `undefined`, not `null`. */
  lemma LookupAgreesWithTable(t: UserTable, id: int)
    requires t.Valid()
    ensures var r := GetEmployeeById(LookupOk(t.EmployeeById(id)));
      && (r.Found? <==> id in t.rows && t.rows[id].role == Role.Employee)
      && (r.Found? ==> r.user == t.rows[id])
      && (!r.Found? ==> r == Undefined)
  {
    var us := t.EmployeeById(id);
    if id in t.rows && t.rows[id].role == Role.Employee {
      assert us[0] in us;
    }
  }
}
