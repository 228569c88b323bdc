/** The `leave_requests` table behind the routes of
    gestion_conge_back/routes/leaves.js: list all, list by employee, create,
    status update and delete. The table is a map from id to row with the
    next auto-increment id beside it. The approval mail is an opaque
    notification whose success is the parameter `mailOk`. */
module LeavesRoute {
  import opened Types
  import opened KeyedTable

  /** The JSON body of `POST /`. The handler reads the first eight fields;
      `status` and `appliedDate` stand for whatever a client adds besides. */
  datatype CreateBody = CreateBody(
    employeeId: int,
    employeeMail: string,
    employeeName: string,
    leaveType: string,
    startDate: string,
    endDate: string,
    reason: string,
    days: int,
    status: Option<string>,
    appliedDate: Option<string>)

  /** The approval mail, built from the row as re-read after the update. */
  datatype ApprovalMail = ApprovalMail(
    to: string,
    employeeName: string,
    leaveType: string,
    startDate: string,
    endDate: string,
    days: int,
    reason: string,
    comment: Option<string>)

  /** What `PUT /:id/status` answers. */
  datatype StatusReply =
    | MailSent(mail: ApprovalMail)  // 200, "Statut mis à jour et email envoyé."
    | NoResponse                    // the handler returns without answering
    | ServerError                   // 500, "Erreur serveur"

  /** What `DELETE /:id` answers. */
  datatype DeleteReply =
    | Deleted     // 200, "Demande supprimée avec succès"
    | NotFound    // 404, "Demande non trouvée"
    | NotPending  // 400, "Seules les demandes en attente peuvent être supprimées"
  {
    /** The HTTP status code of the answer. */
    function Code(): int {
      match this
      case Deleted => 200
      case NotFound => 404
      case NotPending => 400
    }

    function Message(): string {
      match this
      case Deleted => "Demande supprimée avec succès"
      case NotFound => "Demande non trouvée"
      case NotPending => "Seules les demandes en attente peuvent être supprimées"
    }
  }

  /** The key column of `leave_requests`. */
  function RequestId(r: LeaveRequest): int {
    r.id
  }

  /** The row `POST /` inserts under `id` on the server's day `today`:
      the body's eight fields, status `pending`, no manager fields. */
  function NewRow(id: int, body: CreateBody, today: string): LeaveRequest {
    LeaveRequest(id, body.employeeId, body.employeeMail, body.employeeName, body.leaveType,
                 body.startDate, body.endDate, body.reason, StatusName(Pending), today,
                 None, None, body.days)
  }

  /** The table after `UPDATE ... SET status, manager_comment, manager_id WHERE id`. */
  function Decide(rows: map<int, LeaveRequest>, id: int, status: string,
                  comment: Option<string>, managerId: Option<int>): (rows': map<int, LeaveRequest>)
    ensures rows'.Keys == rows.Keys
    ensures forall k :: k in rows && k != id ==> rows'[k] == rows[k]
  {
    if id in rows then rows[id := rows[id].(status := status, managerComment := comment, managerId := managerId)]
    else rows
  }

  function MailFor(leave: LeaveRequest): ApprovalMail {
    ApprovalMail(leave.employeeMail, leave.employeeName, leave.leaveType, leave.startDate,
                 leave.endDate, leave.days, leave.reason, leave.managerComment)
  }

  /** The answer of `PUT /:id/status` given the table after the update.
      An unknown id leaves `leave` undefined, and building the mail options
      from it throws before the status is even looked at. */
  function StatusOutcome(rows: map<int, LeaveRequest>, id: int, status: string, mailOk: bool): (r: StatusReply)
    ensures r.MailSent? <==> id in rows && status == StatusName(Approved) && mailOk
    ensures r.MailSent? ==> r.mail.to == rows[id].employeeMail && r.mail.days == rows[id].days
    ensures r == NoResponse <==> id in rows && status != StatusName(Approved)
  {
    if id !in rows then ServerError
    else if status != StatusName(Approved) then NoResponse
    else if mailOk then MailSent(MailFor(rows[id]))
    else ServerError
  }

  /** The answer of `DELETE /:id`. */
  function DeleteOutcome(rows: map<int, LeaveRequest>, id: int): (r: DeleteReply)
    ensures r == Deleted <==> id in rows && IsPending(rows[id])
    ensures r == NotFound <==> id !in rows
  {
    if id !in rows then NotFound
    else if !IsPending(rows[id]) then NotPending
    else Deleted
  }

  class LeaveTable {
    var rows: map<int, LeaveRequest>
    var nextId: int

    /** The table is keyed by each row's own `id`. */
    ghost predicate Valid()
      reads this
    {
      Keyed(rows, nextId, RequestId)
    }

    constructor ()
      ensures Valid() && rows == map[] && nextId == 1
    {
      rows := map[];
      nextId := 1;
    }

    /** `GET /`: every row, each once. */
    method ListAll() returns (rs: seq<LeaveRequest>)
      requires Valid()
      ensures |rs| == |rows|
      ensures forall i :: 0 <= i < |rs| ==> rs[i].id in rows && rows[rs[i].id] == rs[i]
      ensures forall id :: id in rows ==> rows[id] in rs
    {
      rs := SelectWhere(rows, nextId, RequestId, (r: LeaveRequest) => true);
      ListingSize(rows, rs, RequestId);
    }

    /** `GET /user/:employeeId`: exactly the rows of that employee, each once. */
    method ListByEmployee(employeeId: int) returns (rs: seq<LeaveRequest>)
      requires Valid()
      ensures forall i :: 0 <= i < |rs| ==> rs[i].id in rows && rows[rs[i].id] == rs[i] && rs[i].employeeId == employeeId
      ensures forall id :: id in rows && rows[id].employeeId == employeeId ==> rows[id] in rs
      ensures forall i, j :: 0 <= i < j < |rs| ==> rs[i] != rs[j]
    {
      rs := SelectWhere(rows, nextId, RequestId, (r: LeaveRequest) => r.employeeId == employeeId);
    }

    /** `POST /`: inserts the body under a fresh id, forcing status `pending`
        and the server's day; nothing in the body is checked. */
    method Create(body: CreateBody, today: string) returns (id: int)
      requires Valid()
      modifies this
      ensures Valid()
      ensures id == old(nextId) && id !in old(rows) && nextId == old(nextId) + 1
      ensures rows == old(rows)[id := NewRow(id, body, today)]
    {
      id := nextId;
      rows := rows[id := NewRow(id, body, today)];
      nextId := nextId + 1;
    }

    /** `PUT /:id/status`: overwrites the three decision fields with no guard,
        re-reads the row, and mails and answers only for `approved`. */
    method UpdateStatus(id: int, status: string, comment: Option<string>, managerId: Option<int>, mailOk: bool)
      returns (reply: StatusReply)
      requires Valid()
      modifies this
      ensures Valid() && nextId == old(nextId)
      ensures rows == Decide(old(rows), id, status, comment, managerId)
      ensures reply == StatusOutcome(rows, id, status, mailOk)
    {
      if id in rows {
        rows := rows[id := rows[id].(status := status, managerComment := comment, managerId := managerId)];
      }
      if id !in rows {
        return ServerError;
      }
      var leave := rows[id];
      var mail := MailFor(leave);
      if status == StatusName(Approved) {
        if mailOk {
          reply := MailSent(mail);
        } else {
          reply := ServerError;
        }
      } else {
        reply := NoResponse;
      }
    }

    /** `DELETE /:id`: reads the status, then deletes only a pending row.
        Nobody's ownership is checked. */
    method Delete(id: int) returns (reply: DeleteReply)
      requires Valid()
      modifies this
      ensures Valid() && nextId == old(nextId)
      ensures reply == DeleteOutcome(old(rows), id)
      ensures rows == if reply == Deleted then old(rows) - {id} else old(rows)
    {
      if id !in rows {
        return NotFound;
      }
      var status := rows[id].status;
      if status != StatusName(Pending) {
        return NotPending;
      }
      rows := rows - {id};
      reply := Deleted;
    }
  }

  // ---------------------------------------------------------------------
  // Lifecycle properties of the table as the handlers leave it.

  /** Whatever status or applied date the client sends, the stored row has
      status `pending` and the server's day, and keeps the body's days. */
  lemma CreateIgnoresClientStatus(id: int, b1: CreateBody, b2: CreateBody, today: string)
    requires b1.(status := None, appliedDate := None) == b2.(status := None, appliedDate := None)
    ensures NewRow(id, b1, today) == NewRow(id, b2, today)
    ensures IsPending(NewRow(id, b1, today)) && NewRow(id, b1, today).appliedDate == today
    ensures NewRow(id, b1, today).days == b1.days
  {
  }

  /** The update touches only the three decision fields of the row with
      that id, and whatever the row's current status. */
  lemma DecideOverwritesDecisionFieldsOnly(rows: map<int, LeaveRequest>, id: int, status: string,
                                           comment: Option<string>, managerId: Option<int>)
    requires id in rows
    ensures var r := Decide(rows, id, status, comment, managerId)[id];
      && r.status == status && r.managerComment == comment && r.managerId == managerId
      && r.(status := rows[id].status, managerComment := rows[id].managerComment, managerId := rows[id].managerId) == rows[id]
  {
  }

  /** A decided request can be decided again: the second decision simply
      replaces the first (last write wins), with no guard on the status. */
  lemma ReDecideLastWriteWins(rows: map<int, LeaveRequest>, id: int,
                              s1: string, c1: Option<string>, m1: Option<int>,
                              s2: string, c2: Option<string>, m2: Option<int>)
    ensures Decide(Decide(rows, id, s1, c1, m1), id, s2, c2, m2) == Decide(rows, id, s2, c2, m2)
  {
  }

  /** An `approved` update on a known row mails the employee the re-read
      row, carrying the new comment, when the mail goes out; a failed mail
      answers 500 after the row has been written. */
  lemma ApprovalMailsEmployee(rows: map<int, LeaveRequest>, id: int, comment: Option<string>,
                              managerId: Option<int>, mailOk: bool)
    requires id in rows
    ensures var after := Decide(rows, id, StatusName(Approved), comment, managerId);
      && after[id].status == StatusName(Approved)
      && StatusOutcome(after, id, StatusName(Approved), mailOk)
         == (if mailOk then MailSent(MailFor(after[id])) else ServerError)
      && (mailOk ==>
            && StatusOutcome(after, id, StatusName(Approved), mailOk).mail.to == rows[id].employeeMail
            && StatusOutcome(after, id, StatusName(Approved), mailOk).mail.comment == comment)
  {
  }

  /** A `rejected` update on a known row is written, and never answered. */
  lemma RejectionIsNotAnswered(rows: map<int, LeaveRequest>, id: int, comment: Option<string>,
                               managerId: Option<int>, mailOk: bool)
    requires id in rows
    ensures var after := Decide(rows, id, StatusName(Rejected), comment, managerId);
      after[id].status == StatusName(Rejected) && StatusOutcome(after, id, StatusName(Rejected), mailOk) == NoResponse
  {
  }

  /** An update on an unknown id changes nothing and answers 500, whatever
      the new status. */
  lemma UnknownIdUpdateFails(rows: map<int, LeaveRequest>, id: int, status: string,
                             comment: Option<string>, managerId: Option<int>, mailOk: bool)
    requires id !in rows
    ensures Decide(rows, id, status, comment, managerId) == rows
    ensures StatusOutcome(Decide(rows, id, status, comment, managerId), id, status, mailOk) == ServerError
  {
  }

  /** The update keeps rows well typed exactly when the new status is one
      the declared type allows: the handler stores any string it is sent. */
  lemma DecideWellTyped(rows: map<int, LeaveRequest>, id: int, status: string,
                        comment: Option<string>, managerId: Option<int>)
    requires id in rows && ParseLeaveType(rows[id].leaveType).Some?
    ensures WellTyped(Decide(rows, id, status, comment, managerId)[id]) <==> ParseStatus(status).Some?
  {
  }

  /** Delete succeeds exactly on a pending row and then removes that row and
      no other; otherwise the table is unchanged. */
  lemma {:induction false} DeleteRemovesExactlyOne(rows: map<int, LeaveRequest>, id: int)
    ensures DeleteOutcome(rows, id) == Deleted <==> id in rows && IsPending(rows[id])
    ensures DeleteOutcome(rows, id) == NotFound <==> id !in rows
    ensures DeleteOutcome(rows, id) == Deleted ==>
      |rows - {id}| == |rows| - 1 && (rows - {id}).Keys == rows.Keys - {id}
      && forall k :: k in rows && k != id ==> (rows - {id})[k] == rows[k]
  {
    if DeleteOutcome(rows, id) == Deleted {
      assert rows.Keys == (rows - {id}).Keys + {id};
      assert |rows.Keys| == |(rows - {id}).Keys| + 1;
    }
  }

  /** Once decided (to anything but `pending`), a request can no longer be
      deleted; a freshly created one can. */
  lemma DecidedCannotBeDeleted(rows: map<int, LeaveRequest>, id: int, status: string,
                               comment: Option<string>, managerId: Option<int>)
    requires id in rows && status != StatusName(Pending)
    ensures DeleteOutcome(Decide(rows, id, status, comment, managerId), id) == NotPending
  {
  }

  lemma CreatedCanBeDeleted(rows: map<int, LeaveRequest>, id: int, body: CreateBody, today: string)
    ensures DeleteOutcome(rows[id := NewRow(id, body, today)], id) == Deleted
  {
  }
}
