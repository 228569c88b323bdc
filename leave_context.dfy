/** The client's copy of the leave-request table
    (gestion_conge_frent/src/contexts/LeaveContext.tsx): a `requests` list
    that `addRequest` appends to, `updateRequestStatus` maps over and
    `deleteRequest` filters. What each HTTP call returned is a parameter. */
module LeaveContext {
  import opened Types
  import opened JsArray

  /** An element of `requests`: the declared fields plus the three camelCase
      properties the context writes, which `LeaveRequest` does not declare:
      `appliedDate` (by `addRequest`), `managerComment` and `managerId`
      (by `updateRequestStatus`). `None` is an absent or undefined property. */
  datatype ClientRequest = ClientRequest(
    row: LeaveRequest,
    appliedDateProp: Option<string>,
    managerCommentProp: Option<string>,
    managerIdProp: Option<int>)

  /** The argument of `addRequest`: `Omit<LeaveRequest, 'id' | 'appliedDate' | 'status'>`.
      The omitted `appliedDate` is not a declared field, so `applied_date`
      stays required and callers supply one. */
  datatype RequestDraft = RequestDraft(
    employeeId: int,
    employeeMail: string,
    employeeName: string,
    leaveType: string,
    startDate: string,
    endDate: string,
    reason: string,
    appliedDate: string,
    managerId: Option<int>,
    managerComment: Option<string>,
    days: int)

  /** How the `POST` of `addRequest` ended. */
  datatype PostAnswer =
    | PostCreated(id: int)  // res.ok, with the new id
    | PostRefused           // !res.ok
    | PostFailed            // fetch rejected

  /** How the `PUT` of `updateRequestStatus` ended. */
  datatype PutAnswer =
    | PutAnswered(ok: bool)  // any HTTP reply; `ok` is never looked at
    | PutFailed              // fetch rejected
    | PutUnanswered          // no reply ever comes: the await never resumes

  /** How the `DELETE` of `deleteRequest` ended. */
  datatype DeleteAnswer =
    | DeleteAnswered(ok: bool, message: Option<string>)  // HTTP reply and its `message`
    | DeleteFailed(error: string)                        // fetch rejected with this message

  /** The message `deleteRequest` throws with when the reply has none. */
  const DeleteFallback := "Erreur lors de la suppression"

  /** `{ ...request, id, status: 'pending', appliedDate: today }` */
  function Appended(draft: RequestDraft, id: int, today: string): ClientRequest {
    ClientRequest(
      LeaveRequest(id, draft.employeeId, draft.employeeMail, draft.employeeName, draft.leaveType,
                   draft.startDate, draft.endDate, draft.reason, StatusName(Pending), draft.appliedDate,
                   draft.managerId, draft.managerComment, draft.days),
      Some(today), None, None)
  }

  /** `{ ...req, status, managerComment, managerId }` */
  function WithDecision(req: ClientRequest, status: Status, comment: Option<string>, managerId: int): ClientRequest {
    req.(row := req.row.(status := StatusName(status)), managerCommentProp := comment, managerIdProp := Some(managerId))
  }

  /** `prev.map(req => req.id === id ? WithDecision(req) : req)` */
  function MarkDecided(s: seq<ClientRequest>, id: int, status: Status, comment: Option<string>, managerId: int)
    : (r: seq<ClientRequest>)
    ensures |r| == |s|
    ensures forall i :: 0 <= i < |s| && s[i].row.id != id ==> r[i] == s[i]
    ensures forall i :: 0 <= i < |s| && s[i].row.id == id ==>
              && r[i].row.status == StatusName(status)
              && r[i].row == s[i].row.(status := StatusName(status))
              && r[i].managerCommentProp == comment && r[i].managerIdProp == Some(managerId)
              && r[i].appliedDateProp == s[i].appliedDateProp
    decreases |s|
  {
    if s == [] then []
    else [if s[0].row.id == id then WithDecision(s[0], status, comment, managerId) else s[0]]
         + MarkDecided(s[1..], id, status, comment, managerId)
  }

  /** `requests.filter(req => req.employee_id === userId)`: one employee's requests. */
  function OwnedBy(s: seq<ClientRequest>, userId: int): seq<ClientRequest> {
    Filter(s, (r: ClientRequest) => r.row.employeeId == userId)
  }

  /** `requests.find(r => r.id === id)` */
  function FindById(s: seq<ClientRequest>, id: int): Option<ClientRequest> {
    Find(s, (r: ClientRequest) => r.row.id == id)
  }

  /** `prev.filter(req => req.id !== id)` */
  function WithoutId(s: seq<ClientRequest>, id: int): seq<ClientRequest> {
    Filter(s, (r: ClientRequest) => r.row.id != id)
  }

  /** The list after `updateRequestStatus`, given how its `PUT` ended. */
  function AfterStatusUpdate(s: seq<ClientRequest>, id: int, status: Status, comment: Option<string>,
                             managerId: int, answer: PutAnswer): (r: seq<ClientRequest>)
    ensures |r| == |s|
    ensures !answer.PutAnswered? ==> r == s
    ensures answer.PutAnswered? ==> forall i :: 0 <= i < |s| ==>
              if s[i].row.id == id then r[i].row.status == StatusName(status) else r[i] == s[i]
  {
    if answer.PutAnswered? then MarkDecided(s, id, status, comment, managerId) else s
  }

  /** The error `deleteRequest` rethrows, if any. */
  function DeleteError(answer: DeleteAnswer): (r: Option<string>)
    ensures r.None? <==> answer.DeleteAnswered? && answer.ok
    ensures answer.DeleteAnswered? && !answer.ok && answer.message.Some? && answer.message.value != "" ==>
              r == answer.message
  {
    match answer
    case DeleteAnswered(ok, message) =>
      if ok then None
      else if message.Some? && message.value != "" then Some(message.value)
      else Some(DeleteFallback)
    case DeleteFailed(error) => Some(error)
  }

  class LeaveProvider {
    var requests: seq<ClientRequest>

    constructor ()
      ensures requests == []
    {
      requests := [];
    }

    /** `addRequest`: appends one pending element carrying the server's id;
        any failure is logged and swallowed, leaving the list as it was. */
    method AddRequest(draft: RequestDraft, answer: PostAnswer, today: string)
      modifies this
      ensures requests == if answer.PostCreated? then old(requests) + [Appended(draft, answer.id, today)]
                          else old(requests)
    {
      if !answer.PostCreated? {
        return;
      }
      var id := answer.id;
      requests := requests + [Appended(draft, id, today)];
    }

    /** `updateRequestStatus`: once any reply has come, marks every element
        with that id, whether or not the server succeeded; a failed fetch
        is swallowed. */
    method UpdateRequestStatus(id: int, status: Status, comment: Option<string>, managerId: int, answer: PutAnswer)
      requires status != Pending
      modifies this
      ensures requests == AfterStatusUpdate(old(requests), id, status, comment, managerId, answer)
    {
      if answer.PutFailed? || answer.PutUnanswered? {
        return;
      }
      requests := MarkDecided(requests, id, status, comment, managerId);
    }

    /** `deleteRequest`: on an ok reply drops every element with that id;
        otherwise leaves the list and rethrows with the server's message. */
    method DeleteRequest(id: int, answer: DeleteAnswer) returns (thrown: Option<string>)
      modifies this
      ensures thrown == DeleteError(answer)
      ensures requests == if thrown.None? then WithoutId(old(requests), id) else old(requests)
    {
      match answer {
        case DeleteFailed(error) =>
          thrown := Some(error);
        case DeleteAnswered(ok, message) =>
          if !ok {
            thrown := Some(if message.Some? && message.value != "" then message.value else DeleteFallback);
          } else {
            requests := WithoutId(requests, id);
            thrown := None;
          }
      }
    }
  }

  // ---------------------------------------------------------------------
  // Properties of the three list updates.

  /** A successful `addRequest` adds one pending element with the server's
      id at the end and leaves the earlier ones in place. */
  lemma AppendKeepsPrefix(s: seq<ClientRequest>, draft: RequestDraft, id: int, today: string)
    ensures var s' := s + [Appended(draft, id, today)];
      && |s'| == |s| + 1 && s'[..|s|] == s
      && s'[|s|].row.id == id && IsPending(s'[|s|].row)
      && s'[|s|].appliedDateProp == Some(today) && s'[|s|].row.appliedDate == draft.appliedDate
  {
  }

  /** The local decision writes the undeclared `managerComment` and
      `managerId`: the declared `manager_comment` and `manager_id` of every
      element keep their old values. */
  lemma {:induction false} DecisionLeavesDeclaredManagerFields(s: seq<ClientRequest>, id: int, status: Status,
                                                              comment: Option<string>, managerId: int)
    ensures forall i :: 0 <= i < |s| ==>
      && MarkDecided(s, id, status, comment, managerId)[i].row.managerComment == s[i].row.managerComment
      && MarkDecided(s, id, status, comment, managerId)[i].row.managerId == s[i].row.managerId
  {
    var r := MarkDecided(s, id, status, comment, managerId);
    forall i | 0 <= i < |s|
      ensures r[i].row.managerComment == s[i].row.managerComment && r[i].row.managerId == s[i].row.managerId
    {
      if s[i].row.id == id {
        assert r[i].row == s[i].row.(status := StatusName(status));
      } else {
        assert r[i] == s[i];
      }
    }
  }

  /** Deleting locally removes every element with that id and keeps every
      other element as often as it occurred, in its order. */
  lemma WithoutIdRemovesOnlyThatId(s: seq<ClientRequest>, id: int, x: ClientRequest)
    ensures forall i :: 0 <= i < |WithoutId(s, id)| ==> WithoutId(s, id)[i].row.id != id
    ensures x.row.id != id ==> multiset(WithoutId(s, id))[x] == multiset(s)[x]
    ensures x.row.id == id ==> x !in WithoutId(s, id)
  {
    FilterMultiplicity(s, (r: ClientRequest) => r.row.id != id, x);
  }

  /** Deleting locally from two parts deletes from each: the survivors keep
      their relative order. */
  lemma WithoutIdAppend(a: seq<ClientRequest>, b: seq<ClientRequest>, id: int)
    ensures WithoutId(a + b, id) == WithoutId(a, id) + WithoutId(b, id)
  {
    FilterAppend(a, b, (r: ClientRequest) => r.row.id != id);
  }
}
