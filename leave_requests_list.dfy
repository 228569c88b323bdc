/** The list of leave requests
    (gestion_conge_frent/src/components/LeaveRequestsList.tsx): which
    requests a viewer sees, the labels and badges shown, which actions are
    offered, and the two handlers behind the buttons. */
module LeaveRequestsList {
  import opened Types
  import opened JsArray
  import opened LeaveContext

  /** `displayRequests`: everything for a manager, one's own otherwise. */
  function DisplayRequests(requests: seq<ClientRequest>, user: User): (r: seq<ClientRequest>)
    ensures user.role == Manager ==> r == requests
    ensures forall i :: 0 <= i < |r| ==> r[i] in requests
    ensures user.role == Employee ==>
      && (forall i :: 0 <= i < |r| ==> r[i].row.employeeId == user.id)
      && (forall i :: 0 <= i < |requests| && requests[i].row.employeeId == user.id ==> requests[i] in r)
  {
    if user.role == Manager then requests else OwnedBy(requests, user.id)
  }

  /** The label of each declared leave category. */
  function LabelOf(t: LeaveType): string {
    match t
    case Annual => "Congés Annuels"
    case Sick => "Congé Maladie"
    case Personal => "Congé Personnel"
    case Maternity => "Congé Maternité"
    case Paternity => "Congé Paternité"
  }

  /** `getLeaveTypeLabel`: the label of a known category, any other string
      unchanged. */
  function LeaveTypeLabel(t: string): (shown: string)
    ensures ParseLeaveType(t).Some? ==> shown == LabelOf(ParseLeaveType(t).value)
    ensures ParseLeaveType(t).None? ==> shown == t
  {
    if t == "annual" then "Congés Annuels"
    else if t == "sick" then "Congé Maladie"
    else if t == "personal" then "Congé Personnel"
    else if t == "maternity" then "Congé Maternité"
    else if t == "paternity" then "Congé Paternité"
    else t
  }

  /** A status badge: its CSS class and its text. */
  datatype Badge = Badge(cssClass: string, text: string)

  function BadgeOf(s: Status): Badge {
    match s
    case Pending => Badge("status-badge status-pending", "En attente")
    case Approved => Badge("status-badge status-approved", "Approuvée")
    case Rejected => Badge("status-badge status-rejected", "Rejetée")
  }

  /** `getStatusBadge`: a badge for the three declared statuses, nothing
      for any other string. */
  function StatusBadge(status: string): (b: Option<Badge>)
    ensures b.Some? <==> ParseStatus(status).Some?
    ensures b.Some? ==> b.value == BadgeOf(ParseStatus(status).value)
  {
    if status == "pending" then Some(Badge("status-badge status-pending", "En attente"))
    else if status == "approved" then Some(Badge("status-badge status-approved", "Approuvée"))
    else if status == "rejected" then Some(Badge("status-badge status-rejected", "Rejetée"))
    else None
  }

  /** The approve and reject buttons. */
  predicate CanDecide(user: User, r: ClientRequest) {
    user.role == Manager && r.row.status == StatusName(Pending)
  }

  /** The delete button. */
  predicate CanDelete(user: User, r: ClientRequest) {
    && r.row.status == StatusName(Pending)
    && ((user.role == Employee && r.row.employeeId == user.id)
        || (user.role == Manager && r.row.employeeId == user.id))
  }

  /** The PDF download button. */
  predicate CanDownloadPdf(r: ClientRequest) {
    r.row.status == StatusName(Approved)
  }

  /** The manager-comment panel: not pending, and a non-empty comment. */
  predicate ShowsManagerComment(r: ClientRequest) {
    && r.row.status != StatusName(Pending)
    && r.row.managerComment.Some? && r.row.managerComment.value != ""
  }

  /** What `handleStatusUpdate` toasts. */
  datatype StatusToast = StatusChanged(status: Status) | StatusUpdateError

  /** What `handleDeleteRequest` toasts. */
  datatype DeleteToast = RequestDeleted | DeleteFailedToast(message: string)

  const DeleteToastFallback := "Impossible de supprimer la demande."

  class RequestsListView {
    var managerComment: string
    var isProcessing: bool

    constructor ()
      ensures managerComment == "" && !isProcessing
    {
      managerComment := "";
      isProcessing := false;
    }

    /** `handleStatusUpdate`: an id missing from the whole list (not only
        the displayed part) fails before any call. Otherwise the context is
        asked to update, which never throws, so once it returns the toast
        reports success and the comment box is cleared whatever the server
        answered. When no reply ever comes the handler stays suspended:
        no toast, and the buttons stay disabled. */
    method HandleStatusUpdate(ctx: LeaveProvider, requestId: int, status: Status, comments: string,
                              managerId: int, answer: PutAnswer)
      returns (toast: Option<StatusToast>)
      requires status != Pending
      modifies this, ctx
      ensures FindById(old(ctx.requests), requestId).None? ==>
        && toast == Some(StatusUpdateError) && !isProcessing
        && ctx.requests == old(ctx.requests) && managerComment == old(managerComment)
      ensures FindById(old(ctx.requests), requestId).Some? && answer.PutUnanswered? ==>
        && toast == None && isProcessing
        && ctx.requests == old(ctx.requests) && managerComment == old(managerComment)
      ensures FindById(old(ctx.requests), requestId).Some? && !answer.PutUnanswered? ==>
        && toast == Some(StatusChanged(status)) && !isProcessing && managerComment == ""
        && ctx.requests == AfterStatusUpdate(old(ctx.requests), requestId, status, Some(comments), managerId, answer)
    {
      isProcessing := true;
      var request := FindById(ctx.requests, requestId);
      if request.None? {
        toast := Some(StatusUpdateError);
        isProcessing := false;
        return;
      }
      ctx.UpdateRequestStatus(requestId, status, Some(comments), managerId, answer);
      if answer.PutUnanswered? {
        return None;
      }
      toast := Some(StatusChanged(status));
      managerComment := "";
      isProcessing := false;
    }

    /** `handleDeleteRequest`: toasts success, or the error's message. */
    method HandleDeleteRequest(ctx: LeaveProvider, id: int, answer: DeleteAnswer) returns (toast: DeleteToast)
      modifies ctx
      ensures DeleteError(answer).None? ==> toast == RequestDeleted && ctx.requests == WithoutId(old(ctx.requests), id)
      ensures DeleteError(answer).Some? ==>
        && ctx.requests == old(ctx.requests)
        && toast == DeleteFailedToast(if DeleteError(answer).value != "" then DeleteError(answer).value else DeleteToastFallback)
    {
      var thrown := ctx.DeleteRequest(id, answer);
      if thrown.None? {
        toast := RequestDeleted;
      } else {
        toast := DeleteFailedToast(if thrown.value != "" then thrown.value else DeleteToastFallback);
      }
    }
  }

  // ---------------------------------------------------------------------
  // Properties of what the list shows and offers.

  /** The employee's view keeps the original order: it splits over any cut
      of the list. */
  lemma DisplayRequestsSplits(a: seq<ClientRequest>, b: seq<ClientRequest>, user: User)
    ensures DisplayRequests(a + b, user) == DisplayRequests(a, user) + DisplayRequests(b, user)
  {
    if user.role == Employee {
      FilterAppend(a, b, (r: ClientRequest) => r.row.employeeId == user.id);
    }
  }

  /** Both roles may delete only their own pending requests: the role test
      in the guard makes no difference. */
  lemma CanDeleteIsOwnPending(user: User, r: ClientRequest)
    ensures CanDelete(user, r) <==> IsPending(r.row) && r.row.employeeId == user.id
  {
  }

  /** No request offers both a decision and a download, nor a download and
      a delete. */
  lemma ActionsExclusive(user: User, r: ClientRequest)
    ensures !(CanDecide(user, r) && CanDownloadPdf(r))
    ensures !(CanDownloadPdf(r) && CanDelete(user, r))
  {
  }

  /** Distinct categories get distinct labels, and a known category never
      shows its raw name. */
  lemma LabelsDistinct(s: LeaveType, t: LeaveType)
    ensures LabelOf(s) == LabelOf(t) <==> s == t
    ensures LeaveTypeLabel(LeaveTypeName(s)) != LeaveTypeName(s)
  {
  }

  /** Right after a local decision the comment panel shows the old
      declared comment, not the one just written: the decision went to the
      undeclared `managerComment`. */
  lemma LocalDecisionShowsOldComment(s: seq<ClientRequest>, id: int, status: Status, comment: Option<string>,
                                     managerId: int, i: int)
    requires status != Pending && 0 <= i < |s| && s[i].row.id == id
    ensures var r := MarkDecided(s, id, status, comment, managerId)[i];
      ShowsManagerComment(r) <==> s[i].row.managerComment.Some? && s[i].row.managerComment.value != ""
  {
    StatusNamesDistinct(status, Pending);
  }
}
