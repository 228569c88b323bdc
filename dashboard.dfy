/** The dashboard figures (gestion_conge_front/src/components/Dashboard.tsx):
    the viewer's own requests, the pending and approved ones, the total
    balance, the days used and the recent-activity excerpt. */
module Dashboard {
  import opened Types
  import opened JsArray
  import opened LeaveContext

  /** `requests` as the dashboard receives it: the list fetch stores whatever
      JSON the server sent, which need not be an array. */
  datatype Requests = AnArray(items: seq<ClientRequest>) | NotAnArray

  /** How many pending requests the recent-activity card lists at most. */
  const RecentLimit := 3

  /** `userRequests`: the viewer's own requests, none when `requests` is
      not an array. */
  function UserRequests(requests: Requests, user: User): (r: seq<ClientRequest>)
    ensures requests.NotAnArray? ==> r == []
    ensures forall i :: 0 <= i < |r| ==> r[i].row.employeeId == user.id && requests.AnArray? && r[i] in requests.items
    ensures requests.AnArray? ==>
      forall i :: 0 <= i < |requests.items| && requests.items[i].row.employeeId == user.id ==> requests.items[i] in r
  {
    if requests.AnArray? then OwnedBy(requests.items, user.id) else []
  }

  predicate IsPendingRequest(r: ClientRequest) {
    r.row.status == StatusName(Pending)
  }

  predicate IsApprovedRequest(r: ClientRequest) {
    r.row.status == StatusName(Approved)
  }

  /** `pendingRequests`: every pending request for a manager, the viewer's
      own pending ones otherwise. */
  function PendingRequests(requests: Requests, user: User): (r: seq<ClientRequest>)
    ensures forall i :: 0 <= i < |r| ==> IsPendingRequest(r[i]) && requests.AnArray? && r[i] in requests.items
    ensures user.role == Employee ==> forall i :: 0 <= i < |r| ==> r[i].row.employeeId == user.id
    ensures user.role == Manager && requests.AnArray? ==>
      forall i :: 0 <= i < |requests.items| && IsPendingRequest(requests.items[i]) ==> requests.items[i] in r
  {
    if user.role == Manager then
      (if requests.AnArray? then Filter(requests.items, IsPendingRequest) else [])
    else Filter(UserRequests(requests, user), IsPendingRequest)
  }

  /** `approvedRequests`: the viewer's own approved requests, for a manager too. */
  function ApprovedRequests(requests: Requests, user: User): (r: seq<ClientRequest>)
    ensures forall i :: 0 <= i < |r| ==>
              r[i].row.employeeId == user.id && IsApprovedRequest(r[i]) && requests.AnArray? && r[i] in requests.items
    ensures requests.AnArray? ==> forall i :: 0 <= i < |requests.items| ==>
              requests.items[i].row.employeeId == user.id && IsApprovedRequest(requests.items[i]) ==>
              requests.items[i] in r
  {
    Filter(UserRequests(requests, user), IsApprovedRequest)
  }

  /** `totalLeaveDays`: the three balances, a missing one counted as 0. */
  function TotalLeaveDays(user: User): int {
    OrZero(user.leaveAnnual) + OrZero(user.leaveSick) + OrZero(user.leavePersonal)
  }

  function DaysOf(r: ClientRequest): int {
    r.row.days
  }

  /** The "days used" figure: `days` summed over the approved requests. */
  function DaysUsed(requests: Requests, user: User): int {
    SumOf(ApprovedRequests(requests, user), DaysOf)
  }

  /** The recent-activity card: `pendingRequests.slice(0, 3)`. */
  function RecentActivity(requests: Requests, user: User): (r: seq<ClientRequest>)
    ensures |r| <= RecentLimit && |r| <= |PendingRequests(requests, user)|
    ensures |r| == |PendingRequests(requests, user)| || |r| == RecentLimit
    ensures r == PendingRequests(requests, user)[..|r|]
  {
    Take(PendingRequests(requests, user), RecentLimit)
  }

  // ---------------------------------------------------------------------
  // Properties of the figures.

  /** For an employee, the pending list is exactly the list's own pending
      requests, in list order. */
  lemma EmployeePendingIsOwnPending(items: seq<ClientRequest>, user: User)
    requires user.role == Employee
    ensures PendingRequests(AnArray(items), user)
         == Filter(items, (r: ClientRequest) => r.row.employeeId == user.id && IsPendingRequest(r))
  {
    FilterTwice(items, (r: ClientRequest) => r.row.employeeId == user.id, IsPendingRequest,
                (r: ClientRequest) => r.row.employeeId == user.id && IsPendingRequest(r));
  }

  /** A manager's pending count covers everyone; an employee's only their
      own. The approved list is the viewer's own whatever the role. */
  lemma ApprovedIgnoresRole(requests: Requests, user: User, role: Role)
    ensures ApprovedRequests(requests, user) == ApprovedRequests(requests, user.(role := role))
    ensures forall i :: 0 <= i < |ApprovedRequests(requests, user)| ==>
      var r := ApprovedRequests(requests, user)[i]; r.row.employeeId == user.id && IsApprovedRequest(r)
  {
    var approved := ApprovedRequests(requests, user);
    forall i | 0 <= i < |approved|
      ensures approved[i].row.employeeId == user.id && IsApprovedRequest(approved[i])
    {
      assert approved[i] in UserRequests(requests, user);
    }
  }

  /** Days used adds up over any cut of the list. */
  lemma {:induction false} DaysUsedSplits(a: seq<ClientRequest>, b: seq<ClientRequest>, user: User)
    ensures DaysUsed(AnArray(a + b), user) == DaysUsed(AnArray(a), user) + DaysUsed(AnArray(b), user)
  {
    var own := (r: ClientRequest) => r.row.employeeId == user.id;
    FilterAppend(a, b, own);
    FilterAppend(Filter(a, own), Filter(b, own), IsApprovedRequest);
    SumOfAppend(ApprovedRequests(AnArray(a), user), ApprovedRequests(AnArray(b), user), DaysOf);
  }

  /** Days used counts each own approved request's days: with non-negative
      day counts it is non-negative and at least each of them. */
  lemma DaysUsedBoundsEach(requests: Requests, user: User)
    requires requests.AnArray? ==> forall i :: 0 <= i < |requests.items| ==> requests.items[i].row.days >= 0
    ensures DaysUsed(requests, user) >= 0
    ensures forall i :: 0 <= i < |ApprovedRequests(requests, user)| ==>
      ApprovedRequests(requests, user)[i].row.days <= DaysUsed(requests, user)
  {
    var approved := ApprovedRequests(requests, user);
    forall i | 0 <= i < |approved| ensures DaysOf(approved[i]) >= 0 {
      assert approved[i] in UserRequests(requests, user);
    }
    SumOfNonNegative(approved, DaysOf);
  }

  /** Nothing to show when the list is not an array. */
  lemma NotAnArrayShowsNothing(user: User)
    ensures UserRequests(NotAnArray, user) == [] && ApprovedRequests(NotAnArray, user) == []
    ensures DaysUsed(NotAnArray, user) == 0 && PendingRequests(NotAnArray, user) == []
  {
  }

  /** A missing balance counts as a balance of 0, and a present one with
      its value. */
  lemma MissingBalanceCountsZero(user: User)
    ensures TotalLeaveDays(user) == TotalLeaveDays(user.(leaveAnnual := Some(OrZero(user.leaveAnnual)),
                                                        leaveSick := Some(OrZero(user.leaveSick)),
                                                        leavePersonal := Some(OrZero(user.leavePersonal))))
    ensures user.leaveAnnual.None? && user.leaveSick.None? && user.leavePersonal.None? ==> TotalLeaveDays(user) == 0
    ensures user.leaveAnnual.Some? && user.leaveSick.Some? && user.leavePersonal.Some? ==>
      TotalLeaveDays(user) == user.leaveAnnual.value + user.leaveSick.value + user.leavePersonal.value
  {
  }
}
