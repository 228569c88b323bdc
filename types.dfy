/** The record types and enumerations declared by the client
    (gestion_conge_frent/src/types/index.ts), which the two backend tables
    `users` and `leave_requests` share.

    Identifiers are `int`: both tables use auto-increment integer keys.
    `leave_type` and `status` are kept as strings inside the records, because
    the backend stores whatever string it is sent; the enumerations below are
    the values the declared types allow, with their spellings. */
module Types {

  datatype Option<+T> = None | Some(value: T)

  /** `User.role` */
  datatype Role = Employee | Manager

  /** `LeaveRequest.leave_type` */
  datatype LeaveType = Annual | Sick | Personal | Maternity | Paternity

  /** `LeaveRequest.status` */
  datatype Status = Pending | Approved | Rejected

  function RoleName(r: Role): string {
    match r
    case Employee => "employee"
    case Manager => "manager"
  }

  function LeaveTypeName(t: LeaveType): string {
    match t
    case Annual => "annual"
    case Sick => "sick"
    case Personal => "personal"
    case Maternity => "maternity"
    case Paternity => "paternity"
  }

  function StatusName(s: Status): string {
    match s
    case Pending => "pending"
    case Approved => "approved"
    case Rejected => "rejected"
  }

  /** The role a string spells, if any: the inverse of `RoleName`. */
  function ParseRole(s: string): (r: Option<Role>)
    ensures r.Some? ==> RoleName(r.value) == s
    ensures forall x: Role :: RoleName(x) == s ==> r == Some(x)
  {
    if s == "employee" then Some(Employee)
    else if s == "manager" then Some(Manager)
    else None
  }

  /** The leave category a string spells, if any: the inverse of `LeaveTypeName`. */
  function ParseLeaveType(s: string): (r: Option<LeaveType>)
    ensures r.Some? ==> LeaveTypeName(r.value) == s
    ensures forall t: LeaveType :: LeaveTypeName(t) == s ==> r == Some(t)
  {
    if s == "annual" then Some(Annual)
    else if s == "sick" then Some(Sick)
    else if s == "personal" then Some(Personal)
    else if s == "maternity" then Some(Maternity)
    else if s == "paternity" then Some(Paternity)
    else None
  }

  /** The status a string spells, if any: the inverse of `StatusName`. */
  function ParseStatus(s: string): (r: Option<Status>)
    ensures r.Some? ==> StatusName(r.value) == s
    ensures forall t: Status :: StatusName(t) == s ==> r == Some(t)
  {
    if s == "pending" then Some(Pending)
    else if s == "approved" then Some(Approved)
    else if s == "rejected" then Some(Rejected)
    else None
  }

  /** A missing number read as 0: the backend's destructuring default `= 0`
      and the Dashboard's `?? 0`. */
  function OrZero(v: Option<int>): int {
    if v.Some? then v.value else 0
  }

  /** A row of `users`. A balance is `None` when the column holds NULL
      (a profile update that omitted it); the Dashboard reads that as 0. */
  datatype User = User(
    password: string,
    id: int,
    name: string,
    email: string,
    role: Role,
    department: string,
    leaveAnnual: Option<int>,
    leaveSick: Option<int>,
    leavePersonal: Option<int>)

  /** A row of `leave_requests`. `managerId` and `managerComment` are the two
      optional fields; every other field is required. */
  datatype LeaveRequest = LeaveRequest(
    id: int,
    employeeId: int,
    employeeMail: string,
    employeeName: string,
    leaveType: string,
    startDate: string,
    endDate: string,
    reason: string,
    status: string,
    appliedDate: string,
    managerId: Option<int>,
    managerComment: Option<string>,
    days: int)

  /** The row's `leave_type` and `status` are values the declared type allows. */
  predicate WellTyped(r: LeaveRequest) {
    ParseLeaveType(r.leaveType).Some? && ParseStatus(r.status).Some?
  }

  predicate IsPending(r: LeaveRequest) {
    r.status == StatusName(Pending)
  }

  /** Every status spelling is distinct, so a request is in at most one state. */
  lemma StatusNamesDistinct(s: Status, t: Status)
    ensures StatusName(s) == StatusName(t) <==> s == t
  {
    var _ := ParseStatus(StatusName(s));
  }
}
