/** The leave-request form
    (gestion_conge_front/src/components/LeaveRequestForm.tsx): its four
    fields, the inclusive day count, the submit guard and the submit
    handler. A date field holds a string; `dayOf` stands for the host Date
    library and gives the day number (days since an epoch) of a non-empty
    date string. */
module LeaveRequestForm {
  import opened Types
  import opened LeaveContext

  /** `formData` */
  datatype FormData = FormData(leaveType: string, startDate: string, endDate: string, reason: string)

  /** The form as first shown and as reset after a submit. */
  const EmptyForm := FormData("", "", "", "")

  function Abs(x: int): nat {
    if x < 0 then -x else x
  }

  /** `calculateDays`: 0 while either date is empty, otherwise the distance
      between the two day numbers, plus one. */
  function CalculateDays(start: string, end: string, dayOf: string -> int): (n: nat)
    ensures n == 0 <==> start == "" || end == ""
  {
    if start == "" || end == "" then 0
    else Abs(dayOf(end) - dayOf(start)) + 1
  }

  /** The submit button's `disabled` expression. */
  predicate SubmitDisabled(f: FormData) {
    f.leaveType == "" || f.startDate == "" || f.endDate == "" || f.reason == ""
  }

  /** The browser's constraint validation of the form, which must pass
      before `onSubmit` fires: the dates and the reason are `required`, the
      start date's `min` is `today`, and the end date's `min` is the start
      date, or `today` while the start is empty. Day numbers stand for the
      browser's comparison of date values. */
  predicate MeetsConstraints(f: FormData, dayOf: string -> int, today: string) {
    && f.startDate != "" && f.endDate != "" && f.reason != ""
    && dayOf(f.startDate) >= dayOf(today)
    && dayOf(f.endDate) >= dayOf(if f.startDate != "" then f.startDate else today)
  }

  /** The draft `handleSubmit` hands to `addRequest`. */
  function DraftFor(user: User, f: FormData, dayOf: string -> int): RequestDraft {
    RequestDraft(user.id, user.email, user.name, f.leaveType, f.startDate, f.endDate, f.reason,
                 "", None, None, CalculateDays(f.startDate, f.endDate, dayOf))
  }

  /** The success toast of a submit, with the day count it announces. */
  datatype SubmitToast = Submitted(days: nat)

  class RequestForm {
    var formData: FormData

    constructor ()
      ensures formData == EmptyForm
    {
      formData := EmptyForm;
    }

    /** `handleSubmit`: without a user, nothing happens. Otherwise the draft
        goes to `addRequest`, which never throws, so the success toast shows
        and the form is cleared whatever the server answered. */
    method HandleSubmit(user: Option<User>, ctx: LeaveProvider, dayOf: string -> int, answer: PostAnswer, today: string)
      returns (toast: Option<SubmitToast>)
      modifies this, ctx
      ensures user.None? ==> toast.None? && formData == old(formData) && ctx.requests == old(ctx.requests)
      ensures user.Some? ==>
        && toast == Some(Submitted(CalculateDays(old(formData).startDate, old(formData).endDate, dayOf)))
        && formData == EmptyForm
        && ctx.requests == if answer.PostCreated?
                           then old(ctx.requests) + [Appended(DraftFor(user.value, old(formData), dayOf), answer.id, today)]
                           else old(ctx.requests)
    {
      if user.None? {
        return None;
      }
      var days := CalculateDays(formData.startDate, formData.endDate, dayOf);
      ctx.AddRequest(DraftFor(user.value, formData, dayOf), answer, today);
      toast := Some(Submitted(days));
      formData := EmptyForm;
    }

    /** Submitting the form: the disabled button or a failed constraint
        stops it before `handleSubmit` runs; otherwise `handleSubmit` runs
        on a range that starts today or later and does not end before it
        starts, so the toast counts the days from start to end. */
    method Submit(user: Option<User>, ctx: LeaveProvider, dayOf: string -> int, answer: PostAnswer, today: string)
      returns (toast: Option<SubmitToast>)
      modifies this, ctx
      ensures SubmitDisabled(old(formData)) || !MeetsConstraints(old(formData), dayOf, today) || user.None? ==>
        toast.None? && formData == old(formData) && ctx.requests == old(ctx.requests)
      ensures !SubmitDisabled(old(formData)) && MeetsConstraints(old(formData), dayOf, today) && user.Some? ==>
        && toast == Some(Submitted(dayOf(old(formData).endDate) - dayOf(old(formData).startDate) + 1))
        && dayOf(today) <= dayOf(old(formData).startDate) <= dayOf(old(formData).endDate)
        && formData == EmptyForm
        && ctx.requests == if answer.PostCreated?
                           then old(ctx.requests) + [Appended(DraftFor(user.value, old(formData), dayOf), answer.id, today)]
                           else old(ctx.requests)
    {
      if SubmitDisabled(formData) || !MeetsConstraints(formData, dayOf, today) {
        return None;
      }
      toast := HandleSubmit(user, ctx, dayOf, answer, today);
    }
  }

  /** The days from `lo` to `hi`, both included, gathered one by one. */
  ghost function DaysFromTo(lo: int, hi: int): set<int>
    decreases hi - lo
  {
    if hi < lo then {} else DaysFromTo(lo, hi - 1) + {hi}
  }

  lemma {:induction false} DaysFromToMembers(lo: int, hi: int, d: int)
    ensures d in DaysFromTo(lo, hi) <==> lo <= d <= hi
    decreases hi - lo
  {
    if lo <= hi {
      DaysFromToMembers(lo, hi - 1, d);
    }
  }

  lemma {:induction false} DaysFromToSize(lo: int, hi: int)
    requires lo <= hi + 1
    ensures |DaysFromTo(lo, hi)| == hi - lo + 1
    decreases hi - lo + 1
  {
    if lo <= hi {
      DaysFromToSize(lo, hi - 1);
      DaysFromToMembers(lo, hi - 1, hi);
    }
  }

  /** With both dates filled in, the count is the number of calendar days
      from the earlier date to the later one, both included; so it is at
      least 1 and the order of the two dates does not matter. */
  lemma CalculateDaysCountsDays(start: string, end: string, dayOf: string -> int)
    requires start != "" && end != ""
    ensures var lo := if dayOf(start) <= dayOf(end) then dayOf(start) else dayOf(end);
            var hi := if dayOf(start) <= dayOf(end) then dayOf(end) else dayOf(start);
            CalculateDays(start, end, dayOf) == |DaysFromTo(lo, hi)|
    ensures CalculateDays(start, end, dayOf) >= 1
  {
    if dayOf(start) <= dayOf(end) {
      DaysFromToSize(dayOf(start), dayOf(end));
    } else {
      DaysFromToSize(dayOf(end), dayOf(start));
    }
  }

  /** The count is symmetric in its arguments. */
  lemma CalculateDaysSymmetric(start: string, end: string, dayOf: string -> int)
    ensures CalculateDays(start, end, dayOf) == CalculateDays(end, start, dayOf)
  {
  }

  /** The same date as start and end gives one day. */
  lemma CalculateDaysSameDay(date: string, dayOf: string -> int)
    requires date != ""
    ensures CalculateDays(date, date, dayOf) == 1
  {
  }

  /** `calculateDays` does not refuse an end before the start: it counts
      the days back to the start, at least 2. (The form's own constraints
      keep such a range from being submitted; see `Submit`.) */
  lemma CalculateDaysInverted(start: string, end: string, dayOf: string -> int)
    requires start != "" && end != "" && dayOf(end) < dayOf(start)
    ensures CalculateDays(start, end, dayOf) == dayOf(start) - dayOf(end) + 1 >= 2
  {
  }

  /** A form that passes the browser's constraints has a range that
      starts today or later and runs forwards, so its count is the plain
      difference plus one. */
  lemma ConstrainedRangeIsOrdered(f: FormData, dayOf: string -> int, today: string)
    requires MeetsConstraints(f, dayOf, today)
    ensures dayOf(today) <= dayOf(f.startDate) <= dayOf(f.endDate)
    ensures CalculateDays(f.startDate, f.endDate, dayOf) == dayOf(f.endDate) - dayOf(f.startDate) + 1
  {
  }

  /** Whenever submit is enabled, the day count sent is at least 1. */
  lemma EnabledSubmitHasDays(f: FormData, dayOf: string -> int)
    requires !SubmitDisabled(f)
    ensures CalculateDays(f.startDate, f.endDate, dayOf) >= 1
  {
  }

  /** The draft carries the current user's identity and the day count of
      the form's dates, with an empty `applied_date`. */
  lemma DraftCarriesUser(user: User, f: FormData, dayOf: string -> int)
    ensures var d := DraftFor(user, f, dayOf);
      && d.employeeId == user.id && d.employeeName == user.name && d.employeeMail == user.email
      && d.days == CalculateDays(f.startDate, f.endDate, dayOf)
      && d.leaveType == f.leaveType && d.startDate == f.startDate && d.endDate == f.endDate
      && d.reason == f.reason && d.appliedDate == ""
  {
  }
}
