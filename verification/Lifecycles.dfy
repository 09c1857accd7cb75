/** The state machines of reimbursements and personally procured moves, and what every run of them keeps. */
module Lifecycles {
  import opened Wrappers

  datatype ReimbursementStatus = Draft | Requested | Approved | Rejected | Paid

  datatype Claim = Claim(status: ReimbursementStatus, requestedDate: Option<Day>)

  datatype ClaimEvent = RequestClaim(today: Day) | ApproveClaim | RejectClaim | PayClaim

  /** An event that is not permitted changes nothing. */
  function ClaimAfter(c: Claim, e: ClaimEvent): Claim {
    match e
    case RequestClaim(today) =>
      if c.status == ReimbursementStatus.Draft then Claim(Requested, Some(today)) else c
    case ApproveClaim => if c.status == Requested then c.(status := ReimbursementStatus.Approved) else c
    case RejectClaim => if c.status == Requested then c.(status := Rejected) else c
    case PayClaim => if c.status == ReimbursementStatus.Approved then c.(status := Paid) else c
  }

  function ClaimReplay(c: Claim, events: seq<ClaimEvent>): Claim {
    if events == [] then c else ClaimAfter(ClaimReplay(c, events[..|events| - 1]), events[|events| - 1])
  }

  const NEW_CLAIM := Claim(ReimbursementStatus.Draft, None)

  ghost predicate WasRequested(events: seq<ClaimEvent>, date: Day) {
    exists i :: 0 <= i < |events| && events[i] == RequestClaim(date)
  }

  ghost predicate WasApproved(events: seq<ClaimEvent>, date: Day) {
    exists i :: 0 <= i < |events| && events[i] == ApproveClaim && WasRequested(events[..i], date)
  }

  ghost predicate WasPaid(events: seq<ClaimEvent>, date: Day) {
    exists i :: 0 <= i < |events| && events[i] == PayClaim && WasApproved(events[..i], date)
  }

  lemma RequestedBefore(events: seq<ClaimEvent>, date: Day)
    requires events != [] && WasRequested(events[..|events| - 1], date)
    ensures WasRequested(events, date)
  {
    var i :| 0 <= i < |events| - 1 && events[..|events| - 1][i] == RequestClaim(date);
    assert events[i] == RequestClaim(date);
  }

  lemma ApprovedBefore(events: seq<ClaimEvent>, date: Day)
    requires events != [] && WasApproved(events[..|events| - 1], date)
    ensures WasApproved(events, date)
  {
    var before := events[..|events| - 1];
    var i :| 0 <= i < |before| && before[i] == ApproveClaim && WasRequested(before[..i], date);
    assert before[..i] == events[..i];
  }

  lemma PaidBefore(events: seq<ClaimEvent>, date: Day)
    requires events != [] && WasPaid(events[..|events| - 1], date)
    ensures WasPaid(events, date)
  {
    var before := events[..|events| - 1];
    var i :| 0 <= i < |before| && before[i] == PayClaim && WasApproved(before[..i], date);
    assert before[..i] == events[..i];
  }

  /** Over every run the requested date is set exactly beyond draft, and it is the date of an actual request;
      an approved claim was requested before it was approved, and a paid one was approved before it was paid. */
  lemma {:induction false} ClaimsArePaidInOrder(events: seq<ClaimEvent>)
    ensures var end := ClaimReplay(NEW_CLAIM, events);
      && (end.requestedDate.Some? <==> end.status != ReimbursementStatus.Draft)
      && (end.status != ReimbursementStatus.Draft ==> WasRequested(events, end.requestedDate.value))
      && (end.status in {ReimbursementStatus.Approved, Paid} ==> WasApproved(events, end.requestedDate.value))
      && (end.status == Paid ==> WasPaid(events, end.requestedDate.value))
    decreases |events|
  {
    if events != [] {
      var n := |events| - 1;
      var before := ClaimReplay(NEW_CLAIM, events[..n]);
      ClaimsArePaidInOrder(events[..n]);
      if before.status != ReimbursementStatus.Draft {
        RequestedBefore(events, before.requestedDate.value);
      }
      if before.status in {ReimbursementStatus.Approved, Paid} {
        ApprovedBefore(events, before.requestedDate.value);
      }
      if before.status == Paid {
        PaidBefore(events, before.requestedDate.value);
      }
    }
  }

  /** Rejected and paid claims are final, and a date once set stays. */
  lemma {:induction false} ClaimsEnd(c: Claim, events: seq<ClaimEvent>)
    requires c.status != ReimbursementStatus.Draft
    ensures var end := ClaimReplay(c, events);
      && end.status != ReimbursementStatus.Draft && end.requestedDate == c.requestedDate
      && (c.status in {Rejected, Paid} ==> end == c)
    decreases |events|
  {
    if events != [] {
      ClaimsEnd(c, events[..|events| - 1]);
    }
  }

  datatype PpmStatus = Draft | Submitted | Approved | PaymentRequested | Completed | Canceled

  datatype Ppm = Ppm(status: PpmStatus, submitDate: Option<Day>, approveDate: Option<Day>)

  datatype PpmEvent = Submit(date: Day) | Approve(date: Day) | RequestPayment | Complete | Cancel

  predicate PpmPermits(p: Ppm, e: PpmEvent) {
    match e
    case Submit(_) => p.status == PpmStatus.Draft && p.submitDate.None?
    case Approve(_) => p.status in {PpmStatus.Draft, Submitted} && p.approveDate.None?
    case RequestPayment => p.status in {PpmStatus.Approved, PaymentRequested}
    case Complete => p.status == PaymentRequested
    case Cancel => p.status != Completed && p.status != Canceled
  }

  function PpmAfter(p: Ppm, e: PpmEvent): Ppm {
    if !PpmPermits(p, e) then p
    else
      match e
      case Submit(date) => p.(status := Submitted, submitDate := Some(date))
      case Approve(date) => p.(status := PpmStatus.Approved, approveDate := Some(date))
      case RequestPayment => p.(status := PaymentRequested)
      case Complete => p.(status := Completed)
      case Cancel => p.(status := Canceled)
  }

  function PpmReplay(p: Ppm, events: seq<PpmEvent>): Ppm {
    if events == [] then p else PpmAfter(PpmReplay(p, events[..|events| - 1]), events[|events| - 1])
  }

  const NEW_PPM := Ppm(PpmStatus.Draft, None, None)

  ghost predicate WasPpmSubmitted(events: seq<PpmEvent>, date: Day) {
    exists i :: 0 <= i < |events| && events[i] == Submit(date)
  }

  ghost predicate WasPpmApproved(events: seq<PpmEvent>, date: Day) {
    exists i :: 0 <= i < |events| && events[i] == Approve(date)
  }

  ghost predicate PaymentWasRequested(events: seq<PpmEvent>, date: Day) {
    exists i :: 0 <= i < |events| && events[i] == RequestPayment && WasPpmApproved(events[..i], date)
  }

  ghost predicate WasCompleted(events: seq<PpmEvent>, date: Day) {
    exists i :: 0 <= i < |events| && events[i] == Complete && PaymentWasRequested(events[..i], date)
  }

  lemma PpmSubmittedBefore(events: seq<PpmEvent>, date: Day)
    requires events != [] && WasPpmSubmitted(events[..|events| - 1], date)
    ensures WasPpmSubmitted(events, date)
  {
    var i :| 0 <= i < |events| - 1 && events[..|events| - 1][i] == Submit(date);
    assert events[i] == Submit(date);
  }

  lemma PpmApprovedBefore(events: seq<PpmEvent>, date: Day)
    requires events != [] && WasPpmApproved(events[..|events| - 1], date)
    ensures WasPpmApproved(events, date)
  {
    var i :| 0 <= i < |events| - 1 && events[..|events| - 1][i] == Approve(date);
    assert events[i] == Approve(date);
  }

  lemma PaymentRequestedBefore(events: seq<PpmEvent>, date: Day)
    requires events != [] && PaymentWasRequested(events[..|events| - 1], date)
    ensures PaymentWasRequested(events, date)
  {
    var before := events[..|events| - 1];
    var i :| 0 <= i < |before| && before[i] == RequestPayment && WasPpmApproved(before[..i], date);
    assert before[..i] == events[..i];
  }

  lemma CompletedBefore(events: seq<PpmEvent>, date: Day)
    requires events != [] && WasCompleted(events[..|events| - 1], date)
    ensures WasCompleted(events, date)
  {
    var before := events[..|events| - 1];
    var i :| 0 <= i < |before| && before[i] == Complete && PaymentWasRequested(before[..i], date);
    assert before[..i] == events[..i];
  }

  /** Over every run the dates are those of a submission and an approval of the run and tell how far a procured
      move has come, so the second guards of Submit and
      Approve never refuse on their own; a completed move was approved, then asked for payment, then completed. */
  lemma {:induction false} PpmsAreCompletedInOrder(events: seq<PpmEvent>)
    ensures var end := PpmReplay(NEW_PPM, events);
      && (end.status == PpmStatus.Draft ==> end.submitDate.None?)
      && (end.status == Submitted ==> end.submitDate.Some?)
      && (end.submitDate.Some? ==> WasPpmSubmitted(events, end.submitDate.value))
      && (end.approveDate.Some? ==> WasPpmApproved(events, end.approveDate.value))
      && (end.status in {PpmStatus.Draft, Submitted} ==> end.approveDate.None?)
      && (end.status in {PpmStatus.Approved, PaymentRequested, Completed} ==>
            end.approveDate.Some? && WasPpmApproved(events, end.approveDate.value))
      && (end.status in {PaymentRequested, Completed} ==> PaymentWasRequested(events, end.approveDate.value))
      && (end.status == Completed ==> WasCompleted(events, end.approveDate.value))
    decreases |events|
  {
    if events != [] {
      var n := |events| - 1;
      var before := PpmReplay(NEW_PPM, events[..n]);
      PpmsAreCompletedInOrder(events[..n]);
      if before.submitDate.Some? {
        PpmSubmittedBefore(events, before.submitDate.value);
      }
      if before.approveDate.Some? {
        PpmApprovedBefore(events, before.approveDate.value);
      }
      if before.status in {PaymentRequested, Completed} {
        PaymentRequestedBefore(events, before.approveDate.value);
      }
      if before.status == Completed {
        CompletedBefore(events, before.approveDate.value);
      }
    }
  }

  /** Completed and cancelled procured moves are final. */
  lemma {:induction false} PpmsEnd(p: Ppm, events: seq<PpmEvent>)
    requires p.status in {Completed, Canceled}
    ensures PpmReplay(p, events) == p
    decreases |events|
  {
    if events != [] {
      PpmsEnd(p, events[..|events| - 1]);
    }
  }
}
