/** Submitting and cancelling a move: a walk over objects that stops at the first refusal and may share
    reimbursements between personally procured moves. */
module Moves {
  import opened Wrappers
  import opened Shipments
  import opened Lifecycles

  /** Money to be paid to the service member. */
  class Reimbursement {
    var status: ReimbursementStatus
    var requestedDate: Option<Day>

    function Value(): Claim
      reads this
    {
      Claim(status, requestedDate)
    }

    constructor ()
      ensures Value() == NEW_CLAIM
    {
      status, requestedDate := ReimbursementStatus.Draft, None;
    }

    method Request(today: Day) returns (err: Option<Error>)
      modifies this
      ensures err.None? <==> old(status) == ReimbursementStatus.Draft
      ensures Value() == ClaimAfter(old(Value()), RequestClaim(today))
      ensures err.None? ==> status == ReimbursementStatus.Requested && requestedDate == Some(today)
      ensures err.Some? ==> unchanged(this)
    {
      if status != ReimbursementStatus.Draft {
        return Some(InvalidTransition);
      }
      status := ReimbursementStatus.Requested;
      requestedDate := Some(today);
      return None;
    }

    method Approve() returns (err: Option<Error>)
      modifies this`status
      ensures err.None? <==> old(status) == ReimbursementStatus.Requested
      ensures Value() == ClaimAfter(old(Value()), ApproveClaim)
      ensures status == if err.None? then ReimbursementStatus.Approved else old(status)
    {
      if status != ReimbursementStatus.Requested {
        return Some(InvalidTransition);
      }
      status := ReimbursementStatus.Approved;
      return None;
    }

    method Reject() returns (err: Option<Error>)
      modifies this`status
      ensures err.None? <==> old(status) == ReimbursementStatus.Requested
      ensures Value() == ClaimAfter(old(Value()), RejectClaim)
      ensures status == if err.None? then ReimbursementStatus.Rejected else old(status)
    {
      if status != ReimbursementStatus.Requested {
        return Some(InvalidTransition);
      }
      status := ReimbursementStatus.Rejected;
      return None;
    }

    method Pay() returns (err: Option<Error>)
      modifies this`status
      ensures err.None? <==> old(status) == ReimbursementStatus.Approved
      ensures Value() == ClaimAfter(old(Value()), PayClaim)
      ensures status == if err.None? then ReimbursementStatus.Paid else old(status)
    {
      if status != ReimbursementStatus.Approved {
        return Some(InvalidTransition);
      }
      status := ReimbursementStatus.Paid;
      return None;
    }
  }

  class PersonallyProcuredMove {
    var status: PpmStatus
    var submitDate: Option<Day>
    var approveDate: Option<Day>
    var advance: Reimbursement?

    function Value(): Ppm
      reads this
    {
      Ppm(status, submitDate, approveDate)
    }

    constructor (advance: Reimbursement?)
      ensures Value() == NEW_PPM && this.advance == advance
    {
      status, submitDate, approveDate, this.advance := PpmStatus.Draft, None, None, advance;
    }

    predicate CanSubmit()
      reads this
    {
      status == PpmStatus.Draft && submitDate.None?
    }

    predicate CanCancel()
      reads this
    {
      status != PpmStatus.Completed && status != PpmStatus.Canceled
    }

    method Submit(date: Day) returns (err: Option<Error>)
      modifies this
      ensures err.None? <==> PpmPermits(old(Value()), PpmEvent.Submit(date))
      ensures Value() == PpmAfter(old(Value()), PpmEvent.Submit(date)) && unchanged(`advance)
      ensures err.None? <==> old(CanSubmit())
      ensures err.None? ==> Value() == old(Value()).(status := PpmStatus.Submitted, submitDate := Some(date))
      ensures err.Some? ==> unchanged(this)
    {
      if status != PpmStatus.Draft {
        return Some(InvalidTransition);
      }
      if submitDate.Some? {
        return Some(InvalidTransition);
      }
      status := PpmStatus.Submitted;
      submitDate := Some(date);
      return None;
    }

    method Approve(date: Day) returns (err: Option<Error>)
      modifies this
      ensures err.None? <==> PpmPermits(old(Value()), PpmEvent.Approve(date))
      ensures Value() == PpmAfter(old(Value()), PpmEvent.Approve(date)) && unchanged(`advance)
      ensures err.None? <==> (old(status) == PpmStatus.Draft || old(status) == PpmStatus.Submitted) && old(approveDate).None?
      ensures Value() ==
        if err.None? then old(Value()).(status := PpmStatus.Approved, approveDate := Some(date)) else old(Value())
    {
      if !(status == PpmStatus.Submitted || status == PpmStatus.Draft) {
        return Some(InvalidTransition);
      }
      if approveDate.Some? {
        return Some(InvalidTransition);
      }
      status := PpmStatus.Approved;
      approveDate := Some(date);
      return None;
    }

    method RequestPayment() returns (err: Option<Error>)
      modifies this`status
      ensures err.None? <==> PpmPermits(old(Value()), PpmEvent.RequestPayment)
      ensures Value() == PpmAfter(old(Value()), PpmEvent.RequestPayment)
      ensures err.None? <==> old(status) == PpmStatus.Approved || old(status) == PpmStatus.PaymentRequested
      ensures status == if err.None? then PpmStatus.PaymentRequested else old(status)
    {
      if status != PpmStatus.PaymentRequested && status != PpmStatus.Approved {
        return Some(InvalidTransition);
      }
      status := PpmStatus.PaymentRequested;
      return None;
    }

    method Complete() returns (err: Option<Error>)
      modifies this`status
      ensures err.None? <==> PpmPermits(old(Value()), PpmEvent.Complete)
      ensures Value() == PpmAfter(old(Value()), PpmEvent.Complete)
      ensures err.None? <==> old(status) == PpmStatus.PaymentRequested
      ensures status == if err.None? then PpmStatus.Completed else old(status)
    {
      if status != PpmStatus.PaymentRequested {
        return Some(InvalidTransition);
      }
      status := PpmStatus.Completed;
      return None;
    }

    method Cancel() returns (err: Option<Error>)
      modifies this`status
      ensures err.None? <==> PpmPermits(old(Value()), PpmEvent.Cancel)
      ensures Value() == PpmAfter(old(Value()), PpmEvent.Cancel)
      ensures err.None? <==> old(CanCancel())
      ensures status == if err.None? then PpmStatus.Canceled else old(status)
    {
      if status == PpmStatus.Completed || status == PpmStatus.Canceled {
        return Some(InvalidTransition);
      }
      status := PpmStatus.Canceled;
      return None;
    }
  }

  datatype OrderStatus = Draft | Submitted | Approved | Canceled

  class Order {
    var status: OrderStatus

    constructor ()
      ensures status == OrderStatus.Draft
    {
      status := OrderStatus.Draft;
    }

    method Cancel() returns (err: Option<Error>)
      modifies this
      ensures err.None? <==> old(status) != OrderStatus.Canceled
      ensures status == OrderStatus.Canceled
    {
      if status == OrderStatus.Canceled {
        return Some(InvalidTransition);
      }
      status := OrderStatus.Canceled;
      return None;
    }
  }

  /** The elements of a slice occupy distinct storage. */
  predicate Separate<T(==)>(s: seq<T>) {
    forall i, j :: 0 <= i < j < |s| ==> s[i] != s[j]
  }

  function Advances(ppms: seq<PersonallyProcuredMove>): set<Reimbursement>
    reads ppms
  {
    set p | p in ppms && p.advance != null :: p.advance
  }

  /** Whose reimbursement request the walk would still accept at position i: a draft that no earlier move
      shares. */
  predicate CanRequest(ppms: seq<PersonallyProcuredMove>, i: nat)
    requires i < |ppms|
    reads ppms, Advances(ppms)
  {
    ppms[i].advance == null ||
    (ppms[i].advance.status == ReimbursementStatus.Draft && forall j :: 0 <= j < i ==> ppms[j].advance != ppms[i].advance)
  }

  /** Every reimbursement is a draft and belongs to one move only. */
  predicate AdvancesReady(ppms: seq<PersonallyProcuredMove>)
    reads ppms, Advances(ppms)
  {
    && (forall i :: 0 <= i < |ppms| && ppms[i].advance != null ==> ppms[i].advance.status == ReimbursementStatus.Draft)
    && (forall i, j :: 0 <= i < j < |ppms| && ppms[i].advance != null ==> ppms[i].advance != ppms[j].advance)
  }

  lemma AdvancesReadyIff(ppms: seq<PersonallyProcuredMove>)
    ensures AdvancesReady(ppms) <==> forall i: nat :: i < |ppms| ==> CanRequest(ppms, i)
  {
    if forall i: nat :: i < |ppms| ==> CanRequest(ppms, i) {
      forall i, j | 0 <= i < j < |ppms| && ppms[i].advance != null ensures ppms[i].advance != ppms[j].advance {
        assert CanRequest(ppms, i) && CanRequest(ppms, j);
      }
      forall i | 0 <= i < |ppms| && ppms[i].advance != null ensures ppms[i].advance.status == ReimbursementStatus.Draft {
        assert CanRequest(ppms, i);
      }
    }
  }

  /** The first loop of Submit; done is how far it gets. */
  method SubmitPpms(ppms: seq<PersonallyProcuredMove>, date: Day) returns (err: Option<Error>, ghost done: nat)
    requires Separate(ppms)
    modifies ppms
    ensures done <= |ppms| && (err.None? <==> done == |ppms|)
    ensures forall i :: 0 <= i < done ==>
      old(ppms[i].CanSubmit()) && ppms[i].status == PpmStatus.Submitted && ppms[i].submitDate == Some(date)
    ensures done < |ppms| ==> !old(ppms[done].CanSubmit())
    ensures forall i :: done <= i < |ppms| ==> unchanged(ppms[i])
    ensures forall p :: p in ppms ==> p.advance == old(p.advance) && p.approveDate == old(p.approveDate)
  {
    done := 0;
    for i := 0 to |ppms|
      invariant done == i
      invariant forall j :: 0 <= j < i ==>
        old(ppms[j].CanSubmit()) && ppms[j].status == PpmStatus.Submitted && ppms[j].submitDate == Some(date)
      invariant forall j :: i <= j < |ppms| ==> unchanged(ppms[j])
      invariant forall p :: p in ppms ==> p.advance == old(p.advance) && p.approveDate == old(p.approveDate)
    {
      err := ppms[i].Submit(date);
      if err.Some? {
        return;
      }
      done := done + 1;
    }
    err := None;
  }

  /** The second loop of Submit. */
  method SubmitShipments(shipments: seq<Shipment>, date: Day, now: Day) returns (err: Option<Error>, ghost done: nat)
    requires Separate(shipments)
    modifies shipments
    ensures done <= |shipments| && (err.None? <==> done == |shipments|)
    ensures forall i :: 0 <= i < done ==>
      && Permits(old(shipments[i].Row()), Event.Submit(now, date))
      && shipments[i].Row() == Apply(old(shipments[i].Row()), Event.Submit(now, date))
    ensures done < |shipments| ==> !Permits(old(shipments[done].Row()), Event.Submit(now, date))
    ensures forall i :: done <= i < |shipments| ==> shipments[i].Row() == old(shipments[i].Row())
  {
    done := 0;
    for i := 0 to |shipments|
      invariant done == i
      invariant forall j :: 0 <= j < i ==>
        && Permits(old(shipments[j].Row()), Event.Submit(now, date))
        && shipments[j].Row() == Apply(old(shipments[j].Row()), Event.Submit(now, date))
      invariant forall j :: i <= j < |shipments| ==> shipments[j].Row() == old(shipments[j].Row())
    {
      err := shipments[i].Submit(date, now);
      if err.Some? {
        return;
      }
      done := done + 1;
    }
    err := None;
  }

  /** One round of the third loop of Submit. */
  method RequestAdvance(ppms: seq<PersonallyProcuredMove>, i: nat, today: Day) returns (err: Option<Error>)
    requires i < |ppms|
    modifies Advances(ppms)
    ensures err.None? <==> old(ppms[i].advance == null || ppms[i].advance.status == ReimbursementStatus.Draft)
    ensures forall a :: a in Advances(ppms) ==>
      if err.None? && a == ppms[i].advance then a.status == ReimbursementStatus.Requested && a.requestedDate == Some(today)
      else a.status == old(a.status) && a.requestedDate == old(a.requestedDate)
  {
    var advance := ppms[i].advance;
    err := None;
    if advance != null {
      assert advance in Advances(ppms);
      err := advance.Request(today);
    }
  }

  /** The third loop of Submit: it stops at the first reimbursement that is not a draft, which a reimbursement
      shared with an earlier move no longer is. */
  method RequestAdvances(ppms: seq<PersonallyProcuredMove>, today: Day) returns (err: Option<Error>, ghost done: nat)
    modifies Advances(ppms)
    ensures done <= |ppms| && (err.None? <==> done == |ppms|)
    ensures forall i: nat :: i < done ==> old(CanRequest(ppms, i))
    ensures done < |ppms| ==> !old(CanRequest(ppms, done))
    ensures forall a :: a in Advances(ppms) ==>
      if AsksFor(ppms, done, a) then a.status == ReimbursementStatus.Requested && a.requestedDate == Some(today)
      else a.status == old(a.status) && a.requestedDate == old(a.requestedDate)
  {
    hide AsksFor, CanRequest;
    CanRequestIff(ppms);
    AsksForNone(ppms);
    done := 0;
    for i := 0 to |ppms|
      invariant done == i
      invariant forall j: nat :: j < i ==> old(CanRequest(ppms, j))
      invariant forall a :: a in Advances(ppms) ==>
        if AsksFor(ppms, i, a) then a.status == ReimbursementStatus.Requested && a.requestedDate == Some(today)
        else a.status == old(a.status) && a.requestedDate == old(a.requestedDate)
    {
      AsksForOneMore(ppms, i);
      err := RequestAdvance(ppms, i, today);
      if err.Some? {
        return;
      }
      done := done + 1;
    }
    err := None;
  }

  /** One of the first n moves asks for reimbursement a. */
  predicate AsksFor(ppms: seq<PersonallyProcuredMove>, n: nat, a: Reimbursement)
    requires n <= |ppms|
    reads ppms
  {
    exists i :: 0 <= i < n && ppms[i].advance == a
  }

  lemma AsksForNone(ppms: seq<PersonallyProcuredMove>)
    ensures forall a :: a in Advances(ppms) ==> !AsksFor(ppms, 0, a)
  {
  }

  lemma CanRequestIff(ppms: seq<PersonallyProcuredMove>)
    ensures forall n: nat :: n < |ppms| ==> (CanRequest(ppms, n) <==>
      ppms[n].advance == null || (ppms[n].advance.status == ReimbursementStatus.Draft && !AsksFor(ppms, n, ppms[n].advance)))
  {
  }

  lemma AsksForOneMore(ppms: seq<PersonallyProcuredMove>, n: nat)
    requires n < |ppms|
    ensures forall a :: a in Advances(ppms) ==> (AsksFor(ppms, n + 1, a) <==> AsksFor(ppms, n, a) || ppms[n].advance == a)
  {
    forall a | a in Advances(ppms) && AsksFor(ppms, n, a) ensures AsksFor(ppms, n + 1, a) {
      var i :| 0 <= i < n && ppms[i].advance == a;
      assert i < n + 1;
    }
  }

  predicate PpmsReady(ppms: seq<PersonallyProcuredMove>)
    reads ppms
  {
    forall i :: 0 <= i < |ppms| ==> ppms[i].CanSubmit()
  }

  predicate PpmsSubmitted(ppms: seq<PersonallyProcuredMove>, date: Day)
    reads ppms
  {
    forall i :: 0 <= i < |ppms| ==> ppms[i].status == PpmStatus.Submitted && ppms[i].submitDate == Some(date)
  }

  predicate ShipmentsReady(shipments: seq<Shipment>)
    reads shipments
  {
    forall i :: 0 <= i < |shipments| ==> shipments[i].status == Status.Draft
  }

  predicate ShipmentsSubmitted(shipments: seq<Shipment>, date: Day, now: Day)
    reads shipments
  {
    forall i :: 0 <= i < |shipments| ==>
      shipments[i].status == Status.Submitted && shipments[i].bookDate == Some(now) && shipments[i].submitDate == Some(date)
  }

  predicate AdvancesRequested(ppms: seq<PersonallyProcuredMove>, date: Day)
    reads ppms, Advances(ppms)
  {
    forall i :: 0 <= i < |ppms| && ppms[i].advance != null ==>
      ppms[i].advance.status == ReimbursementStatus.Requested && ppms[i].advance.requestedDate == Some(date)
  }

  function RowsOf(shipments: seq<Shipment>): seq<ShipmentRow>
    reads shipments
  {
    seq(|shipments|, i requires 0 <= i < |shipments| reads shipments => shipments[i].Row())
  }

  /** The rows of shipments that have all been submitted. */
  function SubmittedRows(rows: seq<ShipmentRow>, date: Day, now: Day): seq<ShipmentRow>
  {
    seq(|rows|, i requires 0 <= i < |rows| => Fire(rows[i], Event.Submit(now, date)))
  }

  /** The loops of Submit, each told as all or not all. */
  method SubmitEveryPpm(ppms: seq<PersonallyProcuredMove>, date: Day) returns (err: Option<Error>)
    requires Separate(ppms)
    modifies ppms
    ensures err.None? <==> old(PpmsReady(ppms))
    ensures err.None? ==> PpmsSubmitted(ppms, date)
    ensures err.Some? ==> !PpmsReady(ppms)
    ensures forall p :: p in ppms ==> p.advance == old(p.advance) && p.approveDate == old(p.approveDate)
  {
    ghost var done;
    err, done := SubmitPpms(ppms, date);
    assert done < |ppms| ==> unchanged(ppms[done]);
  }

  method SubmitEveryShipment(shipments: seq<Shipment>, date: Day, now: Day) returns (err: Option<Error>)
    requires Separate(shipments)
    modifies shipments
    ensures err.None? <==> old(ShipmentsReady(shipments))
    ensures err.None? ==> RowsOf(shipments) == SubmittedRows(old(RowsOf(shipments)), date, now)
    ensures err.None? ==> ShipmentsSubmitted(shipments, date, now)
  {
    ghost var done;
    err, done := SubmitShipments(shipments, date, now);
    if err.None? {
      forall i | 0 <= i < |shipments|
        ensures shipments[i].status == Status.Submitted && shipments[i].bookDate == Some(now)
        ensures shipments[i].submitDate == Some(date)
      {
        assert shipments[i].Row() == Apply(old(shipments[i].Row()), Event.Submit(now, date));
      }
    }
  }

  method RequestEveryAdvance(ppms: seq<PersonallyProcuredMove>, today: Day) returns (err: Option<Error>)
    modifies Advances(ppms)
    ensures err.None? <==> old(AdvancesReady(ppms))
    ensures err.None? ==> AdvancesRequested(ppms, today)
  {
    ghost var done;
    AdvancesReadyIff(ppms);
    err, done := RequestAdvances(ppms, today);
    forall i | err.None? && 0 <= i < |ppms| && ppms[i].advance != null
      ensures ppms[i].advance.status == ReimbursementStatus.Requested && ppms[i].advance.requestedDate == Some(today)
    {
      assert ppms[i].advance in Advances(ppms) && AsksFor(ppms, |ppms|, ppms[i].advance);
    }
  }

  predicate PpmsCancelable(ppms: seq<PersonallyProcuredMove>)
    reads ppms
  {
    forall i :: 0 <= i < |ppms| ==> ppms[i].CanCancel()
  }

  predicate PpmsCanceled(ppms: seq<PersonallyProcuredMove>)
    reads ppms
  {
    forall i :: 0 <= i < |ppms| ==> ppms[i].status == PpmStatus.Canceled
  }

  method CancelEveryPpm(ppms: seq<PersonallyProcuredMove>) returns (err: Option<Error>)
    requires Separate(ppms)
    modifies ppms
    ensures err.None? <==> old(PpmsCancelable(ppms))
    ensures err.None? ==> PpmsCanceled(ppms)
  {
    for i := 0 to |ppms|
      invariant forall j :: 0 <= j < i ==> old(ppms[j].CanCancel()) && ppms[j].status == PpmStatus.Canceled
      invariant forall j :: i <= j < |ppms| ==> unchanged(ppms[j])
    {
      err := ppms[i].Cancel();
      if err.Some? {
        return;
      }
    }
    err := None;
  }

  /** Submitting the moves themselves says nothing about their reimbursements. */
  twostate lemma AdvancesUntouched(ppms: seq<PersonallyProcuredMove>)
    requires forall p :: p in ppms ==> p.advance == old(p.advance)
    requires forall p :: p in ppms && p.advance != null ==> p.advance.status == old(p.advance.status)
    ensures Advances(ppms) == old(Advances(ppms))
    ensures AdvancesReady(ppms) <==> old(AdvancesReady(ppms))
  {
  }

  datatype MoveStatus = Draft | Submitted | Approved | Canceled

  class Move {
    var status: MoveStatus
    var personallyProcuredMoves: seq<PersonallyProcuredMove>
    var shipments: seq<Shipment>
    var orders: Order
    var cancelReason: Option<string>

    constructor (ppms: seq<PersonallyProcuredMove>, shipments: seq<Shipment>, orders: Order)
      ensures status == MoveStatus.Draft && cancelReason.None?
      ensures personallyProcuredMoves == ppms && this.shipments == shipments && this.orders == orders
    {
      status, cancelReason := MoveStatus.Draft, None;
      personallyProcuredMoves, this.shipments, this.orders := ppms, shipments, orders;
    }

    predicate SlicesSeparate()
      reads this
    {
      Separate(personallyProcuredMoves) && Separate(shipments)
    }

    /** What a successful submission needs: drafts throughout, and no reimbursement shared by two moves. */
    predicate Ready()
      reads this, personallyProcuredMoves, shipments, Advances(personallyProcuredMoves)
    {
      && status == MoveStatus.Draft
      && PpmsReady(personallyProcuredMoves)
      && ShipmentsReady(shipments)
      && AdvancesReady(personallyProcuredMoves)
    }

    /** Submission succeeds exactly when the move is ready, and then every part has moved on with its date
        set. A refusal half way leaves the move submitted, so it can never be submitted again. */
    method Submit(submitDate: Day, now: Day) returns (err: Option<Error>)
      requires SlicesSeparate()
      modifies this`status, personallyProcuredMoves, shipments, Advances(personallyProcuredMoves)
      ensures err.None? <==> old(Ready())
      ensures err.None? ==>
        && PpmsSubmitted(personallyProcuredMoves, submitDate)
        && RowsOf(shipments) == SubmittedRows(old(RowsOf(shipments)), submitDate, now)
        && ShipmentsSubmitted(shipments, submitDate, now)
        && AdvancesRequested(personallyProcuredMoves, now)
      ensures forall p :: p in personallyProcuredMoves ==> p.approveDate == old(p.approveDate) && p.advance == old(p.advance)
      ensures old(status) == MoveStatus.Draft ==> status == MoveStatus.Submitted
      ensures !old(PpmsReady(personallyProcuredMoves)) ==> unchanged(shipments)
      ensures !old(PpmsReady(personallyProcuredMoves)) || !old(ShipmentsReady(shipments)) ==>
        unchanged(Advances(personallyProcuredMoves))
      ensures old(status) != MoveStatus.Draft ==>
        && unchanged(this) && unchanged(personallyProcuredMoves) && unchanged(shipments)
        && unchanged(Advances(personallyProcuredMoves))
    {
      hide PpmsReady, ShipmentsReady, AdvancesReady, PpmsSubmitted, AdvancesRequested, RowsOf, SubmittedRows;
      hide ShipmentsSubmitted;
      if status != MoveStatus.Draft {
        return Some(InvalidTransition);
      }
      status := MoveStatus.Submitted;
      err := SubmitEveryPpm(personallyProcuredMoves, submitDate);
      if err.Some? {
        return;
      }
      err := SubmitEveryShipment(shipments, submitDate, now);
      if err.Some? {
        return;
      }
      AdvancesUntouched(personallyProcuredMoves);
      err := RequestEveryAdvance(personallyProcuredMoves, now);
    }

    /** Cancelling takes every part along or refuses; a move cancelled half way can not be cancelled again. */
    method Cancel(reason: string) returns (err: Option<Error>)
      requires SlicesSeparate()
      modifies this`status, this`cancelReason, personallyProcuredMoves, orders
      ensures err.None? <==>
        && old(status) != MoveStatus.Canceled
        && old(PpmsCancelable(personallyProcuredMoves))
        && old(orders.status) != OrderStatus.Canceled
      ensures err.None? ==> orders.status == OrderStatus.Canceled && PpmsCanceled(personallyProcuredMoves)
      ensures status == MoveStatus.Canceled
      ensures cancelReason == if old(status) != MoveStatus.Canceled && reason != "" then Some(reason) else old(cancelReason)
      ensures !old(PpmsCancelable(personallyProcuredMoves)) ==> unchanged(orders)
      ensures old(status) == MoveStatus.Canceled ==> unchanged(personallyProcuredMoves) && unchanged(orders)
    {
      if status == MoveStatus.Canceled {
        return Some(InvalidTransition);
      }
      status := MoveStatus.Canceled;
      if reason != "" {
        cancelReason := Some(reason);
      }
      err := CancelEveryPpm(personallyProcuredMoves);
      if err.Some? {
        return;
      }
      err := orders.Cancel();
    }
  }

  predicate SharesReimbursement(move: Move)
    reads move, move.personallyProcuredMoves
  {
    |move.personallyProcuredMoves| == 2
    && move.personallyProcuredMoves[0].advance == move.personallyProcuredMoves[1].advance != null
  }

  /** A move of two drafts that share a new reimbursement. */
  method SharingMove() returns (move: Move)
    ensures fresh(move) && fresh(move.personallyProcuredMoves) && fresh(Advances(move.personallyProcuredMoves))
    ensures move.shipments == [] && move.status == MoveStatus.Draft && move.SlicesSeparate()
    ensures SharesReimbursement(move)
    ensures PpmsReady(move.personallyProcuredMoves) && !AdvancesReady(move.personallyProcuredMoves)
  {
    var advance := new Reimbursement();
    var one := new PersonallyProcuredMove(advance);
    var two := new PersonallyProcuredMove(advance);
    var orders := new Order();
    var ppms := [one, two];
    move := new Move(ppms, [], orders);
    assert ppms[0].advance == ppms[1].advance == advance;
    assert forall a :: a in Advances(ppms) ==> a == advance;
  }

  /** Submitting it fails at the second request, leaves the move submitted, and can not be repeated. */
  method SharedReimbursementExample(date: Day, now: Day) returns (move: Move, first: Option<Error>, second: Option<Error>)
    ensures fresh(move) && SharesReimbursement(move)
    ensures first.Some? && second.Some? && move.status == MoveStatus.Submitted
  {
    hide PpmsReady, ShipmentsReady, AdvancesReady, PpmsSubmitted, AdvancesRequested, RowsOf, SubmittedRows, Separate;
    move := SharingMove();
    first := move.Submit(date, now);
    second := SubmitAgain(move, date, now);
  }

  method SubmitAgain(move: Move, date: Day, now: Day) returns (err: Option<Error>)
    requires move.SlicesSeparate() && move.status == MoveStatus.Submitted
    modifies move`status, move.personallyProcuredMoves, move.shipments, Advances(move.personallyProcuredMoves)
    ensures err.Some? && move.status == MoveStatus.Submitted
    ensures forall p :: p in move.personallyProcuredMoves ==> p.advance == old(p.advance)
  {
    hide PpmsReady, ShipmentsReady, AdvancesReady, PpmsSubmitted, AdvancesRequested, RowsOf, SubmittedRows, Separate;
    err := move.Submit(date, now);
  }
}
