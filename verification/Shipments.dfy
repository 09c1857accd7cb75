/** A shipment and its state machine. */
module Shipments {
  import opened Wrappers
  import Dates

  datatype Status = Draft | Submitted | Awarded | Accepted | Approved | InTransit | Delivered

  datatype SitStatus = Requested | Approved | Denied | InSit | Released | Delivered

  datatype SitLocation = Origin | Destination

  /** Storage in transit. */
  datatype Sit = Sit(status: SitStatus, location: SitLocation, outDate: Option<Day>)

  datatype Error = InvalidTransition | WriteConflict | RecordNotFound

  /** A shipment record as the database keeps it. */
  datatype ShipmentRow = ShipmentRow(
    status: Status,
    tdl: Option<Uuid>,
    bookDate: Option<Day>,
    submitDate: Option<Day>,
    approveDate: Option<Day>,
    requestedPickupDate: Option<Day>,
    actualPackDate: Option<Day>,
    actualPickupDate: Option<Day>,
    actualDeliveryDate: Option<Day>,
    originalPackDate: Option<Day>,
    originalDeliveryDate: Option<Day>,
    estimatedPackDays: Option<int>,
    estimatedTransitDays: Option<int>,
    sits: seq<Sit>)

  datatype Event =
    | Submit(now: Day, date: Day)
    | Award
    | Accept
    | Reject
    | Approve(date: Day)
    | Transport(date: Day)
    | Pack(date: Day)
    | Deliver(date: Day)

  /** Storage that delivering the shipment ends. */
  predicate Deliverable(sit: Sit) {
    sit.status == InSit && sit.location == Destination
  }

  function DeliveredSits(sits: seq<Sit>, date: Day): seq<Sit> {
    seq(|sits|, i requires 0 <= i < |sits| =>
      if Deliverable(sits[i]) then sits[i].(status := SitStatus.Delivered, outDate := Some(date)) else sits[i])
  }

  predicate Permits(r: ShipmentRow, e: Event) {
    match e
    case Submit(_, _) => r.status == Draft
    case Award => r.status == Submitted
    case Accept | Reject => r.status == Awarded
    case Approve(_) => r.status == Accepted && r.approveDate.None?
    case Transport(_) | Pack(_) => r.status == Status.Approved
    case Deliver(_) => r.status == InTransit
  }

  function Apply(r: ShipmentRow, e: Event): ShipmentRow
    requires Permits(r, e)
  {
    match e
    case Submit(now, date) => r.(status := Submitted, bookDate := Some(now), submitDate := Some(date))
    case Award => r.(status := Awarded)
    case Accept => r.(status := Accepted)
    case Reject => r.(status := Submitted)
    case Approve(date) => r.(status := Status.Approved, approveDate := Some(date))
    case Transport(date) => r.(status := InTransit, actualPickupDate := Some(date))
    case Pack(date) => r.(actualPackDate := Some(date))
    case Deliver(date) =>
      r.(status := Status.Delivered, actualDeliveryDate := Some(date), sits := DeliveredSits(r.sits, date))
  }

  /** An event that is not permitted changes nothing. */
  function Fire(r: ShipmentRow, e: Event): ShipmentRow {
    if Permits(r, e) then Apply(r, e) else r
  }

  /** True if a shipment in this state must have a provider that accepted it. */
  predicate RequiresAcceptedTsp(s: Status) {
    s in {Accepted, Status.Approved, InTransit, Status.Delivered}
  }

  /** How far a shipment has come. */
  function Stage(s: Status): nat {
    match s
    case Draft => 0
    case Submitted => 1
    case Awarded => 2
    case Accepted => 3
    case Approved => 4
    case InTransit => 5
    case Delivered => 6
  }

  /** The dates on a record tell its stage. */
  predicate DatesMatchStage(r: ShipmentRow) {
    && (r.submitDate.Some? <==> Stage(r.status) >= 1)
    && (r.approveDate.Some? <==> Stage(r.status) >= 4)
    && (r.actualPackDate.Some? ==> Stage(r.status) >= 4)
    && (r.actualPickupDate.Some? <==> Stage(r.status) >= 5)
    && (r.actualDeliveryDate.Some? <==> Stage(r.status) >= 6)
  }

  function Replay(r: ShipmentRow, events: seq<Event>): ShipmentRow
    decreases |events|
  {
    if events == [] then r else Replay(Fire(r, events[0]), events[1..])
  }

  /** Over any run of events the dates keep telling the stage, so the guard against approving a record
      that already has an approve date never fires on its own; only a rejection moves a record back. */
  lemma {:induction false} DatesTellStage(r: ShipmentRow, events: seq<Event>)
    requires DatesMatchStage(r)
    ensures var end := Replay(r, events);
      && DatesMatchStage(end)
      && (end.status == Accepted ==> forall d :: Permits(end, Approve(d)))
      && ((forall e :: e in events ==> e != Reject) ==> Stage(end.status) >= Stage(r.status))
    decreases |events|
  {
    if events != [] {
      DatesTellStage(Fire(r, events[0]), events[1..]);
      assert (forall e :: e in events ==> e != Reject) ==>
        events[0] in events && forall e :: e in events[1..] ==> e in events;
    }
  }

  lemma {:induction false} ReplayLast(r: ShipmentRow, events: seq<Event>)
    requires events != []
    ensures Replay(r, events) == Fire(Replay(r, events[..|events| - 1]), events[|events| - 1])
    decreases |events|
  {
    hide Fire;
    if |events| > 1 {
      var n := |events| - 1;
      ReplayLast(Fire(r, events[0]), events[1..]);
      assert events[1..][..n - 1] == events[..n][1..];
    } else {
      assert events[..0] == [] && events[1..] == [];
    }
  }

  /** A draft on which nothing has happened yet. */
  predicate Undated(r: ShipmentRow) {
    && r.status == Draft && r.bookDate.None? && r.submitDate.None? && r.approveDate.None?
    && r.actualPackDate.None? && r.actualPickupDate.None? && r.actualDeliveryDate.None?
  }

  /** Event e of the run found the shipment in the given status. */
  ghost predicate Met(r: ShipmentRow, events: seq<Event>, e: Event, status: Status) {
    exists i: nat :: MetAt(r, events, e, status, i)
  }

  ghost predicate MetAt(r: ShipmentRow, events: seq<Event>, e: Event, status: Status, i: nat) {
    i < |events| && events[i] == e && Replay(r, events[..i]).status == status
  }

  /** The last packing of the run that found the shipment approved was on that day. */
  ghost predicate LastPacked(r: ShipmentRow, events: seq<Event>, day: Day) {
    exists i: nat :: LastPackedAt(r, events, day, i)
  }

  ghost predicate LastPackedAt(r: ShipmentRow, events: seq<Event>, day: Day, i: nat) {
    && i < |events| && PackedAt(r, events, i) && events[i] == Pack(day)
    && forall j: nat :: i < j < |events| ==> !PackedAt(r, events, j)
  }

  ghost predicate PackedAt(r: ShipmentRow, events: seq<Event>, i: nat)
    requires i < |events|
  {
    events[i].Pack? && Replay(r, events[..i]).status == Status.Approved
  }

  lemma MetLast(r: ShipmentRow, events: seq<Event>, e: Event, status: Status)
    requires events != []
    ensures var n := |events| - 1;
      Met(r, events, e, status) <==>
        Met(r, events[..n], e, status) || (events[n] == e && Replay(r, events[..n]).status == status)
  {
    hide MetAt;
    var n := |events| - 1;
    MetEarlier(r, events, e, status, n);
    if i: nat :| MetAt(r, events, e, status, i) {
      MetEarlier(r, events, e, status, i);
    }
    if i: nat :| MetAt(r, events[..n], e, status, i) {
      MetEarlier(r, events, e, status, i);
    }
  }

  lemma MetEarlier(r: ShipmentRow, events: seq<Event>, e: Event, status: Status, i: nat)
    requires events != []
    ensures var n := |events| - 1;
      MetAt(r, events, e, status, i) <==>
      if i == n then events[n] == e && Replay(r, events[..n]).status == status else MetAt(r, events[..n], e, status, i)
    ensures !MetAt(r, events[..|events| - 1], e, status, |events| - 1)
  {
    hide Replay;
    assert i < |events| - 1 ==> events[..|events| - 1][..i] == events[..i];
  }

  /** How one event changes the dates of a record whose dates tell its stage. */
  lemma FiredDates(r: ShipmentRow, e: Event, now: Day, day: Day)
    requires DatesMatchStage(r)
    ensures var r' := Fire(r, e);
      && (r'.bookDate == Some(now) && r'.submitDate == Some(day) <==>
            (r.bookDate == Some(now) && r.submitDate == Some(day)) || (e == Submit(now, day) && r.status == Draft))
      && (r'.approveDate == Some(day) <==> r.approveDate == Some(day) || (e == Approve(day) && r.status == Accepted))
      && (r'.actualPackDate == Some(day) <==>
            if e.Pack? && r.status == Status.Approved then e == Pack(day) else r.actualPackDate == Some(day))
      && (r'.actualPickupDate == Some(day) <==>
            r.actualPickupDate == Some(day) || (e == Transport(day) && r.status == Status.Approved))
      && (r'.actualDeliveryDate == Some(day) <==>
            r.actualDeliveryDate == Some(day) || (e == Deliver(day) && r.status == InTransit))
  {
    hide DeliveredSits;
  }

  lemma PackedLast(r: ShipmentRow, events: seq<Event>, day: Day)
    requires events != []
    ensures var n := |events| - 1; LastPacked(r, events, day) <==>
      if PackedAt(r, events, n) then events[n] == Pack(day) else LastPacked(r, events[..n], day)
  {
    hide Replay;
    var n := |events| - 1;
    assert forall i: nat :: i < n ==> events[..n][..i] == events[..i];
    forall i: nat | i < n ensures PackedAt(r, events[..n], i) <==> PackedAt(r, events, i) {
    }
    if PackedAt(r, events, n) {
      assert events[n] == Pack(day) ==> LastPackedAt(r, events, day, n);
    } else {
      if i: nat :| LastPackedAt(r, events[..n], day, i) {
        assert LastPackedAt(r, events, day, i);
      }
      if i: nat :| LastPackedAt(r, events, day, i) {
        assert LastPackedAt(r, events[..n], day, i);
      }
    }
  }

  lemma UndatedFits(r: ShipmentRow)
    requires Undated(r)
    ensures DatesMatchStage(r)
  {
  }

  /** Over every run from a draft without dates, each date on the record is the date of the event that set it, and
      there is none without such an event: book and submit date are those of the one submission that found a
      draft, the approve, pickup and delivery dates those of the approval, transport and delivery that found the
      shipment accepted, approved and in transit, and the pack date that of the last packing that found it
      approved. */
  lemma {:induction false} DatesAreOfEvents(r: ShipmentRow, events: seq<Event>, now: Day, day: Day)
    requires Undated(r)
    ensures var end := Replay(r, events);
      && (end.bookDate == Some(now) && end.submitDate == Some(day) <==> Met(r, events, Submit(now, day), Draft))
      && (end.approveDate == Some(day) <==> Met(r, events, Approve(day), Accepted))
      && (end.actualPackDate == Some(day) <==> LastPacked(r, events, day))
      && (end.actualPickupDate == Some(day) <==> Met(r, events, Transport(day), Status.Approved))
      && (end.actualDeliveryDate == Some(day) <==> Met(r, events, Deliver(day), InTransit))
    decreases |events|
  {
    if events != [] {
      var n := |events| - 1;
      hide Met, LastPacked, Replay, Fire, DatesMatchStage, Stage;
      UndatedFits(r);
      ReplayLast(r, events);
      DatesTellStage(r, events[..n]);
      FiredDates(Replay(r, events[..n]), events[n], now, day);
      DatesAreOfEvents(r, events[..n], now, day);
      MetLast(r, events, Submit(now, day), Draft);
      MetLast(r, events, Approve(day), Accepted);
      PackedLast(r, events, day);
      MetLast(r, events, Transport(day), Status.Approved);
      MetLast(r, events, Deliver(day), InTransit);
    }
  }

  /** A shipment object; its methods change the fields only through the state machine. */
  class Shipment {
    var status: Status
    var tdl: Option<Uuid>
    var bookDate: Option<Day>
    var submitDate: Option<Day>
    var approveDate: Option<Day>
    var requestedPickupDate: Option<Day>
    var actualPackDate: Option<Day>
    var actualPickupDate: Option<Day>
    var actualDeliveryDate: Option<Day>
    var originalPackDate: Option<Day>
    var originalDeliveryDate: Option<Day>
    var estimatedPackDays: Option<int>
    var estimatedTransitDays: Option<int>
    var storageInTransits: seq<Sit>

    function Row(): ShipmentRow
      reads this
    {
      ShipmentRow(status, tdl, bookDate, submitDate, approveDate, requestedPickupDate,
                  actualPackDate, actualPickupDate, actualDeliveryDate,
                  originalPackDate, originalDeliveryDate, estimatedPackDays, estimatedTransitDays, storageInTransits)
    }

    constructor Load(r: ShipmentRow)
      ensures Row() == r
    {
      status, tdl, bookDate, submitDate, approveDate := r.status, r.tdl, r.bookDate, r.submitDate, r.approveDate;
      requestedPickupDate, actualPackDate, actualPickupDate := r.requestedPickupDate, r.actualPackDate, r.actualPickupDate;
      originalPackDate, originalDeliveryDate := r.originalPackDate, r.originalDeliveryDate;
      estimatedPackDays, estimatedTransitDays := r.estimatedPackDays, r.estimatedTransitDays;
      actualDeliveryDate, storageInTransits := r.actualDeliveryDate, r.sits;
    }

    method Submit(hhgSubmitDate: Day, now: Day) returns (err: Option<Error>)
      modifies this
      ensures Row() == Fire(old(Row()), Event.Submit(now, hhgSubmitDate))
      ensures err.None? <==> Permits(old(Row()), Event.Submit(now, hhgSubmitDate))
      ensures err.None? <==> old(status) == Draft
      ensures Row() ==
        if err.None? then old(Row()).(status := Submitted, bookDate := Some(now), submitDate := Some(hhgSubmitDate))
        else old(Row())
    {
      if status != Draft {
        return Some(InvalidTransition);
      }
      bookDate := Some(now);
      submitDate := Some(hhgSubmitDate);
      status := Submitted;
      return None;
    }

    method Award() returns (err: Option<Error>)
      modifies this
      ensures Row() == Fire(old(Row()), Event.Award)
      ensures err.None? <==> Permits(old(Row()), Event.Award)
      ensures err.None? <==> old(status) == Submitted
      ensures Row() == if err.None? then old(Row()).(status := Awarded) else old(Row())
    {
      if status != Submitted {
        return Some(InvalidTransition);
      }
      status := Awarded;
      return None;
    }

    method Accept() returns (err: Option<Error>)
      modifies this
      ensures Row() == Fire(old(Row()), Event.Accept)
      ensures err.None? <==> Permits(old(Row()), Event.Accept)
      ensures err.None? <==> old(status) == Awarded
      ensures Row() == if err.None? then old(Row()).(status := Accepted) else old(Row())
    {
      if status != Awarded {
        return Some(InvalidTransition);
      }
      status := Accepted;
      return None;
    }

    method Reject() returns (err: Option<Error>)
      modifies this
      ensures Row() == Fire(old(Row()), Event.Reject)
      ensures err.None? <==> Permits(old(Row()), Event.Reject)
      ensures err.None? <==> old(status) == Awarded
      ensures Row() == if err.None? then old(Row()).(status := Submitted) else old(Row())
    {
      if status != Awarded {
        return Some(InvalidTransition);
      }
      status := Submitted;
      return None;
    }

    method Approve(date: Day) returns (err: Option<Error>)
      modifies this
      ensures Row() == Fire(old(Row()), Event.Approve(date))
      ensures err.None? <==> Permits(old(Row()), Event.Approve(date))
      ensures err.None? <==> old(status) == Accepted && old(approveDate).None?
      ensures Row() == if err.None? then old(Row()).(status := Status.Approved, approveDate := Some(date)) else old(Row())
    {
      if status != Accepted {
        return Some(InvalidTransition);
      }
      if approveDate.Some? {
        return Some(InvalidTransition);
      }
      status := Status.Approved;
      approveDate := Some(date);
      return None;
    }

    method Transport(date: Day) returns (err: Option<Error>)
      modifies this
      ensures Row() == Fire(old(Row()), Event.Transport(date))
      ensures err.None? <==> Permits(old(Row()), Event.Transport(date))
      ensures err.None? <==> old(status) == Status.Approved
      ensures Row() == if err.None? then old(Row()).(status := InTransit, actualPickupDate := Some(date)) else old(Row())
    {
      if status != Status.Approved {
        return Some(InvalidTransition);
      }
      status := InTransit;
      actualPickupDate := Some(date);
      return None;
    }

    method Pack(date: Day) returns (err: Option<Error>)
      modifies this
      ensures Row() == Fire(old(Row()), Event.Pack(date))
      ensures err.None? <==> Permits(old(Row()), Event.Pack(date))
      ensures err.None? <==> old(status) == Status.Approved
      ensures Row() == if err.None? then old(Row()).(actualPackDate := Some(date)) else old(Row())
    {
      if status != Status.Approved {
        return Some(InvalidTransition);
      }
      actualPackDate := Some(date);
      return None;
    }

    /** The part of BeforeSave that fills in the original pack and delivery dates. */
    method FillOriginalDates(calendar: Dates.Calendar)
      requires Dates.Bounded(calendar) && PositiveDurations(Row())
      modifies this
      ensures if FillsDates(old(Row())) then exists p :: FilledFrom(calendar, old(Row()), Row(), p) else Row() == old(Row())
    {
      if requestedPickupDate.Some? && estimatedPackDays.Some? && estimatedTransitDays.Some? &&
         (originalPackDate.None? || originalDeliveryDate.Some?) {
        var summary := new Dates.MoveDatesSummary();
        summary.CalculateMoveDates(requestedPickupDate.value, estimatedPackDays.value, estimatedTransitDays.value, calendar);
        ghost var p := Dates.Plan(summary.packDays, summary.pickupDays, summary.transitDays, summary.deliveryDays);
        if originalPackDate.None? {
          originalPackDate := Some(summary.packDays[0]);
        }
        if originalDeliveryDate.None? {
          originalDeliveryDate := Some(summary.deliveryDays[0]);
        }
        assert FilledFrom(calendar, old(Row()), Row(), p);
      }
    }

    /** Delivering never stops half way: once the shipment is in transit, no storage refuses. */
    method Deliver(date: Day) returns (err: Option<Error>)
      modifies this
      ensures Row() == Fire(old(Row()), Event.Deliver(date))
      ensures err.None? <==> Permits(old(Row()), Event.Deliver(date))
      ensures err.None? <==> old(status) == InTransit
      ensures Row().(sits := old(storageInTransits)) ==
        if err.None? then old(Row()).(status := Status.Delivered, actualDeliveryDate := Some(date)) else old(Row())
      ensures |storageInTransits| == |old(storageInTransits)|
      ensures forall i :: 0 <= i < |storageInTransits| ==>
        var was := old(storageInTransits)[i];
        storageInTransits[i] ==
          if err.None? && was.status == InSit && was.location == Destination
          then Sit(SitStatus.Delivered, Destination, Some(date)) else was
    {
      if status != InTransit {
        return Some(InvalidTransition);
      }
      status := Status.Delivered;
      actualDeliveryDate := Some(date);
      var sits := DeliverAll(storageInTransits, date);
      storageInTransits := sits;
      return None;
    }
  }

  /** The date arithmetic of a save runs under this guard. */
  predicate FillsDates(r: ShipmentRow) {
    && r.requestedPickupDate.Some? && r.estimatedPackDays.Some? && r.estimatedTransitDays.Some?
    && (r.originalPackDate.None? || r.originalDeliveryDate.Some?)
  }

  /** What validation has checked before a save: durations are positive. */
  predicate PositiveDurations(r: ShipmentRow) {
    && (r.estimatedPackDays.Some? ==> r.estimatedPackDays.value > 0)
    && (r.estimatedTransitDays.Some? ==> r.estimatedTransitDays.value > 0)
  }

  /** r' is r with the missing original dates taken from plan p. */
  ghost predicate FilledFrom(cal: Dates.Calendar, r: ShipmentRow, r': ShipmentRow, p: Dates.Plan)
    requires FillsDates(r) && PositiveDurations(r)
  {
    && Dates.IsPlan(cal, r.requestedPickupDate.value, r.estimatedPackDays.value, r.estimatedTransitDays.value, p)
    && r' == r.(
      originalPackDate := if r.originalPackDate.None? then Some(p.packDays[0]) else r.originalPackDate,
      originalDeliveryDate := if r.originalDeliveryDate.None? then Some(p.deliveryDays[0]) else r.originalDeliveryDate)
  }

  /** A save is meant to leave both original dates set as soon as they can be computed. It does so exactly
      unless the pack date was already set and the delivery date was not. The pack date it sets is the workday
      from which on there are as many workdays before the requested pickup as packing takes; the delivery date
      is the first workday after the transit days that follow the first workday from the requested pickup on. */
  lemma FillingDates(cal: Dates.Calendar, r: ShipmentRow, r': ShipmentRow)
    requires r.requestedPickupDate.Some? && r.estimatedPackDays.Some? && r.estimatedTransitDays.Some? && PositiveDurations(r)
    requires FillsDates(r) ==> exists p :: FilledFrom(cal, r, r', p)
    requires !FillsDates(r) ==> r' == r
    ensures r'.originalPackDate.Some? && r'.originalDeliveryDate.Some? <==>
            !(r.originalPackDate.Some? && r.originalDeliveryDate.None?)
    ensures r.originalPackDate.None? ==>
      && r'.originalPackDate.Some?
      && cal.isWorkday(r'.originalPackDate.value)
      && |Dates.Range(cal, false, r'.originalPackDate.value, r.requestedPickupDate.value)| == r.estimatedPackDays.value
    ensures r.originalDeliveryDate.None? && r'.originalDeliveryDate.Some? ==>
      exists w :: Dates.FirstWorkday(cal, r.requestedPickupDate.value, w)
        && Dates.FirstWorkday(cal, w + r.estimatedTransitDays.value + 1, r'.originalDeliveryDate.value)
    ensures r' == r.(
      originalPackDate := if r.originalPackDate.None? then r'.originalPackDate else r.originalPackDate,
      originalDeliveryDate := if r.originalDeliveryDate.None? then r'.originalDeliveryDate else r.originalDeliveryDate)
  {
    if FillsDates(r) {
      var p :| FilledFrom(cal, r, r', p);
      hide *;
      Dates.PlanWorkdays(cal, r.requestedPickupDate.value, r.estimatedPackDays.value, r.estimatedTransitDays.value, p);
    }
  }

  /** A record with durations and pickup date whose pack date was set by hand. */
  const PACK_DATE_SET := ShipmentRow(
    Draft, None, None, None, None, Some(10), None, None, None, Some(8), None, Some(2), Some(3), [])

  /** Saving it leaves the delivery date unset. */
  lemma DeliveryDateStaysUnset(cal: Dates.Calendar, r': ShipmentRow)
    requires FillsDates(PACK_DATE_SET) ==> exists p :: FilledFrom(cal, PACK_DATE_SET, r', p)
    requires !FillsDates(PACK_DATE_SET) ==> r' == PACK_DATE_SET
    ensures r'.originalPackDate == Some(8) && r'.originalDeliveryDate.None?
  {
    assert !FillsDates(PACK_DATE_SET);
  }

  method DeliverAll(storage: seq<Sit>, date: Day) returns (sits: seq<Sit>)
    ensures sits == DeliveredSits(storage, date)
  {
    sits := [];
    for i := 0 to |storage|
      invariant sits == DeliveredSits(storage, date)[..i]
    {
      var sit := storage[i];
      if sit.status == InSit && sit.location == Destination {
        var delivered := DeliverSit(sit, date);
        // The guard above is the one the storage checks itself, so its error return is unreachable.
        assert delivered.Ok?;
        sits := sits + [delivered.value];
      } else {
        sits := sits + [sit];
      }
    }
  }

  method DeliverSit(sit: Sit, date: Day) returns (r: Result<Sit, Error>)
    ensures r == if Deliverable(sit) then Ok(DeliveredSits([sit], date)[0]) else Err(WriteConflict)
    ensures r == if sit.status == InSit && sit.location == Destination
      then Ok(Sit(SitStatus.Delivered, Destination, Some(date))) else Err(WriteConflict)
  {
    if !(sit.status == InSit && sit.location == Destination) {
      return Err(WriteConflict);
    }
    return Ok(sit.(status := SitStatus.Delivered, outDate := Some(date)));
  }
}
