/** The tables the award queue and the providers work on, and each committed operation as a function
    from one state of the tables to the next. */
module Store {
  import opened Wrappers
  import opened Performances
  import opened OfferLoop
  import opened Shipments

  datatype Tsp = Tsp(enrolled: bool, scac: string, supplierId: Option<string>)

  datatype Offer = Offer(
    shipment: Uuid,
    tsp: Uuid,
    performance: nat,
    administrative: bool,
    accepted: Option<bool>,
    rejectionReason: Option<string>)

  datatype State = State(
    performances: Table,
    tsps: map<Uuid, Tsp>,
    tdls: set<Uuid>,
    blackouts: set<(Uuid, Uuid)>,
    shipments: map<Uuid, ShipmentRow>,
    offers: seq<Offer>)

  datatype AwardError =
    | MissingData
    | NoTdl
    | NoTsps
    | AllBlackedOut(tries: nat)
    | CannotAward(cause: Error)

  function Enrolled(s: State): set<Uuid> {
    set tsp | tsp in s.tsps && s.tsps[tsp].enrolled
  }

  /** Providers with a blackout that covers the shipment. */
  function Dark(s: State, id: Uuid): set<Uuid> {
    set b | b in s.blackouts && b.1 == id :: b.0
  }

  predicate Complete(r: ShipmentRow) {
    r.tdl.Some? && r.bookDate.Some? && r.requestedPickupDate.Some?
  }

  function ContestFor(s: State, r: ShipmentRow): Contest
    requires Complete(r)
  {
    Contest(r.tdl.value, r.bookDate.value, r.requestedPickupDate.value, Enrolled(s))
  }

  /** The offers made to the picks, one each; offers to blacked out providers are administrative. */
  function OffersTo(t: Table, id: Uuid, dark: set<Uuid>, picks: seq<nat>): (r: seq<Offer>)
    requires Rows(t, picks)
    ensures |r| == |picks|
  {
    seq(|picks|, k requires 0 <= k < |picks| =>
      Offer(id, t[picks[k]].tsp, picks[k], t[picks[k]].tsp in dark, None, None))
  }

  /** The tables after the shipment has been offered to the picks. */
  function Offered(s: State, id: Uuid, picks: seq<nat>): State
    requires Rows(s.performances, picks)
  {
    s.(performances := After(s.performances, picks),
       offers := s.offers + OffersTo(s.performances, id, Dark(s, id), picks))
  }

  /** One attempt to offer shipment id; the result is the last offer made, or the reason there is none. */
  function Attempt(s: State, id: Uuid): (State, Result<nat, AwardError>)
    requires id in s.shipments
  {
    var row := s.shipments[id];
    if !Complete(row) then (s, Err(MissingData))
    else if row.tdl.value !in s.tdls then (s, Err(NoTdl))
    else
      var c := ContestFor(s, row);
      if Select(s.performances, c).None? then (s, Err(NoTsps))
      else
        var picks := Visits(s.performances, c, Dark(s, id));
        var s' := Offered(s, id, picks);
        if s.performances[picks[|picks| - 1]].tsp in Dark(s, id) then (s', Err(AllBlackedOut(|picks|)))
        else if !Permits(row, Award) then (s', Err(CannotAward(InvalidTransition)))
        else (s'.(shipments := s.shipments[id := Apply(row, Award)]), Ok(|s'.offers| - 1))
  }

  /** Submitted shipments that have no offer yet. */
  function Unoffered(s: State): set<Uuid> {
    set id | id in s.shipments && s.shipments[id].status == Status.Submitted && forall o <- s.offers :: o.shipment != id
  }

  ghost predicate Listing(batch: seq<Uuid>, ids: set<Uuid>) {
    && (forall i, j :: 0 <= i < j < |batch| ==> batch[i] != batch[j])
    && (forall id :: id in batch <==> id in ids)
  }

  function AttemptAll(s: State, batch: seq<Uuid>): State
    requires forall i :: 0 <= i < |batch| ==> batch[i] in s.shipments
    decreases |batch|
  {
    if batch == [] then s
    else
      var s' := Attempt(s, batch[0]).0;
      AttemptAll(s', batch[1..])
  }

  datatype AcceptError = NotFound | Refused(cause: Error)

  predicate Links(o: Offer, tsp: Uuid, id: Uuid) {
    o.tsp == tsp && o.shipment == id
  }

  /** The positions of the offers that link a provider and a shipment. */
  function OfferIndexes(offers: seq<Offer>, tsp: Uuid, id: Uuid): (r: seq<nat>)
    ensures forall k :: 0 <= k < |r| ==> r[k] < |offers| && Links(offers[r[k]], tsp, id)
    ensures forall i: nat :: i < |offers| && Links(offers[i], tsp, id) ==> i in r
    ensures forall k, l :: 0 <= k < l < |r| ==> r[k] < r[l]
  {
    if offers == [] then []
    else
      var n := |offers| - 1;
      var before := OfferIndexes(offers[..n], tsp, id);
      before + if Links(offers[n], tsp, id) then [n] else []
  }

  /** A provider accepts a shipment: its single offer and the shipment change together, or nothing does. */
  function AcceptForTsp(s: State, tsp: Uuid, id: Uuid): Result<(State, nat), AcceptError> {
    var found := OfferIndexes(s.offers, tsp, id);
    if id !in s.shipments || |found| != 1 then Err(NotFound)
    else
      var k := found[0];
      if !Permits(s.shipments[id], Accept) then Err(Refused(InvalidTransition))
      else if s.offers[k].accepted.Some? then Err(Refused(InvalidTransition))
      else
        Ok((s.(shipments := s.shipments[id := Apply(s.shipments[id], Accept)],
               offers := s.offers[k := s.offers[k].(accepted := Some(true))]), k))
  }

  /** A provider rejects an offer. */
  function RejectOffer(s: State, k: nat, reason: string): State
    requires k < |s.offers|
  {
    if s.offers[k].accepted.Some? then s
    else s.(offers := s.offers[k := s.offers[k].(accepted := Some(false), rejectionReason := Some(reason))])
  }
}
