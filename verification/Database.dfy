/** A connection to the tables, with the queries and updates of the models package. */
module Database {
  import opened Wrappers
  import opened Performances
  import opened Shipments
  import opened Store
  import NextInLine
  import Offers

  class Connection {
    var performances: Table
    var tsps: map<Uuid, Tsp>
    var tdls: set<Uuid>
    var blackouts: set<(Uuid, Uuid)>
    var shipments: map<Uuid, ShipmentRow>
    var offers: seq<Offer>

    function Snapshot(): State
      reads this
    {
      State(performances, tsps, tdls, blackouts, shipments, offers)
    }

    constructor At(s: State)
      ensures Snapshot() == s
    {
      performances, tsps, tdls := s.performances, s.tsps, s.tdls;
      blackouts, shipments, offers := s.blackouts, s.shipments, s.offers;
    }

    method Restore(s: State)
      modifies this
      ensures Snapshot() == s
    {
      performances, tsps, tdls := s.performances, s.tsps, s.tdls;
      blackouts, shipments, offers := s.blackouts, s.shipments, s.offers;
    }

    /** The front runner of each band that has one. */
    method GatherNextEligibleTSPPerformances(c: Contest) returns (m: map<int, nat>)
      ensures m == Gathered(performances, c)
    {
      hide NextInBand, FirstOf;
      m := map[];
      for band := 1 to BANDS + 1
        invariant m == map b | 1 <= b < band && NextInBand(performances, c, b).Some? :: NextInBand(performances, c, b).value
      {
        var next := NextInBand(performances, c, band);
        if next.Some? {
          m := m[band := next.value];
        }
      }
    }

    /** The walk over the bands, best first, that picks the next performance. */
    method SelectNextTSPPerformance(m: map<int, nat>) returns (i: nat)
      requires FrontRunners(performances, m) && exists b :: b in m
      ensures i == m[SelectNext(performances, m)]
    {
      var lowest := Lowest(m);
      var previousRounds := Ceil(Rounds(performances[m[lowest]].offerCount, lowest));
      ghost var lagging := Lagging(performances, m, lowest, previousRounds);
      for band := lowest to BANDS + 1
        invariant lagging == Lagging(performances, m, band, previousRounds)
      {
        if band in m {
          var rounds := Rounds(performances[m[band]].offerCount, band);
          if rounds < previousRounds {
            return m[band];
          }
          previousRounds := rounds;
        }
      }
      return m[lowest];
    }

    method NextEligibleTSPPerformance(c: Contest) returns (r: Option<nat>)
      ensures r == Select(performances, c)
      ensures r.Some? ==> NextInLine.IsNext(performances, c, r.value)
      ensures r.None? <==> forall i: nat :: i < |performances| ==>
        !NextInLine.Matches(performances[i], c.tdl, c.bookDate, c.pickupDate, c.enrolled)
    {
      hide NextInLine.IsNext, NextInLine.Matches;
      NextInLine.SomebodyIsNextIff(performances, c);
      if Select(performances, c).Some? {
        NextInLine.SelectIffNext(performances, c, Select(performances, c).value);
      }
      var m := GatherNextEligibleTSPPerformances(c);
      GatheredFacts(performances, c);
      if m.Keys == {} {
        return None;
      }
      assert exists b :: b in m;
      var i := SelectNextTSPPerformance(m);
      return Some(i);
    }

    method IncrementTSPPerformanceOfferCount(i: nat) returns (err: Option<Error>)
      modifies this`performances
      ensures err == if i < |old(performances)| then None else Some(RecordNotFound)
      ensures performances == if i < |old(performances)| then Bump(old(performances), i) else old(performances)
      ensures |performances| == |old(performances)|
      ensures forall j: nat :: j < |performances| ==> performances[j] == old(performances)[j].(
        offerCount := old(performances)[j].offerCount + if j == i then 1 else 0)
    {
      if i >= |performances| {
        return Some(RecordNotFound);
      }
      performances := performances[i := performances[i].(offerCount := performances[i].offerCount + 1)];
      return None;
    }

    method CreateShipmentOffer(id: Uuid, tsp: Uuid, performance: nat, administrative: bool) returns (k: nat)
      modifies this`offers
      ensures offers == old(offers) + [Offer(id, tsp, performance, administrative, None, None)]
      ensures k == |old(offers)|
    {
      k := |offers|;
      offers := offers + [Offer(id, tsp, performance, administrative, None, None)];
    }

    method AwardShipment(id: Uuid) returns (err: Option<Error>)
      modifies this`shipments
      ensures err ==
        if id !in old(shipments) then Some(RecordNotFound)
        else if Permits(old(shipments)[id], Award) then None
        else Some(InvalidTransition)
      ensures shipments == if err.None? then old(shipments)[id := Apply(old(shipments)[id], Award)] else old(shipments)
      ensures err.None? <==> id in old(shipments) && old(shipments)[id].status == Status.Submitted
      ensures shipments ==
        if err.None? then old(shipments)[id := old(shipments)[id].(status := Status.Awarded)] else old(shipments)
    {
      if id !in shipments {
        return Some(RecordNotFound);
      }
      var shipment := new Shipment.Load(shipments[id]);
      err := shipment.Award();
      if err.Some? {
        return Some(InvalidTransition);
      }
      shipments := shipments[id := shipment.Row()];
    }

    method FetchUnofferedShipments() returns (batch: seq<Uuid>)
      ensures Listing(batch, Unoffered(Snapshot()))
      ensures forall id :: id in batch <==>
        && id in shipments && shipments[id].status == Status.Submitted
        && forall k :: 0 <= k < |offers| ==> offers[k].shipment != id
    {
      batch := [];
      var rest := Unoffered(Snapshot());
      while rest != {}
        invariant Listing(batch, Unoffered(Snapshot()) - rest)
        invariant rest <= Unoffered(Snapshot())
        decreases |rest|
      {
        var id :| id in rest;
        assert id !in batch;
        batch := batch + [id];
        rest := rest - {id};
      }
    }

    /** A provider accepts a shipment. Shipment and offer are fetched, changed as objects, and saved in one
        transaction. */
    method AcceptShipmentForTSP(tsp: Uuid, id: Uuid) returns (r: Result<nat, AcceptError>)
      modifies this
      ensures var spec := AcceptForTsp(old(Snapshot()), tsp, id);
        if spec.Ok? then r == Ok(spec.value.1) && Snapshot() == spec.value.0
        else r == Err(spec.error) && Snapshot() == old(Snapshot())
    {
      var found := OfferIndexes(offers, tsp, id);
      if id !in shipments || |found| != 1 {
        return Err(NotFound);
      }
      var shipment := new Shipment.Load(shipments[id]);
      var offer := new Offers.ShipmentOffer.Load(offers[found[0]]);
      var refused := shipment.Accept();
      if refused.Some? {
        return Err(Refused(InvalidTransition));
      }
      refused := offer.Accept();
      if refused.Some? {
        return Err(Refused(InvalidTransition));
      }
      shipments := shipments[id := shipment.Row()];
      offers := offers[found[0] := offer.Row()];
      return Ok(found[0]);
    }
  }
}
