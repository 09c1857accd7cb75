/** The award queue: band performances, then offer every shipment that has no offer yet. */
module AwardQueues {
  import opened Wrappers
  import opened Performances
  import opened OfferLoop
  import opened Shipments
  import opened Store
  import opened Bands
  import opened Banding
  import Protocol
  import opened Database

  /** The loop has offered to `done` and has yet to reach the end of `all`; cur is next in line. */
  ghost predicate Underway(t0: Table, t: Table, c: Contest, dark: set<Uuid>, first: nat, cap: nat,
                           done: seq<nat>, all: seq<nat>, cur: nat) {
    && Rows(t0, done) && t == After(t0, done) && Select(t, c) == Some(cur)
    && (forall k :: 0 <= k < |done| ==> t0[done[k]].tsp in dark)
    && if done != [] && cur == first then all == done
       else Capped(t, c, first, cap) && all == done + Trace(t, c, dark, first, cap)
  }

  /** One pass of the loop: cur is offered the shipment, and either the loop is over or next is in line. */
  lemma OnePass(t0: Table, t: Table, c: Contest, dark: set<Uuid>, first: nat, cap: nat,
                done: seq<nat>, all: seq<nat>, cur: nat) returns (next: nat)
    requires Underway(t0, t, c, dark, first, cap, done, all, cur) && (done == [] || cur != first)
    ensures cur < |t| && cur < |t0| && t[cur].tsp == t0[cur].tsp && Select(Bump(t, cur), c) == Some(next)
    ensures Rows(t0, done) && Rows(t0, done + [cur])
    ensures t0[cur].tsp !in dark ==> all == done + [cur] && Bump(t, cur) == After(t0, done + [cur])
    ensures t0[cur].tsp in dark ==> Underway(t0, Bump(t, cur), c, dark, first, cap, done + [cur], all, next)
    ensures Room(Bump(t, cur), c, cap) < Room(t, c, cap)
  {
    hide Select, Trace, Capped;
    var i;
    i, next := TraceUnfolds(t, c, dark, first, cap);
    AfterAt(t0, done, cur);
    AfterAppend(t0, done, cur);
    if t0[cur].tsp in dark && next != first {
      var rest := Trace(Bump(t, cur), c, dark, first, cap);
      assert done + ([cur] + rest) == done + [cur] + rest;
    }
  }

  /** Back at the first row: everybody visited was blacked out. */
  lemma CameRound(t0: Table, t: Table, c: Contest, dark: set<Uuid>, first: nat, cap: nat,
                  done: seq<nat>, all: seq<nat>, cur: nat)
    requires Underway(t0, t, c, dark, first, cap, done, all, cur) && done != [] && cur == first
    ensures all == done && Rows(t0, done) && t0[done[|done| - 1]].tsp in dark
  {
    hide Select;
  }

  lemma Beginning(t: Table, c: Contest, dark: set<Uuid>)
    requires Select(t, c).Some?
    ensures var first := Select(t, c).value;
      Underway(t, t, c, dark, first, MaxOffers(t, c) + 2, [], Visits(t, c, dark), first)
  {
    hide Select;
    StartIsCapped(t, c);
  }

  /** One more offer, as the tables see it. */
  lemma OfferedOneMore(s: State, id: Uuid, done: seq<nat>, i: nat)
    requires Rows(s.performances, done) && i < |s.performances|
    ensures Rows(s.performances, done + [i])
    ensures Dark(Offered(s, id, done), id) == Dark(s, id) && Offered(s, id, done).shipments == s.shipments
    ensures var before, after := Offered(s, id, done), Offered(s, id, done + [i]);
      var tsp := s.performances[i].tsp;
      after == before.(performances := Bump(before.performances, i),
                       offers := before.offers + [Offer(id, tsp, i, tsp in Dark(s, id), None, None)])
  {
    hide After;
    AfterAppend(s.performances, done, i);
  }

  /** How an attempt that visits `all` ends. */
  lemma AttemptEnds(s: State, id: Uuid, all: seq<nat>)
    requires id in s.shipments && Complete(s.shipments[id]) && s.shipments[id].tdl.value in s.tdls
    requires var c := ContestFor(s, s.shipments[id]);
      Select(s.performances, c).Some? && all == Visits(s.performances, c, Dark(s, id))
    ensures Rows(s.performances, all) && all != [] && s == Offered(s, id, [])
    ensures var s', row := Offered(s, id, all), s.shipments[id];
      Attempt(s, id) ==
        if s.performances[all[|all| - 1]].tsp in Dark(s, id) then (s', Err(AllBlackedOut(|all|)))
        else if !Permits(row, Award) then (s', Err(CannotAward(InvalidTransition)))
        else (s'.(shipments := s.shipments[id := Apply(row, Award)]), Ok(|s'.offers| - 1))
  {
    hide Select;
    assert s.offers + OffersTo(s.performances, id, Dark(s, id), []) == s.offers;
  }

  ghost predicate Begun(s0: State, id: Uuid, c: Contest, first: nat) {
    && id in s0.shipments && Complete(s0.shipments[id]) && s0.shipments[id].tdl.value in s0.tdls
    && c == ContestFor(s0, s0.shipments[id]) && Select(s0.performances, c) == Some(first)
  }

  ghost predicate MidLoop(s0: State, t: Table, id: Uuid, c: Contest, first: nat, done: seq<nat>, cur: nat) {
    && Select(s0.performances, c).Some?
    && Underway(s0.performances, t, c, Dark(s0, id), first, MaxOffers(s0.performances, c) + 2,
                done, Visits(s0.performances, c, Dark(s0, id)), cur)
  }

  lemma LoopBegins(s0: State, id: Uuid, c: Contest, first: nat)
    requires Begun(s0, id, c, first)
    ensures MidLoop(s0, s0.performances, id, c, first, [], first) && s0 == Offered(s0, id, [])
  {
    hide Select, Visits, Attempt, Underway;
    Beginning(s0.performances, c, Dark(s0, id));
    AttemptEnds(s0, id, Visits(s0.performances, c, Dark(s0, id)));
  }

  lemma LoopGivesUp(s0: State, t: Table, id: Uuid, c: Contest, first: nat, done: seq<nat>, cur: nat)
    requires Begun(s0, id, c, first) && MidLoop(s0, t, id, c, first, done, cur) && done != [] && cur == first
    ensures Rows(s0.performances, done) && Attempt(s0, id) == (Offered(s0, id, done), Err(AllBlackedOut(|done|)))
  {
    hide Select, Visits, Attempt, Underway, Offered;
    var dark := Dark(s0, id);
    var all := Visits(s0.performances, c, dark);
    CameRound(s0.performances, t, c, dark, first, MaxOffers(s0.performances, c) + 2, done, all, cur);
    AttemptEnds(s0, id, all);
  }

  function BandsIn(t: Table): seq<Option<int>> {
    seq(|t|, i requires 0 <= i < |t| => t[i].qualityBand)
  }

  lemma BandsAsAStep(t: Table, t': Table)
    requires OnlyBandsDiffer(t, t')
    ensures t' == Protocol.WithBands(t, BandsIn(t'))
  {
  }

  /** s' is what a run leaves: bands first, then an attempt for every shipment without an offer. */
  ghost predicate PassAfterBanding(s: State, bands: seq<Option<int>>, batch: seq<Uuid>, s': State) {
    && |bands| == |s.performances|
    && Banded(s.performances, Protocol.WithBands(s.performances, bands), Enrolled(s))
    && var s1 := Protocol.Next(s, Protocol.AssignBands(bands));
      && Listing(batch, Unoffered(s1)) && (forall i :: 0 <= i < |batch| ==> batch[i] in s1.shipments)
      && s' == AttemptAll(s1, batch)
  }

  ghost predicate IsQueueRun(s: State, s': State) {
    exists bands, batch :: PassAfterBanding(s, bands, batch, s')
  }

  /** A run of the queue is a run of the protocol, so everything proved of protocol runs holds of it. */
  lemma QueueRunIsARun(s: State, s': State) returns (steps: seq<Protocol.Step>)
    requires IsQueueRun(s, s')
    ensures s' == Protocol.Execute(s, steps)
  {
    hide Attempt;
    var bands, batch :| PassAfterBanding(s, bands, batch, s');
    var s1 := Protocol.Next(s, Protocol.AssignBands(bands));
    forall i | 0 <= i < |batch| ensures batch[i] in Unoffered(s1) {
      assert batch[i] in batch;
    }
    Protocol.BatchIsARun(s1, batch);
    var attempts := seq(|batch|, i requires 0 <= i < |batch| => Protocol.TryToOffer(batch[i]));
    steps := [Protocol.AssignBands(bands)] + attempts;
    assert steps[1..] == attempts;
  }

  class AwardQueue {
    var db: Connection

    constructor (db: Connection)
      ensures this.db == db
    {
      this.db := db;
    }

    method ShipmentWithinBlackoutDates(tsp: Uuid, id: Uuid) returns (r: bool)
      ensures r <==> tsp in Dark(db.Snapshot(), id)
    {
      r := (tsp, id) in db.blackouts;
      assert r ==> tsp in Dark(db.Snapshot(), id) by {
        if r {
          assert (tsp, id) in db.blackouts && (tsp, id).1 == id && (tsp, id).0 == tsp;
        }
      }
    }

    method AttemptShipmentOffer(id: Uuid) returns (r: Result<nat, AwardError>)
      requires id in db.shipments
      modifies db
      ensures (db.Snapshot(), r) == Attempt(old(db.Snapshot()), id)
    {
      var shipment := db.shipments[id];
      if shipment.tdl.None? || shipment.bookDate.None? || shipment.requestedPickupDate.None? {
        return Err(MissingData);
      }
      if shipment.tdl.value !in db.tdls {
        return Err(NoTdl);
      }
      var c := ContestFor(db.Snapshot(), shipment);
      var firstEligible := db.NextEligibleTSPPerformance(c);
      if firstEligible.None? {
        return Err(NoTsps);
      }
      r := OfferLoop(id, c, firstEligible.value);
    }

    /** Offer the shipment to row i, and award it unless the offer is administrative. */
    method OfferTo(id: Uuid, i: nat) returns (administrative: bool, offer: nat, err: Option<Error>)
      requires i < |db.performances| && id in db.shipments
      modifies db
      ensures var s, tsp := old(db.Snapshot()), old(db.performances)[i].tsp;
        var s' := s.(performances := Bump(s.performances, i),
                     offers := s.offers + [Offer(id, tsp, i, administrative, None, None)]);
        && (administrative <==> tsp in Dark(s, id)) && offer == |s.offers|
        && err == (if administrative || Permits(s.shipments[id], Award) then None else Some(InvalidTransition))
        && db.Snapshot() ==
           if administrative || err.Some? then s' else s'.(shipments := s.shipments[id := Apply(s.shipments[id], Award)])
    {
      var tsp := db.performances[i].tsp;
      administrative := ShipmentWithinBlackoutDates(tsp, id);
      offer := db.CreateShipmentOffer(id, tsp, i, administrative);
      err := db.IncrementTSPPerformanceOfferCount(i);
      if !administrative {
        err := db.AwardShipment(id);
      }
    }

    /** One pass of the loop. */
    method OfferOnce(id: Uuid, cur: nat, ghost s0: State, ghost c: Contest, ghost first: nat, ghost done: seq<nat>)
      returns (administrative: bool, offer: nat, err: Option<Error>)
      requires Begun(s0, id, c, first) && Rows(s0.performances, done) && (done == [] || cur != first)
      requires db.Snapshot() == Offered(s0, id, done) && MidLoop(s0, db.performances, id, c, first, done, cur)
      modifies db
      ensures Rows(s0.performances, done + [cur])
      ensures !administrative ==>
        Attempt(s0, id) == (db.Snapshot(), if err.None? then Ok(offer) else Err(CannotAward(err.value)))
      ensures administrative ==>
        && err.None? && db.Snapshot() == Offered(s0, id, done + [cur]) && Select(db.performances, c).Some?
        && MidLoop(s0, db.performances, id, c, first, done + [cur], Select(db.performances, c).value)
      ensures var cap := MaxOffers(s0.performances, c) + 2;
        Room(db.performances, c, cap) < Room(old(db.performances), c, cap)
    {
      hide Select, Visits, Attempt, Offered, Underway, Dark, Room, MaxOffers, Bump, Apply, Permits, Complete, ContestFor;
      ghost var t0, dark, cap := s0.performances, Dark(s0, id), MaxOffers(s0.performances, c) + 2;
      ghost var all := Visits(t0, c, dark);
      ghost var next := OnePass(t0, db.performances, c, dark, first, cap, done, all, cur);
      OfferedOneMore(s0, id, done, cur);
      AttemptEnds(s0, id, all);
      administrative, offer, err := OfferTo(id, cur);
    }

    method OfferLoop(id: Uuid, c: Contest, first: nat) returns (r: Result<nat, AwardError>)
      requires id in db.shipments && Begun(db.Snapshot(), id, c, first)
      modifies db
      ensures (db.Snapshot(), r) == Attempt(old(db.Snapshot()), id)
    {
      hide Select, Visits, Attempt, Offered, Room, MaxOffers, Begun, MidLoop;
      var cur := first;
      var found := false;
      var loopCount := 0;
      var offer := 0;
      ghost var s0, done := db.Snapshot(), [];
      LoopBegins(s0, id, c, first);
      while !found
        invariant found ==> (db.Snapshot(), Result<nat, AwardError>.Ok(offer)) == Attempt(s0, id)
        invariant Rows(s0.performances, done) && |done| == loopCount
        invariant !found ==> db.Snapshot() == Offered(s0, id, done)
        invariant !found ==> MidLoop(s0, db.performances, id, c, first, done, cur)
        decreases Room(db.performances, c, MaxOffers(s0.performances, c) + 2)
      {
        if loopCount != 0 && cur == first {
          LoopGivesUp(s0, db.performances, id, c, first, done, cur);
          return Err(AllBlackedOut(loopCount));
        }
        loopCount := loopCount + 1;
        var isAdministrativeShipment, err;
        isAdministrativeShipment, offer, err := OfferOnce(id, cur, s0, c, first, done);
        done := done + [cur];
        if !isAdministrativeShipment {
          if err.Some? {
            return Err(CannotAward(err.value));
          }
          found := true;
        } else {
          var again := db.NextEligibleTSPPerformance(c);
          cur := again.value;
        }
      }
      return Ok(offer);
    }

    /** Attempts every shipment that had no offer when the pass began. */
    method AssignShipments() returns (ghost batch: seq<Uuid>)
      modifies db
      ensures Listing(batch, Unoffered(old(db.Snapshot())))
      ensures forall i :: 0 <= i < |batch| ==> batch[i] in old(db.shipments)
      ensures db.Snapshot() == AttemptAll(old(db.Snapshot()), batch)
    {
      hide Attempt;
      ghost var s0 := db.Snapshot();
      var ids := db.FetchUnofferedShipments();
      batch := ids;
      forall i | 0 <= i < |ids| ensures ids[i] in s0.shipments {
        assert ids[i] in ids;
        assert ids[i] in Unoffered(s0);
      }
      for i := 0 to |ids|
        invariant db.shipments.Keys == s0.shipments.Keys
        invariant AttemptAll(s0, ids) == AttemptAll(db.Snapshot(), ids[i..])
      {
        assert ids[i..][0] == ids[i] && ids[i..][1..] == ids[i + 1..];
        ghost var _ := Protocol.AttemptShape(db.Snapshot(), ids[i]);
        var _ := AttemptShipmentOffer(ids[i]);
      }
      assert ids[|ids|..] == [];
    }

    method AssignPerformanceBandsForGroup(g: Group) returns (ghost perfs: seq<nat>, ghost shares: seq<nat>)
      modifies db`performances
      ensures BandingList(old(db.performances), Enrolled(db.Snapshot()), g, |old(db.performances)|, perfs)
      ensures FairShares(shares, |perfs|) && db.performances == Assigned(old(db.performances), perfs, shares, |perfs|)
    {
      hide Assigned, BandAt, Sum, BandingList, FairShares;
      ghost var t0 := db.performances;
      var list := FetchForBanding(db.performances, Enrolled(db.Snapshot()), g);
      var bands := GetTSPsPerBand(|list|);
      perfs, shares := list, bands[..];
      AssignmentBegins(t0, g, Enrolled(db.Snapshot()), perfs, shares);
      var perfsIndex := 0;
      for band := 0 to bands.Length
        invariant bands[..] == shares && 0 <= perfsIndex == Sum(shares[..band]) <= |perfs|
        invariant db.performances == Assigned(t0, perfs, shares, perfsIndex)
      {
        ShareOf(shares, band);
        for i := 0 to bands[band]
          invariant bands[..] == shares && 0 <= perfsIndex == Sum(shares[..band]) + i <= |perfs|
          invariant db.performances == Assigned(t0, perfs, shares, perfsIndex)
        {
          AssignedNext(t0, perfs, shares, perfsIndex, band);
          AssignQualityBandToTSPPerformance(band + 1, list[perfsIndex]);
          perfsIndex := perfsIndex + 1;
        }
      }
      assert shares[..|shares|] == shares;
    }

    method AssignQualityBandToTSPPerformance(band: int, i: nat)
      requires i < |db.performances|
      modifies db`performances
      ensures db.performances == old(db.performances)[i := old(db.performances)[i].(qualityBand := Some(band))]
    {
      db.performances := db.performances[i := db.performances[i].(qualityBand := Some(band))];
    }

    /** The groups that have an enrolled provider without a band. */
    method FetchUnbandedTSPPerformanceGroups() returns (groups: seq<Group>)
      ensures forall g :: g in groups <==> NeedsBanding(db.performances, Enrolled(db.Snapshot()), |db.performances|, g)
      ensures forall k, l :: 0 <= k < l < |groups| ==> groups[k] != groups[l]
    {
      groups := [];
      for n := 0 to |db.performances|
        invariant forall g :: g in groups <==> NeedsBanding(db.performances, Enrolled(db.Snapshot()), n, g)
        invariant forall k, l :: 0 <= k < l < |groups| ==> groups[k] != groups[l]
      {
        OneRowMore(db.performances, Enrolled(db.Snapshot()), n);
        var g := GroupOf(db.performances[n]);
        if Unbanded(db.performances, Enrolled(db.Snapshot()), n) && g !in groups {
          groups := groups + [g];
        }
      }
    }

    /** Each group that has an enrolled provider without a band is banded as a whole, and nothing else
        changes. */
    method AssignPerformanceBands()
      modifies db`performances
      ensures Banded(old(db.performances), db.performances, Enrolled(db.Snapshot()))
    {
      hide Assigned, BandingList, FairShares, GroupsBanded, Banded, NeedsBanding;
      ghost var t0, enrolled := db.performances, Enrolled(db.Snapshot());
      var groups := FetchUnbandedTSPPerformanceGroups();
      NoGroupBanded(t0, enrolled, groups);
      for k := 0 to |groups|
        invariant enrolled == Enrolled(db.Snapshot()) && GroupsBanded(t0, db.performances, enrolled, groups, k)
      {
        ghost var before := db.performances;
        ghost var perfs, shares := AssignPerformanceBandsForGroup(groups[k]);
        GroupsDifferInBands(t0, before, enrolled, groups, k);
        AssignmentTouches(t0, before, enrolled, groups[k], perfs, shares);
        OwnGroupBanded(t0, before, enrolled, groups[k], perfs, shares);
        OneGroupMore(t0, before, db.performances, enrolled, groups, k);
      }
      AllGroupsBanded(t0, db.performances, enrolled, groups);
    }

    /** One run inside one transaction: if the lock is not granted nothing changes, and either way the queue
        has its own connection back. */
    method Run(lockGranted: bool) returns (ok: bool)
      modifies this`db, db
      ensures db == old(db) && ok == lockGranted
      ensures if ok then IsQueueRun(old(db.Snapshot()), db.Snapshot()) else db.Snapshot() == old(db.Snapshot())
    {
      ghost var s0 := db.Snapshot();
      var originalDB := db;
      var tx := new Connection.At(db.Snapshot());
      db := tx;
      if !lockGranted {
        db := originalDB;
        return false;
      }
      AssignPerformanceBands();
      hide GroupBanded, NeedsBanding;
      BandsAsAStep(s0.performances, db.performances);
      ghost var s1 := db.Snapshot();
      ghost var batch := AssignShipments();
      originalDB.Restore(tx.Snapshot());
      db := originalDB;
      assert PassAfterBanding(s0, BandsIn(s1.performances), batch, db.Snapshot());
      return true;
    }
  }
}
