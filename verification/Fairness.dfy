/** What balanced offer counts buy the shipments of one pass of the queue. */
module Fairness {
  import opened Wrappers
  import opened Performances
  import opened OfferLoop
  import opened Rotation
  import opened Shipments
  import opened Store
  import Protocol

  /** The same performances compete in both contests. */
  ghost predicate Alike(t: Table, c: Contest, d: Contest) {
    forall i: nat :: i < |t| ==> (Competes(t, c, i) <==> Competes(t, d, i))
  }

  /** The shipment is waiting, its data are complete, it competes for the providers of contest c, and one of
      them is free. */
  ghost predicate Placeable(s: State, c: Contest, id: Uuid) {
    && id in s.shipments && id in Unoffered(s)
    && Complete(s.shipments[id]) && s.shipments[id].tdl.value in s.tdls
    && Alike(s.performances, ContestFor(s, s.shipments[id]), c)
    && SomeoneFree(s.performances, c, Dark(s, id))
  }

  /** Nothing that decides who competes has changed. */
  ghost predicate OnlyCountsDiffer(t: Table, t': Table) {
    |t| == |t'| && forall i :: 0 <= i < |t| ==> t'[i] == t[i].(offerCount := t'[i].offerCount)
  }

  lemma AfterChangesCounts(t: Table, picks: seq<nat>)
    requires Rows(t, picks)
    ensures OnlyCountsDiffer(t, After(t, picks))
  {
    forall i | 0 <= i < |t| ensures After(t, picks)[i] == t[i].(offerCount := After(t, picks)[i].offerCount) {
      AfterAt(t, picks, i);
    }
  }

  /** One balanced attempt places the shipment and leaves the counts balanced. */
  lemma BalancedAttempt(s: State, c: Contest, id: Uuid)
    requires Placeable(s, c, id) && Staircase(s.performances, c)
    ensures var (s', r) := Attempt(s, id);
      && r.Ok? && s'.shipments == s.shipments[id := Apply(s.shipments[id], Award)]
      && Staircase(s'.performances, c) && OnlyCountsDiffer(s.performances, s'.performances)
      && (s'.tsps, s'.tdls, s'.blackouts) == (s.tsps, s.tdls, s.blackouts)
      && s.offers <= s'.offers && forall o :: o in s'.offers[|s.offers|..] ==> o.shipment == id
  {
    hide Select, Visits, After;
    var t, d, dark := s.performances, ContestFor(s, s.shipments[id]), Dark(s, id);
    var i: nat :| i < |t| && Competes(t, c, i) && t[i].tsp !in dark;
    assert Competes(t, d, i) && i in Competitors(t, d);
    assert Select(t, d).Some?;
    assert Staircase(t, d);
    var picks := Visits(t, d, dark);
    StairsFindTheFree(t, d, dark);
    AfterChangesCounts(t, picks);
    VisitsKeepStairs(t, d, dark);
    StairsForAlike(t, After(t, picks), d, c);
    assert (s.offers + OffersTo(t, id, dark, picks))[|s.offers|..] == OffersTo(t, id, dark, picks);
  }

  lemma VisitsKeepStairs(t: Table, c: Contest, dark: set<Uuid>)
    requires Select(t, c).Some? && Staircase(t, c)
    ensures Staircase(After(t, Visits(t, c, dark)), c)
  {
    hide Select, Staircase, After, Trace, Capped, Competitors;
    StartIsCapped(t, c);
    TraceKeepsStairs(t, c, dark, Select(t, c).value, MaxOffers(t, c) + 2);
  }

  lemma StairsForAlike(t: Table, t': Table, d: Contest, c: Contest)
    requires Alike(t, d, c) && OnlyCountsDiffer(t, t') && Staircase(t', d)
    ensures Staircase(t', c)
  {
    forall i: nat | i < |t'| && Competes(t', c, i) ensures Competes(t', d, i) {
      assert Competes(t, c, i) && Competes(t, d, i);
    }
  }

  /** Another shipment that could be placed still can be. */
  lemma StillPlaceable(s: State, s': State, c: Contest, id: Uuid, x: Uuid)
    requires Placeable(s, c, x) && x != id
    requires x in s'.shipments && s'.shipments[x] == s.shipments[x]
    requires OnlyCountsDiffer(s.performances, s'.performances)
    requires (s'.tsps, s'.tdls, s'.blackouts) == (s.tsps, s.tdls, s.blackouts)
    requires s.offers <= s'.offers && forall o :: o in s'.offers[|s.offers|..] ==> o.shipment == id
    ensures Placeable(s', c, x)
  {
    var t, t' := s.performances, s'.performances;
    var d := ContestFor(s, s.shipments[x]);
    assert ContestFor(s', s'.shipments[x]) == d && Dark(s', x) == Dark(s, x);
    assert forall i: nat, e: Contest :: i < |t| ==> (Competes(t', e, i) <==> Competes(t, e, i));
    var i: nat :| i < |t| && Competes(t, c, i) && t[i].tsp !in Dark(s, x);
    assert Competes(t', c, i) && t'[i].tsp !in Dark(s', x);
    forall o | o in s'.offers ensures o.shipment != x {
      assert s'.offers == s.offers + s'.offers[|s.offers|..];
    }
  }

  /** When the counts of the providers that compete for a batch of waiting shipments are balanced and each
      shipment has a free provider, one pass of the queue awards every shipment of the batch, and leaves the
      counts balanced for the next pass. */
  lemma {:induction false} BalancedPass(s: State, c: Contest, batch: seq<Uuid>)
    requires Staircase(s.performances, c)
    requires forall i, j :: 0 <= i < j < |batch| ==> batch[i] != batch[j]
    requires forall i :: 0 <= i < |batch| ==> batch[i] in s.shipments && Placeable(s, c, batch[i])
    ensures var end := AttemptAll(s, batch);
      && Staircase(end.performances, c)
      && end.shipments.Keys == s.shipments.Keys
      && (forall i :: 0 <= i < |batch| ==> end.shipments[batch[i]].status == Status.Awarded)
      && (forall id :: id in s.shipments && id !in batch ==> end.shipments[id] == s.shipments[id])
    decreases |batch|
  {
    hide Attempt, Staircase, Placeable;
    if batch != [] {
      var id, rest := batch[0], batch[1..];
      var s' := Attempt(s, id).0;
      BalancedAttempt(s, c, id);
      forall i | 0 <= i < |rest| ensures rest[i] in s'.shipments && Placeable(s', c, rest[i]) {
        StillPlaceable(s, s', c, id, batch[i + 1]);
      }
      BalancedPass(s', c, rest);
      assert batch == [id] + rest;
      assert id !in rest;
    }
  }

  /** No performance competes in both contests. */
  ghost predicate Apart(t: Table, c: Contest, d: Contest) {
    forall i: nat :: i < |t| ==> !(Competes(t, c, i) && Competes(t, d, i))
  }

  /** If the step assigns bands, it leaves those of the contest's distribution list as they are; if it offers a
      shipment, then either to the providers of contest c or to none of them. */
  ghost predicate StepFits(s: State, c: Contest, step: Protocol.Step) {
    && (step.AssignBands? && |step.bands| == |s.performances| ==>
          forall i: nat :: i < |s.performances| && s.performances[i].tdl == c.tdl ==>
            step.bands[i] == s.performances[i].qualityBand)
    && (step.TryToOffer? && step.id in s.shipments && Complete(s.shipments[step.id]) ==>
          var d := ContestFor(s, s.shipments[step.id]);
          Alike(s.performances, d, c) || Apart(s.performances, d, c))
  }

  ghost predicate RunFits(s: State, c: Contest, steps: seq<Protocol.Step>)
    decreases |steps|
  {
    steps == [] || (StepFits(s, c, steps[0]) && RunFits(Protocol.Next(s, steps[0]), c, steps[1..]))
  }

  lemma VisitsLeaveOthers(t: Table, d: Contest, c: Contest, dark: set<Uuid>)
    requires Competitors(t, d) != {} && Apart(t, d, c) && Staircase(t, c)
    ensures Staircase(After(t, Visits(t, d, dark)), c)
  {
    hide Select, Visits, Tour;
    var picks: seq<nat> := Visits(t, d, dark);
    VisitsBeginTheTour(t, d, dark);
    TourIsDue(t, d);
    forall i: nat | i < |t| && Competes(t, c, i) ensures After(t, picks)[i] == t[i] {
      AfterAt(t, picks, i);
      assert forall k: nat :: k < |picks| ==> Tour(t, d)[k] == picks[k];
      assert i !in picks;
    }
    AfterChangesCounts(t, picks);
    CompetesAlike(t, After(t, picks), c);
    SameRowsSameStairs(t, After(t, picks), c);
  }

  lemma CompetesAlike(t: Table, t': Table, c: Contest)
    requires OnlyCountsDiffer(t, t')
    ensures forall i: nat :: Competes(t', c, i) <==> Competes(t, c, i)
  {
    forall i: nat | i < |t| ensures Competes(t', c, i) <==> Competes(t, c, i) {
      assert t'[i] == t[i].(offerCount := t'[i].offerCount);
    }
  }

  lemma BandingKeepsStairs(s: State, c: Contest, bands: seq<Option<int>>)
    requires Staircase(s.performances, c) && StepFits(s, c, Protocol.AssignBands(bands)) && |bands| == |s.performances|
    ensures Staircase(Protocol.WithBands(s.performances, bands), c)
  {
    var t, t' := s.performances, Protocol.WithBands(s.performances, bands);
    forall i: nat | i < |t| && Competes(t', c, i) ensures Competes(t, c, i) && t'[i] == t[i] {
      assert bands[i] == t[i].qualityBand;
    }
    SameRowsSameStairs(t, t', c);
  }

  lemma SameRowsSameStairs(t: Table, t': Table, c: Contest)
    requires Staircase(t, c) && |t'| == |t|
    requires forall i: nat :: i < |t| && Competes(t', c, i) ==> Competes(t, c, i) && t'[i] == t[i]
    ensures Staircase(t', c)
  {
  }

  lemma VisitsOfAlike(t: Table, d: Contest, c: Contest, dark: set<Uuid>)
    requires Competitors(t, d) != {} && Alike(t, d, c) && Staircase(t, c)
    ensures Staircase(After(t, Visits(t, d, dark)), c)
  {
    hide Select, Visits, After;
    assert Staircase(t, d);
    AfterChangesCounts(t, Visits(t, d, dark));
    VisitsKeepStairs(t, d, dark);
    StairsForAlike(t, After(t, Visits(t, d, dark)), d, c);
  }

  lemma AttemptKeepsStairs(s: State, c: Contest, id: Uuid)
    requires id in s.shipments && Staircase(s.performances, c) && StepFits(s, c, Protocol.TryToOffer(id))
    ensures Staircase(Attempt(s, id).0.performances, c)
  {
    hide Select, Visits, After, Staircase, Alike, Apart, Competitors;
    if Complete(s.shipments[id]) && s.shipments[id].tdl.value in s.tdls {
      var t, d, dark := s.performances, ContestFor(s, s.shipments[id]), Dark(s, id);
      if Select(t, d).Some? {
        if Alike(t, d, c) {
          VisitsOfAlike(t, d, c, dark);
        } else {
          VisitsLeaveOthers(t, d, c, dark);
        }
      }
    }
  }

  lemma StepKeepsStairs(s: State, c: Contest, step: Protocol.Step)
    requires Staircase(s.performances, c) && StepFits(s, c, step)
    ensures Staircase(Protocol.Next(s, step).performances, c)
  {
    hide Attempt, Staircase, StepFits, Fire;
    if step.TryToOffer? && step.id in Unoffered(s) {
      AttemptKeepsStairs(s, c, step.id);
    }
    if step.AssignBands? && |step.bands| == |s.performances| {
      BandingKeepsStairs(s, c, step.bands);
    }
  }

  lemma {:induction false} RunKeepsStairs(s: State, c: Contest, steps: seq<Protocol.Step>)
    requires Staircase(s.performances, c) && RunFits(s, c, steps)
    ensures Staircase(Protocol.Execute(s, steps).performances, c)
    decreases |steps|
  {
    hide Staircase, StepFits, Protocol.Next;
    if steps != [] {
      StepKeepsStairs(s, c, steps[0]);
      RunKeepsStairs(Protocol.Next(s, steps[0]), c, steps[1..]);
    }
  }

  /** Once balanced the counts stay balanced over every run that leaves the bands of the distribution list and
      offers shipments to all of these providers or to none of them, whatever the blackouts: no two of them are
      ever more than one offer apart, nobody is offered a shipment twice, and a free provider is found whenever
      there is one. */
  lemma BalancedForEver(s: State, c: Contest, steps: seq<Protocol.Step>)
    requires Staircase(s.performances, c) && RunFits(s, c, steps)
    ensures var t := Protocol.Execute(s, steps).performances;
      && Staircase(t, c)
      && (forall i: nat, j: nat :: Competes(t, c, i) && Competes(t, c, j) ==> t[i].offerCount <= t[j].offerCount + 1)
      && (Competitors(t, c) != {} ==>
            forall dark: set<Uuid> :: Distinct(Visits(t, c, dark)) && (EndsFree(t, c, dark) <==> SomeoneFree(t, c, dark)))
  {
    RunKeepsStairs(s, c, steps);
    var t := Protocol.Execute(s, steps).performances;
    hide Protocol.Execute, Select, Visits, EndsFree, SomeoneFree, Distinct;
    forall i: nat, j: nat | Competes(t, c, i) && Competes(t, c, j) ensures t[i].offerCount <= t[j].offerCount + 1 {
      assert i == j || Before(t, i, j) || Before(t, j, i);
    }
    if Competitors(t, c) != {} {
      forall dark: set<Uuid>
        ensures Distinct(Visits(t, c, dark)) && (EndsFree(t, c, dark) <==> SomeoneFree(t, c, dark))
      {
        StairsOfferOnce(t, c, dark);
        StairsFindTheFree(t, c, dark);
      }
    }
  }
}
