/** Balanced offer counts over runs of the award queue itself. */
module FairQueue {
  import opened Wrappers
  import opened Performances
  import opened OfferLoop
  import opened Rotation
  import opened Shipments
  import opened Store
  import opened Bands
  import opened Banding
  import opened Fairness
  import opened AwardQueues
  import Protocol

  /** The shipment competes for all the providers of contest c or for none of them. */
  ghost predicate ContestFits(s: State, c: Contest, r: ShipmentRow) {
    Complete(r) ==>
      var d := ContestFor(s, r); Alike(s.performances, d, c) || Apart(s.performances, d, c)
  }

  ghost predicate NoBandingDue(s: State, c: Contest) {
    forall i: nat :: i < |s.performances| && s.performances[i].tdl == c.tdl ==>
      !NeedsBanding(s.performances, Enrolled(s), |s.performances|, GroupOf(s.performances[i]))
  }

  /** The queue finds nothing to band in the contest's distribution list, and only shipments for all or none of
      its providers. */
  ghost predicate QueueFits(s: State, c: Contest) {
    NoBandingDue(s, c) && forall id :: id in Unoffered(s) ==> ContestFits(s, c, s.shipments[id])
  }

  /** The rows of the contest's distribution list have changed in their counts at most. */
  ghost predicate ListStays(t: Table, t': Table, c: Contest) {
    && |t'| == |t|
    && forall i: nat :: i < |t| ==>
      && t'[i].tdl == t[i].tdl
      && (t[i].tdl == c.tdl ==> t'[i] == t[i].(offerCount := t'[i].offerCount))
  }

  lemma BandingWasDue(t: Table, t': Table, enrolled: set<Uuid>, c: Contest, i: nat)
    requires ListStays(t, t', c) && i < |t| && t[i].tdl == c.tdl && NeedsBanding(t', enrolled, |t'|, GroupOf(t'[i]))
    ensures NeedsBanding(t, enrolled, |t|, GroupOf(t[i]))
  {
    var j: nat :| j < |t'| && Unbanded(t', enrolled, j) && GroupOf(t'[j]) == GroupOf(t'[i]);
    assert t'[j] == t[j].(offerCount := t'[j].offerCount) && t'[i] == t[i].(offerCount := t'[i].offerCount);
    assert Unbanded(t, enrolled, j);
  }

  lemma BandingComesDueOnlyIfItWas(t: Table, t': Table, enrolled: set<Uuid>, c: Contest)
    requires ListStays(t, t', c)
    ensures forall i: nat :: i < |t| && t[i].tdl == c.tdl && NeedsBanding(t', enrolled, |t'|, GroupOf(t'[i])) ==>
      NeedsBanding(t, enrolled, |t|, GroupOf(t[i]))
  {
    forall i: nat | i < |t| && t[i].tdl == c.tdl && NeedsBanding(t', enrolled, |t'|, GroupOf(t'[i]))
      ensures NeedsBanding(t, enrolled, |t|, GroupOf(t[i]))
    {
      BandingWasDue(t, t', enrolled, c, i);
    }
  }

  lemma NoBandingComesDue(s: State, s': State, c: Contest)
    requires NoBandingDue(s, c) && ListStays(s.performances, s'.performances, c) && s'.tsps == s.tsps
    ensures NoBandingDue(s', c)
  {
    BandingComesDueOnlyIfItWas(s.performances, s'.performances, Enrolled(s), c);
    hide NeedsBanding;
  }

  lemma ContestStillFits(s: State, s': State, c: Contest, r: ShipmentRow)
    requires ContestFits(s, c, r) && ListStays(s.performances, s'.performances, c) && s'.tsps == s.tsps
    ensures ContestFits(s', c, r)
  {
    if Complete(r) {
      var t, t', d := s.performances, s'.performances, ContestFor(s, r);
      assert ContestFor(s', r) == d;
      forall i: nat | i < |t| && t[i].tdl == c.tdl
        ensures (Competes(t', c, i) <==> Competes(t, c, i)) && (Competes(t', d, i) <==> Competes(t, d, i))
      {
        assert t'[i] == t[i].(offerCount := t'[i].offerCount);
      }
    }
  }

  lemma QueueStillFits(s: State, s': State, c: Contest)
    requires QueueFits(s, c) && ListStays(s.performances, s'.performances, c) && s'.tsps == s.tsps
    requires forall id :: id in Unoffered(s') ==> id in Unoffered(s) && s'.shipments[id] == s.shipments[id]
    ensures QueueFits(s', c)
  {
    NoBandingComesDue(s, s', c);
    hide Unoffered, NoBandingDue, ContestFits, ListStays;
    forall id | id in Unoffered(s') && id in s'.shipments ensures ContestFits(s', c, s'.shipments[id]) {
      ContestStillFits(s, s', c, s.shipments[id]);
    }
    UnofferedAreShipments(s');
  }

  lemma UnofferedAreShipments(s: State)
    ensures Unoffered(s) <= s.shipments.Keys
  {
  }

  lemma AttemptStillFits(s: State, id: Uuid, c: Contest)
    requires id in Unoffered(s) && QueueFits(s, c)
    ensures QueueFits(Attempt(s, id).0, c)
  {
    hide Select, Attempt, QueueFits;
    var s' := Attempt(s, id).0;
    var picks := Protocol.AttemptShape(s, id);
    AfterChangesCounts(s.performances, picks);
    OnlyCountsKeepTheList(s.performances, s'.performances, c);
    forall x | x in Unoffered(s') ensures x in Unoffered(s) && s'.shipments[x] == s.shipments[x] {
      assert s.offers <= s'.offers;
    }
    QueueStillFits(s, s', c);
  }

  lemma OnlyCountsKeepTheList(t: Table, t': Table, c: Contest)
    requires OnlyCountsDiffer(t, t')
    ensures ListStays(t, t', c)
  {
    forall i: nat | i < |t| ensures t'[i] == t[i].(offerCount := t'[i].offerCount) {
    }
  }

  function Attempts(batch: seq<Uuid>): seq<Protocol.Step> {
    if batch == [] then [] else [Protocol.TryToOffer(batch[0])] + Attempts(batch[1..])
  }

  lemma OthersStayUnoffered(s: State, id: Uuid, x: Uuid)
    requires id in Unoffered(s) && x in Unoffered(s) && x != id
    ensures x in Unoffered(Attempt(s, id).0)
  {
    hide Select, Attempt;
    var picks := Protocol.AttemptShape(s, id);
    assert forall o :: o in OffersTo(s.performances, id, Dark(s, id), picks) ==> o.shipment == id;
  }

  lemma {:induction false} AttemptsFit(s: State, c: Contest, batch: seq<Uuid>)
    requires QueueFits(s, c) && forall i, j :: 0 <= i < j < |batch| ==> batch[i] != batch[j]
    requires forall i :: 0 <= i < |batch| ==> batch[i] in s.shipments && batch[i] in Unoffered(s)
    ensures RunFits(s, c, Attempts(batch))
    ensures AttemptAll(s, batch) == Protocol.Execute(s, Attempts(batch)) && QueueFits(AttemptAll(s, batch), c)
    decreases |batch|
  {
    hide Attempt, Unoffered, Alike, Apart, NoBandingDue;
    if batch != [] {
      var id, rest := batch[0], batch[1..];
      var s' := Attempt(s, id).0;
      AttemptStillFits(s, id, c);
      UnofferedAreShipments(s');
      forall i | 0 <= i < |rest| ensures rest[i] in s'.shipments && rest[i] in Unoffered(s') {
        OthersStayUnoffered(s, id, batch[i + 1]);
      }
      AttemptsFit(s', c, rest);
      assert Attempts(batch)[1..] == Attempts(rest);
      assert Protocol.Next(s, Protocol.TryToOffer(id)) == s';
    }
  }

  lemma BandingLeavesTheList(s: State, c: Contest, bands: seq<Option<int>>)
    requires NoBandingDue(s, c) && |bands| == |s.performances|
    requires Banded(s.performances, Protocol.WithBands(s.performances, bands), Enrolled(s))
    ensures ListStays(s.performances, Protocol.WithBands(s.performances, bands), c)
    ensures forall i: nat :: i < |s.performances| && s.performances[i].tdl == c.tdl ==>
      bands[i] == s.performances[i].qualityBand
  {
    hide NeedsBanding, GroupBanded;
    var t, t' := s.performances, Protocol.WithBands(s.performances, bands);
    forall i: nat | i < |t| && t[i].tdl == c.tdl ensures t'[i] == t[i] {
      assert !NeedsBanding(t, Enrolled(s), |t|, GroupOf(t[i]));
    }
    assert forall i: nat :: i < |t| ==> t'[i] == t[i].(qualityBand := bands[i]);
  }

  lemma BandingFits(s: State, c: Contest, bands: seq<Option<int>>)
    requires QueueFits(s, c) && |bands| == |s.performances|
    requires Banded(s.performances, Protocol.WithBands(s.performances, bands), Enrolled(s))
    ensures StepFits(s, c, Protocol.AssignBands(bands)) && QueueFits(Protocol.Next(s, Protocol.AssignBands(bands)), c)
  {
    BandingLeavesTheList(s, c, bands);
    hide QueueFits, Banded;
    var s1 := Protocol.Next(s, Protocol.AssignBands(bands));
    assert Unoffered(s1) == Unoffered(s);
    QueueStillFits(s, s1, c);
  }

  /** A run of the queue that fits is a protocol run that fits, and the next one fits again. */
  lemma QueueRunFits(s: State, s': State, c: Contest) returns (steps: seq<Protocol.Step>)
    requires IsQueueRun(s, s') && QueueFits(s, c)
    ensures s' == Protocol.Execute(s, steps) && RunFits(s, c, steps) && QueueFits(s', c)
  {
    hide QueueFits, Banded, StepFits, Unoffered, AttemptAll, Attempts;
    var bands, batch :| PassAfterBanding(s, bands, batch, s');
    var s1 := Protocol.Next(s, Protocol.AssignBands(bands));
    BandingFits(s, c, bands);
    forall i | 0 <= i < |batch| ensures batch[i] in Unoffered(s1) {
      assert batch[i] in batch;
    }
    AttemptsFit(s1, c, batch);
    steps := [Protocol.AssignBands(bands)] + Attempts(batch);
    assert steps[1..] == Attempts(batch);
  }

  ghost predicate QueueRuns(states: seq<State>) {
    |states| > 0 && forall k: nat :: k + 1 < |states| ==> IsQueueRun(states[k], states[k + 1])
  }

  /** Over any number of runs of the queue the counts stay balanced, if they are when the first begins, and the
      queue then finds nothing to band in the distribution list and only shipments for all or none of its
      providers. */
  lemma {:induction false} QueueKeepsBalance(states: seq<State>, c: Contest, k: nat)
    requires QueueRuns(states) && Staircase(states[0].performances, c) && QueueFits(states[0], c) && k < |states|
    ensures Staircase(states[k].performances, c) && QueueFits(states[k], c)
    decreases k
  {
    hide QueueFits, Staircase, IsQueueRun;
    if k > 0 {
      QueueKeepsBalance(states, c, k - 1);
      var steps := QueueRunFits(states[k - 1], states[k], c);
      RunKeepsStairs(states[k - 1], c, steps);
    }
  }

  /** From s to s' the queue has run, or one step of the protocol that fits. */
  ghost predicate Link(s: State, c: Contest, s': State) {
    (QueueFits(s, c) && IsQueueRun(s, s')) || exists step :: StepFits(s, c, step) && s' == Protocol.Next(s, step)
  }

  /** The same when shipments are drafted, submitted, edited, accepted and rejected between runs of the queue. */
  lemma {:induction false} LifeKeepsBalance(states: seq<State>, c: Contest, k: nat)
    requires k < |states| && Staircase(states[0].performances, c)
    requires forall j: nat :: j + 1 < |states| ==> Link(states[j], c, states[j + 1])
    ensures Staircase(states[k].performances, c)
    decreases k
  {
    hide QueueFits, Staircase, IsQueueRun, StepFits, Protocol.Next;
    if k > 0 {
      LifeKeepsBalance(states, c, k - 1);
      var s, s' := states[k - 1], states[k];
      assert Link(s, c, s');
      if QueueFits(s, c) && IsQueueRun(s, s') {
        var steps := QueueRunFits(s, s', c);
        RunKeepsStairs(s, c, steps);
      } else {
        var step :| StepFits(s, c, step) && s' == Protocol.Next(s, step);
        StepKeepsStairs(s, c, step);
      }
    }
  }
}
