/** Whole runs of the award queue and the providers, and what every run keeps. */
module Protocol {
  import opened Wrappers
  import opened Performances
  import opened OfferLoop
  import opened Shipments
  import opened Store

  datatype Step =
    | Draft(id: Uuid, row: ShipmentRow)
    | AssignBands(bands: seq<Option<int>>)
    | TryToOffer(id: Uuid)
    | AcceptShipment(tsp: Uuid, id: Uuid)
    | DeclineOffer(k: nat, reason: string)
    | Happen(id: Uuid, event: Event)
    | Edit(id: Uuid, row: ShipmentRow, tsps: map<Uuid, Tsp>, blackouts: set<(Uuid, Uuid)>)

  /** Award and Accept happen only inside the queue's attempt and the provider's acceptance. */
  predicate Standalone(e: Event) {
    e != Award && e != Accept
  }

  function WithBands(t: Table, bands: seq<Option<int>>): Table
    requires |bands| == |t|
  {
    seq(|t|, i requires 0 <= i < |t| => t[i].(qualityBand := bands[i]))
  }

  /** One committed step. A step whose guard fails changes nothing. Edit saves other dates and places of a
      shipment, which can move it in or out of blackouts, or other blackouts and provider records. */
  function Next(s: State, step: Step): State {
    match step
    case Draft(id, row) =>
      if id in s.shipments || row.status != Status.Draft then s else s.(shipments := s.shipments[id := row])
    case AssignBands(bands) =>
      if |bands| != |s.performances| then s else s.(performances := WithBands(s.performances, bands))
    case TryToOffer(id) =>
      if id in Unoffered(s) then Attempt(s, id).0 else s
    case AcceptShipment(tsp, id) =>
      var r := AcceptForTsp(s, tsp, id);
      if r.Ok? then r.value.0 else s
    case DeclineOffer(k, reason) =>
      if k < |s.offers| then RejectOffer(s, k, reason) else s
    case Happen(id, event) =>
      if id in s.shipments && Standalone(event) then s.(shipments := s.shipments[id := Fire(s.shipments[id], event)]) else s
    case Edit(id, row, tsps, blackouts) =>
      if id !in s.shipments || row.status != s.shipments[id].status then s
      else s.(shipments := s.shipments[id := row], tsps := tsps, blackouts := blackouts)
  }

  function Execute(s: State, steps: seq<Step>): State
    decreases |steps|
  {
    if steps == [] then s else Execute(Next(s, steps[0]), steps[1..])
  }

  datatype Kind = OfShipment | RealOf | AcceptedOf | OfPerformance

  predicate Is(o: Offer, id: Uuid, kind: Kind) {
    match kind
    case OfShipment => o.shipment == id
    case RealOf => o.shipment == id && !o.administrative
    case AcceptedOf => o.shipment == id && o.accepted == Some(true)
    case OfPerformance => o.performance == id
  }

  /** How many offers of a kind there are for shipment (or performance) id. */
  function Tally(offers: seq<Offer>, id: Uuid, kind: Kind): nat {
    if offers == [] then 0
    else Tally(offers[..|offers| - 1], id, kind) + if Is(offers[|offers| - 1], id, kind) then 1 else 0
  }

  lemma {:induction false} TallyJoin(a: seq<Offer>, b: seq<Offer>, id: Uuid, kind: Kind)
    ensures Tally(a + b, id, kind) == Tally(a, id, kind) + Tally(b, id, kind)
  {
    if b == [] {
      assert a + b == a;
    } else {
      assert (a + b)[..|a + b| - 1] == a + b[..|b| - 1];
      TallyJoin(a, b[..|b| - 1], id, kind);
    }
  }

  lemma {:induction false} TallyUpdate(offers: seq<Offer>, k: nat, o: Offer, id: Uuid, kind: Kind)
    requires k < |offers|
    ensures Tally(offers[k := o], id, kind) ==
            Tally(offers, id, kind) - (if Is(offers[k], id, kind) then 1 else 0) + (if Is(o, id, kind) then 1 else 0)
  {
    var n := |offers| - 1;
    if k == n {
      assert offers[k := o][..n] == offers[..n];
    } else {
      assert offers[k := o][..n] == offers[..n][k := o];
      TallyUpdate(offers[..n], k, o, id, kind);
    }
  }

  lemma {:induction false} TallyNone(offers: seq<Offer>, id: Uuid, kind: Kind)
    requires forall o :: o in offers ==> !Is(o, id, kind)
    ensures Tally(offers, id, kind) == 0
  {
    if offers != [] {
      TallyNone(offers[..|offers| - 1], id, kind);
    }
  }

  lemma {:induction false} TallySome(offers: seq<Offer>, id: Uuid, kind: Kind, k: nat)
    requires k < |offers| && Is(offers[k], id, kind)
    ensures Tally(offers, id, kind) > 0
  {
    if k < |offers| - 1 {
      TallySome(offers[..|offers| - 1], id, kind, k);
    }
  }

  lemma OffersLast(t: Table, id: Uuid, dark: set<Uuid>, picks: seq<nat>, p: nat)
    requires Rows(t, picks) && p < |t|
    ensures Rows(t, picks + [p]) && OffersTo(t, id, dark, picks + [p]) ==
            OffersTo(t, id, dark, picks) + [Offer(id, t[p].tsp, p, t[p].tsp in dark, None, None)]
  {
  }

  lemma TallyLast(offers: seq<Offer>, o: Offer, id: Uuid, kind: Kind)
    ensures Tally(offers + [o], id, kind) == Tally(offers, id, kind) + if Is(o, id, kind) then 1 else 0
  {
    assert (offers + [o])[..|offers|] == offers;
  }

  /** The tallies of the offers one attempt makes, given that only the last pick may be free. */
  function TallyDue(t: Table, id: Uuid, dark: set<Uuid>, picks: seq<nat>, x: Uuid, kind: Kind): nat
    requires forall k :: 0 <= k < |picks| ==> picks[k] < |t|
  {
    match kind
    case OfShipment => if x == id then |picks| else 0
    case AcceptedOf => 0
    case RealOf => if x == id && picks != [] && t[picks[|picks| - 1]].tsp !in dark then 1 else 0
    case OfPerformance => multiset(picks)[x]
  }

  lemma DueLast(t: Table, id: Uuid, dark: set<Uuid>, picks: seq<nat>, p: nat, x: Uuid, kind: Kind)
    requires Rows(t, picks) && p < |t| && forall k :: 0 <= k < |picks| ==> t[picks[k]].tsp in dark
    ensures Rows(t, picks + [p])
    ensures TallyDue(t, id, dark, picks + [p], x, kind) == TallyDue(t, id, dark, picks, x, kind) +
            if Is(Offer(id, t[p].tsp, p, t[p].tsp in dark, None, None), x, kind) then 1 else 0
  {
  }

  lemma {:induction false} TallyOfKind(t: Table, id: Uuid, dark: set<Uuid>, picks: seq<nat>, x: Uuid, kind: Kind)
    requires Rows(t, picks) && forall k :: 0 <= k < |picks| - 1 ==> t[picks[k]].tsp in dark
    ensures Tally(OffersTo(t, id, dark, picks), x, kind) == TallyDue(t, id, dark, picks, x, kind)
    decreases |picks|
  {
    if picks != [] {
      hide OffersTo, Tally, TallyDue, Is;
      var n := |picks| - 1;
      var p, before := picks[n], picks[..n];
      assert picks == before + [p];
      OffersLast(t, id, dark, before, p);
      TallyOfKind(t, id, dark, before, x, kind);
      TallyLast(OffersTo(t, id, dark, before), Offer(id, t[p].tsp, p, t[p].tsp in dark, None, None), x, kind);
      DueLast(t, id, dark, before, p, x, kind);
    }
  }

  lemma TallyOfAttempt(t: Table, id: Uuid, dark: set<Uuid>, picks: seq<nat>, x: Uuid)
    requires Rows(t, picks) && forall k :: 0 <= k < |picks| - 1 ==> t[picks[k]].tsp in dark
    ensures var made := OffersTo(t, id, dark, picks);
      && Tally(made, x, OfShipment) == (if x == id then |picks| else 0)
      && Tally(made, x, AcceptedOf) == 0
      && Tally(made, x, RealOf) == (if x == id && picks != [] && t[picks[|picks| - 1]].tsp !in dark then 1 else 0)
      && Tally(made, x, OfPerformance) == multiset(picks)[x]
  {
    hide OffersTo, Tally;
    TallyOfKind(t, id, dark, picks, x, OfShipment);
    TallyOfKind(t, id, dark, picks, x, AcceptedOf);
    TallyOfKind(t, id, dark, picks, x, RealOf);
    TallyOfKind(t, id, dark, picks, x, OfPerformance);
  }

  /** What a state does not tell of the run that led to it: the offer counts the run began with, and who was
      blacked out for each shipment when the queue turned to it. */
  datatype Past = Past(counts: seq<nat>, dark: map<Uuid, set<Uuid>>)

  function Remember(s: State, past: Past, step: Step): Past {
    if step.TryToOffer? && step.id in Unoffered(s) then past.(dark := past.dark[step.id := Dark(s, step.id)]) else past
  }

  function PastOf(s: State, past: Past, steps: seq<Step>): Past
    decreases |steps|
  {
    if steps == [] then past else PastOf(Next(s, steps[0]), Remember(s, past, steps[0]), steps[1..])
  }

  /** An offer names the provider of its performance and is administrative exactly if that provider was blacked
      out when the shipment was offered. */
  predicate OfferFits(s: State, past: Past, o: Offer) {
    && o.shipment in s.shipments && o.shipment in past.dark
    && o.performance < |s.performances| && o.tsp == s.performances[o.performance].tsp
    && (o.administrative <==> o.tsp in past.dark[o.shipment])
  }

  /** Status and offers of one shipment agree. */
  predicate ShipmentFits(s: State, id: Uuid)
    requires id in s.shipments
  {
    var status := s.shipments[id].status;
    && Tally(s.offers, id, AcceptedOf) == (if RequiresAcceptedTsp(status) then 1 else 0)
    && Tally(s.offers, id, RealOf) <= 1
    && (status == Status.Draft ==> Tally(s.offers, id, OfShipment) == 0)
    && (Stage(status) >= 2 ==> Tally(s.offers, id, RealOf) == 1)
  }

  /** Offer counts are the counts the run began with plus the offers on record. */
  ghost predicate CountsFit(s: State, past: Past) {
    && |past.counts| == |s.performances|
    && forall i: nat :: i < |past.counts| ==> s.performances[i].offerCount == past.counts[i] + Tally(s.offers, i, OfPerformance)
  }

  ghost predicate Inv(s: State, past: Past) {
    && (forall k: nat :: k < |s.offers| ==> OfferFits(s, past, s.offers[k]))
    && (forall id :: id in s.shipments ==> ShipmentFits(s, id))
    && CountsFit(s, past)
  }

  /** The shape of every attempt: the offers added are administrative ones followed by one real one on
      success, and administrative ones only otherwise; each performance's count rises by its offers;
      only the shipment's own status can change. */
  lemma AttemptShape(s: State, id: Uuid) returns (picks: seq<nat>)
    requires id in s.shipments
    ensures var (s', r) := Attempt(s, id);
      && Rows(s.performances, picks)
      && (forall k :: 0 <= k < |picks| - 1 ==> s.performances[picks[k]].tsp in Dark(s, id))
      && s'.offers == s.offers + OffersTo(s.performances, id, Dark(s, id), picks)
      && s'.performances == After(s.performances, picks)
      && s'.shipments == (if r.Ok? then s.shipments[id := Apply(s.shipments[id], Award)] else s.shipments)
      && (s'.tsps, s'.tdls, s'.blackouts) == (s.tsps, s.tdls, s.blackouts)
      && (r.Ok? ==> Permits(s.shipments[id], Award) && picks != [] && r.value == |s'.offers| - 1)
      && (r.Ok? ==> s.performances[picks[|picks| - 1]].tsp !in Dark(s, id))
      && (r.Err? && r.error.AllBlackedOut? ==> picks != [] && |picks| == r.error.tries)
      && (r.Err? && !r.error.CannotAward? ==> picks == [] || s.performances[picks[|picks| - 1]].tsp in Dark(s, id))
      && (Permits(s.shipments[id], Award) ==> r.Ok? || !r.error.CannotAward?)
  {
    hide Select, Trace, Capped;
    var row := s.shipments[id];
    picks := [];
    assert s.offers + OffersTo(s.performances, id, Dark(s, id), []) == s.offers;
    assert After(s.performances, []) == s.performances;
    hide After, OffersTo, Dark;
    if Complete(row) && row.tdl.value in s.tdls {
      var c := ContestFor(s, row);
      if Select(s.performances, c).Some? {
        picks := Visits(s.performances, c, Dark(s, id));
        OnlyTheLastIsFree(s.performances, c, Dark(s, id));
      }
    }
  }

  lemma OnlyTheLastIsFree(t: Table, c: Contest, dark: set<Uuid>)
    requires Select(t, c).Some?
    ensures var picks := Visits(t, c, dark); forall k :: 0 <= k < |picks| - 1 ==> t[picks[k]].tsp in dark
  {
    hide Select;
    var first, picks := Select(t, c).value, Visits(t, c, dark);
    StartIsCapped(t, c);
    TraceIsARun(t, c, dark, first, MaxOffers(t, c) + 2);
    forall k | 0 <= k < |picks| - 1 ensures t[picks[k]].tsp in dark {
      assert GoesOn(t, dark, first, picks, k);
    }
  }

  lemma AttemptKeepsOffersFitting(s: State, id: Uuid, past: Past)
    requires Inv(s, past) && id in Unoffered(s)
    ensures var s', past' := Attempt(s, id).0, Remember(s, past, TryToOffer(id));
      forall k: nat :: k < |s'.offers| ==> OfferFits(s', past', s'.offers[k])
  {
    hide Select, Attempt;
    var picks := AttemptShape(s, id);
    var s', past' := Attempt(s, id).0, Remember(s, past, TryToOffer(id));
    forall i: nat | i < |s.performances| ensures s'.performances[i].tsp == s.performances[i].tsp {
      AfterAt(s.performances, picks, i);
    }
    forall k: nat | k < |s'.offers| ensures OfferFits(s', past', s'.offers[k]) {
      if k < |s.offers| {
        assert OfferFits(s, past, s.offers[k]);
        assert s.offers[k] in s.offers;
      } else {
        assert s'.offers[k] == OffersTo(s.performances, id, Dark(s, id), picks)[k - |s.offers|];
      }
    }
  }

  lemma AttemptKeepsCounts(s: State, id: Uuid, past: Past)
    requires Inv(s, past) && id in s.shipments
    ensures CountsFit(Attempt(s, id).0, past)
  {
    hide Select, Attempt;
    var picks := AttemptShape(s, id);
    forall i: nat | i < |past.counts|
      ensures Attempt(s, id).0.performances[i].offerCount == past.counts[i] + Tally(Attempt(s, id).0.offers, i, OfPerformance)
    {
      AfterAt(s.performances, picks, i);
      TallyJoin(s.offers, OffersTo(s.performances, id, Dark(s, id), picks), i, OfPerformance);
      TallyOfAttempt(s.performances, id, Dark(s, id), picks, i);
    }
  }

  lemma NoOffersYet(s: State, id: Uuid)
    requires id in Unoffered(s)
    ensures Tally(s.offers, id, OfShipment) == 0 && Tally(s.offers, id, RealOf) == 0 && Tally(s.offers, id, AcceptedOf) == 0
  {
    TallyNone(s.offers, id, OfShipment);
    TallyNone(s.offers, id, RealOf);
    TallyNone(s.offers, id, AcceptedOf);
  }

  lemma AttemptKeepsShipmentFitting(s: State, id: Uuid, x: Uuid)
    requires id in Unoffered(s) && x in s.shipments && ShipmentFits(s, x)
    ensures x in Attempt(s, id).0.shipments && ShipmentFits(Attempt(s, id).0, x)
  {
    hide Select, Attempt;
    var picks := AttemptShape(s, id);
    NoOffersYet(s, id);
    var made := OffersTo(s.performances, id, Dark(s, id), picks);
    TallyJoin(s.offers, made, x, OfShipment);
    TallyJoin(s.offers, made, x, RealOf);
    TallyJoin(s.offers, made, x, AcceptedOf);
    TallyOfAttempt(s.performances, id, Dark(s, id), picks, x);
    hide OffersTo, Tally, After, Dark, Unoffered;
  }

  lemma AttemptKeepsShipmentsFitting(s: State, id: Uuid, past: Past)
    requires Inv(s, past) && id in Unoffered(s)
    ensures var s' := Attempt(s, id).0; forall x :: x in s'.shipments ==> ShipmentFits(s', x)
  {
    hide Select, Attempt, ShipmentFits;
    var picks := AttemptShape(s, id);
    forall x | x in Attempt(s, id).0.shipments ensures ShipmentFits(Attempt(s, id).0, x) {
      AttemptKeepsShipmentFitting(s, id, x);
    }
  }

  lemma AttemptKeepsInv(s: State, id: Uuid, past: Past)
    requires Inv(s, past) && id in Unoffered(s)
    ensures Inv(Attempt(s, id).0, Remember(s, past, TryToOffer(id)))
  {
    hide Select, Attempt;
    AttemptKeepsOffersFitting(s, id, past);
    AttemptKeepsCounts(s, id, past);
    AttemptKeepsShipmentsFitting(s, id, past);
  }

  /** Changing the verdict of one offer, with or without its shipment, as acceptance and rejection do. */
  lemma VerdictTallies(s: State, k: nat, o: Offer, id: Uuid, kind: Kind)
    requires k < |s.offers|
    requires o == s.offers[k].(accepted := o.accepted, rejectionReason := o.rejectionReason)
    ensures Tally(s.offers[k := o], id, kind) == Tally(s.offers, id, kind)
      + (if kind == AcceptedOf && o.shipment == id && o.accepted == Some(true) then 1 else 0)
      - (if kind == AcceptedOf && o.shipment == id && s.offers[k].accepted == Some(true) then 1 else 0)
  {
    TallyUpdate(s.offers, k, o, id, kind);
  }

  lemma AcceptKeepsInv(s: State, tsp: Uuid, id: Uuid, past: Past)
    requires Inv(s, past) && AcceptForTsp(s, tsp, id).Ok?
    ensures Inv(AcceptForTsp(s, tsp, id).value.0, past)
  {
    var (s', k) := AcceptForTsp(s, tsp, id).value;
    var o := s.offers[k].(accepted := Some(true));
    forall j: nat | j < |s'.offers| ensures OfferFits(s', past, s'.offers[j]) {
      assert OfferFits(s, past, s.offers[j]);
    }
    forall x | x in s'.shipments ensures ShipmentFits(s', x) {
      VerdictTallies(s, k, o, x, OfShipment);
      VerdictTallies(s, k, o, x, RealOf);
      VerdictTallies(s, k, o, x, AcceptedOf);
      assert ShipmentFits(s, x);
    }
    forall i: nat | i < |past.counts| ensures s'.performances[i].offerCount == past.counts[i] + Tally(s'.offers, i, OfPerformance) {
      VerdictTallies(s, k, o, i, OfPerformance);
    }
  }

  lemma DeclineKeepsInv(s: State, k: nat, reason: string, past: Past)
    requires Inv(s, past) && k < |s.offers|
    ensures Inv(RejectOffer(s, k, reason), past)
  {
    var s' := RejectOffer(s, k, reason);
    var o := s'.offers[k];
    forall j: nat | j < |s'.offers| ensures OfferFits(s', past, s'.offers[j]) {
      assert OfferFits(s, past, s.offers[j]);
    }
    if s.offers[k].accepted.None? {
      forall x | x in s'.shipments ensures ShipmentFits(s', x) {
        VerdictTallies(s, k, o, x, OfShipment);
        VerdictTallies(s, k, o, x, RealOf);
        VerdictTallies(s, k, o, x, AcceptedOf);
        assert ShipmentFits(s, x);
      }
      forall i: nat | i < |past.counts| ensures s'.performances[i].offerCount == past.counts[i] + Tally(s'.offers, i, OfPerformance) {
        VerdictTallies(s, k, o, i, OfPerformance);
      }
    }
  }

  /** Steps that leave the offers alone. */
  lemma QuietStepKeepsInv(s: State, s': State, past: Past)
    requires Inv(s, past) && s'.offers == s.offers
    requires |s'.performances| == |s.performances|
    requires forall i: nat :: i < |s.performances| ==>
      s'.performances[i].(qualityBand := None) == s.performances[i].(qualityBand := None)
    requires s.shipments.Keys <= s'.shipments.Keys
    requires forall id :: id in s.shipments ==>
      var a, b := s.shipments[id].status, s'.shipments[id].status;
      && (RequiresAcceptedTsp(a) <==> RequiresAcceptedTsp(b))
      && (b == Status.Draft ==> a == Status.Draft) && (Stage(b) >= 2 ==> Stage(a) >= 2)
    requires forall id :: id in s'.shipments && id !in s.shipments ==> s'.shipments[id].status == Status.Draft
    ensures Inv(s', past)
  {
    forall k: nat | k < |s'.offers| ensures OfferFits(s', past, s'.offers[k]) {
      assert OfferFits(s, past, s.offers[k]);
      var i := s.offers[k].performance;
      assert s'.performances[i].(qualityBand := None).tsp == s.performances[i].(qualityBand := None).tsp;
    }
    forall id | id in s'.shipments ensures ShipmentFits(s', id) {
      if id in s.shipments {
        assert ShipmentFits(s, id);
      } else {
        forall o | o in s.offers ensures o.shipment != id {
          var k: nat :| k < |s.offers| && s.offers[k] == o;
          assert OfferFits(s, past, s.offers[k]);
        }
        TallyNone(s.offers, id, OfShipment);
        TallyNone(s.offers, id, RealOf);
        TallyNone(s.offers, id, AcceptedOf);
      }
    }
    forall i: nat | i < |past.counts| ensures s'.performances[i].offerCount == past.counts[i] + Tally(s'.offers, i, OfPerformance) {
      assert s'.performances[i].(qualityBand := None).offerCount == s.performances[i].(qualityBand := None).offerCount;
    }
  }

  /** No event of its own takes a shipment across the line where an accepted provider is required, or into
      awarded, or back to draft. */
  lemma StandaloneEvents(r: ShipmentRow, e: Event)
    requires Standalone(e)
    ensures var a, b := r.status, Fire(r, e).status;
      && (RequiresAcceptedTsp(a) <==> RequiresAcceptedTsp(b))
      && (b == Status.Draft ==> a == Status.Draft) && (Stage(b) >= 2 ==> Stage(a) >= 2)
  {
    hide DeliveredSits;
  }

  lemma HappenKeepsInv(s: State, id: Uuid, event: Event, past: Past)
    requires Inv(s, past)
    ensures Inv(Next(s, Happen(id, event)), past)
  {
    if Standalone(event) && id in s.shipments {
      StandaloneEvents(s.shipments[id], event);
    }
    hide Inv, Fire, RequiresAcceptedTsp, Stage;
    QuietStepKeepsInv(s, Next(s, Happen(id, event)), past);
  }

  lemma NextKeepsInv(s: State, step: Step, past: Past)
    requires Inv(s, past)
    ensures Inv(Next(s, step), Remember(s, past, step))
  {
    hide Inv, Dark, Select, Attempt, AcceptForTsp, RejectOffer;
    match step
    case Draft(id, row) => QuietStepKeepsInv(s, Next(s, step), past);
    case AssignBands(bands) => QuietStepKeepsInv(s, Next(s, step), past);
    case TryToOffer(id) =>
      if id in Unoffered(s) {
        AttemptKeepsInv(s, id, past);
      }
    case AcceptShipment(tsp, id) =>
      if AcceptForTsp(s, tsp, id).Ok? {
        AcceptKeepsInv(s, tsp, id, past);
      }
    case DeclineOffer(k, reason) =>
      if k < |s.offers| {
        DeclineKeepsInv(s, k, reason, past);
      }
    case Happen(id, event) => HappenKeepsInv(s, id, event, past);
    case Edit(_, _, _, _) => QuietStepKeepsInv(s, Next(s, step), past);
  }

  lemma {:induction false} RunKeepsInv(s: State, steps: seq<Step>, past: Past)
    requires Inv(s, past)
    ensures Inv(Execute(s, steps), PastOf(s, past, steps))
    decreases |steps|
  {
    if steps != [] {
      NextKeepsInv(s, steps[0], past);
      RunKeepsInv(Next(s, steps[0]), steps[1..], Remember(s, past, steps[0]));
    }
  }

  /** Where runs begin: no offers yet, nothing beyond submission. */
  ghost predicate Fresh(s: State) {
    s.offers == [] && forall id :: id in s.shipments ==> s.shipments[id].status in {Status.Draft, Status.Submitted}
  }

  function OfferCounts(t: Table): seq<nat> {
    seq(|t|, i requires 0 <= i < |t| => t[i].offerCount)
  }

  function Beginning(s: State): Past {
    Past(OfferCounts(s.performances), map[])
  }

  /** Over every run: each shipment has at most one real offer and exactly one once it is awarded; it has
      exactly one accepted offer when its status requires one and none otherwise; an offer is administrative
      exactly if its provider was blacked out when the shipment was offered, however blackouts, pickup dates
      and provider records are edited later; each performance's count has risen by exactly the offers made
      to it. */
  lemma EveryRun(s: State, steps: seq<Step>)
    requires Fresh(s)
    ensures Inv(Execute(s, steps), PastOf(s, Beginning(s), steps))
  {
    forall id | id in s.shipments ensures ShipmentFits(s, id) {
    }
    RunKeepsInv(s, steps, Beginning(s));
  }

  /** A submitted shipment that has been offered once, because the attempt found only blackouts or because
      the provider's rejection sent it back, keeps its offers and stays submitted for ever: the queue
      considers only shipments without offers. */
  lemma {:induction false} NeverOfferedAgain(s: State, steps: seq<Step>, id: Uuid, past: Past)
    requires Inv(s, past) && id in s.shipments && s.shipments[id].status == Status.Submitted
    requires Tally(s.offers, id, OfShipment) > 0
    ensures var end := Execute(s, steps);
      && id in end.shipments && end.shipments[id].status == Status.Submitted
      && Tally(end.offers, id, OfShipment) == Tally(s.offers, id, OfShipment)
    decreases |steps|
  {
    if steps != [] {
      NextKeepsInv(s, steps[0], past);
      StepLeavesOffered(s, steps[0], id);
      NeverOfferedAgain(Next(s, steps[0]), steps[1..], id, Remember(s, past, steps[0]));
    }
  }

  lemma StepLeavesOffered(s: State, step: Step, id: Uuid)
    requires id in s.shipments && s.shipments[id].status == Status.Submitted && Tally(s.offers, id, OfShipment) > 0
    ensures var s' := Next(s, step);
      && id in s'.shipments && s'.shipments[id].status == Status.Submitted
      && Tally(s'.offers, id, OfShipment) == Tally(s.offers, id, OfShipment)
  {
    hide Select, Attempt, DeliveredSits, Tally, OffersTo, After;
    match step
    case TryToOffer(x) =>
      if x in Unoffered(s) {
        NoOffersYet(s, x);
        var picks := AttemptShape(s, x);
        TallyJoin(s.offers, OffersTo(s.performances, x, Dark(s, x), picks), id, OfShipment);
        TallyOfAttempt(s.performances, x, Dark(s, x), picks, id);
      }
    case AcceptShipment(tsp, x) =>
      if AcceptForTsp(s, tsp, x).Ok? {
        var k := AcceptForTsp(s, tsp, x).value.1;
        VerdictTallies(s, k, s.offers[k].(accepted := Some(true)), id, OfShipment);
      }
    case DeclineOffer(k, reason) =>
      if k < |s.offers| && s.offers[k].accepted.None? {
        VerdictTallies(s, k, RejectOffer(s, k, reason).offers[k], id, OfShipment);
      }
    case _ =>
  }

  /** Accepting is meant for the provider that holds the real offer. The code looks the offer up by provider
      alone, so the offer it marks is the real one exactly when that provider had no blackout when the shipment
      was offered. */
  lemma AcceptedOfferIsRealIff(s: State, tsp: Uuid, id: Uuid, past: Past)
    requires Inv(s, past) && AcceptForTsp(s, tsp, id).Ok?
    ensures var (s', k) := AcceptForTsp(s, tsp, id).value;
      && Is(s'.offers[k], id, AcceptedOf) && s'.shipments[id].status == Status.Accepted
      && id in past.dark && (Is(s'.offers[k], id, RealOf) <==> tsp !in past.dark[id])
  {
    var (s', k) := AcceptForTsp(s, tsp, id).value;
    assert OfferFits(s, past, s.offers[k]);
  }

  lemma {:induction false} TallyTwo(offers: seq<Offer>, id: Uuid, kind: Kind, j: nat, k: nat)
    requires j < k < |offers| && Is(offers[j], id, kind) && Is(offers[k], id, kind)
    ensures Tally(offers, id, kind) >= 2
  {
    var n := |offers| - 1;
    if k < n {
      TallyTwo(offers[..n], id, kind, j, k);
    } else {
      TallySome(offers[..n], id, kind, j);
    }
  }

  lemma {:induction false} NoLink(offers: seq<Offer>, tsp: Uuid, id: Uuid)
    requires forall j: nat :: j < |offers| ==> !Links(offers[j], tsp, id)
    ensures OfferIndexes(offers, tsp, id) == []
  {
    if offers != [] {
      NoLink(offers[..|offers| - 1], tsp, id);
    }
  }

  lemma {:induction false} OnlyLink(offers: seq<Offer>, tsp: Uuid, id: Uuid, k: nat)
    requires k < |offers| && forall j: nat :: j < |offers| ==> (Links(offers[j], tsp, id) <==> j == k)
    ensures OfferIndexes(offers, tsp, id) == [k]
  {
    var n := |offers| - 1;
    if k < n {
      OnlyLink(offers[..n], tsp, id, k);
    } else {
      NoLink(offers[..n], tsp, id);
    }
  }

  /** The look-up by provider is ambiguous only for blacked out providers: the real offer is the only one its
      provider has for the shipment. So that provider can accept exactly while the shipment is awarded and it
      has not answered yet. */
  lemma RealProviderCanAccept(s: State, k: nat, past: Past)
    requires Inv(s, past) && k < |s.offers| && !s.offers[k].administrative
    ensures var o := s.offers[k];
      && OfferIndexes(s.offers, o.tsp, o.shipment) == [k]
      && (AcceptForTsp(s, o.tsp, o.shipment).Ok? <==> s.shipments[o.shipment].status == Status.Awarded && o.accepted.None?)
  {
    var o := s.offers[k];
    assert OfferFits(s, past, o);
    forall j: nat | j < |s.offers| && Links(s.offers[j], o.tsp, o.shipment) ensures j == k {
      assert OfferFits(s, past, s.offers[j]);
      if j < k {
        TallyTwo(s.offers, o.shipment, RealOf, j, k);
      } else if k < j {
        TallyTwo(s.offers, o.shipment, RealOf, k, j);
      }
      assert ShipmentFits(s, o.shipment);
    }
    OnlyLink(s.offers, o.tsp, o.shipment, k);
  }

  /** Step k turned to shipment id when it had no offer, and found the given providers blacked out. */
  ghost predicate TurnedTo(s: State, steps: seq<Step>, id: Uuid, dark: set<Uuid>, k: nat) {
    && k < |steps| && steps[k] == TryToOffer(id)
    && id in Unoffered(Execute(s, steps[..k])) && Dark(Execute(s, steps[..k]), id) == dark
  }

  /** What is remembered as blacked out for a shipment was so at a step of the run that turned to it. */
  lemma {:induction false} PastIsTrue(s: State, past: Past, steps: seq<Step>, id: Uuid)
    requires id in PastOf(s, past, steps).dark
    ensures var dark := PastOf(s, past, steps).dark[id];
      (id in past.dark && dark == past.dark[id]) || exists k: nat :: TurnedTo(s, steps, id, dark, k)
    decreases |steps|
  {
    hide Next, Dark, Unoffered;
    if steps != [] {
      var dark := PastOf(s, past, steps).dark[id];
      var s1, past1, rest := Next(s, steps[0]), Remember(s, past, steps[0]), steps[1..];
      PastIsTrue(s1, past1, rest, id);
      if k: nat :| TurnedTo(s1, rest, id, dark, k) {
        assert steps[..k + 1][1..] == rest[..k];
        assert TurnedTo(s, steps, id, dark, k + 1);
      } else if !(id in past.dark && dark == past.dark[id]) {
        assert steps[..0] == [];
        assert TurnedTo(s, steps, id, dark, 0);
      }
    }
  }

  /** The queue's pass over a batch is a run of attempts. */
  lemma {:induction false} BatchIsARun(s: State, batch: seq<Uuid>)
    requires (forall i, j :: 0 <= i < j < |batch| ==> batch[i] != batch[j])
    requires forall i :: 0 <= i < |batch| ==> batch[i] in s.shipments && batch[i] in Unoffered(s)
    ensures AttemptAll(s, batch) == Execute(s, seq(|batch|, i requires 0 <= i < |batch| => TryToOffer(batch[i])))
    decreases |batch|
  {
    hide Select, Attempt;
    var steps := seq(|batch|, i requires 0 <= i < |batch| => TryToOffer(batch[i]));
    if batch != [] {
      var id, rest := batch[0], batch[1..];
      var s' := Attempt(s, id).0;
      var picks := AttemptShape(s, id);
      forall i | 0 <= i < |rest| ensures rest[i] in s'.shipments && rest[i] in Unoffered(s') {
        assert rest[i] == batch[i + 1] && rest[i] != id && rest[i] in Unoffered(s);
        assert forall o :: o in OffersTo(s.performances, id, Dark(s, id), picks) ==> o.shipment == id;
      }
      BatchIsARun(s', rest);
      assert steps[1..] == seq(|rest|, i requires 0 <= i < |rest| => TryToOffer(rest[i]));
      assert Next(s, steps[0]) == s';
    }
  }
}
