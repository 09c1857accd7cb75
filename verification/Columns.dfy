/** What the award queue and the providers do, told in the columns of the tables before and after. */
module Columns {
  import opened Wrappers
  import opened Performances
  import opened OfferLoop
  import opened Shipments
  import opened Store
  import opened Protocol
  import opened NextInLine

  /** The shipment may be offered to the provider of this performance: the lists agree, the book date lies in
      the performance period and the requested pickup date in the rate cycle, the provider is enrolled, and the
      performance is in one of the four bands. */
  predicate MayBeOffered(s: State, r: ShipmentRow, p: Performance) {
    && r.tdl == Some(p.tdl)
    && r.bookDate.Some? && p.periodStart <= r.bookDate.value <= p.periodEnd
    && r.requestedPickupDate.Some? && p.cycleStart <= r.requestedPickupDate.value <= p.cycleEnd
    && p.tsp in s.tsps && s.tsps[p.tsp].enrolled
    && p.qualityBand.Some? && 1 <= p.qualityBand.value <= 4
  }

  lemma MayBeOfferedIff(s: State, r: ShipmentRow, i: nat)
    requires Complete(r) && i < |s.performances|
    ensures Competes(s.performances, ContestFor(s, r), i) <==> MayBeOffered(s, r, s.performances[i])
  {
  }

  lemma NextMayBeOffered(s: State, r: ShipmentRow)
    requires Complete(r)
    ensures Select(s.performances, ContestFor(s, r)).None? <==>
      forall i: nat :: i < |s.performances| ==> !MayBeOffered(s, r, s.performances[i])
  {
    var t, c := s.performances, ContestFor(s, r);
    hide Select, MayBeOffered, Matches;
    SomebodyIsNextIff(t, c);
    forall i: nat | i < |t|
      ensures Matches(t[i], c.tdl, c.bookDate, c.pickupDate, c.enrolled) <==> MayBeOffered(s, r, t[i])
    {
      MatchesIffCompetes(t, c, i);
      MayBeOfferedIff(s, r, i);
    }
  }

  lemma {:induction false} TraceCompetes(t: Table, c: Contest, dark: set<Uuid>, first: nat, cap: nat)
    requires Capped(t, c, first, cap)
    ensures forall k :: 0 <= k < |Trace(t, c, dark, first, cap)| ==> Competes(t, c, Trace(t, c, dark, first, cap)[k])
    decreases Room(t, c, cap)
  {
    hide Select, Capped, Eligible, Trace, Room;
    var i, next := TraceUnfolds(t, c, dark, first, cap);
    if t[i].tsp in dark && next != first {
      TraceCompetes(Bump(t, i), c, dark, first, cap);
      BumpKeepsContest(t, c, i);
    }
  }

  lemma VisitsCompete(t: Table, c: Contest, dark: set<Uuid>)
    requires Select(t, c).Some?
    ensures forall k :: 0 <= k < |Visits(t, c, dark)| ==> Competes(t, c, Visits(t, c, dark)[k])
  {
    hide Select, Capped, Competes, Trace;
    StartIsCapped(t, c);
    TraceCompetes(t, c, dark, Select(t, c).value, MaxOffers(t, c) + 2);
  }

  /** An offer that an attempt makes. */
  predicate FitsShipment(s: State, id: Uuid, o: Offer)
    requires id in s.shipments
  {
    && o.shipment == id && o.performance < |s.performances|
    && o.tsp == s.performances[o.performance].tsp
    && MayBeOffered(s, s.shipments[id], s.performances[o.performance])
    && (o.administrative <==> (o.tsp, id) in s.blackouts)
    && o.accepted.None? && o.rejectionReason.None?
  }

  lemma DarkIff(s: State, id: Uuid, tsp: Uuid)
    ensures tsp in Dark(s, id) <==> (tsp, id) in s.blackouts
  {
    if (tsp, id) in s.blackouts {
      assert (tsp, id).1 == id && (tsp, id).0 == tsp;
    }
  }

  lemma OffersToFit(s: State, id: Uuid, picks: seq<nat>)
    requires id in s.shipments && Complete(s.shipments[id]) && Rows(s.performances, picks)
    requires forall k :: 0 <= k < |picks| ==> Competes(s.performances, ContestFor(s, s.shipments[id]), picks[k])
    ensures forall o :: o in OffersTo(s.performances, id, Dark(s, id), picks) ==> FitsShipment(s, id, o)
  {
    hide Competes, MayBeOffered, Dark, ContestFor, Complete;
    var made := OffersTo(s.performances, id, Dark(s, id), picks);
    forall k | 0 <= k < |made| ensures FitsShipment(s, id, made[k]) {
      MayBeOfferedIff(s, s.shipments[id], picks[k]);
      DarkIff(s, id, made[k].tsp);
    }
  }

  /** The offers an attempt adds go to performances that meet the query for the shipment's own dates, each
      naming the provider of its performance, administrative exactly for a provider with a blackout; all but the
      last are administrative. */
  lemma AttemptAddsFittingOffers(s: State, id: Uuid)
    requires id in s.shipments
    ensures var s' := Attempt(s, id).0;
      && s.offers <= s'.offers
      && forall k: nat :: |s.offers| <= k < |s'.offers| ==>
        FitsShipment(s, id, s'.offers[k]) && (k + 1 < |s'.offers| ==> s'.offers[k].administrative)
  {
    var row := s.shipments[id];
    if Complete(row) && row.tdl.value in s.tdls {
      var t, c, dark := s.performances, ContestFor(s, row), Dark(s, id);
      if Select(t, c).Some? {
        hide Select, FitsShipment, Dark, ContestFor, Visits;
        var picks := Visits(t, c, dark);
        VisitsCompete(t, c, dark);
        OffersToFit(s, id, picks);
        Protocol.OnlyTheLastIsFree(t, c, dark);
        var made := OffersTo(t, id, dark, picks);
        assert Attempt(s, id).0.offers == s.offers + made;
        assert forall k :: 0 <= k < |made| ==> made[k] in made;
      }
    }
  }

  /** How an attempt ends is decided by the shipment's record, the lists, the query and the blackouts. */
  lemma AttemptOutcome(s: State, id: Uuid)
    requires id in s.shipments
    ensures var (s', r) := Attempt(s, id); var row := s.shipments[id]; var made := s'.offers[|s.offers|..];
      && |s.offers| <= |s'.offers|
      && (r == Err(MissingData) <==> row.tdl.None? || row.bookDate.None? || row.requestedPickupDate.None?)
      && (r == Err(NoTdl) <==>
            row.tdl.Some? && row.bookDate.Some? && row.requestedPickupDate.Some? && row.tdl.value !in s.tdls)
      && (r == Err(NoTsps) <==>
            && row.tdl.Some? && row.bookDate.Some? && row.requestedPickupDate.Some? && row.tdl.value in s.tdls
            && forall i: nat :: i < |s.performances| ==> !MayBeOffered(s, row, s.performances[i]))
      && (made == [] <==> r in {Err(MissingData), Err(NoTdl), Err(NoTsps)})
      && (r.Ok? <==> made != [] && !made[|made| - 1].administrative && row.status == Status.Submitted)
      && (r.Ok? ==> r.value == |s'.offers| - 1)
      && (r == Err(CannotAward(InvalidTransition)) <==>
            made != [] && !made[|made| - 1].administrative && row.status != Status.Submitted)
      && (r == Err(AllBlackedOut(|made|)) <==> made != [] && made[|made| - 1].administrative)
  {
    hide MayBeOffered, Select, ContestFor, Attempt;
    var row := s.shipments[id];
    if Complete(row) && row.tdl.value in s.tdls {
      NextMayBeOffered(s, row);
      if Select(s.performances, ContestFor(s, row)).Some? {
        OfferedOutcome(s, id);
      } else {
        NotOfferedOutcome(s, id);
      }
    } else {
      NotOfferedOutcome(s, id);
    }
  }

  lemma NotOfferedOutcome(s: State, id: Uuid)
    requires id in s.shipments
    requires var row := s.shipments[id];
      Complete(row) && row.tdl.value in s.tdls ==> Select(s.performances, ContestFor(s, row)).None?
    ensures var row := s.shipments[id];
      Attempt(s, id) == (s, Err(if !Complete(row) then MissingData else if row.tdl.value !in s.tdls then NoTdl else NoTsps))
  {
    hide Select, ContestFor;
  }

  lemma OfferedOutcome(s: State, id: Uuid)
    requires id in s.shipments && Complete(s.shipments[id]) && s.shipments[id].tdl.value in s.tdls
    requires Select(s.performances, ContestFor(s, s.shipments[id])).Some?
    ensures var (s', r) := Attempt(s, id); var made := s'.offers[|s.offers|..];
      && |s.offers| < |s'.offers|
      && r == if made[|made| - 1].administrative then Err(AllBlackedOut(|made|))
              else if s.shipments[id].status != Status.Submitted then Err(CannotAward(InvalidTransition))
              else Ok(|s'.offers| - 1)
  {
    hide Select, Visits, ContestFor, Dark, Complete;
    var picks := Visits(s.performances, ContestFor(s, s.shipments[id]), Dark(s, id));
    assert Attempt(s, id).0.offers[|s.offers|..] == OffersTo(s.performances, id, Dark(s, id), picks);
  }

  lemma {:induction false} TallyCounts(offers: seq<Offer>, id: Uuid, kind: Kind)
    ensures Tally(offers, id, kind) == |set k: nat | k < |offers| && Is(offers[k], id, kind)|
  {
    hide Is;
    if offers != [] {
      TallyCounts(offers[..|offers| - 1], id, kind);
      OneMoreFound(offers, id, kind);
    }
  }

  lemma OneMoreFound(offers: seq<Offer>, id: Uuid, kind: Kind)
    requires offers != []
    ensures var n := |offers| - 1;
      |set k: nat | k < |offers| && Is(offers[k], id, kind)| ==
      |set k: nat | k < n && Is(offers[..n][k], id, kind)| + if Is(offers[n], id, kind) then 1 else 0
  {
    hide Is, Tally;
    var n := |offers| - 1;
    var found := set k: nat | k < |offers| && Is(offers[k], id, kind);
    var before := set k: nat | k < n && Is(offers[..n][k], id, kind);
    assert n !in before;
    assert found == if Is(offers[n], id, kind) then before + {n} else before;
  }

  /** The numbers of offers made to performance i, among the offers. */
  function OffersMadeTo(offers: seq<Offer>, i: nat): nat {
    |set k: nat | k < |offers| && offers[k].performance == i|
  }

  lemma MadeToIsTally(offers: seq<Offer>, i: nat)
    ensures Tally(offers, i, OfPerformance) == OffersMadeTo(offers, i)
  {
    TallyCounts(offers, i, OfPerformance);
    assert (set k: nat | k < |offers| && Is(offers[k], i, OfPerformance)) ==
      (set k: nat | k < |offers| && offers[k].performance == i);
  }

  /** What an attempt leaves in the tables besides the offers: each performance's count has risen by the offers
      made to it, and the shipment is awarded on success; nothing else has changed. */
  lemma AttemptLeavesTheRest(s: State, id: Uuid)
    requires id in s.shipments
    ensures var (s', r) := Attempt(s, id);
      && |s'.performances| == |s.performances|
      && (forall i: nat :: i < |s.performances| ==>
        && s'.performances[i].offerCount - s.performances[i].offerCount ==
             OffersMadeTo(s'.offers, i) - OffersMadeTo(s.offers, i)
        && s'.performances[i] == s.performances[i].(offerCount := s'.performances[i].offerCount))
      && s'.shipments == (if r.Ok? then s.shipments[id := s.shipments[id].(status := Status.Awarded)] else s.shipments)
      && s'.tsps == s.tsps && s'.tdls == s.tdls && s'.blackouts == s.blackouts
  {
    var picks := Protocol.AttemptShape(s, id);
    var s' := Attempt(s, id).0;
    hide Select, Attempt, OffersTo, Dark, After, OffersMadeTo;
    forall i: nat | i < |s.performances|
      ensures s'.performances[i].offerCount - s.performances[i].offerCount ==
                OffersMadeTo(s'.offers, i) - OffersMadeTo(s.offers, i)
      ensures s'.performances[i] == s.performances[i].(offerCount := s'.performances[i].offerCount)
    {
      AfterAt(s.performances, picks, i);
      TallyJoin(s.offers, OffersTo(s.performances, id, Dark(s, id), picks), i, OfPerformance);
      TallyOfAttempt(s.performances, id, Dark(s, id), picks, i);
      MadeToIsTally(s.offers, i);
      MadeToIsTally(s'.offers, i);
    }
  }

  /** t' is t after the offers have been counted. */
  ghost predicate Counted(t: Table, made: seq<Offer>, t': Table) {
    && |t'| == |t|
    && forall i: nat :: i < |t| ==> t'[i] == t[i].(offerCount := t[i].offerCount + OffersMadeTo(made, i))
  }

  lemma PicksCounted(t: Table, id: Uuid, dark: set<Uuid>, picks: seq<nat>, t': Table)
    requires Rows(t, picks) && forall k :: 0 <= k < |picks| - 1 ==> t[picks[k]].tsp in dark
    requires Counted(t, OffersTo(t, id, dark, picks), t')
    ensures t' == After(t, picks)
  {
    hide OffersTo, OffersMadeTo;
    forall i: nat | i < |t| ensures t'[i] == After(t, picks)[i] {
      AfterAt(t, picks, i);
      TallyOfAttempt(t, id, dark, picks, i);
      MadeToIsTally(OffersTo(t, id, dark, picks), i);
    }
  }

  /** Every offer of an attempt goes to whoever is next in line once the attempt's earlier offers count. */
  lemma EveryOfferIsInTurn(s: State, id: Uuid, k: nat, t': Table)
    requires id in s.shipments && k < |Attempt(s, id).0.offers| - |s.offers|
    requires Counted(s.performances, Attempt(s, id).0.offers[|s.offers|..|s.offers| + k], t')
    ensures var row, enrolled := s.shipments[id], set x | x in s.tsps && s.tsps[x].enrolled;
      && row.tdl.Some? && row.bookDate.Some? && row.requestedPickupDate.Some?
      && IsNext(t', Contest(row.tdl.value, row.bookDate.value, row.requestedPickupDate.value, enrolled),
                Attempt(s, id).0.offers[|s.offers| + k].performance)
  {
    var t, dark := s.performances, Dark(s, id);
    hide Select, Dark, Visits, IsNext, Counted, OffersTo;
    var c := ContestFor(s, s.shipments[id]);
    var picks := Visits(t, c, dark);
    var made := OffersTo(t, id, dark, picks);
    assert Attempt(s, id).0.offers == s.offers + made;
    VisitsInTurn(t, c, dark, k);
    MadePrefix(t, id, dark, picks, k);
    assert (s.offers + made)[|s.offers|..|s.offers| + k] == made[..k];
    Protocol.OnlyTheLastIsFree(t, c, dark);
    PicksCounted(t, id, dark, picks[..k], t');
    SelectIffNext(t', c, picks[k]);
  }

  lemma VisitsInTurn(t: Table, c: Contest, dark: set<Uuid>, k: nat)
    requires Select(t, c).Some? && k < |Visits(t, c, dark)|
    ensures var picks := Visits(t, c, dark); Rows(t, picks[..k]) && Select(After(t, picks[..k]), c) == Some(picks[k])
  {
    hide Select, After, Visits, GoesOn;
    VisitsAreARun(t, c, dark);
    assert InLine(t, c, Visits(t, c, dark), k);
  }

  lemma VisitsAreARun(t: Table, c: Contest, dark: set<Uuid>)
    requires Select(t, c).Some?
    ensures IsRun(t, c, dark, Select(t, c).value, Visits(t, c, dark))
  {
    hide Select, Trace, Capped, IsRun;
    StartIsCapped(t, c);
    TraceIsARun(t, c, dark, Select(t, c).value, MaxOffers(t, c) + 2);
  }

  lemma MadePrefix(t: Table, id: Uuid, dark: set<Uuid>, picks: seq<nat>, k: nat)
    requires Rows(t, picks) && k < |picks|
    ensures Rows(t, picks[..k]) && OffersTo(t, id, dark, picks)[..k] == OffersTo(t, id, dark, picks[..k])
    ensures OffersTo(t, id, dark, picks)[k].performance == picks[k]
  {
  }

  /** Offer k is the only one that links the provider and the shipment. */
  ghost predicate OnlyLinkIs(offers: seq<Offer>, tsp: Uuid, id: Uuid, k: nat) {
    && k < |offers| && offers[k].tsp == tsp && offers[k].shipment == id
    && forall j: nat :: j < |offers| && offers[j].tsp == tsp && offers[j].shipment == id ==> j == k
  }

  lemma OneLinkIff(offers: seq<Offer>, tsp: Uuid, id: Uuid)
    ensures |OfferIndexes(offers, tsp, id)| == 1 <==> exists k: nat :: OnlyLinkIs(offers, tsp, id, k)
    ensures |OfferIndexes(offers, tsp, id)| == 1 ==> OnlyLinkIs(offers, tsp, id, OfferIndexes(offers, tsp, id)[0])
  {
    var found := OfferIndexes(offers, tsp, id);
    if k: nat :| OnlyLinkIs(offers, tsp, id, k) {
      OnlyLink(offers, tsp, id, k);
    }
    if |found| == 1 {
      assert found == [found[0]];
      assert OnlyLinkIs(offers, tsp, id, found[0]);
    }
  }

  /** A provider's acceptance goes through exactly if the shipment is awarded and the provider has exactly one
      offer for it, not yet answered; then that offer and the shipment are accepted and nothing else changes. */
  lemma AcceptanceIff(s: State, tsp: Uuid, id: Uuid)
    ensures var r := AcceptForTsp(s, tsp, id);
      && (r.Ok? <==>
            && id in s.shipments && s.shipments[id].status == Status.Awarded
            && exists k: nat :: OnlyLinkIs(s.offers, tsp, id, k) && s.offers[k].accepted.None?)
      && (r == Err(NotFound) <==> id !in s.shipments || !exists k: nat :: OnlyLinkIs(s.offers, tsp, id, k))
      && (r.Ok? ==> var (s', k) := r.value;
        && OnlyLinkIs(s.offers, tsp, id, k)
        && s' == s.(shipments := s.shipments[id := s.shipments[id].(status := Status.Accepted)],
                    offers := s.offers[k := s.offers[k].(accepted := Some(true))]))
  {
    hide OfferIndexes;
    OneLinkIff(s.offers, tsp, id);
    if k: nat :| OnlyLinkIs(s.offers, tsp, id, k) {
      assert OnlyLinkIs(s.offers, tsp, id, OfferIndexes(s.offers, tsp, id)[0]);
    }
  }

  lemma {:induction false} TallyFinds(offers: seq<Offer>, id: Uuid, kind: Kind) returns (k: nat)
    requires Tally(offers, id, kind) > 0
    ensures k < |offers| && Is(offers[k], id, kind)
  {
    var n := |offers| - 1;
    if Is(offers[n], id, kind) {
      k := n;
    } else {
      k := TallyFinds(offers[..n], id, kind);
    }
  }

  /** The offers of a shipment agree with its status: no two are real and no two accepted; there is an accepted
      one exactly from acceptance on, a real one from the award on, and none for a draft. */
  ghost predicate Agree(offers: seq<Offer>, id: Uuid, status: Status) {
    && (forall j, k :: 0 <= j < k < |offers| && offers[j].shipment == offers[k].shipment == id ==>
      offers[j].administrative || offers[k].administrative)
    && (forall j, k :: 0 <= j < k < |offers| && offers[j].shipment == offers[k].shipment == id ==>
      offers[j].accepted != Some(true) || offers[k].accepted != Some(true))
    && (status in {Status.Accepted, Status.Approved, InTransit, Status.Delivered} <==>
      exists k :: 0 <= k < |offers| && offers[k].shipment == id && offers[k].accepted == Some(true))
    && (status in {Status.Awarded, Status.Accepted, Status.Approved, InTransit, Status.Delivered} ==>
      exists k :: 0 <= k < |offers| && offers[k].shipment == id && !offers[k].administrative)
    && (status == Status.Draft ==> forall k :: 0 <= k < |offers| ==> offers[k].shipment != id)
  }

  /** The record and the offers of every shipment agree in every state a run reaches. */
  lemma ShipmentInEveryRun(s: State, steps: seq<Step>, id: Uuid)
    requires Fresh(s) && id in Execute(s, steps).shipments
    ensures var end := Execute(s, steps); Agree(end.offers, id, end.shipments[id].status)
  {
    EveryRun(s, steps);
    var end := Execute(s, steps);
    assert ShipmentFits(end, id);
    hide Execute, Tally, Inv;
    FittingInColumns(end, id);
  }

  lemma AtMostOne(offers: seq<Offer>, id: Uuid, kind: Kind, j: nat, k: nat)
    requires Tally(offers, id, kind) <= 1 && j < k < |offers|
    ensures !(Is(offers[j], id, kind) && Is(offers[k], id, kind))
  {
    hide Tally, Is;
    if Is(offers[j], id, kind) && Is(offers[k], id, kind) {
      TallyTwo(offers, id, kind, j, k);
    }
  }

  lemma SomeIff(offers: seq<Offer>, id: Uuid, kind: Kind)
    ensures Tally(offers, id, kind) > 0 <==> exists k :: 0 <= k < |offers| && Is(offers[k], id, kind)
  {
    hide Tally, Is;
    if Tally(offers, id, kind) > 0 {
      var k := TallyFinds(offers, id, kind);
    }
    if k: nat :| k < |offers| && Is(offers[k], id, kind) {
      TallySome(offers, id, kind, k);
    }
  }

  lemma FittingInColumns(s: State, id: Uuid)
    requires id in s.shipments && ShipmentFits(s, id)
    ensures Agree(s.offers, id, s.shipments[id].status)
  {
    hide Tally;
    SomeIff(s.offers, id, AcceptedOf);
    SomeIff(s.offers, id, RealOf);
    SomeIff(s.offers, id, OfShipment);
    forall j, k | 0 <= j < k < |s.offers|
      ensures !(Is(s.offers[j], id, RealOf) && Is(s.offers[k], id, RealOf))
      ensures !(Is(s.offers[j], id, AcceptedOf) && Is(s.offers[k], id, AcceptedOf))
    {
      AtMostOne(s.offers, id, RealOf, j, k);
      AtMostOne(s.offers, id, AcceptedOf, j, k);
    }
  }

  /** Offer k carries the answer it was given: none and no reason, an acceptance and no reason, or a rejection with
      the reason of a rejection of just this offer in the run. */
  ghost predicate AnswerFits(o: Offer, k: nat, steps: seq<Step>) {
    match o.accepted
    case None => o.rejectionReason.None?
    case Some(true) => o.rejectionReason.None?
    case Some(false) => o.rejectionReason.Some? && DeclineOffer(k, o.rejectionReason.value) in steps
  }

  ghost predicate AnswersFit(offers: seq<Offer>, steps: seq<Step>) {
    forall k: nat :: k < |offers| ==> AnswerFits(offers[k], k, steps)
  }

  lemma AnswerStillFits(o: Offer, k: nat, steps: seq<Step>, step: Step)
    requires AnswerFits(o, k, steps)
    ensures AnswerFits(o, k, steps + [step])
  {
  }

  /** Offers are only added, unanswered, or answered by the step at hand. */
  ghost predicate OnlyAnswers(offers: seq<Offer>, step: Step, offers': seq<Offer>) {
    && |offers| <= |offers'|
    && (forall k: nat :: k < |offers| && offers[k].accepted.Some? ==> offers'[k] == offers[k])
    && (forall k: nat :: k < |offers| && offers[k].accepted.None? ==>
      || offers'[k] == offers[k]
      || offers'[k] == offers[k].(accepted := Some(true))
      || exists reason :: step == DeclineOffer(k, reason) &&
           offers'[k] == offers[k].(accepted := Some(false), rejectionReason := Some(reason)))
    && (forall k: nat :: |offers| <= k < |offers'| ==> offers'[k].accepted.None? && offers'[k].rejectionReason.None?)
  }

  lemma StepsOnlyAnswer(s: State, step: Step)
    ensures OnlyAnswers(s.offers, step, Next(s, step).offers)
  {
    hide Attempt, AcceptForTsp, RejectOffer, Unoffered, OnlyAnswers, Fire, WithBands;
    SameOffers(s.offers, step);
    match step
    case TryToOffer(id) =>
      if id in Unoffered(s) {
        UnofferedIsThere(s, id);
        AttemptAddsUnanswered(s, step, id);
      }
    case AcceptShipment(tsp, id) => AcceptanceAnswers(s, step, tsp, id);
    case DeclineOffer(k, reason) => RejectionAnswers(s, k, reason);
    case _ =>
  }

  lemma SameOffers(offers: seq<Offer>, step: Step)
    ensures OnlyAnswers(offers, step, offers)
  {
  }

  lemma AcceptanceAnswers(s: State, step: Step, tsp: Uuid, id: Uuid)
    ensures AcceptForTsp(s, tsp, id).Ok? ==> OnlyAnswers(s.offers, step, AcceptForTsp(s, tsp, id).value.0.offers)
  {
    hide OfferIndexes;
  }

  lemma RejectionAnswers(s: State, k: nat, reason: string)
    ensures k < |s.offers| ==> OnlyAnswers(s.offers, DeclineOffer(k, reason), RejectOffer(s, k, reason).offers)
  {
  }

  lemma UnofferedIsThere(s: State, id: Uuid)
    requires id in Unoffered(s)
    ensures id in s.shipments
  {
  }

  lemma AttemptAddsUnanswered(s: State, step: Step, id: Uuid)
    requires id in s.shipments
    ensures OnlyAnswers(s.offers, step, Attempt(s, id).0.offers)
  {
    hide Attempt, MayBeOffered;
    AttemptAddsFittingOffers(s, id);
  }

  lemma StepKeepsAnswers(s: State, step: Step, before: seq<Step>)
    requires AnswersFit(s.offers, before)
    ensures AnswersFit(Next(s, step).offers, before + [step])
  {
    hide Next;
    StepsOnlyAnswer(s, step);
    forall k: nat | k < |Next(s, step).offers| ensures AnswerFits(Next(s, step).offers[k], k, before + [step]) {
      if k < |s.offers| {
        AnswerStillFits(s.offers[k], k, before, step);
      }
    }
  }

  /** Over every run the answers to offers are those that were given, a rejection with its reason, and an answer
      once given stays. */
  lemma {:induction false} AnswersInEveryRun(s: State, steps: seq<Step>, before: seq<Step>, k: nat)
    requires AnswersFit(s.offers, before)
    ensures var end := Execute(s, steps);
      && AnswersFit(end.offers, before + steps)
      && |s.offers| <= |end.offers|
      && (k < |s.offers| && s.offers[k].accepted.Some? ==> end.offers[k] == s.offers[k])
    decreases |steps|
  {
    hide Next, AnswersFit;
    if steps == [] {
      assert before + steps == before;
    } else {
      StepKeepsAnswers(s, steps[0], before);
      StepsOnlyAnswer(s, steps[0]);
      AnswersInEveryRun(Next(s, steps[0]), steps[1..], before + [steps[0]], k);
      assert before + [steps[0]] + steps[1..] == before + steps;
    }
  }
}
