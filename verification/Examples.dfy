/** Two short runs from a state without offers, in which the protocol ends where nobody meant it to. */
module Examples {
  import opened Wrappers
  import opened Performances
  import opened OfferLoop
  import opened Rotation
  import opened Shipments
  import opened Store
  import opened Protocol

  const SHIPMENT: Uuid := 7

  /** Submitted and ready to be offered. */
  const WAITING := ShipmentRow(
    Submitted, Some(0), Some(0), Some(0), None, Some(0), None, None, None, None, None, None, None, [])

  /** Three providers, one in each band, without offers; the first is blacked out for the shipment. */
  const START := State(
    OnePerBand(0, 0, 0),
    map[1 := Tsp(true, "A", None), 2 := Tsp(true, "B", None), 3 := Tsp(true, "C", None)],
    {0},
    {(1, SHIPMENT)},
    map[SHIPMENT := WAITING],
    [])

  lemma FirstAttemptVisits()
    ensures Select(OnePerBand(0, 0, 0), EVERYBODY) == Some(0)
    ensures Visits(OnePerBand(0, 0, 0), EVERYBODY, {1}) == [0, 1]
  {
    hide Select;
    var t, c, dark := OnePerBand(0, 0, 0), EVERYBODY, {1};
    SelectOnePerBand(0, 0, 0);
    SelectOnePerBand(1, 0, 0);
    assert Bump(t, 0) == OnePerBand(1, 0, 0);
    OneStepRun(Bump(t, 0), c, dark, 0, 1);
    RunCons(t, c, dark, 0, 0, [1]);
    assert [0] + [1] == [0, 1];
    StartIsCapped(t, c);
    TraceIsARun(t, c, dark, 0, MaxOffers(t, c) + 2);
    RunIsUnique(t, c, dark, 0, Visits(t, c, dark), [0, 1]);
  }

  const TO_FIRST := Offer(SHIPMENT, 1, 0, true, None, None)

  const TO_SECOND := Offer(SHIPMENT, 2, 1, false, None, None)

  lemma Participants()
    ensures ContestFor(START, WAITING) == EVERYBODY && Dark(START, SHIPMENT) == {1}
    ensures SHIPMENT in Unoffered(START)
  {
    assert Enrolled(START) == {1, 2, 3};
    assert (1, SHIPMENT) in START.blackouts;
  }

  /** An attempt that finds a free provider. */
  lemma AttemptPlaces(s: State, id: Uuid, c: Contest, picks: seq<nat>)
    requires id in s.shipments && Complete(s.shipments[id]) && s.shipments[id].tdl.value in s.tdls
    requires c == ContestFor(s, s.shipments[id]) && Select(s.performances, c).Some?
    requires picks == Visits(s.performances, c, Dark(s, id))
    requires s.performances[picks[|picks| - 1]].tsp !in Dark(s, id) && Permits(s.shipments[id], Award)
    ensures var s' := Attempt(s, id).0;
      && s'.offers == s.offers + OffersTo(s.performances, id, Dark(s, id), picks)
      && s'.shipments == s.shipments[id := Apply(s.shipments[id], Award)]
  {
    hide Select, Visits, After, Enrolled, Dark;
  }

  /** The first provider gets an administrative offer, the second the shipment. */
  lemma FirstAttempt()
    ensures var s := Attempt(START, SHIPMENT).0;
      && s.offers == [TO_FIRST, TO_SECOND]
      && s.shipments == map[SHIPMENT := WAITING.(status := Status.Awarded)]
  {
    FirstAttemptVisits();
    Participants();
    hide Select, Visits, After, Enrolled, Dark, Attempt;
    AttemptPlaces(START, SHIPMENT, EVERYBODY, [0, 1]);
    assert OffersTo(START.performances, SHIPMENT, {1}, [0, 1]) == [TO_FIRST, TO_SECOND];
    assert [] + [TO_FIRST, TO_SECOND] == [TO_FIRST, TO_SECOND];
    assert map[SHIPMENT := WAITING][SHIPMENT := WAITING.(status := Status.Awarded)] ==
      map[SHIPMENT := WAITING.(status := Status.Awarded)];
  }

  lemma TwoSteps(s: State, a: Step, b: Step)
    ensures Execute(s, [a, b]) == Next(Next(s, a), b)
  {
    assert [a, b][1..] == [b] && [b][1..] == [];
    assert Execute(Next(s, a), [b]) == Execute(Next(Next(s, a), b), []);
  }

  /** The provider that is blacked out accepts the shipment that was awarded to another. */
  lemma BlackedOutProviderAccepts()
    ensures Fresh(START)
    ensures var end := Execute(START, [TryToOffer(SHIPMENT), AcceptShipment(1, SHIPMENT)]);
      && (1, SHIPMENT) in START.blackouts
      && end.offers == [TO_FIRST.(accepted := Some(true)), TO_SECOND]
      && SHIPMENT in end.shipments && end.shipments[SHIPMENT].status == Status.Accepted
  {
    FirstAttempt();
    Participants();
    hide Attempt, Unoffered;
    var s := Attempt(START, SHIPMENT).0;
    TwoSteps(START, TryToOffer(SHIPMENT), AcceptShipment(1, SHIPMENT));
    OnlyLink(s.offers, 1, SHIPMENT, 0);
    assert [TO_FIRST, TO_SECOND][0 := TO_FIRST.(accepted := Some(true))] == [TO_FIRST.(accepted := Some(true)), TO_SECOND];
  }

  /** A shipment whose award is taken back is not offered again, although two providers are free. */
  lemma RejectedAndForgotten()
    ensures Fresh(START)
    ensures var end := Execute(START, [TryToOffer(SHIPMENT), Happen(SHIPMENT, Reject), TryToOffer(SHIPMENT)]);
      && end.offers == [TO_FIRST, TO_SECOND]
      && SHIPMENT in end.shipments && end.shipments[SHIPMENT].status == Status.Submitted
      && SHIPMENT !in Unoffered(end)
  {
    FirstAttempt();
    Participants();
    hide Attempt;
    var s1 := Attempt(START, SHIPMENT).0;
    var s2 := Next(s1, Happen(SHIPMENT, Reject));
    assert TO_FIRST in s2.offers;
    assert SHIPMENT !in Unoffered(s2);
    var steps := [TryToOffer(SHIPMENT), Happen(SHIPMENT, Reject), TryToOffer(SHIPMENT)];
    assert steps[1..] == [Happen(SHIPMENT, Reject), TryToOffer(SHIPMENT)];
    TwoSteps(s1, Happen(SHIPMENT, Reject), TryToOffer(SHIPMENT));
    assert Execute(START, steps) == Execute(s1, steps[1..]);
  }
}
