/** The search for a shipment's accepted offer, told in the columns of the tables. */
module SearchColumns {
  import opened Wrappers
  import opened Performances
  import opened Shipments
  import opened Store
  import opened Offers

  /** Offer k belongs to the shipment and has been accepted. */
  predicate AcceptedAt(offers: seq<Offer>, id: Uuid, k: nat) {
    k < |offers| && offers[k].shipment == id && offers[k].accepted == Some(true)
  }

  /** The provider of the offer's performance has a record. */
  predicate Known(s: State, o: Offer) {
    && o.performance < |s.performances|
    && s.performances[o.performance].tsp != NIL && s.performances[o.performance].tsp in s.tsps
  }

  /** What is said of the record of that provider. */
  predicate Wants(s: State, o: Offer, e: DataError) {
    match e
    case MissingTsp => !Known(s, o)
    case MissingScac => Known(s, o) && s.tsps[s.performances[o.performance].tsp].scac == ""
    case MissingSupplierId =>
      && Known(s, o)
      && var tsp := s.tsps[s.performances[o.performance].tsp];
      tsp.scac != "" && (tsp.supplierId == None || tsp.supplierId == Some(""))
  }

  predicate Full(s: State, o: Offer) {
    && Known(s, o)
    && var tsp := s.tsps[s.performances[o.performance].tsp];
    tsp.scac != "" && tsp.supplierId.Some? && tsp.supplierId.value != ""
  }

  lemma LacksIff(s: State, o: Offer, e: DataError)
    ensures Lacks(s, o) == Some(e) <==> Wants(s, o, e)
    ensures Lacks(s, o).None? <==> Full(s, o)
  {
  }

  lemma AcceptedAmongLast(offers: seq<Offer>, o: Offer)
    ensures AcceptedAmong(offers + [o]) == AcceptedAmong(offers) + if o.accepted == Some(true) then [o] else []
  {
    assert (offers + [o])[..|offers|] == offers;
  }

  lemma OffersOfLast(offers: seq<Offer>, o: Offer, id: Uuid)
    ensures OffersOf(offers + [o], id) == if o.shipment == id then OffersOf(offers, id) + [o] else OffersOf(offers, id)
  {
    assert (offers + [o])[..|offers|] == offers;
  }

  /** The offers found are those at the positions ks, in ascending order. */
  ghost predicate FoundAt(offers: seq<Offer>, id: Uuid, ks: seq<nat>, found: seq<Offer>) {
    && |ks| == |found|
    && (forall a :: 0 <= a < |ks| ==> AcceptedAt(offers, id, ks[a]) && found[a] == offers[ks[a]])
    && (forall a, b :: 0 <= a < b < |ks| ==> ks[a] < ks[b])
    && (forall k: nat :: AcceptedAt(offers, id, k) ==> k in ks)
  }

  lemma OneMoreOffer(offers: seq<Offer>, o: Offer, id: Uuid, ks: seq<nat>, found: seq<Offer>)
    requires FoundAt(offers, id, ks, found)
    ensures if o.shipment == id && o.accepted == Some(true) then FoundAt(offers + [o], id, ks + [|offers|], found + [o])
            else FoundAt(offers + [o], id, ks, found)
  {
    assert forall k: nat :: AcceptedAt(offers + [o], id, k) <==>
      AcceptedAt(offers, id, k) || (k == |offers| && o.shipment == id && o.accepted == Some(true));
  }

  /** The search looks at exactly the accepted offers of the shipment, in table order. */
  lemma {:induction false} AcceptedPositions(offers: seq<Offer>, id: Uuid) returns (ks: seq<nat>)
    ensures FoundAt(offers, id, ks, AcceptedAmong(OffersOf(offers, id)))
  {
    ks := [];
    if offers != [] {
      hide FoundAt, AcceptedAmong, OffersOf;
      var n := |offers| - 1;
      var some, o := offers[..n], offers[n];
      assert offers == some + [o];
      var before := AcceptedPositions(some, id);
      OneMoreOffer(some, o, id, before, AcceptedAmong(OffersOf(some, id)));
      OffersOfLast(some, o, id);
      AcceptedAmongLast(OffersOf(some, id), o);
      ks := if o.shipment == id && o.accepted == Some(true) then before + [n] else before;
    }
  }

  /** The a-th offer is the first that lacks something, and it lacks e. */
  ghost predicate FirstWants(s: State, found: seq<Offer>, a: nat, e: DataError) {
    a < |found| && Wants(s, found[a], e) && forall b :: 0 <= b < a ==> Full(s, found[b])
  }

  lemma {:induction false} FirstLackIff(s: State, found: seq<Offer>, e: DataError)
    ensures FirstLack(s, found) == Some(e) <==> exists a: nat :: FirstWants(s, found, a, e)
    ensures FirstLack(s, found).None? <==> forall a :: 0 <= a < |found| ==> Full(s, found[a])
  {
    hide Lacks, Wants, Full;
    if found != [] {
      var n := |found| - 1;
      FirstLackIff(s, found[..n], e);
      LacksIff(s, found[n], e);
      if a: nat :| FirstWants(s, found[..n], a, e) {
        assert FirstWants(s, found, a, e);
      }
      if a: nat :| FirstWants(s, found, a, e) {
        assert a < n ==> FirstWants(s, found[..n], a, e);
      }
      if FirstLack(s, found[..n]).None? && Lacks(s, found[n]) == Some(e) {
        assert FirstWants(s, found, n, e);
      }
    }
  }

  /** Offer k is the shipment's first accepted offer, if the provider's record lacks something. */
  ghost predicate FirstIncomplete(s: State, id: Uuid, k: nat, e: DataError) {
    && AcceptedAt(s.offers, id, k) && Wants(s, s.offers[k], e)
    && forall j: nat :: j < k && AcceptedAt(s.offers, id, j) ==> Full(s, s.offers[j])
  }

  lemma FirstIncompleteIff(s: State, id: Uuid, ks: seq<nat>, found: seq<Offer>, e: DataError)
    requires FoundAt(s.offers, id, ks, found)
    ensures (exists a: nat :: FirstWants(s, found, a, e)) <==> exists k: nat :: FirstIncomplete(s, id, k, e)
    ensures (forall a :: 0 <= a < |found| ==> Full(s, found[a])) <==>
            forall k: nat :: AcceptedAt(s.offers, id, k) ==> Full(s, s.offers[k])
  {
    hide Wants, Full;
    if a: nat :| FirstWants(s, found, a, e) {
      forall j: nat | j < ks[a] && AcceptedAt(s.offers, id, j) ensures Full(s, s.offers[j]) {
        var b :| 0 <= b < |ks| && ks[b] == j;
        assert b < a && Full(s, found[b]);
      }
      assert FirstIncomplete(s, id, ks[a], e);
    }
    if k: nat :| FirstIncomplete(s, id, k, e) {
      var a :| 0 <= a < |ks| && ks[a] == k;
      assert FirstWants(s, found, a, e);
    }
    forall k: nat | AcceptedAt(s.offers, id, k) && (forall a :: 0 <= a < |found| ==> Full(s, found[a]))
      ensures Full(s, s.offers[k])
    {
      var a :| 0 <= a < |ks| && ks[a] == k;
      assert Full(s, found[a]);
    }
  }

  function AcceptedSet(offers: seq<Offer>, id: Uuid): set<nat> {
    set k: nat | k < |offers| && AcceptedAt(offers, id, k)
  }

  lemma {:induction false} AscendingSize(ks: seq<nat>)
    requires forall a, b :: 0 <= a < b < |ks| ==> ks[a] < ks[b]
    ensures |set k: nat | k in ks| == |ks|
  {
    if ks != [] {
      var n := |ks| - 1;
      AscendingSize(ks[..n]);
      OneMoreMember(ks[..n], ks[n]);
      assert ks == ks[..n] + [ks[n]];
    }
  }

  lemma OneMoreMember(ks: seq<nat>, k: nat)
    requires k !in ks
    ensures |set x: nat | x in ks + [k]| == |set x: nat | x in ks| + 1
  {
    var before := set x: nat | x in ks;
    assert (set x: nat | x in ks + [k]) == before + {k};
  }

  lemma FoundSize(offers: seq<Offer>, id: Uuid, ks: seq<nat>, found: seq<Offer>)
    requires FoundAt(offers, id, ks, found)
    ensures |AcceptedSet(offers, id)| == |found|
  {
    hide AcceptedAt;
    AscendingSize(ks);
    forall k: nat | k in ks ensures AcceptedAt(offers, id, k) && k < |offers| {
      var a :| 0 <= a < |ks| && ks[a] == k;
      InTable(offers, id, ks[a]);
    }
    assert AcceptedSet(offers, id) == set k: nat | k in ks;
  }

  lemma InTable(offers: seq<Offer>, id: Uuid, k: nat)
    requires AcceptedAt(offers, id, k)
    ensures k < |offers|
  {
  }

  /** The outcome of the search, error by error: it complains about the provider's record of the first accepted
      offer whose record lacks something; else about several accepted offers, with their number; else it returns
      the accepted offer; and without one it complains exactly from acceptance on. */
  lemma SearchOutcome(s: State, id: Uuid, e: DataError, n: nat, o: Offer)
    requires id in s.shipments
    ensures var r, accepted := Searched(s, id), AcceptedSet(s.offers, id);
      var full := forall k: nat :: AcceptedAt(s.offers, id, k) ==> Full(s, s.offers[k]);
      var late := s.shipments[id].status in {Status.Accepted, Status.Approved, InTransit, Status.Delivered};
      && (r == Err(Incomplete(e)) <==> exists k: nat :: FirstIncomplete(s, id, k, e))
      && (r == Err(Found(n)) <==> full && n == |accepted| > 1)
      && (r == Ok(Some(o)) <==> full && exists k :: accepted == {k} && s.offers[k] == o)
      && (r == Err(NoneAccepted) <==> accepted == {} && late)
      && (r == Ok(None) <==> accepted == {} && !late)
  {
    var found := AcceptedAmong(OffersOf(s.offers, id));
    hide OffersOf, AcceptedAmong, FirstLack, Wants, Full;
    var ks := AcceptedPositions(s.offers, id);
    FirstIncompleteIff(s, id, ks, found, e);
    FirstLackIff(s, found, e);
    FoundSize(s.offers, id, ks, found);
    SingleFound(s.offers, id, ks, found);
  }

  lemma SingleFound(offers: seq<Offer>, id: Uuid, ks: seq<nat>, found: seq<Offer>)
    requires FoundAt(offers, id, ks, found)
    ensures |found| == 0 <==> AcceptedSet(offers, id) == {}
    ensures |found| == 1 ==> AcceptedSet(offers, id) == {ks[0]} && ks[0] < |offers| && found[0] == offers[ks[0]]
    ensures forall k :: AcceptedSet(offers, id) == {k} ==> |found| == 1 && k == ks[0]
  {
    hide AcceptedAt;
    FoundSize(offers, id, ks, found);
    if |found| == 1 {
      InTable(offers, id, ks[0]);
      assert forall k: nat :: AcceptedAt(offers, id, k) ==> k == ks[0];
      assert AcceptedSet(offers, id) == {ks[0]};
    }
    forall k | AcceptedSet(offers, id) == {k} ensures |found| == 1 && k == ks[0] {
      assert k in AcceptedSet(offers, id);
    }
  }
}
