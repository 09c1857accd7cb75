/** Shipment offers as objects, and the search for the offer a shipment's provider accepted. */
module Offers {
  import opened Wrappers
  import opened Shipments
  import opened Store
  import opened Protocol

  class ShipmentOffer {
    var shipmentId: Uuid
    var tspId: Uuid
    var performance: nat
    var administrativeShipment: bool
    var accepted: Option<bool>
    var rejectionReason: Option<string>

    function Row(): Offer
      reads this
    {
      Offer(shipmentId, tspId, performance, administrativeShipment, accepted, rejectionReason)
    }

    constructor Load(o: Offer)
      ensures Row() == o
    {
      shipmentId, tspId, performance := o.shipment, o.tsp, o.performance;
      administrativeShipment, accepted, rejectionReason := o.administrative, o.accepted, o.rejectionReason;
    }

    method Accept() returns (err: Option<Error>)
      modifies this
      ensures err.None? <==> old(accepted).None?
      ensures Row() == if err.None? then old(Row()).(accepted := Some(true)) else old(Row())
    {
      if accepted.Some? {
        return Some(InvalidTransition);
      }
      accepted := Some(true);
      return None;
    }

    method Reject(reason: string) returns (err: Option<Error>)
      modifies this
      ensures err.None? <==> old(accepted).None?
      ensures Row() ==
        if err.None? then old(Row()).(accepted := Some(false), rejectionReason := Some(reason)) else old(Row())
    {
      if accepted.Some? {
        return Some(InvalidTransition);
      }
      accepted := Some(false);
      rejectionReason := Some(reason);
      return None;
    }
  }

  datatype DataError = MissingTsp | MissingScac | MissingSupplierId

  datatype SearchError = Incomplete(cause: DataError) | Found(count: nat) | NoneAccepted

  /** The provider an offer's performance belongs to. */
  function TspOf(s: State, o: Offer): Uuid {
    if o.performance < |s.performances| then s.performances[o.performance].tsp else NIL
  }

  /** What the provider's record lacks for an accepted offer. */
  function Lacks(s: State, o: Offer): Option<DataError> {
    var id := TspOf(s, o);
    if id == NIL || id !in s.tsps then Some(MissingTsp)
    else if s.tsps[id].scac == "" then Some(MissingScac)
    else if s.tsps[id].supplierId.None? || s.tsps[id].supplierId.value == "" then Some(MissingSupplierId)
    else None
  }

  /** The offers of one shipment, in table order. */
  function OffersOf(offers: seq<Offer>, id: Uuid): seq<Offer> {
    if offers == [] then []
    else
      var n := |offers| - 1;
      var before := OffersOf(offers[..n], id);
      if offers[n].shipment == id then before + [offers[n]] else before
  }

  /** The accepted ones among a shipment's offers. */
  function AcceptedAmong(offers: seq<Offer>): seq<Offer> {
    if offers == [] then []
    else
      var n := |offers| - 1;
      var before := AcceptedAmong(offers[..n]);
      if offers[n].accepted == Some(true) then before + [offers[n]] else before
  }

  lemma {:induction false} AcceptedAmongTally(offers: seq<Offer>, id: Uuid)
    ensures |AcceptedAmong(OffersOf(offers, id))| == Tally(offers, id, AcceptedOf)
    ensures forall o :: o in AcceptedAmong(OffersOf(offers, id)) ==> o in offers && Is(o, id, AcceptedOf)
  {
    if offers != [] {
      var n := |offers| - 1;
      AcceptedAmongTally(offers[..n], id);
      var before := OffersOf(offers[..n], id);
      assert (before + [offers[n]])[..|before|] == before;
    }
  }

  /** What the first incomplete one of the accepted offers lacks. */
  function FirstLack(s: State, accepted: seq<Offer>): Option<DataError> {
    if accepted == [] then None
    else
      var n := |accepted| - 1;
      var before := FirstLack(s, accepted[..n]);
      if before.Some? then before else Lacks(s, accepted[n])
  }

  lemma {:induction false} FirstLackPrefix(s: State, some: seq<Offer>, all: seq<Offer>)
    requires some <= all && FirstLack(s, some).Some?
    ensures FirstLack(s, all) == FirstLack(s, some)
    decreases |all|
  {
    if some != all {
      FirstLackPrefix(s, some, all[..|all| - 1]);
    }
  }

  lemma {:induction false} AcceptedAmongPrefix(offers: seq<Offer>, i: nat)
    requires i <= |offers|
    ensures AcceptedAmong(offers[..i]) <= AcceptedAmong(offers)
    decreases |offers|
  {
    if i < |offers| {
      assert offers[..|offers| - 1][..i] == offers[..i];
      AcceptedAmongPrefix(offers[..|offers| - 1], i);
    } else {
      assert offers[..i] == offers;
    }
  }

  lemma AcceptedNext(s: State, offers: seq<Offer>, i: nat)
    requires i < |offers| && FirstLack(s, AcceptedAmong(offers[..i])).None?
    ensures var before, o := AcceptedAmong(offers[..i]), offers[i];
      && AcceptedAmong(offers[..i + 1]) == (if o.accepted == Some(true) then before + [o] else before)
      && FirstLack(s, before + [o]) == Lacks(s, o)
      && (o.accepted == Some(true) && Lacks(s, o).Some? ==> FirstLack(s, AcceptedAmong(offers)) == Lacks(s, o))
  {
    assert offers[..i + 1][..i] == offers[..i];
    var before, o := AcceptedAmong(offers[..i]), offers[i];
    assert (before + [o])[..|before|] == before;
    if o.accepted == Some(true) && Lacks(s, o).Some? {
      AcceptedAmongPrefix(offers, i + 1);
      FirstLackPrefix(s, before + [o], AcceptedAmong(offers));
    }
  }

  /** Accepted offers, or what the first incomplete one lacks. */
  method Accepted(s: State, offers: seq<Offer>) returns (r: Result<seq<Offer>, DataError>)
    ensures var all := AcceptedAmong(offers);
      r == if FirstLack(s, all).Some? then Err(FirstLack(s, all).value) else Ok(all)
  {
    var accepted := [];
    assert offers[..0] == [];
    assert FirstLack(s, []).None? && AcceptedAmong([]) == [];
    hide AcceptedAmong, FirstLack, Lacks;
    for i := 0 to |offers|
      invariant accepted == AcceptedAmong(offers[..i]) && FirstLack(s, accepted).None?
    {
      AcceptedNext(s, offers, i);
      var offer := offers[i];
      if offer.accepted == Some(true) {
        accepted := accepted + [offer];
        var lacks := Lacks(s, offer);
        if lacks.Some? {
          return Err(lacks.value);
        }
      }
    }
    assert offers[..|offers|] == offers;
    return Ok(accepted);
  }

  /** The outcome of the search, error by error. */
  function Searched(s: State, id: Uuid): Result<Option<Offer>, SearchError>
    requires id in s.shipments
  {
    var accepted := AcceptedAmong(OffersOf(s.offers, id));
    if FirstLack(s, accepted).Some? then Err(Incomplete(FirstLack(s, accepted).value))
    else if |accepted| > 1 then Err(Found(|accepted|))
    else if |accepted| == 1 then Ok(Some(accepted[0]))
    else if RequiresAcceptedTsp(s.shipments[id].status) then Err(NoneAccepted)
    else Ok(None)
  }

  method AcceptedShipmentOffer(s: State, id: Uuid) returns (r: Result<Option<Offer>, SearchError>)
    requires id in s.shipments
    ensures r == Searched(s, id)
  {
    var accepted := Accepted(s, OffersOf(s.offers, id));
    if accepted.Err? {
      return Err(Incomplete(accepted.error));
    }
    var found := |accepted.value|;
    if found > 1 {
      return Err(Found(found));
    }
    if RequiresAcceptedTsp(s.shipments[id].status) {
      if found == 0 {
        return Err(NoneAccepted);
      }
    } else if found == 0 {
      return Ok(None);
    }
    return Ok(Some(accepted.value[0]));
  }

  /** Where status and offers agree, the search finds nothing for a status that requires no provider;
      otherwise there is one accepted offer, and the search returns it or complains about its provider's
      record. */
  lemma SearchFindsTheAccepted(s: State, id: Uuid)
    requires id in s.shipments && ShipmentFits(s, id)
    ensures if !RequiresAcceptedTsp(s.shipments[id].status) then Searched(s, id) == Ok(None) else
      exists o :: o in s.offers && Is(o, id, AcceptedOf) &&
        Searched(s, id) == (if Lacks(s, o).Some? then Err(Incomplete(Lacks(s, o).value)) else Ok(Some(o)))
  {
    AcceptedAmongTally(s.offers, id);
    var accepted := AcceptedAmong(OffersOf(s.offers, id));
    if RequiresAcceptedTsp(s.shipments[id].status) {
      var o := accepted[0];
      assert o in accepted;
      assert accepted[..0] == [];
      assert FirstLack(s, accepted) == Lacks(s, o);
    }
  }

  /** In every state a run can reach, the search never reports several accepted offers nor a missing one. */
  lemma SearchIsNeverSurprised(s: State, steps: seq<Step>, id: Uuid)
    requires Fresh(s) && id in Execute(s, steps).shipments
    ensures var r := Searched(Execute(s, steps), id);
      && (r.Err? ==> r.error.Incomplete?)
      && (r == Ok(None) <==> !RequiresAcceptedTsp(Execute(s, steps).shipments[id].status))
  {
    EveryRun(s, steps);
    assert ShipmentFits(Execute(s, steps), id);
    SearchFindsTheAccepted(Execute(s, steps), id);
  }
}
