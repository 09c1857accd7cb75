/** Third-party service charges (item 35A): an estimate is approved first, the actual amount is billed later,
    up to the estimate. */
module Accessorials {
  import opened Wrappers

  datatype Status = Submitted | Approved | ConditionallyApproved

  /** A saved 35A line item. Amounts are in cents, quantities in ten-thousandths. */
  datatype Item = Item(
    status: Status,
    tariffItem: Uuid,
    quantity1: int,
    quantity2: int,
    description: Option<string>,
    reason: Option<string>,
    estimate: Option<int>,
    actual: Option<int>,
    location: string,
    notes: string,
    approvedDate: Option<Day>)

  /** What a request to create or update a 35A line item carries. */
  datatype Params = Params(
    tariffItem: Uuid,
    quantity1: Option<int>,
    quantity2: Option<int>,
    description: Option<string>,
    reason: Option<string>,
    estimate: Option<int>,
    actual: Option<int>,
    location: string,
    notes: Option<string>)

  datatype Error = MissingParams | QuantityRequired | InvalidTransition | NilEstimate

  /** A robust request, as opposed to one that just states a quantity. */
  predicate Robust(p: Params) {
    p.reason.Some? || p.estimate.Some? || p.actual.Some?
  }

  function FromCents(cents: int): int {
    cents * 100
  }

  /** The quantity to bill. */
  function Billed(estimate: int, actual: Option<int>): int {
    if actual.None? then 0
    else FromCents(if actual.value <= estimate then actual.value else estimate)
  }

  /** The dependent fields of a line item; created says whether the item exists already. */
  function Upserted(i: Item, created: bool, p: Params): Result<Item, Error> {
    if !Robust(p) then
      if p.quantity1.None? then Err(QuantityRequired) else Ok(i.(quantity1 := p.quantity1.value))
    else if created && i.status == Approved then
      if p.actual.Some? && i.estimate.None? then Err(NilEstimate)
      else Ok(i.(actual := p.actual, quantity1 := if p.actual.None? then 0 else Billed(i.estimate.value, p.actual)))
    else if p.description.None? || p.reason.None? || p.estimate.None? then Err(MissingParams)
    else Ok(i.(description := p.description, reason := p.reason, estimate := p.estimate, actual := p.actual,
               quantity1 := Billed(p.estimate.value, p.actual)))
  }

  function Updated(i: Item, p: Params): Result<Item, Error> {
    var r := Upserted(i, true, p);
    if r.Err? then r
    else if i.status == Approved then r
    else Ok(r.value.(
      tariffItem := p.tariffItem,
      quantity2 := if p.quantity2.Some? then p.quantity2.value else i.quantity2,
      location := p.location,
      notes := if p.notes.Some? then p.notes.value else i.notes))
  }

  function Blank(): Item {
    Item(Submitted, NIL, 0, 0, None, None, None, None, "", "", None)
  }

  function NewItem(p: Params): Result<Item, Error> {
    var r := Upserted(Blank(), false, p);
    if r.Err? then r
    else Ok(r.value.(
      status := Submitted,
      tariffItem := p.tariffItem,
      quantity2 := if p.quantity2.Some? then p.quantity2.value else 0,
      location := p.location,
      notes := if p.notes.Some? then p.notes.value else ""))
  }

  function Approval(i: Item, to: Status, today: Day): Result<Item, Error>
    requires to != Submitted
  {
    if i.status == to then Err(InvalidTransition)
    else Ok(i.(status := to, approvedDate := if i.approvedDate.None? then Some(today) else i.approvedDate))
  }

  datatype Event = Update(p: Params) | Approve(today: Day) | ConditionallyApprove(today: Day)

  /** One request on a saved item; a refused one changes nothing. */
  function Next(i: Item, e: Event): Item {
    var r := match e
      case Update(p) => Updated(i, p)
      case Approve(today) => Approval(i, Approved, today)
      case ConditionallyApprove(today) => Approval(i, ConditionallyApproved, today);
    if r.Ok? then r.value else i
  }

  function Replay(i: Item, events: seq<Event>): Item
    decreases |events|
  {
    if events == [] then i else Replay(Next(i, events[0]), events[1..])
  }

  /** The estimate is known, and what is billed is nothing or the smaller of actual and estimate. */
  predicate BillsWithinEstimate(i: Item) {
    i.estimate.Some? && i.quantity1 == Billed(i.estimate.value, i.actual)
  }

  predicate RobustEvent(e: Event) {
    e.Update? ==> Robust(e.p)
  }

  lemma {:induction false} RunKeepsBill(i: Item, events: seq<Event>)
    requires BillsWithinEstimate(i) && forall k :: 0 <= k < |events| ==> RobustEvent(events[k])
    ensures BillsWithinEstimate(Replay(i, events))
    decreases |events|
  {
    if events != [] {
      RunKeepsBill(Next(i, events[0]), events[1..]);
    }
  }

  /** Over every run of robust updates and approvals of an item created by a robust request, the billed
      quantity is nothing without an actual amount, and otherwise the smaller of actual and estimate, a hundred
      for each cent; so it is never above the estimate, and no further update runs into a missing estimate. */
  lemma BillStaysWithinEstimate(p: Params, events: seq<Event>)
    requires Robust(p) && NewItem(p).Ok? && forall k :: 0 <= k < |events| ==> RobustEvent(events[k])
    ensures var end := Replay(NewItem(p).value, events);
      && end.estimate.Some?
      && (end.actual.None? ==> end.quantity1 == 0)
      && (end.actual.Some? && end.actual.value <= end.estimate.value ==> end.quantity1 == end.actual.value * 100)
      && (end.actual.Some? && end.actual.value > end.estimate.value ==> end.quantity1 == end.estimate.value * 100)
      && (end.estimate.value >= 0 ==> end.quantity1 <= end.estimate.value * 100)
      && (forall q :: Updated(end, q) != Err(NilEstimate))
  {
    RunKeepsBill(NewItem(p).value, events);
  }

  /** The item has its terms from this request. */
  predicate TermsOf(i: Item, p: Params) {
    && i.description == p.description && i.reason == p.reason && i.estimate == p.estimate
    && i.tariffItem == p.tariffItem && i.location == p.location
  }

  /** Over such a run the terms of an item are always those of one and the same request: that of its creation, or
      an update that found it not approved. */
  lemma {:induction false} TermsAreOfOneRequest(i: Item, p: Params, events: seq<Event>)
    requires TermsOf(i, p) && forall k :: 0 <= k < |events| ==> RobustEvent(events[k])
    ensures var end := Replay(i, events);
      TermsOf(end, p) || exists k: nat :: k < |events| && UpdatedBefore(i, events, k) && TermsOf(end, events[k].p)
    decreases |events|
  {
    if events != [] {
      var j, rest := Next(i, events[0]), events[1..];
      if TermsOf(j, p) {
        TermsAreOfOneRequest(j, p, rest);
      } else {
        assert events[..0] == [];
        assert UpdatedBefore(i, events, 0);
        TermsAreOfOneRequest(j, events[0].p, rest);
      }
      if k: nat :| k < |rest| && UpdatedBefore(j, rest, k) && TermsOf(Replay(i, events), rest[k].p) {
        assert events[..k + 1][1..] == rest[..k];
        assert UpdatedBefore(i, events, k + 1);
      }
    }
  }

  /** Event k of the run is an update of an item that is not approved. */
  predicate UpdatedBefore(i: Item, events: seq<Event>, k: nat)
    requires k < |events|
  {
    events[k].Update? && Replay(i, events[..k]).status != Approved
  }

  /** The same from the creation of an item on, with the status it begins with. */
  lemma TermsInEveryRun(p: Params, events: seq<Event>)
    requires Robust(p) && NewItem(p).Ok? && forall k :: 0 <= k < |events| ==> RobustEvent(events[k])
    ensures var item := NewItem(p).value; var end := Replay(item, events);
      && item.status == Submitted
      && (TermsOf(end, p) || exists k: nat :: k < |events| && UpdatedBefore(item, events, k) && TermsOf(end, events[k].p))
  {
    TermsAreOfOneRequest(NewItem(p).value, p, events);
  }

  /** Billing within the estimate survives an update exactly when the request is robust or names the very
      quantity that is billed already: a plain quantity is taken over unchecked, also once approved. */
  lemma UpdateKeepsBillIff(i: Item, p: Params)
    requires BillsWithinEstimate(i) && Updated(i, p).Ok?
    ensures BillsWithinEstimate(Updated(i, p).value) <==> Robust(p) || p.quantity1 == Some(i.quantity1)
  {
  }

  /** An approved item with an estimate of one dollar can be made to bill a hundred by a plain quantity. */
  lemma PlainQuantityExample()
    ensures var robust := Params(1, None, None, Some("d"), Some("r"), Some(100), None, "", None);
      var plain := Params(1, Some(FromCents(10_000)), None, None, None, None, None, "", None);
      && NewItem(robust).Ok?
      && var item := Next(NewItem(robust).value, Approve(0)); var billed := Next(item, Update(plain));
      && item.status == Approved && BillsWithinEstimate(item)
      && billed.status == Approved && billed.quantity1 == FromCents(10_000) && !BillsWithinEstimate(billed)
  {
  }

  /** Everything that was approved; the amounts to bill are not part of it. */
  function ApprovedTerms(i: Item): (Option<int>, Option<string>, Option<string>, string, string, int, Uuid) {
    (i.estimate, i.reason, i.description, i.location, i.notes, i.quantity2, i.tariffItem)
  }

  /** As long as an item stays approved nothing that was approved changes. */
  lemma {:induction false} ApprovedTermsAreFrozen(i: Item, updates: seq<Params>)
    requires i.status == Approved
    ensures var end := Replay(i, seq(|updates|, k requires 0 <= k < |updates| => Update(updates[k])));
      end.status == Approved && ApprovedTerms(end) == ApprovedTerms(i)
    decreases |updates|
  {
    var events := seq(|updates|, k requires 0 <= k < |updates| => Update(updates[k]));
    if updates != [] {
      ApprovedTermsAreFrozen(Next(i, events[0]), updates[1..]);
      assert events[1..] == seq(|updates[1..]|, k requires 0 <= k < |updates[1..]| => Update(updates[1..][k]));
    }
  }

  class ShipmentLineItem {
    var saved: bool
    var status: Status
    var tariffItem: Uuid
    var quantity1: int
    var quantity2: int
    var description: Option<string>
    var reason: Option<string>
    var estimateAmountCents: Option<int>
    var actualAmountCents: Option<int>
    var location: string
    var notes: string
    var approvedDate: Option<Day>

    function Value(): Item
      reads this
    {
      Item(status, tariffItem, quantity1, quantity2, description, reason, estimateAmountCents, actualAmountCents, location,
        notes, approvedDate)
    }

    constructor ()
      ensures Value() == Blank() && !saved
    {
      saved, status, tariffItem, quantity1, quantity2, description, reason := false, Submitted, NIL, 0, 0, None, None;
      estimateAmountCents, actualAmountCents, location, notes, approvedDate := None, None, "", "", None;
    }

    method UpsertItemCode35ADependency(p: Params) returns (err: Option<Error>)
      requires Robust(p)
      modifies this
      ensures saved == old(saved)
      ensures var spec := Upserted(old(Value()), old(saved), p);
        err == (if spec.Err? then Some(spec.error) else None) && (spec.Ok? ==> Value() == spec.value)
      ensures err == Some(MissingParams) ==> Value() == old(Value())
      ensures var approved := old(saved) && old(status) == Approved;
        && (err == Some(MissingParams) <==> !approved && (p.description.None? || p.reason.None? || p.estimate.None?))
        && (err == Some(NilEstimate) <==> approved && p.actual.Some? && old(estimateAmountCents).None?)
        && (err.None? ==>
              && actualAmountCents == p.actual
              && (approved ==>
                    unchanged(`description) && unchanged(`reason) && unchanged(`estimateAmountCents))
              && (!approved ==> description == p.description && reason == p.reason && estimateAmountCents == p.estimate)
              && (p.actual.None? ==> quantity1 == 0)
              && (p.actual.Some? ==> estimateAmountCents.Some?)
              && (p.actual.Some? && p.actual.value < estimateAmountCents.value ==> quantity1 == p.actual.value * 100)
              && (p.actual.Some? && p.actual.value >= estimateAmountCents.value ==>
                    quantity1 == estimateAmountCents.value * 100))
      ensures unchanged(`saved) && unchanged(`status) && unchanged(`tariffItem) && unchanged(`quantity2)
      ensures unchanged(`location) && unchanged(`notes) && unchanged(`approvedDate)
    {
      if saved && status == Approved {
        // The item exists; only the actual amount may change.
        actualAmountCents := p.actual;
      } else if p.description.None? || p.reason.None? || p.estimate.None? {
        return Some(MissingParams);
      } else {
        description := p.description;
        reason := p.reason;
        estimateAmountCents := p.estimate;
        actualAmountCents := p.actual;
      }
      if actualAmountCents.Some? {
        if estimateAmountCents.None? {
          return Some(NilEstimate);
        }
        if actualAmountCents.value <= estimateAmountCents.value {
          quantity1 := FromCents(actualAmountCents.value);
        } else {
          quantity1 := FromCents(estimateAmountCents.value);
        }
      } else {
        quantity1 := 0;
      }
      return None;
    }

    method UpdateShipmentLineItem(p: Params) returns (err: Option<Error>)
      requires saved
      modifies this
      ensures saved && unchanged(`status) && unchanged(`approvedDate)
      ensures err == Some(QuantityRequired) <==>
        p.reason.None? && p.estimate.None? && p.actual.None? && p.quantity1.None?
      ensures err.None? && p.reason.None? && p.estimate.None? && p.actual.None? ==> p.quantity1 == Some(quantity1)
      ensures err.None? && status == Approved ==>
        && unchanged(`description) && unchanged(`reason) && unchanged(`estimateAmountCents) && unchanged(`tariffItem)
        && unchanged(`quantity2) && unchanged(`location) && unchanged(`notes)
      ensures err.None? && status != Approved ==>
        && tariffItem == p.tariffItem && location == p.location
        && quantity2 == (if p.quantity2.Some? then p.quantity2.value else old(quantity2))
        && notes == (if p.notes.Some? then p.notes.value else old(notes))
      ensures var spec := Updated(old(Value()), p);
        err == (if spec.Err? then Some(spec.error) else None) && (spec.Ok? ==> Value() == spec.value)
    {
      if Robust(p) {
        err := UpsertItemCode35ADependency(p);
      } else if p.quantity1.None? {
        err := Some(QuantityRequired);
      } else {
        err := None;
        quantity1 := p.quantity1.value;
      }
      if err.Some? {
        return;
      }
      if status != Approved {
        UpdateUnapproved(p);
      }
    }

    /** The fields that an update leaves alone once the item is approved. */
    method UpdateUnapproved(p: Params)
      modifies this
      ensures saved == old(saved)
      ensures Value() == old(Value()).(
        tariffItem := p.tariffItem,
        quantity2 := if p.quantity2.Some? then p.quantity2.value else old(quantity2),
        location := p.location,
        notes := if p.notes.Some? then p.notes.value else old(notes))
    {
      tariffItem := p.tariffItem;
      if p.quantity2.Some? {
        quantity2 := p.quantity2.value;
      }
      location := p.location;
      if p.notes.Some? {
        notes := p.notes.value;
      }
    }

    method Approve(today: Day) returns (err: Option<Error>)
      modifies this`status, this`approvedDate
      ensures Value() == Next(old(Value()), Event.Approve(today))
      ensures err.None? <==> Approval(old(Value()), Approved, today).Ok?
      ensures err.None? <==> old(status) != Approved
      ensures status == Approved && (err.Some? ==> unchanged(this))
      ensures err.None? ==> approvedDate == if old(approvedDate).None? then Some(today) else old(approvedDate)
    {
      if !(status == Submitted || status == ConditionallyApproved) {
        return Some(InvalidTransition);
      }
      status := Approved;
      if approvedDate.None? {
        approvedDate := Some(today);
      }
      return None;
    }

    method ConditionallyApprove(today: Day) returns (err: Option<Error>)
      modifies this`status, this`approvedDate
      ensures Value() == Next(old(Value()), Event.ConditionallyApprove(today))
      ensures err.None? <==> Approval(old(Value()), ConditionallyApproved, today).Ok?
      ensures err.None? <==> old(status) != ConditionallyApproved
      ensures status == ConditionallyApproved && (err.Some? ==> unchanged(this))
      ensures err.None? ==> approvedDate == if old(approvedDate).None? then Some(today) else old(approvedDate)
    {
      if !(status == Submitted || status == Approved) {
        return Some(InvalidTransition);
      }
      status := ConditionallyApproved;
      if approvedDate.None? {
        approvedDate := Some(today);
      }
      return None;
    }
  }
}
