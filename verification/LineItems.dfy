/** Repricing a shipment: its base line items are deleted, created again and verified. */
module LineItems {
  import opened Wrappers

  const BASE_CODES: seq<string> := ["LHS", "135A", "135B", "105A", "105C", "16A"]

  /** A line item together with its tariff item's code and pre-approval flag. */
  datatype Line = Line(id: Uuid, shipment: Uuid, tariff: Uuid, code: string, requiresPreApproval: bool,
                       invoice: Option<Uuid>)

  type Table = map<Uuid, Line>

  method FindBaseShipmentLineItem(code: string) returns (r: bool)
    ensures r <==> code in BASE_CODES
  {
    for k := 0 to |BASE_CODES|
      invariant code !in BASE_CODES[..k]
    {
      if code == BASE_CODES[k] {
        return true;
      }
    }
    return false;
  }

  predicate IsBase(l: Line) {
    !l.requiresPreApproval && l.code in BASE_CODES
  }

  function Count(lines: seq<Line>, code: string): nat {
    if lines == [] then 0
    else Count(lines[..|lines| - 1], code) + if IsBase(lines[|lines| - 1]) && lines[|lines| - 1].code == code then 1 else 0
  }

  /** For a base code the count is that of the lines that need no pre-approval and have the code. */
  lemma {:induction false} CountInFields(lines: seq<Line>, code: string)
    requires code in BASE_CODES
    ensures Count(lines, code) == |set i: nat | i < |lines| && !lines[i].requiresPreApproval && lines[i].code == code|
  {
    var found := set i: nat | i < |lines| && !lines[i].requiresPreApproval && lines[i].code == code;
    if lines != [] {
      var n := |lines| - 1;
      CountInFields(lines[..n], code);
      var before := set i: nat | i < n && !lines[..n][i].requiresPreApproval && lines[..n][i].code == code;
      OneMoreCounted(lines, code, before, found);
    }
  }

  lemma OneMoreCounted(lines: seq<Line>, code: string, before: set<nat>, found: set<nat>)
    requires lines != []
    requires var n := |lines| - 1;
      before == set i: nat | i < n && !lines[..n][i].requiresPreApproval && lines[..n][i].code == code
    requires found == set i: nat | i < |lines| && !lines[i].requiresPreApproval && lines[i].code == code
    ensures var l := lines[|lines| - 1]; |found| == |before| + if !l.requiresPreApproval && l.code == code then 1 else 0
  {
    hide Count, IsBase;
    var n := |lines| - 1;
    assert n !in before;
    assert found == if !lines[n].requiresPreApproval && lines[n].code == code then before + {n} else before;
  }

  /** Every base code is in use exactly once. */
  ghost predicate Verified(lines: seq<Line>) {
    forall code :: code in BASE_CODES ==> Count(lines, code) == 1
  }

  lemma CountOfNone()
    ensures forall code :: Count([], code) == 0
  {
  }

  lemma CountNext(lines: seq<Line>, i: nat)
    requires i < |lines|
    ensures forall code ::
      Count(lines[..i + 1], code) == Count(lines[..i], code) + if IsBase(lines[i]) && lines[i].code == code then 1 else 0
  {
    assert lines[..i + 1][..i] == lines[..i];
  }

  /** The code with a wrong count, if there is one. */
  method VerifyBaseShipmentLineItems(lines: seq<Line>) returns (wrong: Option<(string, nat)>)
    ensures wrong.None? <==> Verified(lines)
    ensures wrong.Some? ==> wrong.value.0 in BASE_CODES && wrong.value.1 == Count(lines, wrong.value.0) != 1
  {
    hide Count;
    CountOfNone();
    var m: map<string, nat> := map[];
    for k := 0 to |BASE_CODES|
      invariant forall code :: code in m <==> code in BASE_CODES[..k]
      invariant forall code :: code in m ==> m[code] == 0
    {
      assert BASE_CODES[..k + 1] == BASE_CODES[..k] + [BASE_CODES[k]];
      m := m[BASE_CODES[k] := 0];
    }
    assert BASE_CODES[..|BASE_CODES|] == BASE_CODES;
    for i := 0 to |lines|
      invariant forall code :: code in m <==> code in BASE_CODES
      invariant forall code :: code in m ==> m[code] == Count(lines[..i], code)
    {
      CountNext(lines, i);
      var found := FindBaseShipmentLineItem(lines[i].code);
      if !lines[i].requiresPreApproval && found {
        m := m[lines[i].code := m[lines[i].code] + 1];
      }
    }
    assert lines[..|lines|] == lines;
    var rest := m.Keys;
    while rest != {}
      invariant rest <= m.Keys && forall code :: code in m && code !in rest ==> m[code] == 1
      decreases |rest|
    {
      var code :| code in rest;
      if m[code] != 1 {
        return Some((code, m[code]));
      }
      rest := rest - {code};
    }
    return None;
  }

  /** The line items of shipment s as a query lists them. */
  ghost predicate Lists(t: Table, s: Uuid, lines: seq<Line>) {
    && (forall i :: 0 <= i < |lines| ==> lines[i].id in t && t[lines[i].id] == lines[i] && lines[i].shipment == s)
    && (forall id :: id in t && t[id].shipment == s ==> t[id] in lines)
    && (forall i, j :: 0 <= i < j < |lines| ==> lines[i] != lines[j])
  }

  ghost predicate KeyedById(t: Table) {
    forall id :: id in t ==> t[id].id == id
  }

  predicate BaseLineOf(t: Table, s: Uuid, code: string, id: Uuid) {
    id in t && t[id].shipment == s && IsBase(t[id]) && t[id].code == code
  }

  /** In the table every base code of the shipment is in use exactly once. */
  ghost predicate OneEach(t: Table, s: Uuid) {
    forall code :: code in BASE_CODES ==> exists id :: Only(t, s, code, id)
  }

  ghost predicate Only(t: Table, s: Uuid, code: string, id: Uuid) {
    BaseLineOf(t, s, code, id) && forall x :: BaseLineOf(t, s, code, x) ==> x == id
  }

  lemma {:induction false} CountPositive(lines: seq<Line>, code: string) returns (i: nat)
    requires Count(lines, code) > 0
    ensures i < |lines| && IsBase(lines[i]) && lines[i].code == code
    ensures forall j :: i < j < |lines| ==> !(IsBase(lines[j]) && lines[j].code == code)
    ensures Count(lines, code) == Count(lines[..i], code) + 1
  {
    var n := |lines| - 1;
    if IsBase(lines[n]) && lines[n].code == code {
      i := n;
    } else {
      i := CountPositive(lines[..n], code);
      assert lines[..n][..i] == lines[..i];
    }
  }

  lemma {:induction false} CountZero(lines: seq<Line>, code: string)
    ensures Count(lines, code) == 0 <==> forall i :: 0 <= i < |lines| ==> !(IsBase(lines[i]) && lines[i].code == code)
  {
    if lines != [] {
      CountZero(lines[..|lines| - 1], code);
    }
  }

  /** Whatever order a query lists the lines in, verification accepts exactly when the table has one of each. */
  lemma VerifiedIffOneEach(t: Table, s: Uuid, lines: seq<Line>)
    requires Lists(t, s, lines) && KeyedById(t)
    ensures Verified(lines) <==> OneEach(t, s)
  {
    forall code | code in BASE_CODES ensures Count(lines, code) == 1 <==> exists id :: Only(t, s, code, id) {
      CountOneIff(t, s, lines, code);
    }
  }

  lemma NoneElse(t: Table, s: Uuid, lines: seq<Line>, code: string, i: nat, x: Uuid)
    requires Lists(t, s, lines) && KeyedById(t) && i < |lines| && BaseLineOf(t, s, code, x)
    requires forall j :: 0 <= j < |lines| && j != i ==> !(IsBase(lines[j]) && lines[j].code == code)
    ensures x == lines[i].id
  {
    hide IsBase;
    var j :| 0 <= j < |lines| && lines[j] == t[x];
  }

  lemma CountOneIff(t: Table, s: Uuid, lines: seq<Line>, code: string)
    requires Lists(t, s, lines) && KeyedById(t)
    ensures Count(lines, code) == 1 <==> exists id :: Only(t, s, code, id)
  {
    hide Count, IsBase;
    CountZero(lines, code);
    if Count(lines, code) > 0 {
      var i := CountPositive(lines, code);
      assert BaseLineOf(t, s, code, lines[i].id);
      CountZero(lines[..i], code);
      if Count(lines, code) == 1 {
        forall j | 0 <= j < i ensures !(IsBase(lines[j]) && lines[j].code == code) {
          assert lines[..i][j] == lines[j];
        }
        forall x | BaseLineOf(t, s, code, x) ensures x == lines[i].id {
          NoneElse(t, s, lines, code, i, x);
        }
        assert Only(t, s, code, lines[i].id);
      } else {
        var j := CountPositive(lines[..i], code);
        assert BaseLineOf(t, s, code, lines[j].id) && lines[j] != lines[i];
      }
    }
  }

  /** Lines that deleting the base line items removes. */
  predicate Deletable(l: Line) {
    IsBase(l) && l.invoice.None?
  }

  function Kept(lines: seq<Line>): seq<Line> {
    if lines == [] then []
    else
      var before, l := Kept(lines[..|lines| - 1]), lines[|lines| - 1];
      if Deletable(l) then before else before + [l]
  }

  /** What survives is told line by line. */
  lemma {:induction false} KeptIff(lines: seq<Line>, l: Line)
    ensures l in Kept(lines) <==>
      l in lines && (l.requiresPreApproval || l.invoice.Some? || l.code !in BASE_CODES)
  {
    if lines != [] {
      KeptIff(lines[..|lines| - 1], l);
      assert lines == lines[..|lines| - 1] + [lines[|lines| - 1]];
    }
  }

  ghost predicate Ascending(ks: seq<nat>, n: nat) {
    (forall a :: 0 <= a < |ks| ==> ks[a] < n) && forall a, b :: 0 <= a < b < |ks| ==> ks[a] < ks[b]
  }

  /** kept is the list at the positions ks, which are those of the lines that are not deletable. */
  ghost predicate PicksOut(lines: seq<Line>, ks: seq<nat>, kept: seq<Line>) {
    && Ascending(ks, |lines|) && |kept| == |ks|
    && (forall a :: 0 <= a < |ks| ==> kept[a] == lines[ks[a]])
    && (forall k: nat :: k < |lines| ==> (k in ks <==> !Deletable(lines[k])))
  }

  lemma OneMoreKept(lines: seq<Line>, l: Line, ks: seq<nat>, kept: seq<Line>)
    requires PicksOut(lines, ks, kept)
    ensures if Deletable(l) then PicksOut(lines + [l], ks, kept) else PicksOut(lines + [l], ks + [|lines|], kept + [l])
  {
    hide Deletable;
  }

  lemma {:induction false} KeptPicked(lines: seq<Line>) returns (ks: seq<nat>)
    ensures PicksOut(lines, ks, Kept(lines))
  {
    hide Deletable;
    ks := [];
    if lines != [] {
      hide PicksOut;
      var n := |lines| - 1;
      var before := KeptPicked(lines[..n]);
      OneMoreKept(lines[..n], lines[n], before, Kept(lines[..n]));
      assert lines == lines[..n] + [lines[n]];
      ks := if Deletable(lines[n]) then before else before + [n];
    }
  }

  /** The survivors are the old list at ascending positions, so none is doubled and the order is kept. */
  lemma KeptInOrder(lines: seq<Line>) returns (ks: seq<nat>)
    ensures Ascending(ks, |lines|) && |Kept(lines)| == |ks|
    ensures forall a :: 0 <= a < |ks| ==> Kept(lines)[a] == lines[ks[a]]
    ensures forall k: nat :: k < |lines| ==>
      (k in ks <==> lines[k].requiresPreApproval || lines[k].invoice.Some? || lines[k].code !in BASE_CODES)
  {
    hide Deletable, Kept, Ascending;
    ks := KeptPicked(lines);
    forall k: nat | k < |lines|
      ensures k in ks <==> lines[k].requiresPreApproval || lines[k].invoice.Some? || lines[k].code !in BASE_CODES
    {
      NotDeletableIff(lines[k]);
    }
  }

  /** After the deletion the shipment holds exactly what the table has for it. */
  lemma KeptIsListed(t: Table, s: Uuid, lines: seq<Line>)
    requires Lists(t, s, lines) && KeyedById(t)
    ensures Lists(Deleted(t, lines), s, Kept(lines))
  {
    var ks := KeptInOrder(lines);
    var kept, d := Kept(lines), Deleted(t, lines);
    forall l | l in kept ensures l in lines && !Deletable(l) {
      KeptIff(lines, l);
    }
    hide Kept, Ascending, Deletable;
    forall a | 0 <= a < |kept| ensures kept[a].id in d && d[kept[a].id] == kept[a] && kept[a].shipment == s {
      assert kept[a] in kept;
    }
    forall id | id in d && d[id].shipment == s ensures d[id] in kept {
      KeptIff(lines, t[id]);
      NotDeletableIff(t[id]);
    }
    AscendingDiffer(lines, kept, ks);
  }

  lemma NotDeletableIff(l: Line)
    ensures !Deletable(l) <==> l.requiresPreApproval || l.invoice.Some? || l.code !in BASE_CODES
  {
  }

  lemma AscendingDiffer(lines: seq<Line>, kept: seq<Line>, ks: seq<nat>)
    requires Ascending(ks, |lines|) && |kept| == |ks| && forall a :: 0 <= a < |ks| ==> kept[a] == lines[ks[a]]
    requires forall i, j :: 0 <= i < j < |lines| ==> lines[i] != lines[j]
    ensures forall a, b :: 0 <= a < b < |kept| ==> kept[a] != kept[b]
  {
  }

  /** What the deletion removes from the table, told by the columns. */
  lemma DeletedIff(t: Table, s: Uuid, lines: seq<Line>, id: Uuid)
    requires Lists(t, s, lines) && KeyedById(t)
    ensures id in Deleted(t, lines) <==>
      && id in t
      && (t[id].shipment != s || t[id].requiresPreApproval || t[id].invoice.Some? || t[id].code !in BASE_CODES)
    ensures id in Deleted(t, lines) ==> Deleted(t, lines)[id] == t[id]
  {
  }

  function Deleted(t: Table, lines: seq<Line>): Table {
    map id | id in t && !(t[id] in lines && Deletable(t[id])) :: t[id]
  }

  class Shipment {
    const id: Uuid
    var lineItems: seq<Line>

    constructor (id: Uuid, lineItems: seq<Line>)
      ensures this.id == id && this.lineItems == lineItems
    {
      this.id, this.lineItems := id, lineItems;
    }

    /** Deletes the base line items that have no invoice; pre-approval lines, invoiced lines and other lines
        survive in order. */
    method DeleteBaseShipmentLineItems(t: Table) returns (t': Table)
      requires KeyedById(t) && Lists(t, id, lineItems)
      modifies this
      ensures lineItems == Kept(old(lineItems)) && t' == Deleted(t, old(lineItems))
      ensures Lists(t', id, lineItems)
      ensures forall l :: l in lineItems <==>
        l in old(lineItems) && (l.requiresPreApproval || l.invoice.Some? || l.code !in BASE_CODES)
    {
      var updated := [];
      t' := t;
      var lines := lineItems;
      for i := 0 to |lines|
        modifies {}
        invariant updated == Kept(lines[..i]) && t' == Deleted(t, lines[..i])
      {
        var item := lines[i];
        ghost var before := t';
        assert lines[..i + 1][..i] == lines[..i];
        var isBase := FindBaseShipmentLineItem(item.code);
        if item.requiresPreApproval {
          updated := updated + [item];
        } else if item.invoice.Some? {
          updated := updated + [item];
        } else if isBase {
          t' := t' - {item.id};
        } else {
          updated := updated + [item];
        }
        DeletedOneMore(t, lines, i);
      }
      assert lines[..|lines|] == lines;
      lineItems := updated;
      hide *;
      KeptIsListed(t, id, lines);
      forall l ensures l in lineItems <==>
        l in lines && (l.requiresPreApproval || l.invoice.Some? || l.code !in BASE_CODES)
      {
        KeptIff(lines, l);
      }
    }

    /** Creates a line unless the shipment has one for the same tariff item. */
    method CreateUniqueShipmentLineItem(t: Table, l: Line) returns (r: Option<Table>)
      ensures r == Created(t, id, l)
      ensures r.None? <==> exists x :: x in t && t[x].shipment == id && t[x].tariff == l.tariff
      ensures r.Some? ==> r.value == t[l.id := l]
    {
      if exists x :: x in t && t[x].shipment == id && t[x].tariff == l.tariff {
        return None;
      }
      return Some(t[l.id := l]);
    }

    /** Saves the new base lines in one transaction: all of them or none. */
    method SaveBaseLines(t: Table, lines: seq<Line>) returns (r: Option<Table>)
      ensures r == CreatedAll(t, id, lines)
    {
      var now := t;
      for i := 0 to |lines|
        invariant CreatedAll(t, id, lines) == CreatedAll(now, id, lines[i..])
      {
        assert lines[i..][0] == lines[i] && lines[i..][1..] == lines[i + 1..];
        var next := CreateUniqueShipmentLineItem(now, lines[i]);
        if next.None? {
          return None;
        }
        now := next.value;
      }
      assert lines[|lines|..] == [];
      return Some(now);
    }
  }

  lemma DeletedOneMore(t: Table, lines: seq<Line>, i: nat)
    requires KeyedById(t) && i < |lines| && lines[i].id in t && t[lines[i].id] == lines[i]
    ensures Deleted(t, lines[..i + 1]) ==
            if Deletable(lines[i]) then Deleted(t, lines[..i]) - {lines[i].id} else Deleted(t, lines[..i])
  {
    assert lines[..i + 1] == lines[..i] + [lines[i]];
  }

  predicate Taken(t: Table, s: Uuid, tariff: Uuid) {
    exists x :: x in t && t[x].shipment == s && t[x].tariff == tariff
  }

  function Created(t: Table, s: Uuid, l: Line): Option<Table> {
    if Taken(t, s, l.tariff) then None else Some(t[l.id := l])
  }

  function CreatedAll(t: Table, s: Uuid, lines: seq<Line>): Option<Table>
    decreases |lines|
  {
    if lines == [] then Some(t)
    else
      var r := Created(t, s, lines[0]);
      if r.None? then None else CreatedAll(r.value, s, lines[1..])
  }

  /** Deleting the shipment's base lines and creating the given ones. */
  function Repriced(t: Table, s: Uuid, lines: seq<Line>, added: seq<Line>): Option<Table> {
    CreatedAll(Deleted(t, lines), s, added)
  }

  /** The line agrees with the price list, where base items need no pre-approval. */
  ghost predicate FromCatalog(l: Line, tariffOf: map<string, Uuid>) {
    && l.code in tariffOf && l.tariff == tariffOf[l.code]
    && (l.code in BASE_CODES ==> !l.requiresPreApproval)
  }

  /** The price list has one tariff item per code. */
  ghost predicate OnePerCode(tariffOf: map<string, Uuid>) {
    forall a, b :: a in tariffOf && b in tariffOf && a != b ==> tariffOf[a] != tariffOf[b]
  }

  /** One new line for every base code. */
  ghost predicate NewBaseLines(t: Table, s: Uuid, added: seq<Line>, tariffOf: map<string, Uuid>) {
    && (forall i :: 0 <= i < |added| ==>
          added[i].shipment == s && added[i].code in BASE_CODES && added[i].invoice.None?
          && FromCatalog(added[i], tariffOf) && added[i].id !in t)
    && (forall i, j :: 0 <= i < j < |added| ==> added[i].id != added[j].id && added[i].code != added[j].code)
    && (forall code :: code in BASE_CODES ==> exists i :: 0 <= i < |added| && added[i].code == code)
  }

  ghost predicate Addable(t: Table, s: Uuid, added: seq<Line>) {
    && (forall i :: 0 <= i < |added| ==> added[i].shipment == s && added[i].id !in t)
    && (forall i, j :: 0 <= i < j < |added| ==> added[i].id != added[j].id && added[i].tariff != added[j].tariff)
  }

  lemma FirstAdded(t: Table, s: Uuid, added: seq<Line>)
    requires Addable(t, s, added) && added != []
    ensures Addable(t[added[0].id := added[0]], s, added[1..])
    ensures forall i :: 1 <= i < |added| ==>
      (Taken(t[added[0].id := added[0]], s, added[i].tariff) <==> Taken(t, s, added[i].tariff))
  {
    var t1 := t[added[0].id := added[0]];
    forall i | 1 <= i < |added| && Taken(t, s, added[i].tariff) ensures Taken(t1, s, added[i].tariff) {
      var x :| x in t && t[x].shipment == s && t[x].tariff == added[i].tariff;
      assert x in t1 && t1[x] == t[x];
    }
  }

  /** Lines for different tariff items can all be created exactly when no tariff item is taken already. */
  lemma {:induction false} CreatedAllIff(t: Table, s: Uuid, added: seq<Line>)
    requires Addable(t, s, added)
    ensures CreatedAll(t, s, added).Some? <==> forall i :: 0 <= i < |added| ==> !Taken(t, s, added[i].tariff)
    decreases |added|
  {
    if added != [] && !Taken(t, s, added[0].tariff) {
      var t1, rest := t[added[0].id := added[0]], added[1..];
      FirstAdded(t, s, added);
      CreatedAllIff(t1, s, rest);
      hide Taken, Addable;
      assert forall i :: 0 <= i < |rest| ==> rest[i] == added[i + 1];
      assert added == [added[0]] + rest;
    }
  }

  /** t' is t with the added lines and nothing else. */
  ghost predicate WithAdded(t: Table, added: seq<Line>, t': Table) {
    && (forall id :: id in t ==> id in t' && t'[id] == t[id])
    && (forall i :: 0 <= i < |added| ==> added[i].id in t' && t'[added[i].id] == added[i])
    && (forall id :: id in t' && id !in t ==> t'[id] in added && t'[id].id == id)
  }

  lemma {:induction false} CreatedAllAdds(t: Table, s: Uuid, added: seq<Line>)
    requires Addable(t, s, added) && CreatedAll(t, s, added).Some?
    ensures WithAdded(t, added, CreatedAll(t, s, added).value)
    decreases |added|
  {
    if added != [] {
      hide Taken, Addable, WithAdded;
      var l, rest := added[0], added[1..];
      FirstAdded(t, s, added);
      CreatedAllAdds(t[l.id := l], s, rest);
      OneMoreAdded(t, s, added, CreatedAll(t[l.id := l], s, rest).value);
    }
  }

  lemma OneMoreAdded(t: Table, s: Uuid, added: seq<Line>, t': Table)
    requires Addable(t, s, added) && added != [] && WithAdded(t[added[0].id := added[0]], added[1..], t')
    ensures WithAdded(t, added, t')
  {
    assert added == [added[0]] + added[1..];
    forall i | 0 <= i < |added| ensures added[i].id in t' && t'[added[i].id] == added[i] {
      if i > 0 {
        assert added[i] == added[1..][i - 1];
      }
    }
  }

  /** Lines of the shipment that repricing must not find: base lines already invoiced. */
  ghost predicate Invoiced(t: Table, s: Uuid, id: Uuid) {
    id in t && t[id].shipment == s && IsBase(t[id]) && t[id].invoice.Some?
  }

  ghost predicate LinesFromCatalog(t: Table, s: Uuid, tariffOf: map<string, Uuid>) {
    forall id :: id in t && t[id].shipment == s ==> FromCatalog(t[id], tariffOf)
  }

  lemma TakenIffInvoiced(t: Table, s: Uuid, lines: seq<Line>, l: Line, tariffOf: map<string, Uuid>)
    requires KeyedById(t) && Lists(t, s, lines) && OnePerCode(tariffOf) && LinesFromCatalog(t, s, tariffOf)
    requires FromCatalog(l, tariffOf) && l.code in BASE_CODES
    ensures Taken(Deleted(t, lines), s, l.tariff) <==> exists id :: Invoiced(t, s, id) && t[id].code == l.code
  {
    var d := Deleted(t, lines);
    if Taken(d, s, l.tariff) {
      var x :| x in d && d[x].shipment == s && d[x].tariff == l.tariff;
      assert FromCatalog(t[x], tariffOf) && t[x] in lines;
      assert Invoiced(t, s, x);
    }
    if id :| Invoiced(t, s, id) && t[id].code == l.code {
      assert FromCatalog(t[id], tariffOf);
      assert id in d && d[id].tariff == l.tariff;
    }
  }

  lemma NewLinesAreAddable(t: Table, s: Uuid, lines: seq<Line>, added: seq<Line>, tariffOf: map<string, Uuid>)
    requires OnePerCode(tariffOf) && NewBaseLines(t, s, added, tariffOf)
    ensures Addable(Deleted(t, lines), s, added) && NewBaseLines(Deleted(t, lines), s, added, tariffOf)
    ensures forall id :: id in Deleted(t, lines) ==> id in t && Deleted(t, lines)[id] == t[id]
  {
    hide IsBase, Deletable;
  }

  /** Repricing succeeds exactly when no base line of the shipment has been invoiced. */
  lemma RepricesIff(t: Table, s: Uuid, lines: seq<Line>, added: seq<Line>, tariffOf: map<string, Uuid>)
    requires KeyedById(t) && Lists(t, s, lines) && OnePerCode(tariffOf) && LinesFromCatalog(t, s, tariffOf)
    requires NewBaseLines(t, s, added, tariffOf)
    ensures Repriced(t, s, lines, added).Some? <==> forall id :: !Invoiced(t, s, id)
  {
    NewLinesAreAddable(t, s, lines, added, tariffOf);
    CreatedAllIff(Deleted(t, lines), s, added);
    forall i | 0 <= i < |added|
      ensures Taken(Deleted(t, lines), s, added[i].tariff) <==>
        exists id :: Invoiced(t, s, id) && t[id].code == added[i].code
    {
      TakenIffInvoiced(t, s, lines, added[i], tariffOf);
    }
    hide Taken, CreatedAll, Deleted, Lists, KeyedById, LinesFromCatalog, OnePerCode;
    forall id | Invoiced(t, s, id) ensures exists i :: 0 <= i < |added| && added[i].code == t[id].code {
    }
  }

  /** After a successful repricing verification accepts the shipment's lines, in whatever order they are
      listed; every line that was not a base line of the shipment is still there unchanged, and only the new
      lines have been added. */
  lemma RepricedIsVerified(t: Table, s: Uuid, lines: seq<Line>, added: seq<Line>, tariffOf: map<string, Uuid>,
                         listed: seq<Line>)
    requires KeyedById(t) && Lists(t, s, lines) && OnePerCode(tariffOf) && LinesFromCatalog(t, s, tariffOf)
    requires NewBaseLines(t, s, added, tariffOf) && Repriced(t, s, lines, added).Some?
    requires Lists(Repriced(t, s, lines, added).value, s, listed)
    ensures Verified(listed)
    ensures var t' := Repriced(t, s, lines, added).value;
      && (forall id :: id in t && !(t[id].shipment == s && IsBase(t[id])) ==> id in t' && t'[id] == t[id])
      && (forall id :: id in t' ==> (id in t && t'[id] == t[id]) || t'[id] in added)
  {
    hide CreatedAll, Deleted, Lists, KeyedById, LinesFromCatalog, OnePerCode, NewBaseLines, Addable, Verified, OneEach;
    hide IsBase, Invoiced;
    var d, t' := Deleted(t, lines), Repriced(t, s, lines, added).value;
    NewLinesAreAddable(t, s, lines, added, tariffOf);
    CreatedAllAdds(d, s, added);
    RepricesIff(t, s, lines, added, tariffOf);
    NoBaseLineLeft(t, s, lines);
    OneEachAdded(d, t', s, added, tariffOf);
    VerifiedIffOneEach(t', s, listed);
  }

  lemma NoBaseLineLeft(t: Table, s: Uuid, lines: seq<Line>)
    requires KeyedById(t) && Lists(t, s, lines) && forall id :: !Invoiced(t, s, id)
    ensures KeyedById(Deleted(t, lines))
    ensures forall id :: id in Deleted(t, lines) && t[id].shipment == s ==> !IsBase(t[id])
    ensures forall id :: id in t && !(t[id].shipment == s && IsBase(t[id])) ==> id in Deleted(t, lines)
  {
    forall id | id in Deleted(t, lines) && t[id].shipment == s ensures !IsBase(t[id]) {
      assert !Invoiced(t, s, id);
    }
  }

  lemma BaseLineIsAdded(d: Table, t': Table, s: Uuid, added: seq<Line>, code: string, x: Uuid)
    requires WithAdded(d, added, t') && BaseLineOf(t', s, code, x)
    requires forall id :: id in d && d[id].shipment == s ==> !IsBase(d[id])
    ensures t'[x] in added && t'[x].id == x && t'[x].code == code
  {
  }

  lemma AddedIsOnly(d: Table, t': Table, s: Uuid, added: seq<Line>, tariffOf: map<string, Uuid>, i: nat)
    requires WithAdded(d, added, t') && NewBaseLines(d, s, added, tariffOf) && i < |added|
    requires forall id :: id in d && d[id].shipment == s ==> !IsBase(d[id])
    ensures Only(t', s, added[i].code, added[i].id)
  {
    forall x | BaseLineOf(t', s, added[i].code, x) ensures x == added[i].id {
      BaseLineIsAdded(d, t', s, added, added[i].code, x);
      var j :| 0 <= j < |added| && added[j] == t'[x];
    }
  }

  lemma OneEachAdded(d: Table, t': Table, s: Uuid, added: seq<Line>, tariffOf: map<string, Uuid>)
    requires WithAdded(d, added, t') && KeyedById(d) && NewBaseLines(d, s, added, tariffOf)
    requires forall id :: id in d && d[id].shipment == s ==> !IsBase(d[id])
    ensures OneEach(t', s) && KeyedById(t')
  {
    hide IsBase, Only;
    forall code | code in BASE_CODES ensures exists id :: Only(t', s, code, id) {
      var i :| 0 <= i < |added| && added[i].code == code;
      AddedIsOnly(d, t', s, added, tariffOf, i);
    }
  }
}
