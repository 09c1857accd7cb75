/** The loop that offers one shipment to performance after performance: which rows it visits,
    that it ends, and when it gives every competitor its turn. */
module OfferLoop {
  import opened Wrappers
  import opened Performances

  ghost predicate Rows(t: Table, picks: seq<nat>) {
    forall k :: 0 <= k < |picks| ==> picks[k] < |t|
  }

  /** The table after one more offer for each of the picks. */
  function After(t: Table, picks: seq<nat>): (r: Table)
    requires Rows(t, picks)
    ensures |r| == |t|
    decreases |picks|
  {
    if picks == [] then t else After(Bump(t, picks[0]), picks[1..])
  }

  /** How many offers the competitors may still receive below the cap. */
  function Room(t: Table, c: Contest, cap: nat): nat {
    if t == [] then 0
    else (if Eligible(t[0], c) && t[0].offerCount < cap then cap - t[0].offerCount else 0) + Room(t[1..], c, cap)
  }

  /** The largest offer count among the competitors. */
  function MaxOffers(t: Table, c: Contest): nat {
    if t == [] then 0
    else if Eligible(t[0], c) && t[0].offerCount > MaxOffers(t[1..], c) then t[0].offerCount
    else MaxOffers(t[1..], c)
  }

  lemma {:induction false} MaxOffersIsMax(t: Table, c: Contest)
    ensures forall i: nat :: i < |t| && Competes(t, c, i) ==> t[i].offerCount <= MaxOffers(t, c)
  {
    if t != [] {
      MaxOffersIsMax(t[1..], c);
      forall i: nat | 0 < i < |t| && Competes(t, c, i) ensures t[i].offerCount <= MaxOffers(t, c) {
        assert Competes(t[1..], c, i - 1);
      }
    }
  }

  /** What keeps the loop finite: nobody is above the cap and the first pick is below it. */
  ghost predicate Capped(t: Table, c: Contest, first: nat, cap: nat) {
    && Competes(t, c, first)
    && t[first].offerCount + (if Select(t, c) == Some(first) then 2 else 1) <= cap
    && forall i: nat :: i < |t| && Competes(t, c, i) ==> t[i].offerCount <= cap
  }

  /** The largest count plus two is a cap for the attempt that begins at t. */
  lemma StartIsCapped(t: Table, c: Contest)
    requires Select(t, c).Some?
    ensures Capped(t, c, Select(t, c).value, MaxOffers(t, c) + 2)
  {
    MaxOffersIsMax(t, c);
  }

  lemma BumpKeepsContest(t: Table, c: Contest, i: nat)
    requires i < |t|
    ensures forall j: nat :: Competes(Bump(t, i), c, j) <==> Competes(t, c, j)
    ensures Competitors(Bump(t, i), c) == Competitors(t, c)
  {
  }

  lemma {:induction false} RoomShrinks(t: Table, c: Contest, i: nat, cap: nat)
    requires Competes(t, c, i) && t[i].offerCount < cap
    ensures Room(Bump(t, i), c, cap) == Room(t, c, cap) - 1
  {
    if i == 0 {
      assert Bump(t, i)[1..] == t[1..];
    } else {
      assert Competes(t[1..], c, i - 1);
      RoomShrinks(t[1..], c, i - 1, cap);
      assert Bump(t, i)[1..] == Bump(t[1..], i - 1);
    }
  }

  /** The front runner chosen never holds the cap itself. */
  lemma SelectBelowCap(t: Table, c: Contest, first: nat, cap: nat)
    requires Competes(t, c, first) && t[first].offerCount < cap
    requires forall i: nat :: i < |t| && Competes(t, c, i) ==> t[i].offerCount <= cap
    ensures Select(t, c).Some? && t[Select(t, c).value].offerCount < cap
  {
    var m := Gathered(t, c);
    GatheredFacts(t, c);
    assert first in Competitors(t, c);
    assert Band(t, first) in m;
    SelectNextFacts(t, m);
    var s := SelectNext(t, m);
    if !FallsBehind(t, m, s) {
      assert s == Band(t, first) || Offers(t, m, s) <= Offers(t, m, Band(t, first));
    }
  }

  /** The rows visited from t on, when the loop started with `first`: each is next in line after the
      offers before it; the loop ends with a row that is not blacked out or when `first` is next again. */
  function Trace(t: Table, c: Contest, dark: set<Uuid>, first: nat, cap: nat): (picks: seq<nat>)
    requires Capped(t, c, first, cap)
    ensures |picks| > 0 && Rows(t, picks)
    decreases Room(t, c, cap)
  {
    SelectBelowCap(t, c, first, cap);
    var i := Select(t, c).value;
    var t' := Bump(t, i);
    BumpKeepsContest(t, c, i);
    if t[i].tsp !in dark || Select(t', c) == Some(first) then [i]
    else
      RoomShrinks(t, c, i, cap);
      [i] + Trace(t', c, dark, first, cap)
  }

  /** One pass of the loop: i is offered the shipment, next is in line after it. */
  lemma TraceUnfolds(t: Table, c: Contest, dark: set<Uuid>, first: nat, cap: nat) returns (i: nat, next: nat)
    requires Capped(t, c, first, cap)
    ensures Select(t, c) == Some(i) && Competes(t, c, i) && Select(Bump(t, i), c) == Some(next)
    ensures Room(Bump(t, i), c, cap) < Room(t, c, cap)
    ensures t[i].tsp !in dark || next == first ==> Trace(t, c, dark, first, cap) == [i]
    ensures t[i].tsp in dark && next != first ==>
      && Capped(Bump(t, i), c, first, cap)
      && Trace(t, c, dark, first, cap) == [i] + Trace(Bump(t, i), c, dark, first, cap)
  {
    hide Select;
    SelectBelowCap(t, c, first, cap);
    i := Select(t, c).value;
    BumpKeepsContest(t, c, i);
    RoomShrinks(t, c, i, cap);
    assert i in Competitors(Bump(t, i), c);
    next := Select(Bump(t, i), c).value;
  }

  /** The visits of one attempt. */
  function Visits(t: Table, c: Contest, dark: set<Uuid>): (picks: seq<nat>)
    requires Select(t, c).Some?
    ensures |picks| > 0 && Rows(t, picks)
  {
    StartIsCapped(t, c);
    Trace(t, c, dark, Select(t, c).value, MaxOffers(t, c) + 2)
  }

  lemma {:induction false} AfterAt(t: Table, picks: seq<nat>, i: nat)
    requires Rows(t, picks) && i < |t|
    ensures After(t, picks)[i] == t[i].(offerCount := t[i].offerCount + multiset(picks)[i])
    decreases |picks|
  {
    if picks != [] {
      AfterAt(Bump(t, picks[0]), picks[1..], i);
      assert picks == [picks[0]] + picks[1..];
    }
  }

  lemma {:induction false} AfterAppend(t: Table, picks: seq<nat>, i: nat)
    requires Rows(t, picks) && i < |t|
    ensures After(t, picks + [i]) == Bump(After(t, picks), i)
    decreases |picks|
  {
    if picks == [] {
      assert picks + [i] == [i];
    } else {
      assert (picks + [i])[1..] == picks[1..] + [i];
      AfterAppend(Bump(t, picks[0]), picks[1..], i);
    }
  }

  /** The k-th pick is next in line once the earlier ones have been counted. */
  ghost predicate InLine(t: Table, c: Contest, picks: seq<nat>, k: nat)
    requires Rows(t, picks) && k < |picks|
  {
    Select(After(t, picks[..k]), c) == Some(picks[k])
  }

  /** The loop goes on after its k-th pick. */
  ghost predicate GoesOn(t: Table, dark: set<Uuid>, first: nat, picks: seq<nat>, k: nat)
    requires Rows(t, picks) && k + 1 < |picks|
  {
    t[picks[k]].tsp in dark && picks[k + 1] != first
  }

  /** The loop told as a property of the rows it visits, without the loop: every row is next in line;
      only the last row may be free of a blackout; and the loop does not stop before that, or before its
      first row is next in line again. */
  ghost predicate IsRun(t: Table, c: Contest, dark: set<Uuid>, first: nat, picks: seq<nat>) {
    && |picks| > 0 && Rows(t, picks)
    && (forall k: nat :: k < |picks| ==> InLine(t, c, picks, k))
    && (forall k: nat :: k + 1 < |picks| ==> GoesOn(t, dark, first, picks, k))
    && (t[picks[|picks| - 1]].tsp in dark ==> Select(After(t, picks), c) == Some(first))
  }

  lemma InLineUnfolds(t: Table, c: Contest, i: nat, rest: seq<nat>, k: nat)
    requires i < |t| && Rows(t, rest) && k < |rest|
    ensures Rows(t, [i] + rest) && Rows(Bump(t, i), rest)
    ensures InLine(t, c, [i] + rest, k + 1) <==> InLine(Bump(t, i), c, rest, k)
  {
    hide Select;
    assert ([i] + rest)[..k + 1] == [i] + rest[..k];
    assert ([i] + rest[..k])[1..] == rest[..k];
    assert Rows(t, [i] + rest[..k]);
  }

  lemma GoesOnUnfolds(t: Table, dark: set<Uuid>, first: nat, i: nat, rest: seq<nat>, k: nat)
    requires i < |t| && Rows(t, rest) && k + 1 < |rest|
    ensures Rows(t, [i] + rest) && Rows(Bump(t, i), rest)
    ensures GoesOn(t, dark, first, [i] + rest, k + 1) <==> GoesOn(Bump(t, i), dark, first, rest, k)
  {
  }

  lemma StepsUnfold(t: Table, c: Contest, dark: set<Uuid>, first: nat, i: nat, rest: seq<nat>)
    requires i < |t| && Rows(t, rest) && rest != []
    ensures Rows(t, [i] + rest) && Rows(Bump(t, i), rest)
    ensures forall k: nat :: k < |rest| ==> (InLine(t, c, [i] + rest, k + 1) <==> InLine(Bump(t, i), c, rest, k))
    ensures forall k: nat :: k + 1 < |rest| ==>
      (GoesOn(t, dark, first, [i] + rest, k + 1) <==> GoesOn(Bump(t, i), dark, first, rest, k))
    ensures After(t, [i] + rest) == After(Bump(t, i), rest)
  {
    hide Select, InLine, GoesOn;
    assert ([i] + rest)[1..] == rest;
    forall k: nat | k < |rest| ensures InLine(t, c, [i] + rest, k + 1) <==> InLine(Bump(t, i), c, rest, k) {
      InLineUnfolds(t, c, i, rest, k);
    }
    forall k: nat | k + 1 < |rest|
      ensures GoesOn(t, dark, first, [i] + rest, k + 1) <==> GoesOn(Bump(t, i), dark, first, rest, k)
    {
      GoesOnUnfolds(t, dark, first, i, rest, k);
    }
  }

  lemma RunTail(t: Table, c: Contest, dark: set<Uuid>, first: nat, i: nat, rest: seq<nat>)
    requires i < |t| && rest != [] && IsRun(t, c, dark, first, [i] + rest)
    ensures Select(t, c) == Some(i) && t[i].tsp in dark && rest[0] != first
    ensures Rows(Bump(t, i), rest) && IsRun(Bump(t, i), c, dark, first, rest)
  {
    hide Select;
    var picks := [i] + rest;
    assert forall k :: 0 <= k < |rest| ==> picks[k + 1] == rest[k];
    StepsUnfold(t, c, dark, first, i, rest);
    HeadOfRun(t, c, dark, first, picks);
    assert GoesOn(t, dark, first, picks, 0);
    forall k: nat | k < |rest| ensures InLine(Bump(t, i), c, rest, k) {
      assert InLine(t, c, picks, k + 1);
    }
    forall k: nat | k + 1 < |rest| ensures GoesOn(Bump(t, i), dark, first, rest, k) {
      assert GoesOn(t, dark, first, picks, k + 1);
    }
  }

  lemma RunCons(t: Table, c: Contest, dark: set<Uuid>, first: nat, i: nat, rest: seq<nat>)
    requires Select(t, c) == Some(i) && t[i].tsp in dark
    requires rest != [] && rest[0] != first && Rows(Bump(t, i), rest) && IsRun(Bump(t, i), c, dark, first, rest)
    ensures IsRun(t, c, dark, first, [i] + rest)
  {
    hide Select;
    var picks := [i] + rest;
    assert Rows(t, rest);
    StepsUnfold(t, c, dark, first, i, rest);
    forall k: nat | k < |picks| ensures InLine(t, c, picks, k) {
      if k > 0 {
        assert InLine(Bump(t, i), c, rest, k - 1);
      } else {
        assert picks[..0] == [];
      }
    }
    forall k: nat | k + 1 < |picks| ensures GoesOn(t, dark, first, picks, k) {
      if k > 0 {
        assert GoesOn(Bump(t, i), dark, first, rest, k - 1);
      }
    }
  }

  lemma HeadOfRun(t: Table, c: Contest, dark: set<Uuid>, first: nat, picks: seq<nat>)
    requires IsRun(t, c, dark, first, picks)
    ensures Select(t, c) == Some(picks[0])
  {
    assert InLine(t, c, picks, 0);
    assert picks[..0] == [];
  }

  lemma OneStepRun(t: Table, c: Contest, dark: set<Uuid>, first: nat, i: nat)
    requires Select(t, c) == Some(i)
    requires t[i].tsp !in dark || Select(Bump(t, i), c) == Some(first)
    ensures IsRun(t, c, dark, first, [i])
  {
    hide Select;
    assert [i][..0] == [];
    assert After(t, [i]) == Bump(t, i);
  }

  /** Trace computes a run. */
  lemma {:induction false} TraceIsARun(t: Table, c: Contest, dark: set<Uuid>, first: nat, cap: nat)
    requires Capped(t, c, first, cap)
    ensures IsRun(t, c, dark, first, Trace(t, c, dark, first, cap))
    decreases Room(t, c, cap)
  {
    hide Select;
    SelectBelowCap(t, c, first, cap);
    var i := Select(t, c).value;
    var t' := Bump(t, i);
    BumpKeepsContest(t, c, i);
    if t[i].tsp !in dark || Select(t', c) == Some(first) {
      OneStepRun(t, c, dark, first, i);
    } else {
      RoomShrinks(t, c, i, cap);
      var rest := Trace(t', c, dark, first, cap);
      TraceIsARun(t', c, dark, first, cap);
      HeadOfRun(t', c, dark, first, rest);
      RunCons(t, c, dark, first, i, rest);
    }
  }

  /** There is only one run. */
  lemma {:induction false} RunIsUnique(t: Table, c: Contest, dark: set<Uuid>, first: nat, p: seq<nat>, q: seq<nat>)
    requires IsRun(t, c, dark, first, p) && IsRun(t, c, dark, first, q)
    ensures p == q
    decreases |p|
  {
    hide Select;
    HeadOfRun(t, c, dark, first, p);
    HeadOfRun(t, c, dark, first, q);
    var i := p[0];
    assert p == [i] + p[1..] && q == [i] + q[1..];
    assert After(t, [i]) == Bump(t, i);
    if |p| > 1 {
      RunTail(t, c, dark, first, i, p[1..]);
      HeadOfRun(Bump(t, i), c, dark, first, p[1..]);
    }
    if |q| > 1 {
      RunTail(t, c, dark, first, i, q[1..]);
      HeadOfRun(Bump(t, i), c, dark, first, q[1..]);
    }
    if |p| > 1 && |q| > 1 {
      RunIsUnique(Bump(t, i), c, dark, first, p[1..], q[1..]);
    } else {
      assert |p| == 1 ==> p == [i];
      assert |q| == 1 ==> q == [i];
    }
  }

  lemma {:induction false} TraceIsShort(t: Table, c: Contest, dark: set<Uuid>, first: nat, cap: nat)
    requires Capped(t, c, first, cap)
    ensures |Trace(t, c, dark, first, cap)| <= Room(t, c, cap)
    decreases Room(t, c, cap)
  {
    hide Select;
    SelectBelowCap(t, c, first, cap);
    var i := Select(t, c).value;
    BumpKeepsContest(t, c, i);
    RoomShrinks(t, c, i, cap);
    if t[i].tsp in dark && Select(Bump(t, i), c) != Some(first) {
      TraceIsShort(Bump(t, i), c, dark, first, cap);
    }
  }

  /** No attempt makes more offers than the competitors have room for below their largest count plus two. */
  lemma VisitsAreShort(t: Table, c: Contest, dark: set<Uuid>)
    requires Competitors(t, c) != {}
    ensures |Visits(t, c, dark)| <= Room(t, c, MaxOffers(t, c) + 2)
  {
    hide Select;
    StartIsCapped(t, c);
    TraceIsShort(t, c, dark, Select(t, c).value, MaxOffers(t, c) + 2);
  }
}
