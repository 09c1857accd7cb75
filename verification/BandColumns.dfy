/** What banding does, told in the columns of the performance table. */
module BandColumns {
  import opened Wrappers
  import opened Performances
  import opened Bands
  import opened Banding

  /** The two performances are banded together. */
  predicate SameGroup(p: Performance, q: Performance) {
    && p.tdl == q.tdl
    && p.periodStart == q.periodStart && p.periodEnd == q.periodEnd
    && p.cycleStart == q.cycleStart && p.cycleEnd == q.cycleEnd
  }

  /** Row i gets a new band: its provider is enrolled, its score is positive, and its group has an enrolled
      performance without a band. */
  ghost predicate IsRanked(t: Table, enrolled: set<Uuid>, i: nat) {
    && i < |t| && t[i].tsp in enrolled && t[i].bestValueScore > 0.0
    && exists j: nat :: j < |t| && SameGroup(t[i], t[j]) && t[j].qualityBand.None? && t[j].tsp in enrolled
  }

  lemma IsRankedIff(t: Table, enrolled: set<Uuid>, i: nat)
    requires i < |t|
    ensures IsRanked(t, enrolled, i) <==>
      NeedsBanding(t, enrolled, |t|, GroupOf(t[i])) && Bandable(t, enrolled, GroupOf(t[i]), i)
  {
    if NeedsBanding(t, enrolled, |t|, GroupOf(t[i])) {
      var j: nat :| j < |t| && Unbanded(t, enrolled, j) && GroupOf(t[j]) == GroupOf(t[i]);
      assert SameGroup(t[i], t[j]);
    }
    if j: nat :| j < |t| && SameGroup(t[i], t[j]) && t[j].qualityBand.None? && t[j].tsp in enrolled {
      assert Unbanded(t, enrolled, j) && GroupOf(t[j]) == GroupOf(t[i]);
    }
  }

  /** The ranked rows of the group of row i. */
  ghost function Ranked(t: Table, enrolled: set<Uuid>, i: nat): set<nat>
    requires i < |t|
  {
    set j: nat | j < |t| && IsRanked(t, enrolled, j) && SameGroup(t[i], t[j])
  }

  /** Those of them that table t' has in band b. */
  ghost function RankedIn(t: Table, t': Table, enrolled: set<Uuid>, i: nat, b: int): set<nat>
    requires i < |t| && |t'| == |t|
  {
    set j: nat | j < |t| && IsRanked(t, enrolled, j) && SameGroup(t[i], t[j]) && t'[j].qualityBand == Some(b)
  }

  /** Some rows of the list. */
  function Stretch(perfs: seq<nat>, lo: nat, hi: nat): set<nat>
    requires lo <= hi <= |perfs|
  {
    set k | lo <= k < hi :: perfs[k]
  }

  lemma {:induction false} StretchSize(perfs: seq<nat>, lo: nat, hi: nat)
    requires lo <= hi <= |perfs| && forall k, l :: 0 <= k < l < |perfs| ==> perfs[k] != perfs[l]
    ensures |Stretch(perfs, lo, hi)| == hi - lo
    decreases hi
  {
    if lo < hi {
      StretchSize(perfs, lo, hi - 1);
      assert perfs[hi - 1] !in Stretch(perfs, lo, hi - 1);
      assert Stretch(perfs, lo, hi) == Stretch(perfs, lo, hi - 1) + {perfs[hi - 1]};
    }
  }

  lemma ListIsRanked(t: Table, enrolled: set<Uuid>, i: nat, perfs: seq<nat>)
    requires IsRanked(t, enrolled, i) && BandingList(t, enrolled, GroupOf(t[i]), |t|, perfs)
    ensures Ranked(t, enrolled, i) == Stretch(perfs, 0, |perfs|)
  {
    IsRankedIff(t, enrolled, i);
    forall j: nat | j < |t| ensures j in perfs <==> IsRanked(t, enrolled, j) && SameGroup(t[i], t[j]) {
      IsRankedIff(t, enrolled, j);
    }
  }

  /** A fair share of the places: the better bands take one more while the remainder lasts. */
  lemma ShareIs(shares: seq<nat>, count: nat, b: nat)
    requires FairShares(shares, count) && b < 4
    ensures shares[b] == (count + 3 - b) / 4
  {
    SumOfFour(shares);
  }

  lemma PositionsOfBand(t: Table, t': Table, enrolled: set<Uuid>, g: Group, perfs: seq<nat>, shares: seq<nat>, b: nat)
    requires GroupAssigned(t, t', enrolled, g, perfs, shares) && b < 4
    ensures var lo := Sum(shares[..b]);
      && lo + shares[b] <= |perfs| && |t'| == |t|
      && forall k: nat :: k < |perfs| ==>
        perfs[k] < |t| && (t'[perfs[k]].qualityBand == Some(b + 1) <==> lo <= k < lo + shares[b])
  {
    hide Bandable, BandAt, Sum;
    SumNext(shares, b);
    forall k: nat | k < |perfs|
      ensures t'[perfs[k]].qualityBand == Some(b + 1) <==> Sum(shares[..b]) <= k < Sum(shares[..b]) + shares[b]
    {
      BandAtIff(shares, k, b);
    }
  }

  lemma SumNext(shares: seq<nat>, b: nat)
    requires b < |shares|
    ensures Sum(shares[..b]) + shares[b] <= Sum(shares)
  {
    assert shares[..b + 1][..b] == shares[..b];
    SumPrefix(shares, b + 1);
  }

  lemma StretchOfBand(t: Table, t': Table, enrolled: set<Uuid>, i: nat, perfs: seq<nat>, shares: seq<nat>, b: nat)
    requires i < |t| && IsRanked(t, enrolled, i) && GroupAssigned(t, t', enrolled, GroupOf(t[i]), perfs, shares) && b < 4
    ensures var lo := Sum(shares[..b]);
      lo + shares[b] <= |perfs| && |t'| == |t| && RankedIn(t, t', enrolled, i, b + 1) == Stretch(perfs, lo, lo + shares[b])
  {
    hide IsRanked, Sum, SameGroup, Stretch, Bandable, BandAt;
    ListIsRanked(t, enrolled, i, perfs);
    PositionsOfBand(t, t', enrolled, GroupOf(t[i]), perfs, shares, b);
    var lo := Sum(shares[..b]);
    forall k: nat | k < |perfs| ensures perfs[k] in RankedIn(t, t', enrolled, i, b + 1) <==> lo <= k < lo + shares[b] {
      InStretch(perfs, k);
    }
    StretchIs(perfs, lo, lo + shares[b], RankedIn(t, t', enrolled, i, b + 1));
  }

  lemma InStretch(perfs: seq<nat>, k: nat)
    requires k < |perfs|
    ensures perfs[k] in Stretch(perfs, 0, |perfs|)
  {
  }

  lemma StretchIs(perfs: seq<nat>, lo: nat, hi: nat, some: set<nat>)
    requires lo <= hi <= |perfs| && some <= Stretch(perfs, 0, |perfs|)
    requires forall k: nat :: k < |perfs| ==> (perfs[k] in some <==> lo <= k < hi)
    ensures some == Stretch(perfs, lo, hi)
  {
  }

  lemma RankedGetShares(t: Table, t': Table, enrolled: set<Uuid>, i: nat, perfs: seq<nat>, shares: seq<nat>, b: int)
    requires i < |t| && IsRanked(t, enrolled, i) && GroupAssigned(t, t', enrolled, GroupOf(t[i]), perfs, shares)
    requires 1 <= b <= 4
    ensures |t'| == |t| && t'[i].qualityBand.Some? && 1 <= t'[i].qualityBand.value <= 4
    ensures |RankedIn(t, t', enrolled, i, b)| == (|Ranked(t, enrolled, i)| + 4 - b) / 4
  {
    hide Sum, BandAt, Stretch, Bandable, IsRanked, Ranked, RankedIn;
    ListIsRanked(t, enrolled, i, perfs);
    StretchOfBand(t, t', enrolled, i, perfs, shares, b - 1);
    StretchSize(perfs, 0, |perfs|);
    var lo := Sum(shares[..b - 1]);
    StretchSize(perfs, lo, lo + shares[b - 1]);
    ShareIs(shares, |perfs|, b - 1);
    RankedGetsABand(t, t', enrolled, i, perfs, shares);
  }

  lemma RankedGetsABand(t: Table, t': Table, enrolled: set<Uuid>, i: nat, perfs: seq<nat>, shares: seq<nat>)
    requires IsRanked(t, enrolled, i) && GroupAssigned(t, t', enrolled, GroupOf(t[i]), perfs, shares)
    ensures |t'| == |t| && t'[i].qualityBand.Some? && 1 <= t'[i].qualityBand.value <= 4
  {
    hide Sum, BandAt;
    assert i in perfs;
  }

  lemma RankedByScore(t: Table, t': Table, enrolled: set<Uuid>, g: Group, perfs: seq<nat>, shares: seq<nat>, i: nat, j: nat)
    requires GroupAssigned(t, t', enrolled, g, perfs, shares)
    requires Bandable(t, enrolled, g, i) && Bandable(t, enrolled, g, j)
    ensures t'[i].qualityBand.Some? && t'[j].qualityBand.Some?
    ensures t[i].bestValueScore > t[j].bestValueScore ==> t'[i].qualityBand.value <= t'[j].qualityBand.value
  {
    hide Sum, BandAt;
    assert i in perfs && j in perfs;
    var k: nat :| k < |perfs| && perfs[k] == i;
    var l: nat :| l < |perfs| && perfs[l] == j;
    if t[i].bestValueScore > t[j].bestValueScore {
      assert k <= l;
      BandsAscend(shares, k, l);
    }
  }

  /** Banding in the columns: a row that is not ranked stays as it is, and of a ranked one only the band changes,
      to one from 1 to 4; of two rows of a group the one with the higher score never ends in a worse band; and
      each band of a group gets its quarter of the group's ranked rows, the better bands one more while the
      remainder lasts. */
  lemma BandingInColumns(t: Table, t': Table, enrolled: set<Uuid>, i: nat, j: nat, b: int)
    requires Banded(t, t', enrolled) && i < |t| && j < |t| && 1 <= b <= 4
    ensures |t'| == |t| && t'[i] == t[i].(qualityBand := t'[i].qualityBand)
    ensures !IsRanked(t, enrolled, i) ==> t'[i] == t[i]
    ensures IsRanked(t, enrolled, i) ==>
      && t'[i].qualityBand.Some? && 1 <= t'[i].qualityBand.value <= 4
      && |RankedIn(t, t', enrolled, i, b)| == (|Ranked(t, enrolled, i)| + 4 - b) / 4
    ensures IsRanked(t, enrolled, i) && IsRanked(t, enrolled, j) && SameGroup(t[i], t[j]) ==>
      && t'[i].qualityBand.Some? && t'[j].qualityBand.Some?
      && (t[i].bestValueScore > t[j].bestValueScore ==> t'[i].qualityBand.value <= t'[j].qualityBand.value)
  {
    IsRankedIff(t, enrolled, i);
    if IsRanked(t, enrolled, i) {
      var g := GroupOf(t[i]);
      assert GroupBanded(t, t', enrolled, g);
      var perfs, shares :| GroupAssigned(t, t', enrolled, g, perfs, shares);
      RankedGetShares(t, t', enrolled, i, perfs, shares, b);
      if IsRanked(t, enrolled, j) && SameGroup(t[i], t[j]) {
        IsRankedIff(t, enrolled, j);
        RankedByScore(t, t', enrolled, g, perfs, shares, i, j);
      }
    }
  }
}
