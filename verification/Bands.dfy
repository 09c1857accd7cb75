/** Quality bands: how many performances each band gets, and which ones. */
module Bands {
  import opened Wrappers
  import opened Performances

  function Sum(bands: seq<nat>): nat {
    if bands == [] then 0 else Sum(bands[..|bands| - 1]) + bands[|bands| - 1]
  }

  /** Everybody has a place, no band is larger than a better one, and sizes differ by at most one. */
  ghost predicate FairShares(bands: seq<nat>, count: nat) {
    && |bands| == BANDS && Sum(bands) == count
    && forall a, b :: 0 <= a < b < BANDS ==> bands[b] <= bands[a] <= bands[b] + 1
  }

  lemma SumOfFour(bands: seq<nat>)
    requires |bands| == BANDS
    ensures Sum(bands) == bands[0] + bands[1] + bands[2] + bands[3]
  {
    assert bands[..3][..2][..1] == [bands[0]] && bands[..3][..2] == [bands[0], bands[1]];
    assert bands[..3] == [bands[0], bands[1], bands[2]];
    assert Sum([bands[0]]) == Sum([]) + bands[0] by {
      assert [bands[0]][..0] == [];
    }
  }

  /** There is only one fair way to share out the places. */
  lemma FairSharesAreUnique(a: seq<nat>, b: seq<nat>, count: nat)
    requires FairShares(a, count) && FairShares(b, count)
    ensures a == b
  {
    SumOfFour(a);
    SumOfFour(b);
  }

  method GetTSPsPerBand(count: nat) returns (bands: array<nat>)
    ensures fresh(bands) && FairShares(bands[..], count)
  {
    bands := new nat[BANDS];
    var base := count / BANDS;
    for i := 0 to bands.Length
      invariant forall k :: 0 <= k < i ==> bands[k] == base
    {
      bands[i] := base;
    }
    for i := 0 to count % BANDS
      invariant forall k :: 0 <= k < BANDS ==> bands[k] == if k < i then base + 1 else base
    {
      bands[i] := bands[i] + 1;
    }
    SumOfFour(bands[..]);
  }

  lemma {:induction false} SumPrefix(bands: seq<nat>, b: nat)
    requires b <= |bands|
    ensures Sum(bands[..b]) <= Sum(bands)
    decreases |bands|
  {
    if b < |bands| {
      assert bands[..|bands| - 1][..b] == bands[..b];
      SumPrefix(bands[..|bands| - 1], b);
    } else {
      assert bands[..b] == bands;
    }
  }

  /** The band of the performance at position i of the list: 0 is the best. */
  function BandAt(bands: seq<nat>, i: nat): (b: nat)
    requires i < Sum(bands)
    ensures b < |bands| && Sum(bands[..b]) <= i < Sum(bands[..b + 1])
  {
    var n := |bands| - 1;
    if i < Sum(bands[..n]) then
      var b := BandAt(bands[..n], i);
      assert bands[..n][..b] == bands[..b] && bands[..n][..b + 1] == bands[..b + 1];
      b
    else
      assert bands[..n + 1] == bands;
      n
  }

  /** Band b holds exactly the positions from the sum of the better bands on, as many as its share. */
  lemma BandAtIff(bands: seq<nat>, i: nat, b: nat)
    requires i < Sum(bands) && b < |bands|
    ensures BandAt(bands, i) == b <==> Sum(bands[..b]) <= i < Sum(bands[..b]) + bands[b]
  {
    var c := BandAt(bands, i);
    assert bands[..b + 1][..b] == bands[..b];
    if c < b {
      assert bands[..b][..c + 1] == bands[..c + 1];
      SumPrefix(bands[..b], c + 1);
    } else if c > b {
      assert bands[..c][..b + 1] == bands[..b + 1];
      SumPrefix(bands[..c], b + 1);
    }
  }

  /** The table after the first n performances of the list have been given their bands. */
  function Assigned(t: Table, perfs: seq<nat>, bands: seq<nat>, n: nat): (r: Table)
    requires n <= |perfs| && n <= Sum(bands) && forall k :: 0 <= k < |perfs| ==> perfs[k] < |t|
    ensures |r| == |t|
  {
    if n == 0 then t
    else
      var before := Assigned(t, perfs, bands, n - 1);
      before[perfs[n - 1] := before[perfs[n - 1]].(qualityBand := Some(BandAt(bands, n - 1) + 1))]
  }

  ghost predicate Listed(t: Table, perfs: seq<nat>) {
    && (forall k :: 0 <= k < |perfs| ==> perfs[k] < |t|)
    && (forall k, l :: 0 <= k < l < |perfs| ==> perfs[k] != perfs[l])
  }

  /** Bands go to the listed performances in list order; nothing else about them changes. */
  lemma {:induction false} AssignedListed(t: Table, perfs: seq<nat>, bands: seq<nat>, n: nat, k: nat)
    requires Listed(t, perfs) && k < n <= |perfs| && n <= Sum(bands)
    ensures Assigned(t, perfs, bands, n)[perfs[k]] == t[perfs[k]].(qualityBand := Some(BandAt(bands, k) + 1))
  {
    hide BandAt, Sum;
    if k < n - 1 {
      AssignedListed(t, perfs, bands, n - 1, k);
      assert perfs[k] != perfs[n - 1];
    } else {
      AssignedOthers(t, perfs, bands, n - 1, perfs[k]);
    }
  }

  /** Performances that are not listed are left alone. */
  lemma {:induction false} AssignedOthers(t: Table, perfs: seq<nat>, bands: seq<nat>, n: nat, i: nat)
    requires Listed(t, perfs) && n <= |perfs| && n <= Sum(bands)
    requires i < |t| && forall k :: 0 <= k < n ==> perfs[k] != i
    ensures Assigned(t, perfs, bands, n)[i] == t[i]
  {
    if n > 0 {
      AssignedOthers(t, perfs, bands, n - 1, i);
    }
  }

  lemma BandsAscend(bands: seq<nat>, k: nat, l: nat)
    requires k <= l < Sum(bands)
    ensures BandAt(bands, k) <= BandAt(bands, l)
  {
    BandAtIff(bands, k, BandAt(bands, k));
    var b := BandAt(bands, l);
    if b < BandAt(bands, k) {
      assert bands[..BandAt(bands, k)][..b + 1] == bands[..b + 1];
      SumPrefix(bands[..BandAt(bands, k)], b + 1);
    }
  }

  /** Every listed performance ends in one band from 1 to 4, and bands never improve along the list. */
  lemma BandsFollowTheList(t: Table, perfs: seq<nat>, bands: seq<nat>, k: nat, l: nat)
    requires Listed(t, perfs) && FairShares(bands, |perfs|) && k <= l < |perfs|
    ensures var r := Assigned(t, perfs, bands, |perfs|);
      && r[perfs[k]].qualityBand.Some? && r[perfs[l]].qualityBand.Some?
      && 1 <= r[perfs[k]].qualityBand.value <= r[perfs[l]].qualityBand.value <= BANDS
  {
    AssignedListed(t, perfs, bands, |perfs|, k);
    AssignedListed(t, perfs, bands, |perfs|, l);
    BandsAscend(bands, k, l);
  }

  /** A group of performances that is banded together. */
  datatype Group = Group(tdl: Uuid, periodStart: Day, periodEnd: Day, cycleStart: Day, cycleEnd: Day)

  const MPS := 0.0

  function GroupOf(p: Performance): Group {
    Group(p.tdl, p.periodStart, p.periodEnd, p.cycleStart, p.cycleEnd)
  }

  /** Rows the banding query returns for a group. */
  predicate Bandable(t: Table, enrolled: set<Uuid>, g: Group, i: nat) {
    i < |t| && GroupOf(t[i]) == g && t[i].bestValueScore > MPS && t[i].tsp in enrolled
  }

  /** The result of the banding query: all such rows, best score first. */
  ghost predicate BandingList(t: Table, enrolled: set<Uuid>, g: Group, n: nat, perfs: seq<nat>) {
    && (forall k :: 0 <= k < |perfs| ==> perfs[k] < n && Bandable(t, enrolled, g, perfs[k]))
    && (forall i: nat :: i < n && Bandable(t, enrolled, g, i) ==> i in perfs)
    && (forall k, l :: 0 <= k < l < |perfs| ==>
      perfs[k] != perfs[l] && t[perfs[k]].bestValueScore >= t[perfs[l]].bestValueScore)
  }

  method FetchForBanding(t: Table, enrolled: set<Uuid>, g: Group) returns (perfs: seq<nat>)
    ensures BandingList(t, enrolled, g, |t|, perfs)
  {
    perfs := [];
    for i := 0 to |t|
      invariant BandingList(t, enrolled, g, i, perfs)
    {
      if Bandable(t, enrolled, g, i) {
        var k := PlaceFor(t, perfs, i);
        InsertKeepsList(t, enrolled, g, perfs, k, i);
        perfs := perfs[..k] + [i] + perfs[k..];
      }
    }
  }

  method PlaceFor(t: Table, perfs: seq<nat>, i: nat) returns (k: nat)
    requires i < |t| && forall l :: 0 <= l < |perfs| ==> perfs[l] < |t|
    requires forall l, m :: 0 <= l < m < |perfs| ==> t[perfs[l]].bestValueScore >= t[perfs[m]].bestValueScore
    ensures k <= |perfs|
    ensures forall l :: 0 <= l < k ==> t[perfs[l]].bestValueScore >= t[i].bestValueScore
    ensures forall l :: k <= l < |perfs| ==> t[perfs[l]].bestValueScore < t[i].bestValueScore
  {
    k := |perfs|;
    while k > 0 && t[perfs[k - 1]].bestValueScore < t[i].bestValueScore
      invariant k <= |perfs|
      invariant forall l :: k <= l < |perfs| ==> t[perfs[l]].bestValueScore < t[i].bestValueScore
    {
      k := k - 1;
    }
  }

  lemma InsertKeepsList(t: Table, enrolled: set<Uuid>, g: Group, perfs: seq<nat>, k: nat, i: nat)
    requires BandingList(t, enrolled, g, i, perfs) && k <= |perfs| && Bandable(t, enrolled, g, i)
    requires forall l :: 0 <= l < k ==> t[perfs[l]].bestValueScore >= t[i].bestValueScore
    requires forall l :: k <= l < |perfs| ==> t[perfs[l]].bestValueScore < t[i].bestValueScore
    ensures BandingList(t, enrolled, g, i + 1, perfs[..k] + [i] + perfs[k..])
  {
    var r := perfs[..k] + [i] + perfs[k..];
    InsertMembers(perfs, k, i);
    InsertKeepsOrder(t, perfs, k, i);
    forall l | 0 <= l < |r| ensures r[l] < i + 1 && Bandable(t, enrolled, g, r[l]) {
      assert r[l] in r;
    }
    forall j: nat | j < i + 1 && Bandable(t, enrolled, g, j) ensures j in r {
      assert j == i || j in perfs;
    }
  }

  lemma InsertMembers(perfs: seq<nat>, k: nat, i: nat)
    requires k <= |perfs|
    ensures forall j: nat :: j in perfs[..k] + [i] + perfs[k..] <==> j == i || j in perfs
  {
    assert perfs == perfs[..k] + perfs[k..];
  }

  lemma InsertKeepsOrder(t: Table, perfs: seq<nat>, k: nat, i: nat)
    requires k <= |perfs| && i < |t| && forall l :: 0 <= l < |perfs| ==> perfs[l] < i
    requires forall l, m :: 0 <= l < m < |perfs| ==>
      perfs[l] != perfs[m] && t[perfs[l]].bestValueScore >= t[perfs[m]].bestValueScore
    requires forall l :: 0 <= l < k ==> t[perfs[l]].bestValueScore >= t[i].bestValueScore
    requires forall l :: k <= l < |perfs| ==> t[perfs[l]].bestValueScore < t[i].bestValueScore
    ensures var r := perfs[..k] + [i] + perfs[k..];
      && (forall l :: 0 <= l < |r| ==> r[l] < |t|)
      && (forall l, m :: 0 <= l < m < |r| ==> r[l] != r[m] && t[r[l]].bestValueScore >= t[r[m]].bestValueScore)
  {
    var r := perfs[..k] + [i] + perfs[k..];
    assert forall l :: 0 <= l < |r| ==> r[l] == if l < k then perfs[l] else if l == k then i else perfs[l - 1];
  }
}
