/** Banding the performances of all groups that need it. */
module Banding {
  import opened Wrappers
  import opened Performances
  import opened Bands

  predicate Unbanded(t: Table, enrolled: set<Uuid>, i: nat) {
    i < |t| && t[i].qualityBand.None? && t[i].tsp in enrolled
  }

  /** One of the first n rows of the group has no band. */
  ghost predicate NeedsBanding(t: Table, enrolled: set<Uuid>, n: nat, g: Group) {
    exists i: nat :: i < n && Unbanded(t, enrolled, i) && GroupOf(t[i]) == g
  }

  lemma OneRowMore(t: Table, enrolled: set<Uuid>, n: nat)
    requires n < |t|
    ensures forall g :: NeedsBanding(t, enrolled, n + 1, g) <==>
      NeedsBanding(t, enrolled, n, g) || (Unbanded(t, enrolled, n) && GroupOf(t[n]) == g)
  {
    forall g | NeedsBanding(t, enrolled, n, g) ensures NeedsBanding(t, enrolled, n + 1, g) {
      var i: nat :| i < n && Unbanded(t, enrolled, i) && GroupOf(t[i]) == g;
      assert i < n + 1;
    }
  }

  predicate InABand(p: Performance) {
    p.qualityBand.Some? && 1 <= p.qualityBand.value <= BANDS
  }

  ghost predicate OnlyBandsDiffer(t: Table, t': Table) {
    |t| == |t'| && forall i :: 0 <= i < |t| ==> t'[i] == t[i].(qualityBand := t'[i].qualityBand)
  }

  /** In t' the group g of table t has its bands: along the list of its performances, best score first, and
      by fair shares. */
  ghost predicate GroupAssigned(t: Table, t': Table, enrolled: set<Uuid>, g: Group, perfs: seq<nat>, shares: seq<nat>) {
    && BandingList(t, enrolled, g, |t|, perfs) && FairShares(shares, |perfs|) && Sum(shares) == |perfs|
    && |t'| == |t|
    && forall k: nat :: k < |perfs| ==> t'[perfs[k]] == t[perfs[k]].(qualityBand := Some(BandAt(shares, k) + 1))
  }

  ghost predicate GroupBanded(t: Table, t': Table, enrolled: set<Uuid>, g: Group) {
    exists perfs, shares :: GroupAssigned(t, t', enrolled, g, perfs, shares)
  }

  /** Row i belongs to one of the first n groups and is on its list. */
  ghost predicate Touched(t: Table, enrolled: set<Uuid>, groups: seq<Group>, n: nat, i: nat) {
    i < |t| && exists l: nat :: l < n <= |groups| && Bandable(t, enrolled, groups[l], i)
  }

  /** The first n groups have their bands, and nothing else has changed. */
  ghost predicate GroupsBanded(t: Table, t': Table, enrolled: set<Uuid>, groups: seq<Group>, n: nat) {
    && n <= |groups| && OnlyBandsDiffer(t, t')
    && (forall l: nat :: l < n ==> GroupBanded(t, t', enrolled, groups[l]))
    && (forall i: nat :: i < |t| && !Touched(t, enrolled, groups, n, i) ==> t'[i] == t[i])
  }

  /** t' is t with bands assigned: each group with an enrolled performance without a band has been banded as a
      whole, and nothing else has changed. */
  ghost predicate Banded(t: Table, t': Table, enrolled: set<Uuid>) {
    && OnlyBandsDiffer(t, t')
    && (forall g :: NeedsBanding(t, enrolled, |t|, g) ==> GroupBanded(t, t', enrolled, g))
    && (forall i: nat ::
          i < |t| && !(NeedsBanding(t, enrolled, |t|, GroupOf(t[i])) && Bandable(t, enrolled, GroupOf(t[i]), i)) ==>
            t'[i] == t[i])
  }

  lemma SameBandingList(t: Table, t': Table, enrolled: set<Uuid>, g: Group, perfs: seq<nat>)
    requires OnlyBandsDiffer(t, t') && BandingList(t', enrolled, g, |t'|, perfs)
    ensures BandingList(t, enrolled, g, |t|, perfs)
  {
    forall i: nat | i < |t| ensures Bandable(t, enrolled, g, i) <==> Bandable(t', enrolled, g, i) {
      assert t'[i] == t[i].(qualityBand := t'[i].qualityBand);
    }
    forall k: nat | k < |perfs| ensures t'[perfs[k]].bestValueScore == t[perfs[k]].bestValueScore {
      assert Bandable(t', enrolled, g, perfs[k]);
    }
  }

  /** v differs from u in bands of the group g only. */
  ghost predicate OnlyGroupDiffers(t: Table, u: Table, v: Table, enrolled: set<Uuid>, g: Group) {
    && |t| == |u| == |v|
    && forall i: nat :: i < |t| ==>
      v[i] == u[i].(qualityBand := v[i].qualityBand) && (Bandable(t, enrolled, g, i) || v[i] == u[i])
  }

  lemma SameBandable(t: Table, u: Table, enrolled: set<Uuid>, g: Group, i: nat)
    requires OnlyBandsDiffer(t, u) && i < |t|
    ensures Bandable(t, enrolled, g, i) <==> Bandable(u, enrolled, g, i)
  {
    assert u[i] == t[i].(qualityBand := u[i].qualityBand);
  }

  lemma AssignmentTouches(t: Table, u: Table, enrolled: set<Uuid>, g: Group, perfs: seq<nat>, shares: seq<nat>)
    requires OnlyBandsDiffer(t, u) && BandingList(u, enrolled, g, |u|, perfs) && FairShares(shares, |perfs|)
    ensures OnlyGroupDiffers(t, u, Assigned(u, perfs, shares, |perfs|), enrolled, g)
  {
    hide BandAt, Sum, Assigned, Bandable;
    var v := Assigned(u, perfs, shares, |perfs|);
    forall i: nat | i < |t|
      ensures v[i] == u[i].(qualityBand := v[i].qualityBand) && (Bandable(t, enrolled, g, i) || v[i] == u[i])
    {
      SameBandable(t, u, enrolled, g, i);
      if k: nat :| k < |perfs| && perfs[k] == i {
        AssignedListed(u, perfs, shares, |perfs|, k);
      } else {
        AssignedOthers(u, perfs, shares, |perfs|, i);
      }
    }
  }

  /** Banding one more group. */
  lemma OwnGroupBanded(t: Table, u: Table, enrolled: set<Uuid>, g: Group, perfs: seq<nat>, shares: seq<nat>)
    requires OnlyBandsDiffer(t, u) && BandingList(u, enrolled, g, |u|, perfs) && FairShares(shares, |perfs|)
    ensures GroupBanded(t, Assigned(u, perfs, shares, |perfs|), enrolled, g)
  {
    SameBandingList(t, u, enrolled, g, perfs);
    hide BandAt, Sum, Assigned, Bandable;
    var v := Assigned(u, perfs, shares, |perfs|);
    forall k: nat | k < |perfs| ensures v[perfs[k]] == t[perfs[k]].(qualityBand := Some(BandAt(shares, k) + 1)) {
      AssignedListed(u, perfs, shares, |perfs|, k);
      assert u[perfs[k]] == t[perfs[k]].(qualityBand := u[perfs[k]].qualityBand);
    }
    assert GroupAssigned(t, v, enrolled, g, perfs, shares);
  }

  lemma OtherGroupStays(t: Table, u: Table, v: Table, enrolled: set<Uuid>, g: Group, h: Group)
    requires GroupBanded(t, u, enrolled, h) && g != h && OnlyGroupDiffers(t, u, v, enrolled, g)
    ensures GroupBanded(t, v, enrolled, h)
  {
    var perfs, shares :| GroupAssigned(t, u, enrolled, h, perfs, shares);
    hide BandAt, Sum, FairShares;
    forall k: nat | k < |perfs| ensures v[perfs[k]] == u[perfs[k]] {
      assert Bandable(t, enrolled, h, perfs[k]);
    }
    assert GroupAssigned(t, v, enrolled, h, perfs, shares);
  }

  lemma UntouchedStay(t: Table, u: Table, v: Table, enrolled: set<Uuid>, groups: seq<Group>, n: nat, i: nat)
    requires n < |groups| && i < |t| && OnlyGroupDiffers(t, u, v, enrolled, groups[n])
    requires !Touched(t, enrolled, groups, n, i) ==> u[i] == t[i]
    ensures Touched(t, enrolled, groups, n + 1, i) || v[i] == t[i]
  {
    hide Bandable;
    if l: nat :| l < n && Bandable(t, enrolled, groups[l], i) {
      assert l < n + 1;
    }
  }

  lemma OneGroupMore(t: Table, u: Table, v: Table, enrolled: set<Uuid>, groups: seq<Group>, n: nat)
    requires n < |groups| && GroupsBanded(t, u, enrolled, groups, n)
    requires forall k, l :: 0 <= k < l < |groups| ==> groups[k] != groups[l]
    requires OnlyGroupDiffers(t, u, v, enrolled, groups[n]) && GroupBanded(t, v, enrolled, groups[n])
    ensures GroupsBanded(t, v, enrolled, groups, n + 1)
  {
    hide GroupBanded, Touched, Bandable;
    forall l: nat | l < n ensures GroupBanded(t, v, enrolled, groups[l]) {
      OtherGroupStays(t, u, v, enrolled, groups[n], groups[l]);
    }
    forall i: nat | i < |t| ensures Touched(t, enrolled, groups, n + 1, i) || v[i] == t[i] {
      UntouchedStay(t, u, v, enrolled, groups, n, i);
    }
    BandsDifferTwice(t, u, v, enrolled, groups[n]);
  }

  lemma BandsDifferTwice(t: Table, u: Table, v: Table, enrolled: set<Uuid>, g: Group)
    requires OnlyBandsDiffer(t, u) && OnlyGroupDiffers(t, u, v, enrolled, g)
    ensures OnlyBandsDiffer(t, v)
  {
    forall i: nat | i < |t| ensures v[i] == t[i].(qualityBand := v[i].qualityBand) {
      assert u[i] == t[i].(qualityBand := u[i].qualityBand);
    }
  }

  lemma GroupsDifferInBands(t: Table, u: Table, enrolled: set<Uuid>, groups: seq<Group>, n: nat)
    requires GroupsBanded(t, u, enrolled, groups, n)
    ensures OnlyBandsDiffer(t, u)
  {
  }

  lemma NoGroupBanded(t: Table, enrolled: set<Uuid>, groups: seq<Group>)
    ensures GroupsBanded(t, t, enrolled, groups, 0)
  {
  }

  lemma AllGroupsBanded(t: Table, u: Table, enrolled: set<Uuid>, groups: seq<Group>)
    requires GroupsBanded(t, u, enrolled, groups, |groups|)
    requires forall g :: g in groups <==> NeedsBanding(t, enrolled, |t|, g)
    ensures Banded(t, u, enrolled)
  {
    hide GroupBanded, NeedsBanding;
    forall g | NeedsBanding(t, enrolled, |t|, g) ensures GroupBanded(t, u, enrolled, g) {
      var l: nat :| l < |groups| && groups[l] == g;
    }
    forall i: nat | i < |t| && Touched(t, enrolled, groups, |groups|, i)
      ensures NeedsBanding(t, enrolled, |t|, GroupOf(t[i])) && Bandable(t, enrolled, GroupOf(t[i]), i)
    {
      var l: nat :| l < |groups| && Bandable(t, enrolled, groups[l], i);
      assert groups[l] in groups;
    }
  }

  lemma BandedInABand(t: Table, t': Table, enrolled: set<Uuid>, i: nat)
    requires Banded(t, t', enrolled) && Unbanded(t, enrolled, i) && t[i].bestValueScore > MPS
    ensures InABand(t'[i])
  {
    var g := GroupOf(t[i]);
    assert NeedsBanding(t, enrolled, |t|, g) && Bandable(t, enrolled, g, i);
    assert GroupBanded(t, t', enrolled, g);
    var perfs, shares :| GroupAssigned(t, t', enrolled, g, perfs, shares);
    assert i in perfs;
    hide Sum;
  }

  lemma BandedKeepBands(t: Table, t': Table, enrolled: set<Uuid>, i: nat)
    requires Banded(t, t', enrolled) && i < |t| && t[i].qualityBand.Some?
    ensures t'[i].qualityBand.Some?
  {
    var g := GroupOf(t[i]);
    if NeedsBanding(t, enrolled, |t|, g) && Bandable(t, enrolled, g, i) {
      assert GroupBanded(t, t', enrolled, g);
      var perfs, shares :| GroupAssigned(t, t', enrolled, g, perfs, shares);
      assert i in perfs;
      hide Sum;
    }
  }

  /** Who is without a band after banding: exactly the enrolled performances that had none and whose score is
      not above the minimum. All others that had none are in one of the four bands. */
  lemma UnbandedAfterwardsIff(t: Table, t': Table, enrolled: set<Uuid>, i: nat)
    requires Banded(t, t', enrolled) && i < |t|
    ensures Unbanded(t', enrolled, i) <==> Unbanded(t, enrolled, i) && t[i].bestValueScore <= MPS
    ensures Unbanded(t, enrolled, i) && t[i].bestValueScore > MPS ==> InABand(t'[i])
  {
    assert t'[i] == t[i].(qualityBand := t'[i].qualityBand);
    if t[i].qualityBand.Some? {
      BandedKeepBands(t, t', enrolled, i);
    } else if Unbanded(t, enrolled, i) && t[i].bestValueScore > MPS {
      BandedInABand(t, t', enrolled, i);
    }
  }

  /** A group of one enrolled performance with score 0. */
  const ZERO_SCORE: Table := [Performance(0, 1, 0, 0, 0, 0, None, 0.0, 0)]

  /** The minimum score of 0 is meant to exclude nobody. It excludes a score of 0, which is a valid one, and
      makes the group come up for banding again on every run. */
  lemma ZeroScoreIsLeftOut(t': Table)
    requires Banded(ZERO_SCORE, t', {1})
    ensures t' == ZERO_SCORE && NeedsBanding(t', {1}, 1, GroupOf(t'[0]))
  {
    assert !Bandable(ZERO_SCORE, {1}, GroupOf(ZERO_SCORE[0]), 0);
    assert t'[0] == ZERO_SCORE[0];
    assert Unbanded(t', {1}, 0);
  }

  lemma AssignmentBegins(t: Table, g: Group, enrolled: set<Uuid>, perfs: seq<nat>, shares: seq<nat>)
    requires BandingList(t, enrolled, g, |t|, perfs) && FairShares(shares, |perfs|)
    ensures Listed(t, perfs) && Sum(shares) == |perfs| && |shares| == BANDS
    ensures Sum(shares[..0]) == 0 && Assigned(t, perfs, shares, 0) == t
  {
    assert shares[..0] == [];
  }

  lemma ShareOf(shares: seq<nat>, band: nat)
    requires band < |shares|
    ensures Sum(shares[..band + 1]) == Sum(shares[..band]) + shares[band] <= Sum(shares)
  {
    assert shares[..band + 1][..band] == shares[..band];
    SumPrefix(shares, band + 1);
  }

  lemma AssignedNext(t: Table, perfs: seq<nat>, shares: seq<nat>, n: nat, band: nat)
    requires Listed(t, perfs) && n < |perfs| == Sum(shares) && band < |shares|
    requires Sum(shares[..band]) <= n < Sum(shares[..band]) + shares[band]
    ensures var before := Assigned(t, perfs, shares, n);
      Assigned(t, perfs, shares, n + 1) == before[perfs[n] := before[perfs[n]].(qualityBand := Some(band + 1))]
  {
    BandAtIff(shares, n, band);
  }
}
