/** How often the offer loop comes to each competitor when everybody it asks is blacked out, as a closed form
    over the offer counts the attempt begins with. */
module Turns {
  import opened Wrappers
  import opened Performances
  import opened OfferLoop

  /** The least offer count in each band that has a competitor. */
  ghost function Levels(t: Table, c: Contest): (l: map<int, nat>) {
    GatheredFacts(t, c);
    map b | b in Gathered(t, c) :: Offers(t, Gathered(t, c), b)
  }

  ghost predicate HasLevel(t: Table, c: Contest, b: int, level: nat, j: nat) {
    Competes(t, c, j) && Band(t, j) == b && t[j].offerCount == level
  }

  ghost predicate AreLevels(t: Table, c: Contest, l: map<int, nat>) {
    && (forall j: nat :: Competes(t, c, j) ==> Band(t, j) in l && l[Band(t, j)] <= t[j].offerCount)
    && (forall b :: b in l ==> 1 <= b <= BANDS && exists j: nat :: HasLevel(t, c, b, l[b], j))
  }

  lemma LevelsAreLevels(t: Table, c: Contest)
    ensures AreLevels(t, c, Levels(t, c))
  {
    GatheredFacts(t, c);
    var m, l := Gathered(t, c), Levels(t, c);
    hide Gathered;
    forall b | b in l ensures 1 <= b <= BANDS && exists j: nat :: HasLevel(t, c, b, l[b], j) {
      assert HasLevel(t, c, b, l[b], m[b]);
    }
    forall j: nat | Competes(t, c, j) ensures Band(t, j) in l && l[Band(t, j)] <= t[j].offerCount {
      assert j == m[Band(t, j)] || Ahead(t, m[Band(t, j)], j);
    }
  }

  /** Below `to` no band has had fewer offers than a better one. */
  ghost predicate Climbs(l: map<int, nat>, to: int) {
    forall x, y :: x in l && y in l && x < y < to ==> l[x] <= l[y]
  }

  ghost predicate Drops(l: map<int, nat>, b: int) {
    exists a :: Adjacent(l, a, b) && l[b] < l[a]
  }

  ghost predicate IsBest(l: map<int, nat>, b: int) {
    forall x :: x in l ==> b <= x
  }

  /** The band that is picked: the first that drops, or the best if none does. */
  ghost predicate PicksBand(l: map<int, nat>, s: int) {
    s in l && Climbs(l, s) && (Drops(l, s) || (IsBest(l, s) && Climbs(l, BANDS + 1)))
  }

  ghost predicate LeadsBand(t: Table, c: Contest, i: nat)
    requires Competes(t, c, i)
  {
    forall j: nat :: j < |t| && Competes(t, c, j) && Band(t, j) == Band(t, i) && j != i ==> Ahead(t, i, j)
  }

  ghost predicate Chosen(t: Table, c: Contest, i: nat) {
    Competes(t, c, i) && PicksBand(Levels(t, c), Band(t, i)) && LeadsBand(t, c, i)
  }

  lemma PicksTheBand(t: Table, m: map<int, nat>, l: map<int, nat>)
    requires FrontRunners(t, m) && exists b :: b in m
    requires l.Keys == m.Keys && forall b :: b in m ==> l[b] == Offers(t, m, b)
    ensures PicksBand(l, SelectNext(t, m))
  {
    SelectNextFacts(t, m);
    var s := SelectNext(t, m);
    hide SelectNext, Offers;
    if FallsBehind(t, m, s) {
      var a :| Adjacent(m, a, s) && Offers(t, m, s) < Offers(t, m, a);
      assert Adjacent(l, a, s);
    }
  }

  lemma LevelsOfFrontRunners(t: Table, c: Contest)
    ensures FrontRunners(t, Gathered(t, c))
    ensures Levels(t, c).Keys == Gathered(t, c).Keys
    ensures forall b :: b in Gathered(t, c) ==> Levels(t, c)[b] == Offers(t, Gathered(t, c), b)
  {
    GatheredFacts(t, c);
    hide Gathered;
  }

  lemma FrontRunnerLeadsBand(t: Table, c: Contest, b: int)
    requires b in Gathered(t, c)
    ensures var i := Gathered(t, c)[b]; Competes(t, c, i) && Band(t, i) == b && LeadsBand(t, c, i)
  {
    hide Gathered;
    GatheredFacts(t, c);
  }

  /** Whoever is next in line leads the band that is picked. */
  lemma SelectIsChosen(t: Table, c: Contest)
    requires Select(t, c).Some?
    ensures Chosen(t, c, Select(t, c).value)
  {
    var m := Gathered(t, c);
    LevelsOfFrontRunners(t, c);
    var b := SelectNext(t, m);
    hide Gathered, Levels, PicksBand, LeadsBand, Band;
    FrontRunnerLeadsBand(t, c, b);
    PicksTheBand(t, m, Levels(t, c));
  }

  lemma ChosenHasLevel(t: Table, c: Contest, i: nat)
    requires Chosen(t, c, i)
    ensures Band(t, i) in Levels(t, c) && Levels(t, c)[Band(t, i)] == t[i].offerCount
  {
    LevelsAreLevels(t, c);
    hide Levels;
    var l := Levels(t, c);
    var j: nat :| HasLevel(t, c, Band(t, i), l[Band(t, i)], j);
    assert j == i || Ahead(t, i, j);
  }

  /** u is t after some more offers. */
  ghost predicate Grown(t: Table, u: Table) {
    && |u| == |t|
    && forall j: nat :: j < |t| ==> u[j] == t[j].(offerCount := u[j].offerCount) && t[j].offerCount <= u[j].offerCount
  }

  lemma GrownContest(t: Table, u: Table, c: Contest)
    requires Grown(t, u)
    ensures forall j: nat :: Competes(u, c, j) <==> Competes(t, c, j)
    ensures forall j: nat :: Competes(t, c, j) ==> Band(u, j) == Band(t, j)
    ensures Levels(u, c).Keys == Levels(t, c).Keys
    ensures forall b :: b in Levels(t, c) ==> Levels(t, c)[b] <= Levels(u, c)[b]
  {
    hide Levels;
    assert forall j: nat :: Competes(u, c, j) <==> Competes(t, c, j);
    LevelsAreLevels(t, c);
    LevelsAreLevels(u, c);
    var l, k := Levels(t, c), Levels(u, c);
    forall b ensures (b in k <==> b in l) && (b in l && b in k ==> l[b] <= k[b]) {
      if b in l {
        var j: nat :| HasLevel(t, c, b, l[b], j);
        assert Competes(u, c, j);
      }
      if b in k {
        var j: nat :| HasLevel(u, c, b, k[b], j);
        assert Competes(t, c, j);
      }
    }
  }

  /** One offer raises at most the level of its own band, by at most one. */
  lemma LevelsAfterOffer(t: Table, c: Contest, i: nat)
    requires Competes(t, c, i)
    ensures var l, k := Levels(t, c), Levels(Bump(t, i), c);
      && k.Keys == l.Keys
      && forall b :: b in l ==> l[b] <= k[b] <= if b == Band(t, i) then l[b] + 1 else l[b]
  {
    hide Levels;
    var u := Bump(t, i);
    GrownContest(t, u, c);
    LevelsAreLevels(t, c);
    LevelsAreLevels(u, c);
    var l, k := Levels(t, c), Levels(u, c);
    forall b | b in l ensures k[b] <= if b == Band(t, i) then l[b] + 1 else l[b] {
      var j: nat :| HasLevel(t, c, b, l[b], j);
      assert Competes(u, c, j) && k[b] <= u[j].offerCount;
    }
  }

  function Max(x: nat, y: nat): nat {
    if x < y then y else x
  }

  /** The largest of `start` and the levels strictly between bands s and b. */
  ghost function Ceiling(l: map<int, nat>, s: int, start: nat, b: int): nat
    requires s < b
    decreases b - s
  {
    if b == s + 1 then start
    else Max(Ceiling(l, s, start, b - 1), if b - 1 in l then l[b - 1] else 0)
  }

  lemma {:induction false} CeilingIsLeast(l: map<int, nat>, s: int, start: nat, b: int, x: nat)
    requires s < b
    ensures Ceiling(l, s, start, b) <= x <==> start <= x && forall z :: z in l && s < z < b ==> l[z] <= x
    decreases b - s
  {
    if b > s + 1 {
      CeilingIsLeast(l, s, start, b - 1, x);
    }
  }

  lemma CeilingOfNeighbour(l: map<int, nat>, s: int, start: nat, a: int, b: int)
    requires s < a && Adjacent(l, a, b)
    ensures Ceiling(l, s, start, b) == Max(Ceiling(l, s, start, a), l[a])
  {
    var x, y := Ceiling(l, s, start, b), Max(Ceiling(l, s, start, a), l[a]);
    CeilingIsLeast(l, s, start, b, x);
    CeilingIsLeast(l, s, start, b, y);
    CeilingIsLeast(l, s, start, a, x);
    CeilingIsLeast(l, s, start, a, Ceiling(l, s, start, a));
  }

  /** The band before s is so far ahead that the loop never leaves band s. */
  ghost predicate Stuck(l: map<int, nat>, s: int, level: nat) {
    exists a :: Adjacent(l, a, s) && l[a] > level + 1
  }

  /** The offer count of competitor j at the end of a tour that began with f. */
  ghost function Goal(t: Table, c: Contest, f: nat, j: nat): (goal: nat)
    requires Competes(t, c, f) && Competes(t, c, j)
    ensures t[j].offerCount <= goal
  {
    var s, m, l, x := Band(t, f), t[f].offerCount, Levels(t, c), t[j].offerCount;
    if Band(t, j) == s then
      if x == m || (x == m + 1 && Outranks(t, j, f)) then x + 1 else x
    else if Stuck(l, s, m) then x
    else Max(x, if Band(t, j) < s then m + 2 else Ceiling(l, s, m + 1, Band(t, j)))
  }

  /** How many offers of one shipment competitor j is due in such a tour. */
  ghost function Due(t: Table, c: Contest, f: nat, j: nat): nat
    requires Competes(t, c, f) && Competes(t, c, j)
  {
    Goal(t, c, f, j) - t[j].offerCount
  }

  ghost predicate WithinGoals(t: Table, u: Table, c: Contest, f: nat)
    requires Competes(t, c, f) && |u| == |t|
  {
    forall j: nat :: j < |t| ==> u[j].offerCount <= if Competes(t, c, j) then Goal(t, c, f, j) else t[j].offerCount
  }

  /** A band's level rises only as far as that of the band before it. */
  ghost predicate Follows(l: map<int, nat>, k: map<int, nat>) {
    k.Keys == l.Keys && forall a, b :: Adjacent(l, a, b) ==> k[b] <= Max(l[b], k[a])
  }

  ghost predicate SameBelow(l: map<int, nat>, k: map<int, nat>, s: int) {
    k.Keys == l.Keys && forall b :: b in l && b < s ==> k[b] == l[b]
  }

  ghost predicate DoneAbove(l: map<int, nat>, k: map<int, nat>, s: int, start: nat) {
    k.Keys == l.Keys && forall b :: b in l && s < b ==> Ceiling(l, s, start, b) <= k[b]
  }

  /** Until an offer goes to a band before s nothing has changed there; from then on the bands after s are done. */
  ghost predicate Sides(l: map<int, nat>, k: map<int, nat>, s: int, m: nat) {
    SameBelow(l, k, s) || DoneAbove(l, k, s, m + 1)
  }

  /** The tour that began at t with f has come to u, and f has had its turn. */
  ghost predicate Midway(t: Table, u: Table, c: Contest, f: nat) {
    && Chosen(t, c, f) && Grown(t, u) && u[f].offerCount == t[f].offerCount + 1
    && WithinGoals(t, u, c, f)
    && Follows(Levels(t, c), Levels(u, c))
    && Sides(Levels(t, c), Levels(u, c), Band(t, f), t[f].offerCount)
  }

  lemma PickInOwnBand(t: Table, u: Table, c: Contest, f: nat, i: nat)
    requires Midway(t, u, c, f) && Chosen(u, c, i) && i != f && Band(u, i) == Band(t, f)
    ensures Competes(t, c, i) && u[i].offerCount < Goal(t, c, f, i)
  {
    hide Levels, Follows, Sides, PicksBand, Stuck;
    GrownContest(t, u, c);
    assert Ahead(t, f, i) && Ahead(u, i, f);
  }

  /** No band's level passes the goal of the member that had it. */
  ghost predicate Bounds(l: map<int, nat>, k: map<int, nat>, s: int, m: nat) {
    && s in l && k.Keys == l.Keys && (forall b :: b in l ==> 1 <= b <= BANDS)
    && k[s] <= m + 1
    && (Stuck(l, s, m) ==> forall b :: b in l && b != s ==> k[b] == l[b])
    && (!Stuck(l, s, m) ==> forall b :: b in l && b < s ==> k[b] <= Max(l[b], m + 2))
    && (!Stuck(l, s, m) ==> forall b :: b in l && s < b ==> k[b] <= Max(l[b], Ceiling(l, s, m + 1, b)))
  }

  lemma LevelWithin(t: Table, u: Table, c: Contest, f: nat, b: int)
    requires Midway(t, u, c, f) && b in Levels(t, c)
    ensures var l, k, s, m := Levels(t, c), Levels(u, c), Band(t, f), t[f].offerCount;
      && b in k && 1 <= b <= BANDS
      && (b == s ==> k[b] <= m + 1)
      && (b != s && Stuck(l, s, m) ==> k[b] == l[b])
      && (b < s && !Stuck(l, s, m) ==> k[b] <= Max(l[b], m + 2))
      && (b > s && !Stuck(l, s, m) ==> k[b] <= Max(l[b], Ceiling(l, s, m + 1, b)))
  {
    hide Levels, Follows, Sides, PicksBand, Stuck, Ceiling;
    GrownContest(t, u, c);
    LevelsAreLevels(t, c);
    LevelsAreLevels(u, c);
    var j: nat :| HasLevel(t, c, b, Levels(t, c)[b], j);
    assert Competes(u, c, j) && Competes(u, c, f);
    assert u[j].offerCount <= Goal(t, c, f, j);
  }

  lemma LevelsWithin(t: Table, u: Table, c: Contest, f: nat)
    requires Midway(t, u, c, f)
    ensures Bounds(Levels(t, c), Levels(u, c), Band(t, f), t[f].offerCount)
  {
    ChosenHasLevel(t, c, f);
    GrownContest(t, u, c);
    forall b | b in Levels(t, c)
      ensures var l, k, s, m := Levels(t, c), Levels(u, c), Band(t, f), t[f].offerCount;
        && b in k && 1 <= b <= BANDS
        && (b == s ==> k[b] <= m + 1)
        && (b != s && Stuck(l, s, m) ==> k[b] == l[b])
        && (b < s && !Stuck(l, s, m) ==> k[b] <= Max(l[b], m + 2))
        && (b > s && !Stuck(l, s, m) ==> k[b] <= Max(l[b], Ceiling(l, s, m + 1, b)))
    {
      LevelWithin(t, u, c, f, b);
    }
    hide Levels, Ceiling, Stuck, Midway, Chosen;
  }

  lemma NoDropBefore(l: map<int, nat>, k: map<int, nat>, s: int, m: nat, b: int)
    requires Bounds(l, k, s, m) && Stuck(l, s, m) && Climbs(l, s)
    ensures b < s ==> !Drops(k, b)
  {
    forall a | Adjacent(k, a, b) && b < s ensures k[a] <= k[b] {
      assert l[a] <= l[b];
    }
  }

  lemma StuckStays(l: map<int, nat>, k: map<int, nat>, s: int, m: nat, b: int)
    requires Bounds(l, k, s, m) && Stuck(l, s, m) && Climbs(l, s) && PicksBand(k, b)
    ensures b == s
  {
    NoDropBefore(l, k, s, m, b);
    var p :| Adjacent(l, p, s) && l[p] > m + 1;
    assert k[p] > k[s];
    assert !Climbs(k, s + 1) && !Climbs(k, BANDS + 1);
  }

  /** What the choice of the first band says about the bands before it. */
  lemma BeforeFirst(l: map<int, nat>, s: int, m: nat, b: int)
    requires PicksBand(l, s) && l[s] == m && b in l && b < s && !Stuck(l, s, m)
    ensures l[b] <= m + 1 && exists a :: Adjacent(l, a, s) && l[a] == m + 1
  {
    var a :| Adjacent(l, a, s) && l[s] < l[a];
    assert l[a] == m + 1;
    assert b <= a;
  }

  lemma PickBefore(l: map<int, nat>, k: map<int, nat>, s: int, m: nat, b: int)
    requires Bounds(l, k, s, m) && PicksBand(l, s) && l[s] == m && PicksBand(k, b) && b < s
    ensures !Stuck(l, s, m) && k[b] < m + 2
  {
    if Stuck(l, s, m) {
      StuckStays(l, k, s, m, b);
    }
    if a :| Adjacent(k, a, b) && k[b] < k[a] {
      BeforeFirst(l, s, m, a);
    } else {
      assert k[b] <= k[s];
    }
  }

  lemma PickAfter(l: map<int, nat>, k: map<int, nat>, s: int, m: nat, b: int)
    requires Bounds(l, k, s, m) && PicksBand(l, s) && PicksBand(k, b) && s < b
    ensures !Stuck(l, s, m) && k[b] < Ceiling(l, s, m + 1, b)
  {
    hide Ceiling, Stuck, Climbs;
    if Stuck(l, s, m) {
      StuckStays(l, k, s, m, b);
    }
    var a :| Adjacent(k, a, b) && k[b] < k[a];
    assert s <= a && Adjacent(l, a, b);
    BelowCeiling(l, k, s, m, a, b);
  }

  lemma BelowCeiling(l: map<int, nat>, k: map<int, nat>, s: int, m: nat, a: int, b: int)
    requires Bounds(l, k, s, m) && !Stuck(l, s, m) && s <= a && Adjacent(l, a, b) && k[b] < k[a]
    ensures k[b] < Ceiling(l, s, m + 1, b)
  {
    hide Ceiling, Stuck;
    if a == s {
      CeilingIsLeast(l, s, m + 1, b, Ceiling(l, s, m + 1, b));
    } else {
      CeilingOfNeighbour(l, s, m + 1, a, b);
    }
  }

  lemma PickStaysWithin(t: Table, u: Table, c: Contest, f: nat, i: nat)
    requires Midway(t, u, c, f) && Chosen(u, c, i) && i != f
    ensures Competes(t, c, i) && u[i].offerCount < Goal(t, c, f, i)
  {
    hide Levels, Follows, Sides, PicksBand, Stuck, Ceiling, Bounds;
    GrownContest(t, u, c);
    LevelsWithin(t, u, c, f);
    ChosenHasLevel(t, c, f);
    ChosenHasLevel(u, c, i);
    if Band(u, i) == Band(t, f) {
      PickInOwnBand(t, u, c, f, i);
    } else if Band(u, i) < Band(t, f) {
      PickBefore(Levels(t, c), Levels(u, c), Band(t, f), t[f].offerCount, Band(u, i));
    } else {
      PickAfter(Levels(t, c), Levels(u, c), Band(t, f), t[f].offerCount, Band(u, i));
    }
  }

  lemma PickFollows(l: map<int, nat>, u: Table, c: Contest, i: nat)
    requires Follows(l, Levels(u, c)) && Chosen(u, c, i)
    ensures Follows(l, Levels(Bump(u, i), c))
  {
    LevelsAfterOffer(u, c, i);
    hide Levels;
    var k, k' := Levels(u, c), Levels(Bump(u, i), c);
    forall a, b | Adjacent(l, a, b) ensures k'[b] <= Max(l[b], k'[a]) {
      if b == Band(u, i) {
        var z :| Adjacent(k, z, b) && k[b] < k[z];
        assert z == a;
      }
    }
  }

  /** As long as nothing has changed before the first band, an offer there finds every later band done. */
  lemma LaterBandsAreDone(l: map<int, nat>, k: map<int, nat>, s: int, m: nat, b: int)
    requires Bounds(l, k, s, m) && PicksBand(l, s) && l[s] == m && PicksBand(k, b) && b < s
    requires SameBelow(l, k, s) && forall x :: x in l ==> l[x] <= k[x]
    ensures DoneAbove(l, k, s, m + 1)
  {
    hide Ceiling;
    PickBefore(l, k, s, m, b);
    BeforeFirst(l, s, m, b);
    var p :| Adjacent(l, p, s) && l[p] == m + 1;
    assert !Drops(k, b);
    forall x | x in l && s < x ensures Ceiling(l, s, m + 1, x) <= k[x] {
      assert k[p] <= k[x];
      forall z | z in l && s < z < x ensures l[z] <= k[x] {
        assert k[z] <= k[x];
      }
      CeilingIsLeast(l, s, m + 1, x, k[x]);
    }
  }

  lemma OfferKeepsSides(l: map<int, nat>, k: map<int, nat>, k': map<int, nat>, s: int, m: nat, b: int)
    requires Bounds(l, k, s, m) && PicksBand(l, s) && l[s] == m && PicksBand(k, b)
    requires Sides(l, k, s, m) && forall x :: x in l ==> l[x] <= k[x]
    requires k'.Keys == k.Keys && forall x :: x in k ==> k[x] <= k'[x] <= if x == b then k[x] + 1 else k[x]
    ensures Sides(l, k', s, m)
  {
    if SameBelow(l, k, s) && b < s {
      LaterBandsAreDone(l, k, s, m, b);
    }
    hide Bounds, PicksBand, Ceiling;
    if DoneAbove(l, k, s, m + 1) {
      forall x | x in l && s < x ensures Ceiling(l, s, m + 1, x) <= k'[x] {
        assert k[x] <= k'[x];
      }
    }
  }

  lemma PickKeepsSides(t: Table, u: Table, c: Contest, f: nat, i: nat)
    requires Midway(t, u, c, f) && Chosen(u, c, i)
    ensures Sides(Levels(t, c), Levels(Bump(u, i), c), Band(t, f), t[f].offerCount)
  {
    GrownContest(t, u, c);
    LevelsAfterOffer(u, c, i);
    ChosenHasLevel(t, c, f);
    LevelsWithin(t, u, c, f);
    hide Levels, Sides, Bounds, PicksBand, WithinGoals, Follows;
    OfferKeepsSides(Levels(t, c), Levels(u, c), Levels(Bump(u, i), c), Band(t, f), t[f].offerCount, Band(u, i));
  }

  lemma PickKeepsMidway(t: Table, u: Table, c: Contest, f: nat, i: nat)
    requires Midway(t, u, c, f) && Chosen(u, c, i) && i != f
    ensures Midway(t, Bump(u, i), c, f)
  {
    PickStaysWithin(t, u, c, f, i);
    PickFollows(Levels(t, c), u, c, i);
    PickKeepsSides(t, u, c, f, i);
    PickGrows(t, u, c, f, i);
    hide Levels, Chosen, Follows, Sides, Goal, WithinGoals, Grown;
  }

  lemma PickGrows(t: Table, u: Table, c: Contest, f: nat, i: nat)
    requires Competes(t, c, f) && Competes(t, c, i) && Grown(t, u) && WithinGoals(t, u, c, f)
    requires u[i].offerCount < Goal(t, c, f, i)
    ensures Grown(t, Bump(u, i)) && WithinGoals(t, Bump(u, i), c, f)
  {
    hide Goal;
  }

  lemma FirstPickIsMidway(t: Table, c: Contest, f: nat)
    requires Chosen(t, c, f)
    ensures Midway(t, Bump(t, f), c, f)
  {
    LevelsAfterOffer(t, c, f);
    PickFollows(Levels(t, c), t, c, f);
    hide Levels, Follows, DoneAbove, Ceiling, Stuck, PicksBand;
  }

  lemma {:induction false} NextBand(l: map<int, nat>, b: int, x: int, s: int) returns (next: int)
    requires b in l && s in l && b < x <= s && forall z :: b < z < x ==> z !in l
    ensures Adjacent(l, b, next) && next <= s
    decreases s - x
  {
    if x in l {
      next := x;
    } else {
      next := NextBand(l, b, x + 1, s);
    }
  }

  /** When f is next in line again every band before its own has come to two more than f began with. */
  lemma {:induction false} RaisedBefore(l: map<int, nat>, k: map<int, nat>, s: int, m: nat, b: int)
    requires PicksBand(l, s) && l[s] == m && !Stuck(l, s, m)
    requires PicksBand(k, s) && k[s] == m + 1 && Follows(l, k) && b in l && b < s
    ensures m + 2 <= k[b]
    decreases s - b
  {
    var x := NextBand(l, b, b + 1, s);
    if x == s {
      assert Adjacent(k, b, s);
      var a :| Adjacent(k, a, s) && k[s] < k[a];
      assert a == b;
    } else {
      RaisedBefore(l, k, s, m, x);
      BeforeFirst(l, s, m, x);
    }
  }

  /** Then every later band has come to its ceiling. */
  lemma DoneAfter(l: map<int, nat>, k: map<int, nat>, s: int, m: nat, b: int)
    requires PicksBand(l, s) && l[s] == m && !Stuck(l, s, m)
    requires PicksBand(k, s) && k[s] == m + 1 && Follows(l, k) && Sides(l, k, s, m) && b in l && s < b
    requires forall x :: x in l ==> 1 <= x <= BANDS && l[x] <= k[x]
    ensures Ceiling(l, s, m + 1, b) <= k[b]
  {
    hide Ceiling;
    if x :| x in l && x < s {
      BeforeFirst(l, s, m, x);
      var a :| Adjacent(l, a, s) && l[a] == m + 1;
      RaisedBefore(l, k, s, m, a);
    } else {
      assert !Drops(k, s);
      forall z | z in l && s < z < b ensures l[z] <= k[b] {
        assert k[z] <= k[b];
      }
      CeilingIsLeast(l, s, m + 1, b, k[b]);
    }
  }

  lemma OwnBandEnds(t: Table, u: Table, c: Contest, f: nat, j: nat)
    requires Midway(t, u, c, f) && Chosen(u, c, f) && Competes(t, c, j) && Band(t, j) == Band(t, f)
    ensures u[j].offerCount == Goal(t, c, f, j)
  {
    hide Levels, Follows, Sides, PicksBand, Stuck;
    GrownContest(t, u, c);
    assert j == f || (Ahead(t, f, j) && Ahead(u, f, j));
  }

  lemma OtherBandEnds(t: Table, u: Table, c: Contest, f: nat, j: nat)
    requires Midway(t, u, c, f) && Chosen(u, c, f) && Competes(t, c, j) && Band(t, j) != Band(t, f)
    ensures u[j].offerCount == Goal(t, c, f, j)
  {
    hide Levels, PicksBand, Stuck, Follows, Sides, Ceiling;
    GrownContest(t, u, c);
    ChosenHasLevel(t, c, f);
    ChosenHasLevel(u, c, f);
    LevelsAreLevels(t, c);
    LevelsAreLevels(u, c);
    var l, k, s, m, b := Levels(t, c), Levels(u, c), Band(t, f), t[f].offerCount, Band(t, j);
    assert k[b] <= u[j].offerCount;
    if !Stuck(l, s, m) {
      if b < s {
        RaisedBefore(l, k, s, m, b);
      } else {
        DoneAfter(l, k, s, m, b);
      }
    }
  }

  /** Everybody has come to their goal. */
  ghost predicate AtGoals(t: Table, u: Table, c: Contest, f: nat)
    requires Competes(t, c, f)
  {
    && |u| == |t|
    && forall j: nat :: j < |t| ==> u[j].offerCount == if Competes(t, c, j) then Goal(t, c, f, j) else t[j].offerCount
  }

  lemma TourEnds(t: Table, u: Table, c: Contest, f: nat)
    requires Midway(t, u, c, f) && Chosen(u, c, f)
    ensures AtGoals(t, u, c, f)
  {
    hide Goal, Midway, Chosen, Competes;
    OthersStay(t, u, c, f);
    forall j: nat | j < |t| && Competes(t, c, j) ensures u[j].offerCount == Goal(t, c, f, j) {
      CompetitorEnds(t, u, c, f, j);
    }
  }

  lemma CompetitorEnds(t: Table, u: Table, c: Contest, f: nat, j: nat)
    requires Midway(t, u, c, f) && Chosen(u, c, f) && Competes(t, c, j)
    ensures j < |u| && u[j].offerCount == Goal(t, c, f, j)
  {
    hide Goal, Levels, Follows, Sides, PicksBand;
    if Band(t, j) == Band(t, f) {
      OwnBandEnds(t, u, c, f, j);
    } else {
      OtherBandEnds(t, u, c, f, j);
    }
  }

  lemma OthersStay(t: Table, u: Table, c: Contest, f: nat)
    requires Midway(t, u, c, f)
    ensures Competes(t, c, f) && |u| == |t|
    ensures forall j: nat :: j < |t| && !Competes(t, c, j) ==> u[j].offerCount == t[j].offerCount
  {
    hide Goal, Levels, Follows, Sides, PicksBand;
  }

  ghost predicate AllDark(t: Table, c: Contest, dark: set<Uuid>) {
    forall i: nat :: i < |t| && Competes(t, c, i) ==> t[i].tsp in dark
  }

  lemma {:induction false} TraceReachesGoals(t: Table, u: Table, c: Contest, dark: set<Uuid>, f: nat, cap: nat)
    requires Midway(t, u, c, f) && Capped(u, c, f, cap) && AllDark(t, c, dark) && Select(u, c) != Some(f)
    ensures AtGoals(t, After(u, Trace(u, c, dark, f, cap)), c, f)
    decreases Room(u, c, cap)
  {
    hide Select, Midway, Chosen, AtGoals, Capped, Room;
    var i, next := TraceUnfolds(u, c, dark, f, cap);
    SelectIsChosen(u, c);
    SelectIsChosen(Bump(u, i), c);
    PickKeepsMidway(t, u, c, f, i);
    MidwayGrown(t, u, c, f, i);
    if next == f {
      TourEnds(t, Bump(u, i), c, f);
      assert After(u, [i]) == Bump(u, i);
    } else {
      TraceReachesGoals(t, Bump(u, i), c, dark, f, cap);
    }
  }

  lemma MidwayGrown(t: Table, u: Table, c: Contest, f: nat, i: nat)
    requires Midway(t, u, c, f) && Competes(u, c, i)
    ensures Competes(t, c, i) && u[i].tsp == t[i].tsp
  {
    GrownContest(t, u, c);
  }

  /** With everybody blacked out an attempt brings everybody to their goal. */
  lemma VisitsReachGoals(t: Table, c: Contest, dark: set<Uuid>)
    requires Select(t, c).Some? && AllDark(t, c, dark)
    ensures AtGoals(t, After(t, Visits(t, c, dark)), c, Select(t, c).value)
  {
    hide Select, Midway, Chosen, AtGoals, Capped, Room, Competitors;
    StartIsCapped(t, c);
    var first, cap := Select(t, c).value, MaxOffers(t, c) + 2;
    var i, next := TraceUnfolds(t, c, dark, first, cap);
    SelectIsChosen(t, c);
    FirstPickIsMidway(t, c, first);
    SelectIsChosen(Bump(t, first), c);
    if next == first {
      TourEnds(t, Bump(t, first), c, first);
      assert After(t, [first]) == Bump(t, first);
    } else {
      TraceReachesGoals(t, Bump(t, first), c, dark, first, cap);
    }
  }

  /** Competitor j is offered the shipment exactly as often as it is due, and nobody else at all. */
  lemma VisitsAreDue(t: Table, c: Contest, dark: set<Uuid>, j: nat)
    requires Select(t, c).Some? && AllDark(t, c, dark) && j < |t|
    ensures multiset(Visits(t, c, dark))[j] == if Competes(t, c, j) then Due(t, c, Select(t, c).value, j) else 0
  {
    hide Select, Goal, Visits, After, Competitors;
    VisitsReachGoals(t, c, dark);
    AfterAt(t, Visits(t, c, dark), j);
  }
}
