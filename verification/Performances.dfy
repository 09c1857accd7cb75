/** The performance table and the choice of the performance that is next in line for a shipment. */
module Performances {
  import opened Wrappers

  /** One row of the table. A row is identified by its position. */
  datatype Performance = Performance(
    tdl: Uuid,
    tsp: Uuid,
    periodStart: Day,
    periodEnd: Day,
    cycleStart: Day,
    cycleEnd: Day,
    qualityBand: Option<int>,
    bestValueScore: real,
    offerCount: nat)

  type Table = seq<Performance>

  /** What a shipment and the provider list fix about who may be offered the shipment. */
  datatype Contest = Contest(tdl: Uuid, bookDate: Day, pickupDate: Day, enrolled: set<Uuid>)

  const BANDS: int := 4

  /** Offers a band receives in one round; every band has the same share during the pilot. */
  function OffersPerQualityBand(band: int): nat
    requires 1 <= band <= BANDS
  {
    1
  }

  predicate Eligible(p: Performance, c: Contest) {
    && p.tdl == c.tdl
    && p.periodStart <= c.bookDate <= p.periodEnd
    && p.cycleStart <= c.pickupDate <= p.cycleEnd
    && p.tsp in c.enrolled
    && p.qualityBand.Some?
    && 1 <= p.qualityBand.value <= BANDS
  }

  predicate Competes(t: Table, c: Contest, i: nat) {
    i < |t| && Eligible(t[i], c)
  }

  function Competitors(t: Table, c: Contest): set<nat> {
    set i: nat | i < |t| && Competes(t, c, i)
  }

  function Band(t: Table, i: nat): int
    requires i < |t| && t[i].qualityBand.Some?
  {
    t[i].qualityBand.value
  }

  /** The query's order inside a band: fewest offers, then best score, then table order. */
  predicate Ahead(t: Table, i: nat, j: nat)
    requires i < |t| && j < |t|
  {
    || t[i].offerCount < t[j].offerCount
    || (t[i].offerCount == t[j].offerCount && Outranks(t, i, j))
  }

  /** The part of that order that offers do not change. */
  predicate Outranks(t: Table, i: nat, j: nat)
    requires i < |t| && j < |t|
  {
    || t[i].bestValueScore > t[j].bestValueScore
    || (t[i].bestValueScore == t[j].bestValueScore && i < j)
  }

  /** The first row of the band-limited query, among the first n rows. */
  function FirstOf(t: Table, c: Contest, band: int, n: nat): (r: Option<nat>)
    requires n <= |t|
    ensures r.Some? ==> r.value < n && Competes(t, c, r.value) && Band(t, r.value) == band
  {
    if n == 0 then None
    else
      var best := FirstOf(t, c, band, n - 1);
      if !Competes(t, c, n - 1) || Band(t, n - 1) != band then best
      else if best.None? || Ahead(t, n - 1, best.value) then Some(n - 1)
      else best
  }

  /** It is ahead of all others in the band; there is none only if the band is empty. */
  lemma {:induction false} FirstOfFacts(t: Table, c: Contest, band: int, n: nat)
    requires n <= |t|
    ensures var r := FirstOf(t, c, band, n);
      && (r.Some? ==> forall j: nat :: j < n && Competes(t, c, j) && Band(t, j) == band && j != r.value ==>
        Ahead(t, r.value, j))
      && (r.None? ==> forall j: nat :: j < n && Competes(t, c, j) ==> Band(t, j) != band)
  {
    if n > 0 {
      FirstOfFacts(t, c, band, n - 1);
    }
  }

  function NextInBand(t: Table, c: Contest, band: int): Option<nat> {
    FirstOf(t, c, band, |t|)
  }

  /** The front runner of every band that has one. */
  function Gathered(t: Table, c: Contest): map<int, nat> {
    map b | 1 <= b <= BANDS && NextInBand(t, c, b).Some? :: NextInBand(t, c, b).value
  }

  /** m maps bands to rows of t. */
  predicate FrontRunners(t: Table, m: map<int, nat>) {
    forall b :: b in m ==> 1 <= b <= BANDS && m[b] < |t|
  }

  function Rounds(offers: nat, band: int): real
    requires 1 <= band <= BANDS
  {
    offers as real / OffersPerQualityBand(band) as real
  }

  function Ceil(x: real): real {
    if x.Floor as real == x then x else (x.Floor + 1) as real
  }

  /** The first band from b on that has had fewer rounds than the band before it. */
  function Lagging(t: Table, m: map<int, nat>, b: int, previous: real): (r: Option<int>)
    requires FrontRunners(t, m) && 1 <= b <= BANDS + 1
    ensures r.Some? ==> r.value in m
    decreases BANDS + 1 - b
  {
    if b > BANDS then None
    else if b !in m then Lagging(t, m, b + 1, previous)
    else if Rounds(t[m[b]].offerCount, b) < previous then Some(b)
    else Lagging(t, m, b + 1, Rounds(t[m[b]].offerCount, b))
  }

  lemma LowestExists(m: map<int, nat>)
    requires (exists b :: b in m) && forall b :: b in m ==> 1 <= b <= BANDS
    ensures exists b :: b in m && forall k :: k in m ==> b <= k
  {
    var b :| b in m && (b == 1 || 1 !in m);
    if b > 1 && 2 in m {
      b := 2;
    } else if b > 1 && 3 in m {
      b := 3;
    }
    assert b in m && forall k :: k in m ==> b <= k;
  }

  function Lowest(m: map<int, nat>): (r: int)
    requires (exists b :: b in m) && forall b :: b in m ==> 1 <= b <= BANDS
    ensures 1 <= r <= BANDS && r in m && forall k :: k in m ==> r <= k
  {
    LowestExists(m);
    var b :| b in m && forall k :: k in m ==> b <= k;
    b
  }

  function SelectNext(t: Table, m: map<int, nat>): (band: int)
    requires FrontRunners(t, m) && exists b :: b in m
    ensures band in m
  {
    var lowest := Lowest(m);
    var lagging := Lagging(t, m, lowest, Ceil(Rounds(t[m[lowest]].offerCount, lowest)));
    if lagging.Some? then lagging.value else lowest
  }

  function Offers(t: Table, m: map<int, nat>, b: int): nat
    requires FrontRunners(t, m) && b in m
  {
    t[m[b]].offerCount
  }

  /** Front runners have had no fewer offers, band after band, between the two bounds. */
  ghost predicate NonDecreasing(t: Table, m: map<int, nat>, from: int, to: int)
    requires FrontRunners(t, m)
  {
    forall x, y :: x in m && y in m && from <= x < y < to ==> Offers(t, m, x) <= Offers(t, m, y)
  }

  /** a and b are neighbours among the bands of m. */
  ghost predicate Adjacent(m: map<int, nat>, a: int, b: int) {
    a in m && b in m && a < b && forall k :: a < k < b ==> k !in m
  }

  ghost predicate FallsBehind(t: Table, m: map<int, nat>, s: int)
    requires FrontRunners(t, m)
  {
    exists a :: Adjacent(m, a, s) && Offers(t, m, s) < Offers(t, m, a)
  }

  lemma {:induction false} LaggingFacts(t: Table, m: map<int, nat>, b: int, a: int)
    requires FrontRunners(t, m) && a in m && a < b <= BANDS + 1
    requires forall k :: a < k < b ==> k !in m
    ensures var r := Lagging(t, m, b, Offers(t, m, a) as real);
            && (r.None? ==> NonDecreasing(t, m, a, BANDS + 1))
            && (r.Some? ==> r.value in m && NonDecreasing(t, m, a, r.value) && FallsBehind(t, m, r.value))
    decreases BANDS + 1 - b
  {
    hide Lagging, Offers;
    LaggingUnfolds(t, m, b, a);
    if b <= BANDS {
      if b !in m {
        LaggingFacts(t, m, b + 1, a);
      } else if Offers(t, m, b) < Offers(t, m, a) {
        assert Adjacent(m, a, b);
      } else {
        LaggingFacts(t, m, b + 1, b);
      }
    }
  }

  /** The walk in terms of offers, since every band has one offer in a round. */
  lemma LaggingUnfolds(t: Table, m: map<int, nat>, b: int, a: int)
    requires FrontRunners(t, m) && a in m && 1 <= b <= BANDS + 1
    ensures Lagging(t, m, b, Offers(t, m, a) as real) ==
            if b > BANDS then None
            else if b !in m then Lagging(t, m, b + 1, Offers(t, m, a) as real)
            else if Offers(t, m, b) < Offers(t, m, a) then Some(b)
            else Lagging(t, m, b + 1, Offers(t, m, b) as real)
  {
    if b in m {
      assert Rounds(Offers(t, m, b), b) == Offers(t, m, b) as real;
    }
  }

  /** The rounds of the lowest band are the rounds it is compared with, so the walk passes it. */
  lemma PassesLowest(t: Table, m: map<int, nat>, lowest: int)
    requires FrontRunners(t, m) && lowest in m
    ensures Lagging(t, m, lowest, Ceil(Rounds(Offers(t, m, lowest), lowest))) ==
            Lagging(t, m, lowest + 1, Offers(t, m, lowest) as real)
  {
    var rounds := Rounds(Offers(t, m, lowest), lowest);
    assert rounds == Offers(t, m, lowest) as real;
    assert Ceil(rounds) == rounds;
  }

  /** The band chosen is the first one whose front runner has had fewer offers than the band before it;
      if there is none, the first band of all. */
  lemma SelectNextFacts(t: Table, m: map<int, nat>)
    requires FrontRunners(t, m) && exists b :: b in m
    ensures var s := SelectNext(t, m);
            && s in m
            && NonDecreasing(t, m, 1, s)
            && (FallsBehind(t, m, s) || (s == Lowest(m) && NonDecreasing(t, m, 1, BANDS + 1)))
  {
    hide Lagging, Ceil, Rounds, Lowest;
    var lowest := Lowest(m);
    PassesLowest(t, m, lowest);
    LaggingFacts(t, m, lowest + 1, lowest);
  }

  /** Whoever is next in line for the contest, if anyone competes at all. */
  function Select(t: Table, c: Contest): (r: Option<nat>)
    ensures r.Some? ==> Competes(t, c, r.value)
    ensures r.None? <==> Competitors(t, c) == {}
  {
    var m := Gathered(t, c);
    GatheredFacts(t, c);
    if m.Keys == {} then None
    else
      assert exists b :: b in m;
      SelectNextFacts(t, m);
      Some(m[SelectNext(t, m)])
  }

  lemma FrontRunnerLeads(t: Table, c: Contest, b: int)
    requires b in Gathered(t, c)
    ensures var i := Gathered(t, c)[b];
      && Competes(t, c, i) && Band(t, i) == b
      && forall j: nat :: j < |t| && Competes(t, c, j) && Band(t, j) == b && j != i ==> Ahead(t, i, j)
  {
    hide FirstOf;
    FirstOfFacts(t, c, b, |t|);
  }

  lemma BandIsGathered(t: Table, c: Contest, j: nat)
    requires Competes(t, c, j)
    ensures Band(t, j) in Gathered(t, c)
  {
    hide FirstOf;
    FirstOfFacts(t, c, Band(t, j), |t|);
  }

  lemma GatheredFacts(t: Table, c: Contest)
    ensures FrontRunners(t, Gathered(t, c))
    ensures forall b :: b in Gathered(t, c) ==>
      var i := Gathered(t, c)[b];
      && Competes(t, c, i) && Band(t, i) == b
      && forall j: nat :: j < |t| && Competes(t, c, j) && Band(t, j) == b && j != i ==> Ahead(t, i, j)
    ensures forall j: nat :: j < |t| && Competes(t, c, j) ==> Band(t, j) in Gathered(t, c)
    ensures Gathered(t, c).Keys == {} <==> Competitors(t, c) == {}
  {
    var m := Gathered(t, c);
    hide FirstOf, NextInBand, Ahead, Band;
    forall b | b in m
      ensures var i := m[b];
        && Competes(t, c, i) && Band(t, i) == b
        && forall j: nat :: j < |t| && Competes(t, c, j) && Band(t, j) == b && j != i ==> Ahead(t, i, j)
    {
      FrontRunnerLeads(t, c, b);
    }
    forall j: nat | j < |t| && Competes(t, c, j) ensures Band(t, j) in m {
      BandIsGathered(t, c, j);
    }
    hide Gathered;
    if Competitors(t, c) != {} {
      var j :| j in Competitors(t, c);
      assert Band(t, j) in m.Keys;
    }
    if m.Keys != {} {
      var b :| b in m.Keys;
      assert m[b] in Competitors(t, c);
    }
  }

  /** One more offer for row i. */
  function Bump(t: Table, i: nat): Table
    requires i < |t|
  {
    t[i := t[i].(offerCount := t[i].offerCount + 1)]
  }
}
