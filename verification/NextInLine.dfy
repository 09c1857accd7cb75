/** Who is next in line, told in the columns of the table: nothing here depends on how the model names the parts
    of the query or of the walk over the bands. */
module NextInLine {
  import opened Wrappers
  import opened Performances
  import opened Turns

  /** The query's condition on a row. */
  predicate Matches(p: Performance, tdl: Uuid, bookDate: Day, pickupDate: Day, enrolled: set<Uuid>) {
    && p.tdl == tdl && p.tsp in enrolled
    && p.periodStart <= bookDate && bookDate <= p.periodEnd
    && p.cycleStart <= pickupDate && pickupDate <= p.cycleEnd
    && (p.qualityBand == Some(1) || p.qualityBand == Some(2) || p.qualityBand == Some(3) || p.qualityBand == Some(4))
  }

  lemma MatchesIffCompetes(t: Table, c: Contest, i: nat)
    requires i < |t|
    ensures Matches(t[i], c.tdl, c.bookDate, c.pickupDate, c.enrolled) <==> Competes(t, c, i)
  {
  }

  /** Somebody is next exactly when some row meets the query, and whoever is next meets it. */
  lemma SomebodyIsNextIff(t: Table, c: Contest)
    ensures Select(t, c).Some? <==>
      exists i: nat :: i < |t| && Matches(t[i], c.tdl, c.bookDate, c.pickupDate, c.enrolled)
    ensures Select(t, c).Some? ==>
      var i := Select(t, c).value; i < |t| && Matches(t[i], c.tdl, c.bookDate, c.pickupDate, c.enrolled)
  {
    var r := Select(t, c);
    hide Select, Matches, Competes;
    if r.Some? {
      NextCompetes(t, c);
      MatchesIffCompetes(t, c, r.value);
    }
    if i: nat :| i < |t| && Matches(t[i], c.tdl, c.bookDate, c.pickupDate, c.enrolled) {
      MatchesIffCompetes(t, c, i);
      assert i in Competitors(t, c);
    }
  }

  lemma NextCompetes(t: Table, c: Contest)
    requires Select(t, c).Some?
    ensures Competes(t, c, Select(t, c).value) && Select(t, c).value < |t|
  {
  }

  /** Of the rows in its band that meet the query, the one that is next has had the fewest offers; of those, the
      best score; of those, it stands first. */
  lemma NextLeadsItsBand(t: Table, c: Contest, i: nat, j: nat)
    requires Select(t, c) == Some(i) && i != j < |t|
    requires Matches(t[j], c.tdl, c.bookDate, c.pickupDate, c.enrolled)
    ensures i < |t| && (t[j].qualityBand == t[i].qualityBand ==>
      || t[i].offerCount < t[j].offerCount
      || (t[i].offerCount == t[j].offerCount && t[i].bestValueScore > t[j].bestValueScore)
      || (t[i].offerCount == t[j].offerCount && t[i].bestValueScore == t[j].bestValueScore && i < j))
  {
    SelectIsChosen(t, c);
    hide Select, Levels, PicksBand;
    MatchesIffCompetes(t, c, j);
  }

  /** Row j meets the query and is in band b. */
  predicate InBand(t: Table, c: Contest, b: int, j: nat) {
    j < |t| && Matches(t[j], c.tdl, c.bookDate, c.pickupDate, c.enrolled) && t[j].qualityBand == Some(b)
  }

  ghost predicate Occupied(t: Table, c: Contest, b: int) {
    exists j: nat :: InBand(t, c, b, j)
  }

  /** Whoever of band b one takes, somebody of band a has had no more offers. */
  ghost predicate NoMore(t: Table, c: Contest, a: int, b: int) {
    forall k: nat :: InBand(t, c, b, k) ==> exists j: nat :: InBand(t, c, a, j) && t[j].offerCount <= t[k].offerCount
  }

  /** Up to band `to` no band falls behind a better one. */
  ghost predicate NoneBehind(t: Table, c: Contest, to: int) {
    forall a, b :: a < b < to && Occupied(t, c, a) ==> NoMore(t, c, a, b)
  }

  /** a is the next better band with a row that meets the query, and everybody in it has had more offers than
      row i. */
  ghost predicate BehindNeighbour(t: Table, c: Contest, a: int, i: nat)
    requires i < |t| && t[i].qualityBand.Some?
  {
    && a < t[i].qualityBand.value && Occupied(t, c, a)
    && (forall b :: a < b < t[i].qualityBand.value ==> !Occupied(t, c, b))
    && (forall j: nat :: InBand(t, c, a, j) ==> t[j].offerCount > t[i].offerCount)
  }

  /** Row i comes first in its band, and its band is the first that falls behind its neighbour, or the best one
      if none does. */
  ghost predicate IsNext(t: Table, c: Contest, i: nat) {
    && i < |t| && Matches(t[i], c.tdl, c.bookDate, c.pickupDate, c.enrolled)
    && var b := t[i].qualityBand.value;
    && (forall j: nat :: j != i && InBand(t, c, b, j) ==>
          || t[i].offerCount < t[j].offerCount
          || (t[i].offerCount == t[j].offerCount && t[i].bestValueScore > t[j].bestValueScore)
          || (t[i].offerCount == t[j].offerCount && t[i].bestValueScore == t[j].bestValueScore && i < j))
    && NoneBehind(t, c, b)
    && ((exists a :: BehindNeighbour(t, c, a, i))
        || ((forall a :: a < b ==> !Occupied(t, c, a)) && NoneBehind(t, c, BANDS + 1)))
  }

  lemma InBandIff(t: Table, c: Contest, b: int, j: nat)
    ensures InBand(t, c, b, j) <==> Competes(t, c, j) && Band(t, j) == b
  {
  }

  lemma OccupiedIff(t: Table, c: Contest, b: int)
    ensures Occupied(t, c, b) <==> b in Levels(t, c)
  {
    LevelsAreLevels(t, c);
    hide Levels, InBand, Competes, Band;
    var l := Levels(t, c);
    if j: nat :| InBand(t, c, b, j) {
      InBandIff(t, c, b, j);
    }
    if b in l {
      var j: nat :| HasLevel(t, c, b, l[b], j);
      InBandIff(t, c, b, j);
    }
  }

  lemma NoMoreIff(t: Table, c: Contest, a: int, b: int)
    requires Occupied(t, c, a) && Occupied(t, c, b)
    ensures a in Levels(t, c) && b in Levels(t, c) && (NoMore(t, c, a, b) <==> Levels(t, c)[a] <= Levels(t, c)[b])
  {
    OccupiedIff(t, c, a);
    OccupiedIff(t, c, b);
    LevelsAreLevels(t, c);
    hide Levels, Matches, Competes, Band, Occupied;
    var l := Levels(t, c);
    var x: nat :| HasLevel(t, c, a, l[a], x);
    var y: nat :| HasLevel(t, c, b, l[b], y);
    InBandIff(t, c, a, x);
    InBandIff(t, c, b, y);
    if l[a] <= l[b] {
      forall k: nat | InBand(t, c, b, k) ensures InBand(t, c, a, x) && t[x].offerCount <= t[k].offerCount {
        InBandIff(t, c, b, k);
      }
    }
    if NoMore(t, c, a, b) {
      var j: nat :| InBand(t, c, a, j) && t[j].offerCount <= t[y].offerCount;
      InBandIff(t, c, a, j);
    }
  }

  lemma NoneBehindIfClimbs(t: Table, c: Contest, to: int)
    requires Climbs(Levels(t, c), to)
    ensures NoneBehind(t, c, to)
  {
    forall a, b | a < b < to && Occupied(t, c, a) ensures NoMore(t, c, a, b) {
      if Occupied(t, c, b) {
        NoMoreIff(t, c, a, b);
      }
    }
  }

  lemma BehindIfDrops(t: Table, c: Contest, i: nat)
    requires Chosen(t, c, i) && Drops(Levels(t, c), Band(t, i))
    ensures exists a :: BehindNeighbour(t, c, a, i)
  {
    ChosenHasLevel(t, c, i);
    LevelsAreLevels(t, c);
    hide Levels;
    var l := Levels(t, c);
    var a :| Adjacent(l, a, Band(t, i)) && l[Band(t, i)] < l[a];
    OccupiedIff(t, c, a);
    forall b | a < b < Band(t, i) ensures !Occupied(t, c, b) {
      OccupiedIff(t, c, b);
    }
    forall j: nat | InBand(t, c, a, j) ensures t[j].offerCount > t[i].offerCount {
      InBandIff(t, c, a, j);
    }
    assert BehindNeighbour(t, c, a, i);
  }

  lemma BestIfNoBandDrops(t: Table, c: Contest, b: int)
    requires IsBest(Levels(t, c), b)
    ensures forall a :: a < b ==> !Occupied(t, c, a)
  {
    hide Levels;
    forall a | a < b ensures !Occupied(t, c, a) {
      OccupiedIff(t, c, a);
    }
  }

  lemma SelectedIsNext(t: Table, c: Contest, i: nat)
    requires Select(t, c) == Some(i)
    ensures IsNext(t, c, i)
  {
    SelectIsChosen(t, c);
    SomebodyIsNextIff(t, c);
    hide Select, Levels, Matches, Occupied, NoMore, Climbs, NoneBehind, Drops, IsBest;
    var b := Band(t, i);
    forall j: nat | j != i && InBand(t, c, b, j)
      ensures t[i].offerCount < t[j].offerCount
        || (t[i].offerCount == t[j].offerCount && t[i].bestValueScore > t[j].bestValueScore)
        || (t[i].offerCount == t[j].offerCount && t[i].bestValueScore == t[j].bestValueScore && i < j)
    {
      NextLeadsItsBand(t, c, i, j);
    }
    NoneBehindIfClimbs(t, c, b);
    if Drops(Levels(t, c), b) {
      BehindIfDrops(t, c, i);
    } else {
      BestIfNoBandDrops(t, c, b);
      NoneBehindIfClimbs(t, c, BANDS + 1);
    }
  }

  /** Two rows can not both be next, in different bands. */
  lemma OneBandIsNext(t: Table, c: Contest, i: nat, k: nat)
    requires IsNext(t, c, i) && IsNext(t, c, k)
    ensures t[i].qualityBand.value >= t[k].qualityBand.value
  {
    var b, d := t[i].qualityBand.value, t[k].qualityBand.value;
    assert InBand(t, c, b, i) && InBand(t, c, d, k);
    assert Occupied(t, c, b);
    if b < d {
      NotBehind(t, c, d, i);
      NotBehind(t, c, BANDS + 1, k);
    }
  }

  lemma NotBehind(t: Table, c: Contest, to: int, i: nat)
    requires NoneBehind(t, c, to) && i < |t| && t[i].qualityBand.Some? && InBand(t, c, t[i].qualityBand.value, i)
    requires t[i].qualityBand.value < to
    ensures forall a :: !BehindNeighbour(t, c, a, i)
  {
    hide Matches;
    forall a | a < t[i].qualityBand.value && Occupied(t, c, a) ensures !BehindNeighbour(t, c, a, i) {
      assert NoMore(t, c, a, t[i].qualityBand.value);
    }
  }

  lemma OnlyOneIsNext(t: Table, c: Contest, i: nat, k: nat)
    requires IsNext(t, c, i) && IsNext(t, c, k)
    ensures i == k
  {
    hide NoneBehind, BehindNeighbour;
    OneBandIsNext(t, c, i, k);
    OneBandIsNext(t, c, k, i);
    var b := t[i].qualityBand.value;
    assert InBand(t, c, b, k) && InBand(t, c, b, i);
  }

  /** Exactly the row that is next by the columns is picked. */
  lemma SelectIffNext(t: Table, c: Contest, i: nat)
    ensures Select(t, c) == Some(i) <==> IsNext(t, c, i)
  {
    hide Select, NoneBehind, BehindNeighbour;
    if Select(t, c) == Some(i) {
      SelectedIsNext(t, c, i);
    }
    if IsNext(t, c, i) {
      SomebodyIsNextIff(t, c);
      SelectedIsNext(t, c, Select(t, c).value);
      OnlyOneIsNext(t, c, i, Select(t, c).value);
    }
  }
}
