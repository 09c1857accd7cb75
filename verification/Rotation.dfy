/** When the offer loop is a fair rotation. */
module Rotation {
  import opened Wrappers
  import opened Performances
  import opened OfferLoop
  import opened Turns

  /** What being next in line says about the counts, without the selection algorithm. */
  ghost predicate Selected(t: Table, c: Contest, s: nat) {
    && Competes(t, c, s)
    && (forall j: nat :: j < |t| && Competes(t, c, j) && Band(t, j) == Band(t, s) && j != s ==> Ahead(t, s, j))
    && (LeadsAll(t, c, s) || exists z: nat :: TrailsBandOf(t, c, s, z))
  }

  ghost predicate LeadsAll(t: Table, c: Contest, s: nat)
    requires Competes(t, c, s)
  {
    forall w: nat :: w < |t| && Competes(t, c, w) ==> Band(t, s) <= Band(t, w) && t[s].offerCount <= t[w].offerCount
  }

  /** The band before that of s is the band of z, and all of it has had more offers than s. */
  ghost predicate TrailsBandOf(t: Table, c: Contest, s: nat, z: nat)
    requires Competes(t, c, s)
  {
    && Competes(t, c, z) && Band(t, z) < Band(t, s)
    && forall w: nat :: w < |t| && Competes(t, c, w) ==>
      && !(Band(t, z) < Band(t, w) < Band(t, s))
      && (Band(t, w) == Band(t, z) ==> t[s].offerCount < t[w].offerCount)
  }

  /** m names, for every band with a competitor, the competitor ahead of all others in the band. */
  ghost predicate Fronts(t: Table, c: Contest, m: map<int, nat>) {
    && FrontRunners(t, m)
    && (forall b :: b in m ==> Competes(t, c, m[b]) && Band(t, m[b]) == b)
    && (forall j: nat :: j < |t| && Competes(t, c, j) ==>
          Band(t, j) in m && (j == m[Band(t, j)] || Ahead(t, m[Band(t, j)], j)))
  }

  lemma FrontTrails(t: Table, c: Contest, m: map<int, nat>, b: int)
    requires Fronts(t, c, m) && FallsBehind(t, m, b)
    ensures b in m && exists z: nat :: TrailsBandOf(t, c, m[b], z)
  {
    var a :| Adjacent(m, a, b) && Offers(t, m, b) < Offers(t, m, a);
    assert TrailsBandOf(t, c, m[b], m[a]);
  }

  lemma FrontLeads(t: Table, c: Contest, m: map<int, nat>, b: int)
    requires Fronts(t, c, m) && b in m && (forall k :: k in m ==> b <= k) && NonDecreasing(t, m, 1, BANDS + 1)
    ensures LeadsAll(t, c, m[b])
  {
    forall w: nat | w < |t| && Competes(t, c, w)
      ensures b <= Band(t, w) && t[m[b]].offerCount <= t[w].offerCount
    {
      assert b == Band(t, w) || Offers(t, m, b) <= Offers(t, m, Band(t, w));
    }
  }

  lemma SelectIsSelected(t: Table, c: Contest)
    requires Select(t, c).Some?
    ensures Selected(t, c, Select(t, c).value)
  {
    var m := Gathered(t, c);
    GatheredFacts(t, c);
    assert Fronts(t, c, m);
    SelectNextFacts(t, m);
    var b := SelectNext(t, m);
    if FallsBehind(t, m, b) {
      FrontTrails(t, c, m, b);
    } else {
      FrontLeads(t, c, m, b);
    }
  }

  /** The fixed order of competitors: better band first, then the order inside the band. */
  predicate Before(t: Table, i: nat, j: nat)
    requires i < |t| && j < |t| && t[i].qualityBand.Some? && t[j].qualityBand.Some?
  {
    Band(t, i) < Band(t, j) || (Band(t, i) == Band(t, j) && Outranks(t, i, j))
  }

  /** Offer counts form a staircase of at most one step: along the fixed order, nobody is behind a
      later competitor, and nobody is more than one offer ahead of one. */
  ghost predicate Staircase(t: Table, c: Contest) {
    forall i: nat, j: nat :: i < |t| && j < |t| && Competes(t, c, i) && Competes(t, c, j) && Before(t, i, j) ==>
      t[j].offerCount <= t[i].offerCount <= t[j].offerCount + 1
  }

  /** s is the first competitor, in the fixed order, among those with the fewest offers. */
  ghost predicate LeastFirst(t: Table, c: Contest, s: nat) {
    && Competes(t, c, s)
    && forall j: nat :: j < |t| && Competes(t, c, j) && j != s ==>
      t[s].offerCount < t[j].offerCount || (t[s].offerCount == t[j].offerCount && Before(t, s, j))
  }

  lemma SelectOnStairs(t: Table, c: Contest)
    requires Staircase(t, c) && Select(t, c).Some?
    ensures LeastFirst(t, c, Select(t, c).value)
  {
    hide Select;
    SelectIsSelected(t, c);
    SelectedOnStairs(t, c, Select(t, c).value);
  }

  lemma SelectedOnStairs(t: Table, c: Contest, s: nat)
    requires Staircase(t, c) && Selected(t, c, s)
    ensures LeastFirst(t, c, s)
  {
    if !LeadsAll(t, c, s) {
      var z :| TrailsBandOf(t, c, s, z);
      forall j: nat | j < |t| && Competes(t, c, j) && Band(t, j) != Band(t, s)
        ensures t[s].offerCount < t[j].offerCount || (t[s].offerCount == t[j].offerCount && Before(t, s, j))
      {
        if Band(t, j) < Band(t, z) {
          assert Before(t, j, z);
        } else if Band(t, j) > Band(t, s) {
          assert Before(t, z, j) && Before(t, s, j);
        }
      }
    }
  }

  lemma StairsSurvive(t: Table, c: Contest, s: nat)
    requires Staircase(t, c) && LeastFirst(t, c, s)
    ensures Staircase(Bump(t, s), c)
  {
    var t' := Bump(t, s);
    forall i: nat, j: nat | i < |t| && j < |t| && Competes(t', c, i) && Competes(t', c, j) && Before(t', i, j)
      ensures t'[j].offerCount <= t'[i].offerCount <= t'[j].offerCount + 1
    {
      assert Competes(t, c, i) && Competes(t, c, j) && Before(t, i, j);
    }
  }

  ghost predicate Distinct(picks: seq<nat>) {
    forall x, y :: 0 <= x < y < |picks| ==> picks[x] != picks[y]
  }

  lemma {:induction false} CountInDistinct(picks: seq<nat>, j: nat)
    requires Distinct(picks)
    ensures multiset(picks)[j] == if j in picks then 1 else 0
  {
    if picks != [] {
      var rest := picks[..|picks| - 1];
      assert picks == rest + [picks[|picks| - 1]];
      CountInDistinct(rest, j);
    }
  }

  /** A shorter list of blackouts only makes the loop stop earlier. */
  lemma {:induction false} TracePrefix(t: Table, c: Contest, dark: set<Uuid>, more: set<Uuid>, first: nat, cap: nat)
    requires Capped(t, c, first, cap) && dark <= more
    ensures Trace(t, c, dark, first, cap) <= Trace(t, c, more, first, cap)
    ensures var p := Trace(t, c, dark, first, cap);
      t[p[|p| - 1]].tsp in dark ==> p == Trace(t, c, more, first, cap)
    decreases Room(t, c, cap)
  {
    hide Select;
    var i, next := TraceUnfolds(t, c, dark, first, cap);
    var _, _ := TraceUnfolds(t, c, more, first, cap);
    if t[i].tsp in dark && next != first {
      TracePrefix(Bump(t, i), c, dark, more, first, cap);
    }
  }

  lemma RunThatGaveUpSawOnlyBlackouts(t: Table, c: Contest, dark: set<Uuid>, first: nat, picks: seq<nat>, k: nat)
    requires IsRun(t, c, dark, first, picks)
    requires t[picks[|picks| - 1]].tsp in dark && k < |picks|
    ensures t[picks[k]].tsp in dark
  {
    hide Select;
    if k + 1 < |picks| {
      assert GoesOn(t, dark, first, picks, k);
    }
  }

  function AllTsps(t: Table): set<Uuid> {
    set i: nat | i < |t| :: t[i].tsp
  }

  /** The attempt that finds everybody blacked out. */
  ghost function Tour(t: Table, c: Contest): seq<nat>
    requires Competitors(t, c) != {}
  {
    Visits(t, c, AllTsps(t))
  }

  /** The competitor the attempt begins with. */
  ghost function First(t: Table, c: Contest): (f: nat)
    requires Competitors(t, c) != {}
    ensures Competes(t, c, f)
  {
    Select(t, c).value
  }

  ghost function DueOf(t: Table, c: Contest, j: nat): nat
    requires Competes(t, c, j)
  {
    assert j in Competitors(t, c);
    Due(t, c, First(t, c), j)
  }

  /** Every attempt is a beginning of the tour, and all of it unless it finds a free provider. */
  lemma VisitsBeginTheTour(t: Table, c: Contest, dark: set<Uuid>)
    requires Competitors(t, c) != {}
    ensures var picks := Visits(t, c, dark);
      picks <= Tour(t, c) && (t[picks[|picks| - 1]].tsp in dark ==> picks == Tour(t, c))
  {
    hide Select;
    var more := dark + AllTsps(t);
    StartIsCapped(t, c);
    TracePrefix(t, c, dark, more, Select(t, c).value, MaxOffers(t, c) + 2);
    TracePrefix(t, c, AllTsps(t), more, Select(t, c).value, MaxOffers(t, c) + 2);
  }

  lemma TourIsDue(t: Table, c: Contest)
    requires Competitors(t, c) != {}
    ensures forall j: nat :: Competes(t, c, j) ==> multiset(Tour(t, c))[j] == DueOf(t, c, j)
    ensures forall j: nat :: j in Tour(t, c) <==> Competes(t, c, j) && DueOf(t, c, j) > 0
  {
    hide Select, Due, Visits;
    forall j: nat | j < |t|
      ensures multiset(Tour(t, c))[j] == if Competes(t, c, j) then DueOf(t, c, j) else 0
    {
      VisitsAreDue(t, c, AllTsps(t), j);
    }
    var tour: seq<nat> := Tour(t, c);
    var turns: multiset<nat> := multiset(tour);
    assert forall j: nat :: j in tour <==> turns[j] > 0;
    assert forall j: nat :: j in tour ==> j < |t|;
  }

  /** The attempt ends with a provider that is not blacked out. */
  ghost predicate EndsFree(t: Table, c: Contest, dark: set<Uuid>)
    requires Competitors(t, c) != {}
  {
    var picks := Visits(t, c, dark); t[picks[|picks| - 1]].tsp !in dark
  }

  ghost predicate SomeoneFree(t: Table, c: Contest, dark: set<Uuid>) {
    exists j: nat :: Competes(t, c, j) && t[j].tsp !in dark
  }

  /** For any blackouts, the attempt ends with a free provider exactly if one of those that are due is free. */
  lemma EndsFreeIff(t: Table, c: Contest, dark: set<Uuid>)
    requires Competitors(t, c) != {}
    ensures EndsFree(t, c, dark) <==>
      exists j: nat :: Competes(t, c, j) && t[j].tsp !in dark && DueOf(t, c, j) > 0
  {
    hide Select, DueOf, Visits, Tour;
    var picks, tour := Visits(t, c, dark), Tour(t, c);
    VisitsBeginTheTour(t, c, dark);
    TourIsDue(t, c);
    if EndsFree(t, c, dark) {
      var j := picks[|picks| - 1];
      assert tour[|picks| - 1] == j;
      assert j in tour;
    } else {
      forall j: nat | Competes(t, c, j) && DueOf(t, c, j) > 0 ensures t[j].tsp in dark {
        assert j in picks;
        var k: nat :| k < |picks| && picks[k] == j;
        VisitsThatGaveUp(t, c, dark, k);
      }
    }
  }

  lemma VisitsThatGaveUp(t: Table, c: Contest, dark: set<Uuid>, k: nat)
    requires Competitors(t, c) != {} && !EndsFree(t, c, dark) && k < |Visits(t, c, dark)|
    ensures t[Visits(t, c, dark)[k]].tsp in dark
  {
    hide Select;
    StartIsCapped(t, c);
    TraceIsARun(t, c, dark, Select(t, c).value, MaxOffers(t, c) + 2);
    RunThatGaveUpSawOnlyBlackouts(t, c, dark, Select(t, c).value, Visits(t, c, dark), k);
  }

  /** Whatever the blackouts, a free provider is found if there is one. */
  ghost predicate AlwaysEndsFree(t: Table, c: Contest)
    requires Competitors(t, c) != {}
  {
    forall dark: set<Uuid> :: EndsFree(t, c, dark) <==> SomeoneFree(t, c, dark)
  }

  ghost predicate ProviderIsDue(t: Table, c: Contest, j: nat)
    requires Competes(t, c, j)
  {
    exists k: nat :: Competes(t, c, k) && t[k].tsp == t[j].tsp && DueOf(t, c, k) > 0
  }

  lemma ProviderMustBeDue(t: Table, c: Contest, j: nat)
    requires Competitors(t, c) != {} && AlwaysEndsFree(t, c) && Competes(t, c, j)
    ensures ProviderIsDue(t, c, j)
  {
    hide Select, DueOf, Visits, EndsFree;
    var dark := AllTsps(t) - {t[j].tsp};
    assert SomeoneFree(t, c, dark);
    assert EndsFree(t, c, dark);
    EndsFreeIff(t, c, dark);
    var k: nat :| Competes(t, c, k) && t[k].tsp !in dark && DueOf(t, c, k) > 0;
    assert t[k].tsp in AllTsps(t);
  }

  lemma DueProvidersAreFound(t: Table, c: Contest, dark: set<Uuid>)
    requires Competitors(t, c) != {} && forall j: nat :: Competes(t, c, j) ==> ProviderIsDue(t, c, j)
    ensures EndsFree(t, c, dark) <==> SomeoneFree(t, c, dark)
  {
    hide Select, DueOf, Visits, EndsFree, Competitors;
    EndsFreeIff(t, c, dark);
    if j: nat :| Competes(t, c, j) && t[j].tsp !in dark {
      assert ProviderIsDue(t, c, j);
    }
  }

  /** That holds exactly if every provider is due with one of its performances. */
  lemma AlwaysEndsFreeIffDue(t: Table, c: Contest)
    requires Competitors(t, c) != {}
    ensures AlwaysEndsFree(t, c) <==> forall j: nat :: Competes(t, c, j) ==> ProviderIsDue(t, c, j)
  {
    hide Select, DueOf, Visits, EndsFree, SomeoneFree, ProviderIsDue;
    if AlwaysEndsFree(t, c) {
      forall j: nat | Competes(t, c, j) ensures ProviderIsDue(t, c, j) {
        ProviderMustBeDue(t, c, j);
      }
    }
    if forall j: nat :: Competes(t, c, j) ==> ProviderIsDue(t, c, j) {
      forall dark: set<Uuid> ensures EndsFree(t, c, dark) <==> SomeoneFree(t, c, dark) {
        DueProvidersAreFound(t, c, dark);
      }
    }
  }

  /** Nobody after the first pick, in the fixed order, has had more offers than it, and nobody before it has
      had more than one offer more. */
  ghost predicate NobodyFarAhead(t: Table, c: Contest)
    requires Competitors(t, c) != {}
  {
    var f := First(t, c);
    forall j: nat :: Competes(t, c, j) && j != f ==>
      t[j].offerCount <= t[f].offerCount + if Before(t, j, f) then 1 else 0
  }

  lemma FirstIsChosen(t: Table, c: Contest)
    requires Competitors(t, c) != {}
    ensures Chosen(t, c, First(t, c))
  {
    hide Select;
    SelectIsChosen(t, c);
  }

  lemma NotStuck(t: Table, c: Contest, f: nat)
    requires Competes(t, c, f)
    requires forall j: nat :: Competes(t, c, j) && Band(t, j) < Band(t, f) ==> t[j].offerCount <= t[f].offerCount + 1
    ensures !Stuck(Levels(t, c), Band(t, f), t[f].offerCount)
  {
    LevelsAreLevels(t, c);
    hide Levels;
    var l := Levels(t, c);
    forall a | Adjacent(l, a, Band(t, f)) ensures l[a] <= t[f].offerCount + 1 {
      var j: nat :| HasLevel(t, c, a, l[a], j);
    }
  }

  /** Who is due at all. */
  lemma DueIff(t: Table, c: Contest, j: nat)
    requires Competitors(t, c) != {} && Competes(t, c, j)
    ensures var f, l, x := First(t, c), Levels(t, c), t[j].offerCount;
      var s, m := Band(t, f), t[f].offerCount;
      DueOf(t, c, j) > 0 <==>
        if Band(t, j) == s then x == m || (x == m + 1 && Outranks(t, j, f))
        else !Stuck(l, s, m) && x < if Band(t, j) < s then m + 2 else Ceiling(l, s, m + 1, Band(t, j))
  {
    hide Levels, Select, Stuck, Ceiling;
  }

  lemma FirstLeads(t: Table, c: Contest, j: nat)
    requires Competitors(t, c) != {} && Competes(t, c, j) && j != First(t, c) && Band(t, j) == Band(t, First(t, c))
    ensures Ahead(t, First(t, c), j)
  {
    hide Select, Levels, PicksBand;
    FirstIsChosen(t, c);
  }

  lemma FirstIsNotStuck(t: Table, c: Contest)
    requires Competitors(t, c) != {} && NobodyFarAhead(t, c)
    ensures var f := First(t, c); !Stuck(Levels(t, c), Band(t, f), t[f].offerCount)
  {
    hide Levels, Select, Stuck, First;
    NotStuck(t, c, First(t, c));
  }

  lemma DueIfNotAhead(t: Table, c: Contest, j: nat)
    requires Competitors(t, c) != {} && Competes(t, c, j) && NobodyFarAhead(t, c)
    ensures DueOf(t, c, j) > 0
  {
    hide Levels, Select, Stuck, Ceiling, DueOf, First;
    var f := First(t, c);
    FirstIsNotStuck(t, c);
    DueIff(t, c, j);
    var l, s, m := Levels(t, c), Band(t, f), t[f].offerCount;
    if Band(t, j) > s {
      CeilingIsLeast(l, s, m + 1, Band(t, j), Ceiling(l, s, m + 1, Band(t, j)));
    } else if Band(t, j) == s && j != f {
      FirstLeads(t, c, j);
    }
  }

  ghost predicate BelowCeilings(l: map<int, nat>, s: int, start: nat) {
    forall z :: z in l && s < z ==> l[z] < Ceiling(l, s, start, z)
  }

  lemma {:induction false} CeilingStays(l: map<int, nat>, s: int, start: nat, b: int)
    requires s < b && BelowCeilings(l, s, start)
    ensures Ceiling(l, s, start, b) == start
    decreases b - s
  {
    if b > s + 1 {
      CeilingStays(l, s, start, b - 1);
    }
  }

  lemma LevelsBelowCeilings(t: Table, c: Contest)
    requires Competitors(t, c) != {} && forall j: nat :: Competes(t, c, j) ==> DueOf(t, c, j) > 0
    ensures var f := First(t, c); BelowCeilings(Levels(t, c), Band(t, f), t[f].offerCount + 1)
  {
    LevelsAreLevels(t, c);
    hide Levels, Select, Stuck, Ceiling, First, DueOf;
    var f, l := First(t, c), Levels(t, c);
    var s, m := Band(t, f), t[f].offerCount;
    forall z | z in l && s < z ensures l[z] < Ceiling(l, s, m + 1, z) {
      var w: nat :| HasLevel(t, c, z, l[z], w);
      DueIff(t, c, w);
    }
  }

  lemma DueIsNotAhead(t: Table, c: Contest, j: nat)
    requires Competitors(t, c) != {} && Competes(t, c, j) && j != First(t, c) && DueOf(t, c, j) > 0
    requires var f := First(t, c); BelowCeilings(Levels(t, c), Band(t, f), t[f].offerCount + 1)
    ensures t[j].offerCount <= t[First(t, c)].offerCount + if Before(t, j, First(t, c)) then 1 else 0
  {
    hide Levels, Select, Stuck, Ceiling, First, DueOf, BelowCeilings, Competitors, Outranks;
    DueIff(t, c, j);
    var f := First(t, c);
    if Band(t, j) > Band(t, f) {
      CeilingStays(Levels(t, c), Band(t, f), t[f].offerCount + 1, Band(t, j));
    }
  }

  lemma NotAheadIfDue(t: Table, c: Contest)
    requires Competitors(t, c) != {} && forall j: nat :: Competes(t, c, j) ==> DueOf(t, c, j) > 0
    ensures NobodyFarAhead(t, c)
  {
    LevelsBelowCeilings(t, c);
    hide Levels, Select, BelowCeilings, First, DueOf, Before;
    forall j: nat | Competes(t, c, j) && j != First(t, c)
      ensures t[j].offerCount <= t[First(t, c)].offerCount + if Before(t, j, First(t, c)) then 1 else 0
    {
      DueIsNotAhead(t, c, j);
    }
  }

  /** A provider that competes with one performance only. */
  ghost predicate DistinctProviders(t: Table, c: Contest) {
    forall i: nat, j: nat :: Competes(t, c, i) && Competes(t, c, j) && i != j ==> t[i].tsp != t[j].tsp
  }

  /** The loop is meant to find a provider without a blackout whenever there is one. It does so, whatever the
      blackouts, if and only if nobody is far ahead of the first pick when it begins. */
  lemma AlwaysEndsFreeIff(t: Table, c: Contest)
    requires Competitors(t, c) != {} && DistinctProviders(t, c)
    ensures AlwaysEndsFree(t, c) <==> NobodyFarAhead(t, c)
  {
    hide Select, DueOf, NobodyFarAhead, AlwaysEndsFree;
    AlwaysEndsFreeIffDue(t, c);
    if NobodyFarAhead(t, c) {
      forall j: nat | Competes(t, c, j) ensures ProviderIsDue(t, c, j) {
        DueIfNotAhead(t, c, j);
      }
    }
    if forall j: nat :: Competes(t, c, j) ==> ProviderIsDue(t, c, j) {
      forall j: nat | Competes(t, c, j) ensures DueOf(t, c, j) > 0 {
        assert ProviderIsDue(t, c, j);
      }
      NotAheadIfDue(t, c);
    }
  }

  /** Either the loop stays in the band it begins with, or nobody in a better band has as few offers as the
      first pick, and nobody in a worse band has fewer offers than the first pick, or two fewer than all of
      a band in between. */
  ghost predicate NobodyFarBehind(t: Table, c: Contest)
    requires Competitors(t, c) != {}
  {
    var f, l := First(t, c), Levels(t, c);
    var s, m := Band(t, f), t[f].offerCount;
    Stuck(l, s, m) ||
    forall j: nat :: Competes(t, c, j) ==>
      && (Band(t, j) < s ==> m < t[j].offerCount)
      && (s < Band(t, j) ==>
            && m <= t[j].offerCount
            && forall z :: z in l && s < z < Band(t, j) ==> l[z] <= t[j].offerCount + 1)
  }

  lemma DueAtMostOnce(t: Table, c: Contest, j: nat)
    requires Competitors(t, c) != {} && Competes(t, c, j)
    ensures var f, l, x := First(t, c), Levels(t, c), t[j].offerCount;
      var s, m := Band(t, f), t[f].offerCount;
      DueOf(t, c, j) <= 1 <==>
        || Stuck(l, s, m)
        || ((Band(t, j) < s ==> m < x)
            && (s < Band(t, j) ==> m <= x && forall z :: z in l && s < z < Band(t, j) ==> l[z] <= x + 1))
  {
    hide Levels, Select, Stuck, Ceiling;
    var f, l, x := First(t, c), Levels(t, c), t[j].offerCount;
    var s, m := Band(t, f), t[f].offerCount;
    assert DueOf(t, c, j) <= 1 <==> Goal(t, c, f, j) <= x + 1;
    if s < Band(t, j) {
      CeilingIsLeast(l, s, m + 1, Band(t, j), x + 1);
    }
  }

  lemma DueOnceIff(t: Table, c: Contest)
    requires Competitors(t, c) != {}
    ensures (forall j: nat :: Competes(t, c, j) ==> DueOf(t, c, j) <= 1) <==> NobodyFarBehind(t, c)
  {
    forall j: nat | Competes(t, c, j)
      ensures var f, l, x := First(t, c), Levels(t, c), t[j].offerCount;
        var s, m := Band(t, f), t[f].offerCount;
        DueOf(t, c, j) <= 1 <==>
          || Stuck(l, s, m)
          || ((Band(t, j) < s ==> m < x)
              && (s < Band(t, j) ==> m <= x && forall z :: z in l && s < z < Band(t, j) ==> l[z] <= x + 1))
    {
      DueAtMostOnce(t, c, j);
    }
    hide Levels, Select, Stuck, DueOf, First;
  }

  /** Nobody is meant to be offered the same shipment twice. Nobody is, whatever the blackouts, if and only if
      nobody is far behind the first pick when the attempt begins. */
  lemma NobodyTwiceIff(t: Table, c: Contest)
    requires Competitors(t, c) != {}
    ensures (forall dark: set<Uuid> :: Distinct(Visits(t, c, dark))) <==> NobodyFarBehind(t, c)
  {
    hide Select, DueOf, Visits, NobodyFarBehind, Distinct;
    DueOnceIff(t, c);
    TourIsDue(t, c);
    DistinctIff(Tour(t, c));
    if Distinct(Tour(t, c)) {
      forall dark: set<Uuid> ensures Distinct(Visits(t, c, dark)) {
        VisitsBeginTheTour(t, c, dark);
        DistinctPrefix(Visits(t, c, dark), Tour(t, c));
      }
    }
  }

  lemma DistinctPrefix(p: seq<nat>, q: seq<nat>)
    requires p <= q && Distinct(q)
    ensures Distinct(p)
  {
  }

  lemma DistinctIff(picks: seq<nat>)
    ensures Distinct(picks) <==> forall j: nat :: multiset(picks)[j] <= 1
  {
    if Distinct(picks) {
      forall j: nat ensures multiset(picks)[j] <= 1 {
        CountInDistinct(picks, j);
      }
    } else {
      var x, y :| 0 <= x < y < |picks| && picks[x] == picks[y];
      assert picks == picks[..y] + picks[y..];
      assert multiset(picks) == multiset(picks[..y]) + multiset(picks[y..]);
      assert picks[..y][x] == picks[x] && picks[y..][0] == picks[y];
      assert multiset(picks)[picks[x]] >= 2;
    }
  }

  /** The staircase is both conditions together. */
  lemma StairsIff(t: Table, c: Contest)
    requires Competitors(t, c) != {}
    ensures Staircase(t, c) <==> NobodyFarAhead(t, c) && NobodyFarBehind(t, c)
  {
    hide Select;
    if Staircase(t, c) {
      StairsAreEven(t, c);
    }
    if NobodyFarAhead(t, c) && NobodyFarBehind(t, c) {
      EvenMakesStairs(t, c);
    }
  }

  lemma StairsAreEven(t: Table, c: Contest)
    requires Competitors(t, c) != {} && Staircase(t, c)
    ensures NobodyFarAhead(t, c) && NobodyFarBehind(t, c)
  {
    SelectOnStairs(t, c);
    hide Select, Levels, Stuck;
    var f, l := First(t, c), Levels(t, c);
    forall j: nat | Competes(t, c, j) && Band(t, f) < Band(t, j)
      ensures forall z :: z in l && Band(t, f) < z < Band(t, j) ==> l[z] <= t[j].offerCount + 1
    {
      assert Before(t, f, j) && t[f].offerCount <= t[j].offerCount;
      LevelsOnStairs(t, c, f);
    }
  }

  lemma LevelsOnStairs(t: Table, c: Contest, f: nat)
    requires Staircase(t, c) && Competes(t, c, f)
    ensures forall z :: z in Levels(t, c) && Band(t, f) < z ==> Levels(t, c)[z] <= t[f].offerCount
  {
    LevelsAreLevels(t, c);
    hide Levels;
    var l := Levels(t, c);
    forall z | z in l && Band(t, f) < z ensures l[z] <= t[f].offerCount {
      var w: nat :| HasLevel(t, c, z, l[z], w);
      assert Before(t, f, w);
    }
  }

  lemma EvenMakesStairs(t: Table, c: Contest)
    requires Competitors(t, c) != {} && NobodyFarAhead(t, c) && NobodyFarBehind(t, c)
    ensures Staircase(t, c)
  {
    var f := First(t, c);
    FirstIsChosen(t, c);
    NotStuck(t, c, f);
    hide Select, Levels, Stuck, PicksBand;
    forall j: nat | Competes(t, c, j)
      ensures t[j].offerCount == t[f].offerCount + if j != f && Before(t, j, f) then 1 else 0
    {
      assert j == f || Band(t, j) != Band(t, f) || Ahead(t, f, j);
    }
    hide NobodyFarAhead, NobodyFarBehind, LeadsBand, Chosen;
  }

  /** With everybody blacked out, the loop offers to every competitor exactly once before it gives up, if and
      only if the offer counts it begins with form a staircase. */
  lemma OneTurnEachIffStairs(t: Table, c: Contest, dark: set<Uuid>)
    requires Competitors(t, c) != {} && AllDark(t, c, dark)
    ensures multiset(Visits(t, c, dark)) == multiset(Competitors(t, c)) <==> Staircase(t, c)
  {
    hide Select, Due, Visits, NobodyFarAhead, NobodyFarBehind, Staircase;
    var picks, all := multiset(Visits(t, c, dark)), multiset(Competitors(t, c));
    forall j: nat ensures picks[j] == if Competes(t, c, j) then DueOf(t, c, j) else 0 {
      if j < |t| {
        VisitsAreDue(t, c, dark, j);
      } else {
        assert j !in Visits(t, c, dark);
      }
    }
    assert picks == all <==> forall j: nat :: Competes(t, c, j) ==> DueOf(t, c, j) == 1 by {
      if forall j: nat :: Competes(t, c, j) ==> DueOf(t, c, j) == 1 {
        assert forall j: nat :: picks[j] == all[j];
      }
      if picks == all {
        forall j: nat | Competes(t, c, j) ensures DueOf(t, c, j) == 1 {
          assert all[j] == 1;
        }
      }
    }
    hide DueOf;
    StairsIff(t, c);
    DueOnceIff(t, c);
    if NobodyFarAhead(t, c) {
      forall j: nat | Competes(t, c, j) ensures DueOf(t, c, j) > 0 {
        DueIfNotAhead(t, c, j);
      }
    }
    if forall j: nat :: Competes(t, c, j) ==> DueOf(t, c, j) == 1 {
      NotAheadIfDue(t, c);
    }
  }

  /** On a staircase only competitors are offered the shipment, and nobody twice. */
  lemma StairsOfferOnce(t: Table, c: Contest, dark: set<Uuid>)
    requires Competitors(t, c) != {} && Staircase(t, c)
    ensures forall k: nat :: k < |Visits(t, c, dark)| ==> Competes(t, c, Visits(t, c, dark)[k])
    ensures Distinct(Visits(t, c, dark))
  {
    hide Select, Visits, DueOf, NobodyFarAhead, NobodyFarBehind, Staircase, Distinct;
    StairsIff(t, c);
    NobodyTwiceIff(t, c);
    VisitsBeginTheTour(t, c, dark);
    TourIsDue(t, c);
    var picks := Visits(t, c, dark);
    forall k: nat | k < |picks| ensures Competes(t, c, picks[k]) {
      assert Tour(t, c)[k] == picks[k];
      assert picks[k] in Tour(t, c);
    }
  }

  /** On a staircase the loop ends with a provider that is not blacked out whenever there is one. */
  lemma StairsFindTheFree(t: Table, c: Contest, dark: set<Uuid>)
    requires Competitors(t, c) != {} && Staircase(t, c)
    ensures EndsFree(t, c, dark) <==> SomeoneFree(t, c, dark)
  {
    hide Select, Visits, DueOf, NobodyFarAhead, NobodyFarBehind, Staircase, EndsFree;
    StairsIff(t, c);
    EndsFreeIff(t, c, dark);
    if j: nat :| Competes(t, c, j) && t[j].tsp !in dark {
      DueIfNotAhead(t, c, j);
    }
  }

  /** Attempts keep the staircase, so offers stay balanced from one shipment to the next. */
  lemma {:induction false} TraceKeepsStairs(t: Table, c: Contest, dark: set<Uuid>, first: nat, cap: nat)
    requires Capped(t, c, first, cap) && Staircase(t, c)
    ensures Staircase(After(t, Trace(t, c, dark, first, cap)), c)
    decreases Room(t, c, cap)
  {
    hide Select;
    var i, next := TraceUnfolds(t, c, dark, first, cap);
    SelectOnStairs(t, c);
    StairsSurvive(t, c, i);
    if t[i].tsp in dark && next != first {
      TraceKeepsStairs(Bump(t, i), c, dark, first, cap);
    } else {
      assert After(t, [i]) == Bump(t, i);
    }
  }

  /** Three providers, one per band, with the given offer counts. */
  function OnePerBand(x: nat, y: nat, z: nat): Table {
    [Row(1, x), Row(2, y), Row(3, z)]
  }

  function Row(n: nat, offers: nat): Performance {
    Performance(0, n, 0, 0, 0, 0, Some(n), 1.0, offers)
  }

  const EVERYBODY := Contest(0, 0, 0, {1, 2, 3})

  lemma SelectOnePerBand(x: nat, y: nat, z: nat)
    ensures Select(OnePerBand(x, y, z), EVERYBODY) == Some(if y < x then 1 else if z < y then 2 else 0)
  {
    var t, c := OnePerBand(x, y, z), EVERYBODY;
    assert Competes(t, c, 0) && Competes(t, c, 1) && Competes(t, c, 2);
    var m := Gathered(t, c);
    GatheredFacts(t, c);
    assert m[1] == 0 && m[2] == 1 && m[3] == 2 && 4 !in m;
    assert Lowest(m) == 1;
    SelectNextFacts(t, m);
    var s := SelectNext(t, m);
    assert s in m && 1 <= s <= 3;
    assert Offers(t, m, 1) == x && Offers(t, m, 2) == y && Offers(t, m, 3) == z;
  }

  /** Off the staircase a provider can be offered the same shipment twice. */
  lemma SecondOfferExample()
    ensures Select(OnePerBand(2, 1, 0), EVERYBODY) == Some(1)
    ensures Visits(OnePerBand(2, 1, 0), EVERYBODY, {1, 2, 3}) == [1, 2, 2, 0]
  {
    hide Select;
    SelectOnePerBand(2, 1, 0);
    var t, c, dark := OnePerBand(2, 1, 0), EVERYBODY, {1, 2, 3};
    ExampleTail(c, dark);
    ExampleBumps();
    RunCons(t, c, dark, 1, 1, [2, 2, 0]);
    assert [1] + [2, 2, 0] == [1, 2, 2, 0];
    StartIsCapped(t, c);
    TraceIsARun(t, c, dark, 1, MaxOffers(t, c) + 2);
    RunIsUnique(t, c, dark, 1, Visits(t, c, dark), [1, 2, 2, 0]);
  }

  lemma ExampleBumps()
    ensures Bump(OnePerBand(2, 1, 0), 1) == OnePerBand(2, 2, 0)
    ensures Bump(OnePerBand(2, 2, 0), 2) == OnePerBand(2, 2, 1)
    ensures Bump(OnePerBand(2, 2, 1), 2) == OnePerBand(2, 2, 2)
    ensures Bump(OnePerBand(2, 2, 2), 0) == OnePerBand(3, 2, 2)
  {
  }

  lemma ExampleTail(c: Contest, dark: set<Uuid>)
    requires c == EVERYBODY && dark == {1, 2, 3}
    ensures IsRun(OnePerBand(2, 2, 0), c, dark, 1, [2, 2, 0])
  {
    hide Select;
    SelectOnePerBand(2, 2, 0);
    SelectOnePerBand(2, 2, 1);
    SelectOnePerBand(2, 2, 2);
    SelectOnePerBand(3, 2, 2);
    ExampleBumps();
    OneStepRun(OnePerBand(2, 2, 2), c, dark, 1, 0);
    RunCons(OnePerBand(2, 2, 1), c, dark, 1, 2, [0]);
    assert [2] + [0] == [2, 0] && [2] + [2, 0] == [2, 2, 0];
    RunCons(OnePerBand(2, 2, 0), c, dark, 1, 2, [2, 0]);
  }

  /** Off the staircase the loop can give up although a competitor is free. */
  lemma FreeProviderMissedExample()
    ensures Select(OnePerBand(0, 5, 5), EVERYBODY) == Some(0)
    ensures Visits(OnePerBand(0, 5, 5), EVERYBODY, {1}) == [0]
    ensures Competes(OnePerBand(0, 5, 5), EVERYBODY, 1) && OnePerBand(0, 5, 5)[1].tsp !in {1}
  {
    hide Select;
    var t, c := OnePerBand(0, 5, 5), EVERYBODY;
    SelectOnePerBand(0, 5, 5);
    SelectOnePerBand(1, 5, 5);
    assert Bump(t, 0) == OnePerBand(1, 5, 5);
    OneStepRun(t, c, {1}, 0, 0);
    StartIsCapped(t, c);
    TraceIsARun(t, c, {1}, 0, MaxOffers(t, c) + 2);
    RunIsUnique(t, c, {1}, 0, Visits(t, c, {1}), [0]);
  }
}
