/**
 The Reporter: sorts the per-state statistics by state name and derives the
 three answers from them (`process_statistics`, `feature_1`, `feature_2`,
 `feature_3` and `LARGE_STATE_MIN_POPULATION` in challenge1.rb).
 */
module Reporter {

  import opened Records
  import opened StringOrder

  /** A state is large when its population is strictly above this. */
  const LARGE_STATE_MIN_POPULATION: nat := 10_000_000

  /** An entry of feature 1: `{ _id: state, pop: total }`. */
  datatype StatePop = StatePop(id: string, pop: nat)

  /** An entry of feature 2: `{ _id: state, avgCityPop: average }`. */
  datatype StateAverage = StateAverage(id: string, avgCityPop: nat)

  /** An entry of feature 3: `{ _id: state, biggestCity: {name, pop}, smallestCity: {name, pop} }`. */
  datatype StateExtremes = StateExtremes(id: string, biggestCity: CityPop, smallestCity: CityPop)

  /** The three answers. */
  datatype Report = Report(feature1: seq<StatePop>, feature2: seq<StateAverage>, feature3: seq<StateExtremes>)

  // ---------------------------------------------------------------------------
  // Sorting by state
  // ---------------------------------------------------------------------------

  /** No state occurs twice (the statistics are the values of a hash keyed by state). */
  predicate DistinctStates(infos: seq<StateInfo>)
  {
    forall i, j :: 0 <= i < j < |infos| ==> infos[i].state != infos[j].state
  }

  /** Strictly ascending by state name. */
  predicate Ascending(infos: seq<StateInfo>)
  {
    forall i, j :: 0 <= i < j < |infos| ==> Below(infos[i].state, infos[j].state)
  }

  /** An element below the head of an ascending sequence is below all of it. */
  lemma BelowAll(x: StateInfo, s: seq<StateInfo>)
    requires Ascending(s) && s != [] && Below(x.state, s[0].state)
    ensures forall i :: 0 <= i < |s| ==> Below(x.state, s[i].state)
  {
    forall i | 0 < i < |s|
      ensures Below(x.state, s[i].state)
    {
      BelowTransitive(x.state, s[0].state, s[i].state);
    }
  }

  /** Putting an element before an ascending sequence whose states all sort after it keeps it ascending. */
  lemma ConsAscending(h: StateInfo, t: seq<StateInfo>)
    requires Ascending(t)
    requires forall i :: 0 <= i < |t| ==> Below(h.state, t[i].state)
    ensures Ascending([h] + t)
  {
    forall i, j | 0 <= i < j < |[h] + t|
      ensures Below(([h] + t)[i].state, ([h] + t)[j].state)
    {
      if i > 0 {
        assert ([h] + t)[i] == t[i - 1];
      }
      assert ([h] + t)[j] == t[j - 1];
    }
  }

  /**
   When `x` does not go before the head of an ascending sequence, the head
   sorts before everything that inserting `x` into the rest yields.
   */
  lemma AfterHead(s: seq<StateInfo>, x: StateInfo, t: seq<StateInfo>)
    requires Ascending(s) && s != [] && x.state != s[0].state && !Below(x.state, s[0].state)
    requires forall i :: 0 <= i < |t| ==> t[i] == x || t[i] in s[1..]
    ensures forall i :: 0 <= i < |t| ==> Below(s[0].state, t[i].state)
  {
    BelowTotal(x.state, s[0].state);
    forall i | 0 <= i < |t|
      ensures Below(s[0].state, t[i].state)
    {
      if t[i] != x {
        var j :| 0 <= j < |s[1..]| && s[1..][j] == t[i];
        assert s[j + 1] == t[i];
      }
    }
  }

  /** Inserts `x` into an ascending sequence that does not hold its state. */
  function Insert(s: seq<StateInfo>, x: StateInfo): (r: seq<StateInfo>)
    requires Ascending(s)
    requires forall i :: 0 <= i < |s| ==> s[i].state != x.state
    ensures Ascending(r)
    ensures multiset(r) == multiset(s) + multiset{x}
    ensures forall i :: 0 <= i < |r| ==> r[i] == x || r[i] in s
  {
    if s == [] then [x]
    else if Below(x.state, s[0].state) then
      BelowAll(x, s);
      ConsAscending(x, s);
      [x] + s
    else
      var t := Insert(s[1..], x);
      AfterHead(s, x, t);
      ConsAscending(s[0], t);
      KeepHead(s, x, t);
      [s[0]] + t
  }

  /** Keeping the head in front of the insertion into the rest inserts into the whole. */
  lemma KeepHead(s: seq<StateInfo>, x: StateInfo, t: seq<StateInfo>)
    requires s != [] && multiset(t) == multiset(s[1..]) + multiset{x}
    requires forall i :: 0 <= i < |t| ==> t[i] == x || t[i] in s[1..]
    ensures multiset([s[0]] + t) == multiset(s) + multiset{x}
    ensures forall i :: 0 <= i < |[s[0]] + t| ==> ([s[0]] + t)[i] == x || ([s[0]] + t)[i] in s
  {
    assert s == [s[0]] + s[1..];
    forall i | 0 < i < |[s[0]] + t|
      ensures ([s[0]] + t)[i] == x || ([s[0]] + t)[i] in s
    {
      assert ([s[0]] + t)[i] == t[i - 1];
    }
  }

  /**
   `statistics.values.sort { |a, b| a.state <=> b.state }`: the statistics
   in ascending order of state, a permutation of the input.
   */
  function SortByState(infos: seq<StateInfo>): (r: seq<StateInfo>)
    requires DistinctStates(infos)
    ensures Ascending(r)
    ensures multiset(r) == multiset(infos)
    ensures forall x :: x in r <==> x in infos
  {
    if infos == [] then []
    else
      var rest := SortByState(infos[1..]);
      HeadNotInRest(infos, rest);
      assert infos == [infos[0]] + infos[1..];
      var r := Insert(rest, infos[0]);
      SameMembers(r, infos);
      r
  }

  /** The state of the head of statistics with distinct states is not among those of the rest. */
  lemma HeadNotInRest(infos: seq<StateInfo>, rest: seq<StateInfo>)
    requires DistinctStates(infos) && infos != []
    requires forall x :: x in rest <==> x in infos[1..]
    ensures forall i :: 0 <= i < |rest| ==> rest[i].state != infos[0].state
  {
    forall i | 0 <= i < |rest|
      ensures rest[i].state != infos[0].state
    {
      assert rest[i] in infos[1..];
      var j :| 0 <= j < |infos[1..]| && infos[1..][j] == rest[i];
      assert infos[j + 1] == rest[i];
    }
  }

  /** Two sequences with the same multiset of elements have the same elements. */
  lemma SameMembers(a: seq<StateInfo>, b: seq<StateInfo>)
    requires multiset(a) == multiset(b)
    ensures forall x :: x in a <==> x in b
  {
    forall x
      ensures x in a <==> x in b
    {
      assert x in a <==> x in multiset(a);
      assert x in b <==> x in multiset(b);
    }
  }

  /**
   A strictly ascending order of the same statistics is unique, so the
   answers do not depend on which sorting algorithm produced it.
   */
  lemma {:induction false} SortedUnique(a: seq<StateInfo>, b: seq<StateInfo>)
    requires Ascending(a) && Ascending(b) && multiset(a) == multiset(b)
    ensures a == b
  {
    if a != [] {
      SameHead(a, b);
      DropHead(a);
      DropHead(b);
      SortedUnique(a[1..], b[1..]);
      assert a == [a[0]] + a[1..];
      assert b == [b[0]] + b[1..];
    }
  }

  /** Two strictly ascending orders of the same non-empty statistics start with the same element. */
  lemma SameHead(a: seq<StateInfo>, b: seq<StateInfo>)
    requires Ascending(a) && Ascending(b) && multiset(a) == multiset(b) && a != []
    ensures b != [] && a[0] == b[0]
  {
    assert a[0] in multiset(b);
    assert b[0] in multiset(a);
    var j :| 0 <= j < |b| && b[j] == a[0];
    var i :| 0 <= i < |a| && a[i] == b[0];
    assert i == 0 || j == 0 by {
      if i != 0 && j != 0 {
        BelowAsymmetric(a[0].state, b[0].state);
      }
    }
  }

  /** Dropping the head of a sequence removes one occurrence of it from its multiset. */
  lemma DropHead(a: seq<StateInfo>)
    requires a != []
    ensures multiset(a[1..]) == multiset(a) - multiset{a[0]}
  {
    assert a == [a[0]] + a[1..];
    assert multiset(a) == multiset{a[0]} + multiset(a[1..]);
  }

  // ---------------------------------------------------------------------------
  // Feature 1: states with populations above 10 million
  // ---------------------------------------------------------------------------

  /** `x` reports the state `info` with its population. */
  ghost predicate LargeOf(info: StateInfo, x: StatePop)
  {
    x.id == info.state && x.pop == info.pop
  }

  /**
   `feature_1`: exactly the states whose population is strictly above
   `LARGE_STATE_MIN_POPULATION`, in the order they are given.
   */
  function LargeStates(infos: seq<StateInfo>): (r: seq<StatePop>)
    ensures forall x :: x in r <==>
              x.pop > LARGE_STATE_MIN_POPULATION && exists k :: 0 <= k < |infos| && LargeOf(infos[k], x)
    ensures Ascending(infos) ==> forall i, j :: 0 <= i < j < |r| ==> Below(r[i].id, r[j].id)
  {
    if infos == [] then []
    else
      var info := infos[0];
      var rest := LargeStates(infos[1..]);
      assert forall k :: 0 < k < |infos| ==> infos[k] == infos[1..][k - 1];
      LargeAfterHead(infos, rest);
      (if info.pop > LARGE_STATE_MIN_POPULATION then [StatePop(info.state, info.pop)] else []) + rest
  }

  /** If the statistics are ascending, their head sorts before every state that feature 1 reports from the rest. */
  lemma LargeAfterHead(infos: seq<StateInfo>, rest: seq<StatePop>)
    requires infos != []
    requires forall x :: x in rest ==> exists k :: 0 <= k < |infos[1..]| && LargeOf(infos[1..][k], x)
    ensures Ascending(infos) ==> forall i :: 0 <= i < |rest| ==> Below(infos[0].state, rest[i].id)
  {
    if Ascending(infos) {
      forall i | 0 <= i < |rest|
        ensures Below(infos[0].state, rest[i].id)
      {
        assert rest[i] in rest;
        var k :| 0 <= k < |infos[1..]| && LargeOf(infos[1..][k], rest[i]);
        assert infos[k + 1] == infos[1..][k];
      }
    }
  }

  // ---------------------------------------------------------------------------
  // Feature 2: average city population by state
  // ---------------------------------------------------------------------------

  /** `a` reports the average city population of `info`, truncated towards zero. */
  ghost predicate AverageOf(info: StateInfo, a: StateAverage)
  {
    && a.id == info.state
    && info.cities != [] && a.avgCityPop == info.pop / |info.cities|
  }

  /**
   The reported average is the truncated quotient: times the number of
   cities it is at most the state's population, and one more would exceed it.
   */
  lemma AverageTruncates(info: StateInfo, a: StateAverage)
    requires AverageOf(info, a)
    ensures a.avgCityPop * |info.cities| <= info.pop < (a.avgCityPop + 1) * |info.cities|
  {
  }

  /**
   `feature_2`: one entry per state, in the order given, holding the state's
   population divided by its number of cities, with the remainder dropped.
   Every state must have a city (the division by `cities.size` raises otherwise).
   */
  function AverageCityPops(infos: seq<StateInfo>): (r: seq<StateAverage>)
    requires forall k :: 0 <= k < |infos| ==> infos[k].cities != []
    ensures |r| == |infos|
    ensures forall k :: 0 <= k < |infos| ==> r[k].id == infos[k].state
    ensures forall k :: 0 <= k < |infos| ==> AverageOf(infos[k], r[k])
  {
    if infos == [] then []
    else
      var info := infos[0];
      var rest := AverageCityPops(infos[1..]);
      assert forall k :: 0 < k < |infos| ==> infos[k] == infos[1..][k - 1];
      [StateAverage(info.state, info.pop / |info.cities|)] + rest
  }

  // ---------------------------------------------------------------------------
  // Feature 3: largest and smallest city by state
  // ---------------------------------------------------------------------------

  /** `c` is the first city of largest population, in the order of the hash. */
  ghost predicate IsFirstMax(cities: seq<CityPop>, c: CityPop)
  {
    exists m :: 0 <= m < |cities| && cities[m] == c
      && (forall j :: 0 <= j < |cities| ==> cities[j].pop <= c.pop)
      && (forall j :: 0 <= j < m ==> cities[j].pop < c.pop)
  }

  /** `c` is the first city of smallest population, in the order of the hash. */
  ghost predicate IsFirstMin(cities: seq<CityPop>, c: CityPop)
  {
    exists m :: 0 <= m < |cities| && cities[m] == c
      && (forall j :: 0 <= j < |cities| ==> c.pop <= cities[j].pop)
      && (forall j :: 0 <= j < m ==> c.pop < cities[j].pop)
  }

  /**
   `cities.max_by(&:last)`: the position of a city of largest population,
   the first one when several tie (a later city replaces the candidate only
   when it is strictly larger).
   */
  function MaxByPop(cities: seq<CityPop>): (m: nat)
    requires cities != []
    ensures m < |cities|
    ensures forall j :: 0 <= j < |cities| ==> cities[j].pop <= cities[m].pop
    ensures forall j :: 0 <= j < m ==> cities[j].pop < cities[m].pop
  {
    if |cities| == 1 then 0
    else
      var best := MaxByPop(cities[..|cities| - 1]);
      if cities[|cities| - 1].pop > cities[best].pop then |cities| - 1 else best
  }

  /**
   `cities.min_by(&:last)`: the position of a city of smallest population,
   the first one when several tie.
   */
  function MinByPop(cities: seq<CityPop>): (m: nat)
    requires cities != []
    ensures m < |cities|
    ensures forall j :: 0 <= j < |cities| ==> cities[m].pop <= cities[j].pop
    ensures forall j :: 0 <= j < m ==> cities[m].pop < cities[j].pop
  {
    if |cities| == 1 then 0
    else
      var best := MinByPop(cities[..|cities| - 1]);
      if cities[|cities| - 1].pop < cities[best].pop then |cities| - 1 else best
  }

  /** `e` reports the first largest and the first smallest city of `info`. */
  ghost predicate ExtremesOf(info: StateInfo, e: StateExtremes)
  {
    e.id == info.state && IsFirstMax(info.cities, e.biggestCity) && IsFirstMin(info.cities, e.smallestCity)
  }

  /**
   `feature_3`: one entry per state, in the order given, holding the state's
   first largest and first smallest city. Every state must have a city
   (`max_by` on an empty hash gives nil, which has no name).
   */
  function ExtremeCities(infos: seq<StateInfo>): (r: seq<StateExtremes>)
    requires forall k :: 0 <= k < |infos| ==> infos[k].cities != []
    ensures |r| == |infos|
    ensures forall k :: 0 <= k < |infos| ==> r[k].id == infos[k].state
    ensures forall k :: 0 <= k < |infos| ==> ExtremesOf(infos[k], r[k])
  {
    if infos == [] then []
    else
      var cities := infos[0].cities;
      var maxCity := cities[MaxByPop(cities)];
      var minCity := cities[MinByPop(cities)];
      [StateExtremes(infos[0].state, maxCity, minCity)] + ExtremeCities(infos[1..])
  }

  /** The first largest city of a hash is the one `MaxByPop` picks. */
  lemma FirstMaxIsMaxBy(cities: seq<CityPop>, c: CityPop)
    requires cities != [] && IsFirstMax(cities, c)
    ensures c == cities[MaxByPop(cities)]
  {
    var b := MaxByPop(cities);
    var m :| 0 <= m < |cities| && cities[m] == c
      && (forall j :: 0 <= j < |cities| ==> cities[j].pop <= c.pop)
      && (forall j :: 0 <= j < m ==> cities[j].pop < c.pop);
    var picked := cities[b].pop;
    assert m < b ==> c.pop < picked;
    assert b < m ==> picked < c.pop;
  }

  /** The first smallest city of a hash is the one `MinByPop` picks. */
  lemma FirstMinIsMinBy(cities: seq<CityPop>, c: CityPop)
    requires cities != [] && IsFirstMin(cities, c)
    ensures c == cities[MinByPop(cities)]
  {
    var b := MinByPop(cities);
    var m :| 0 <= m < |cities| && cities[m] == c
      && (forall j :: 0 <= j < |cities| ==> c.pop <= cities[j].pop)
      && (forall j :: 0 <= j < m ==> c.pop < cities[j].pop);
    var picked := cities[b].pop;
    assert m < b ==> picked < c.pop;
    assert b < m ==> c.pop < picked;
  }

  /** The tie-break is deterministic: a hash has one first largest and one first smallest city. */
  lemma ExtremesUnique(cities: seq<CityPop>, a: CityPop, b: CityPop)
    ensures IsFirstMax(cities, a) && IsFirstMax(cities, b) ==> a == b
    ensures IsFirstMin(cities, a) && IsFirstMin(cities, b) ==> a == b
  {
    if IsFirstMax(cities, a) && IsFirstMax(cities, b) {
      FirstMaxIsMaxBy(cities, a);
      FirstMaxIsMaxBy(cities, b);
    }
    if IsFirstMin(cities, a) && IsFirstMin(cities, b) {
      FirstMinIsMinBy(cities, a);
      FirstMinIsMinBy(cities, b);
    }
  }

  // ---------------------------------------------------------------------------
  // process_statistics
  // ---------------------------------------------------------------------------

  /**
   `process_statistics`: the three answers over the statistics sorted by
   state. Features 2 and 3 hold one entry per state.
   */
  function ProcessStatistics(stats: seq<StateInfo>): (r: Report)
    requires DistinctStates(stats)
    requires forall k :: 0 <= k < |stats| ==> stats[k].cities != []
    ensures |r.feature2| == |stats| && |r.feature3| == |stats|
  {
    var sorted := SortByState(stats);
    assert |sorted| == |stats| by {
      assert |multiset(sorted)| == |multiset(stats)|;
    }
    assert forall i :: 0 <= i < |sorted| ==> sorted[i].cities != [] by {
      forall i | 0 <= i < |sorted|
        ensures sorted[i].cities != []
      {
        assert sorted[i] in stats;
      }
    }
    Report(LargeStates(sorted), AverageCityPops(sorted), ExtremeCities(sorted))
  }

  /**
   Feature 1 holds exactly the states of the statistics whose population is
   strictly above `LARGE_STATE_MIN_POPULATION`, each with its population,
   in strictly ascending order of state.
   */
  lemma LargeStatesReported(stats: seq<StateInfo>)
    requires DistinctStates(stats)
    requires forall k :: 0 <= k < |stats| ==> stats[k].cities != []
    ensures var f1 := ProcessStatistics(stats).feature1;
            && (forall x :: x in f1 <==>
                  x.pop > LARGE_STATE_MIN_POPULATION && exists k :: 0 <= k < |stats| && LargeOf(stats[k], x))
            && (forall i, j :: 0 <= i < j < |f1| ==> Below(f1[i].id, f1[j].id))
  {
    var sorted := SortByState(stats);
    var f1 := ProcessStatistics(stats).feature1;
    assert f1 == LargeStates(sorted);
    forall x
      ensures x in f1 <==>
              x.pop > LARGE_STATE_MIN_POPULATION && exists k :: 0 <= k < |stats| && LargeOf(stats[k], x)
    {
      if k :| 0 <= k < |sorted| && LargeOf(sorted[k], x) {
        assert sorted[k] in stats;
      }
      if k :| 0 <= k < |stats| && LargeOf(stats[k], x) {
        assert stats[k] in sorted;
      }
    }
  }

  /** `ProcessStatistics` is the three features over the statistics sorted by state. */
  lemma ReportParts(stats: seq<StateInfo>)
    requires DistinctStates(stats)
    requires forall k :: 0 <= k < |stats| ==> stats[k].cities != []
    ensures var sorted := SortByState(stats);
            && |sorted| == |stats|
            && (forall i :: 0 <= i < |sorted| ==> sorted[i] in stats && sorted[i].cities != [])
            && ProcessStatistics(stats) == Report(LargeStates(sorted), AverageCityPops(sorted), ExtremeCities(sorted))
  {
    var sorted := SortByState(stats);
    assert |sorted| == |stats| by {
      assert |multiset(sorted)| == |multiset(stats)|;
    }
    forall i | 0 <= i < |sorted|
      ensures sorted[i] in stats && sorted[i].cities != []
    {
      assert sorted[i] in sorted;
    }
  }

  /** Entries that describe the sorted statistics position by position describe some state of the statistics. */
  lemma DescribesSome(stats: seq<StateInfo>, sorted: seq<StateInfo>, f2: seq<StateAverage>, f3: seq<StateExtremes>)
    requires |sorted| == |stats| == |f2| == |f3|
    requires forall i :: 0 <= i < |sorted| ==> sorted[i] in stats
    requires forall i :: 0 <= i < |sorted| ==> AverageOf(sorted[i], f2[i]) && ExtremesOf(sorted[i], f3[i])
    ensures forall i :: 0 <= i < |stats| ==>
              exists k :: 0 <= k < |stats| && AverageOf(stats[k], f2[i]) && ExtremesOf(stats[k], f3[i])
  {
    forall i | 0 <= i < |stats|
      ensures exists k :: 0 <= k < |stats| && AverageOf(stats[k], f2[i]) && ExtremesOf(stats[k], f3[i])
    {
      var k := PositionOf(stats, sorted[i]);
      assert 0 <= k < |stats| && AverageOf(stats[k], f2[i]) && ExtremesOf(stats[k], f3[i]);
    }
    assert forall i :: 0 <= i < |stats| ==>
             exists k :: 0 <= k < |stats| && AverageOf(stats[k], f2[i]) && ExtremesOf(stats[k], f3[i]);
  }

  /**
   Features 2 and 3 hold one entry per state of the statistics, in strictly
   ascending order of state, and the i-th entries of both describe the same
   state's statistics.
   */
  lemma PerStateReported(stats: seq<StateInfo>)
    requires DistinctStates(stats)
    requires forall k :: 0 <= k < |stats| ==> stats[k].cities != []
    ensures var r := ProcessStatistics(stats);
            && (forall i, j :: 0 <= i < j < |stats| ==> Below(r.feature2[i].id, r.feature2[j].id))
            && (forall i :: 0 <= i < |stats| ==>
                  exists k :: 0 <= k < |stats| && AverageOf(stats[k], r.feature2[i]) && ExtremesOf(stats[k], r.feature3[i]))
  {
    var sorted := SortByState(stats);
    var r := ProcessStatistics(stats);
    ReportParts(stats);
    IdsAscending(sorted, r.feature2);
    DescribesSome(stats, sorted, r.feature2, r.feature3);
  }

  /** Entries that carry the states of an ascending sequence position by position are ascending by id. */
  lemma IdsAscending(sorted: seq<StateInfo>, f2: seq<StateAverage>)
    requires Ascending(sorted) && |f2| == |sorted|
    requires forall i :: 0 <= i < |sorted| ==> f2[i].id == sorted[i].state
    ensures forall i, j :: 0 <= i < j < |f2| ==> Below(f2[i].id, f2[j].id)
  {
  }

  /** The i-th entries of features 2 and 3 are about the i-th state in sorted order. */
  lemma FeatureIds(stats: seq<StateInfo>)
    requires DistinctStates(stats)
    requires forall k :: 0 <= k < |stats| ==> stats[k].cities != []
    ensures var sorted, r := SortByState(stats), ProcessStatistics(stats);
            |sorted| == |stats| &&
            forall i :: 0 <= i < |stats| ==> r.feature2[i].id == sorted[i].state && r.feature3[i].id == sorted[i].state
  {
    ReportParts(stats);
  }

  /** A position at which `x` occurs in `s`. */
  lemma PositionOf(s: seq<StateInfo>, x: StateInfo) returns (i: nat)
    requires x in s
    ensures i < |s| && s[i] == x
  {
    i :| 0 <= i < |s| && s[i] == x;
  }

  /** Every state of the statistics has an entry in features 2 and 3. */
  lemma EveryStateReported(stats: seq<StateInfo>)
    requires DistinctStates(stats)
    requires forall k :: 0 <= k < |stats| ==> stats[k].cities != []
    ensures var r := ProcessStatistics(stats);
            forall k :: 0 <= k < |stats| ==>
              exists i :: 0 <= i < |stats| && r.feature2[i].id == stats[k].state && r.feature3[i].id == stats[k].state
  {
    var sorted := SortByState(stats);
    var r := ProcessStatistics(stats);
    FeatureIds(stats);
    forall k | 0 <= k < |stats|
      ensures exists i :: 0 <= i < |stats| && r.feature2[i].id == stats[k].state && r.feature3[i].id == stats[k].state
    {
      var i := PositionOf(sorted, stats[k]);
      assert r.feature2[i].id == stats[k].state && r.feature3[i].id == stats[k].state;
    }
  }

}
