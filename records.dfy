/**
 The data the aggregation works on: the zip code records that come in, the
 per-state statistics that are built from them, and the specification
 functions that say, for a prefix of the input, what those statistics must be.
 */
module Records {

  /** One zip code record; the only fields the aggregation reads. */
  datatype ZipRecord = ZipRecord(state: string, city: string, pop: nat)

  /** One entry of a state's `cities` hash: a city name and its summed population. */
  datatype CityPop = CityPop(name: string, pop: nat)

  /**
   The statistics of one state. `cities` is the state's `cities` hash in
   insertion order (Ruby hashes enumerate in insertion order); its names are
   distinct keys.
   */
  datatype StateInfo = StateInfo(state: string, pop: nat, cities: seq<CityPop>)

  /** No string occurs twice. */
  predicate Distinct(s: seq<string>)
  {
    forall i, j :: 0 <= i < j < |s| ==> s[i] != s[j]
  }

  /** The keys of a `cities` hash, in insertion order. */
  function Names(cities: seq<CityPop>): seq<string>
  {
    seq(|cities|, i requires 0 <= i < |cities| => cities[i].name)
  }

  /** The keys of the per-state hash, in insertion order. */
  function StateKeys(stats: seq<StateInfo>): seq<string>
  {
    seq(|stats|, i requires 0 <= i < |stats| => stats[i].state)
  }

  /** The sum of the values of a `cities` hash. */
  function Sum(cities: seq<CityPop>): nat
  {
    if cities == [] then 0 else Sum(cities[..|cities| - 1]) + cities[|cities| - 1].pop
  }

  /** The sum of the state totals. */
  function TotalOf(stats: seq<StateInfo>): nat
  {
    if stats == [] then 0 else TotalOf(stats[..|stats| - 1]) + stats[|stats| - 1].pop
  }

  // ---------------------------------------------------------------------------
  // What the input prescribes. Each function is defined by peeling off the
  // LAST record, so that it follows the fold one record at a time.
  // ---------------------------------------------------------------------------

  /** The sum of the populations of all records. */
  ghost function RecordTotal(rs: seq<ZipRecord>): nat
  {
    if rs == [] then 0 else RecordTotal(rs[..|rs| - 1]) + rs[|rs| - 1].pop
  }

  /** The states of the records, one per record, in input order. */
  ghost function States(rs: seq<ZipRecord>): seq<string>
  {
    if rs == [] then [] else States(rs[..|rs| - 1]) + [rs[|rs| - 1].state]
  }

  /** The sum of the populations of the records of state `st`. */
  ghost function StateTotal(rs: seq<ZipRecord>, st: string): nat
  {
    if rs == [] then 0
    else
      var last := rs[|rs| - 1];
      StateTotal(rs[..|rs| - 1], st) + (if last.state == st then last.pop else 0)
  }

  /** The cities of the records of state `st`, one per record, in input order. */
  ghost function CitiesIn(rs: seq<ZipRecord>, st: string): seq<string>
  {
    if rs == [] then []
    else
      var last := rs[|rs| - 1];
      CitiesIn(rs[..|rs| - 1], st) + (if last.state == st then [last.city] else [])
  }

  /** The sum of the populations of the records of city `city` in state `st`. */
  ghost function PairTotal(rs: seq<ZipRecord>, st: string, city: string): nat
  {
    if rs == [] then 0
    else
      var last := rs[|rs| - 1];
      PairTotal(rs[..|rs| - 1], st, city) + (if last.state == st && last.city == city then last.pop else 0)
  }

  /** The distinct elements of `s`, in the order in which each is first seen. */
  ghost function FirstSeen(s: seq<string>): seq<string>
  {
    if s == [] then []
    else if s[|s| - 1] in s[..|s| - 1] then FirstSeen(s[..|s| - 1])
    else FirstSeen(s[..|s| - 1]) + [s[|s| - 1]]
  }

  /**
   The `cities` hash the records prescribe for state `st`: each city once,
   in the order first seen, with the total of its (state, city) records.
   */
  ghost function CityTotals(rs: seq<ZipRecord>, st: string): seq<CityPop>
  {
    var names := FirstSeen(CitiesIn(rs, st));
    seq(|names|, j requires 0 <= j < |names| => CityPop(names[j], PairTotal(rs, st, names[j])))
  }

  // ---------------------------------------------------------------------------
  // Lemmas about these functions
  // ---------------------------------------------------------------------------

  /** Appending a record adds its population to the total of the input. */
  lemma RecordTotalSnoc(rs: seq<ZipRecord>, r: ZipRecord)
    ensures RecordTotal(rs + [r]) == RecordTotal(rs) + r.pop
  {
    assert (rs + [r])[..|rs|] == rs;
  }

  /** Appending a record changes the total and the cities of state `st` by exactly that record. */
  lemma StateSnoc(rs: seq<ZipRecord>, r: ZipRecord, st: string)
    ensures StateTotal(rs + [r], st) == StateTotal(rs, st) + (if r.state == st then r.pop else 0)
    ensures CitiesIn(rs + [r], st) == CitiesIn(rs, st) + (if r.state == st then [r.city] else [])
  {
    assert (rs + [r])[..|rs|] == rs;
  }

  /** Appending a record changes the total of the pair (`st`, `city`) by exactly that record. */
  lemma PairSnoc(rs: seq<ZipRecord>, r: ZipRecord, st: string, city: string)
    ensures PairTotal(rs + [r], st, city) == PairTotal(rs, st, city) + (if r.state == st && r.city == city then r.pop else 0)
  {
    assert (rs + [r])[..|rs|] == rs;
  }

  /** Appending a record appends its state to the states of the input. */
  lemma StatesSnoc(rs: seq<ZipRecord>, r: ZipRecord)
    ensures States(rs + [r]) == States(rs) + [r.state]
  {
    assert (rs + [r])[..|rs|] == rs;
  }

  /** Appending an element to `s` appends it to `FirstSeen(s)` exactly when it is new. */
  lemma FirstSeenSnoc(s: seq<string>, x: string)
    ensures FirstSeen(s + [x]) == if x in s then FirstSeen(s) else FirstSeen(s) + [x]
  {
    assert (s + [x])[..|s|] == s;
  }

  /** `FirstSeen(s)` holds exactly the elements of `s`. */
  lemma {:induction false} FirstSeenMembers(s: seq<string>)
    ensures forall x :: x in FirstSeen(s) <==> x in s
  {
    if s != [] {
      var init := s[..|s| - 1];
      FirstSeenMembers(init);
      assert s == init + [s[|s| - 1]];
    }
  }

  /** `FirstSeen(s)` holds each of its elements once. */
  lemma {:induction false} FirstSeenDistinct(s: seq<string>)
    ensures Distinct(FirstSeen(s))
  {
    if s != [] {
      var init := s[..|s| - 1];
      FirstSeenDistinct(init);
      FirstSeenMembers(init);
    }
  }

  /** A state that no record carries has no total, no cities and no city totals. */
  lemma {:induction false} AbsentState(rs: seq<ZipRecord>, st: string)
    requires st !in States(rs)
    ensures StateTotal(rs, st) == 0
    ensures CitiesIn(rs, st) == []
    ensures forall city :: PairTotal(rs, st, city) == 0
  {
    if rs != [] {
      var init := rs[..|rs| - 1];
      assert States(rs) == States(init) + [rs[|rs| - 1].state];
      AbsentState(init, st);
    }
  }

  /** A city that no record of state `st` carries has no total in that state. */
  lemma {:induction false} AbsentCity(rs: seq<ZipRecord>, st: string, city: string)
    requires city !in CitiesIn(rs, st)
    ensures PairTotal(rs, st, city) == 0
  {
    if rs != [] {
      var init := rs[..|rs| - 1];
      assert CitiesIn(init, st) <= CitiesIn(rs, st);
      AbsentCity(init, st, city);
    }
  }

  /** A state that some record carries has at least one city. */
  lemma {:induction false} PresentStateHasCity(rs: seq<ZipRecord>, st: string)
    requires st in States(rs)
    ensures CitiesIn(rs, st) != []
  {
    var init := rs[..|rs| - 1];
    if rs[|rs| - 1].state != st {
      assert st in States(init);
      PresentStateHasCity(init, st);
    }
  }

  /** Raising one city's value raises the sum of the hash by the same amount. */
  lemma {:induction false} SumUpdate(cities: seq<CityPop>, c: nat, v: CityPop)
    requires c < |cities|
    ensures Sum(cities[c := v]) + cities[c].pop == Sum(cities) + v.pop
  {
    var n := |cities| - 1;
    if c < n {
      assert cities[c := v][..n] == cities[..n][c := v];
      SumUpdate(cities[..n], c, v);
    } else {
      assert cities[c := v][..n] == cities[..n];
    }
  }

  /** Appending a city adds its value to the sum of the hash. */
  lemma SumSnoc(cities: seq<CityPop>, v: CityPop)
    ensures Sum(cities + [v]) == Sum(cities) + v.pop
  {
    assert (cities + [v])[..|cities|] == cities;
  }

  /** Replacing one state's statistics changes the sum of the totals by the difference. */
  lemma {:induction false} TotalOfUpdate(stats: seq<StateInfo>, k: nat, v: StateInfo)
    requires k < |stats|
    ensures TotalOf(stats[k := v]) + stats[k].pop == TotalOf(stats) + v.pop
  {
    var n := |stats| - 1;
    if k < n {
      assert stats[k := v][..n] == stats[..n][k := v];
      TotalOfUpdate(stats[..n], k, v);
    } else {
      assert stats[k := v][..n] == stats[..n];
    }
  }

  /** Appending a state adds its total to the sum of the totals. */
  lemma TotalOfSnoc(stats: seq<StateInfo>, v: StateInfo)
    ensures TotalOf(stats + [v]) == TotalOf(stats) + v.pop
  {
    assert (stats + [v])[..|stats|] == stats;
  }

}
