/**
 Concrete inputs and what the model prescribes for them: the statistics
 that the aggregation must produce, and the answers derived from them.
 */
module Scenarios {

  import opened Records
  import opened Aggregator
  import opened Reporter

  /**
   Two records of one state, New York (5574) and Albany (100): the state
   totals 5674, its cities keep input order, New York is the largest city
   and Albany the smallest.
   */
  lemma NewYorkAndAlbany(stats: seq<StateInfo>)
    requires Accounts(stats, [ZipRecord("NY", "NEW YORK", 5574), ZipRecord("NY", "ALBANY", 100)])
    ensures stats == [StateInfo("NY", 5674, [CityPop("NEW YORK", 5574), CityPop("ALBANY", 100)])]
    ensures ExtremeCities(stats) == [StateExtremes("NY", CityPop("NEW YORK", 5574), CityPop("ALBANY", 100))]
  {
    var r1, r2 := ZipRecord("NY", "NEW YORK", 5574), ZipRecord("NY", "ALBANY", 100);
    var info := StateInfo("NY", 5674, [CityPop("NEW YORK", 5574), CityPop("ALBANY", 100)]);
    NewYorkAndAlbanyAccounted(r1, r2, info);
    AccountsDetermines(stats, [info], [r1, r2]);
    NewYorkAndAlbanyExtremes();
  }

  /** The expected statistics account for the New York and Albany records. */
  lemma NewYorkAndAlbanyAccounted(r1: ZipRecord, r2: ZipRecord, info: StateInfo)
    requires r1 == ZipRecord("NY", "NEW YORK", 5574) && r2 == ZipRecord("NY", "ALBANY", 100)
    requires info == StateInfo("NY", 5674, [CityPop("NEW YORK", 5574), CityPop("ALBANY", 100)])
    ensures Accounts([info], [r1, r2])
  {
    NewYorkAccounted(r1, r2, info);
    TwoRecords(r1, r2);
    assert StateKeys([info]) == ["NY"];
  }

  /** The expected New York statistics account for the New York and Albany records. */
  lemma NewYorkAccounted(r1: ZipRecord, r2: ZipRecord, info: StateInfo)
    requires r1 == ZipRecord("NY", "NEW YORK", 5574) && r2 == ZipRecord("NY", "ALBANY", 100)
    requires info == StateInfo("NY", 5674, [CityPop("NEW YORK", 5574), CityPop("ALBANY", 100)])
    ensures AccountsFor(info, [r1, r2])
  {
    TwoRecords(r1, r2);
    NewYorkCityNames(r1, r2, info.cities);
    NewYorkCityTotals(r1, r2, info.cities);
  }

  /** The New York cities are first seen in input order. */
  lemma NewYorkCityNames(r1: ZipRecord, r2: ZipRecord, cities: seq<CityPop>)
    requires r1 == ZipRecord("NY", "NEW YORK", 5574) && r2 == ZipRecord("NY", "ALBANY", 100)
    requires cities == [CityPop("NEW YORK", 5574), CityPop("ALBANY", 100)]
    ensures Names(cities) == FirstSeen(CitiesIn([r1, r2], "NY"))
  {
    TwoCities(r1, r2);
    assert r1.city != r2.city by {
      assert r1.city[0] != r2.city[0];
    }
    TwoFirstSeen(r1.city, r2.city);
    assert Names(cities) == [r1.city, r2.city];
  }

  /** The cities of two records of state "NY", in input order. */
  lemma TwoCities(r1: ZipRecord, r2: ZipRecord)
    requires r1.state == "NY" && r2.state == "NY"
    ensures CitiesIn([r1, r2], "NY") == [r1.city, r2.city]
  {
    assert [] + [r1] == [r1] && [r1] + [r2] == [r1, r2];
    StateSnoc([], r1, "NY");
    StateSnoc([r1], r2, "NY");
  }

  /** Two different names are both first seen, in order. */
  lemma TwoFirstSeen(a: string, b: string)
    requires a != b
    ensures FirstSeen([a, b]) == [a, b]
  {
    assert [a, b][..1] == [a] && [a][..0] == [];
    assert FirstSeen([a]) == [a];
  }

  /** Each New York city holds the total of its (state, city) records. */
  lemma NewYorkCityTotals(r1: ZipRecord, r2: ZipRecord, cities: seq<CityPop>)
    requires r1 == ZipRecord("NY", "NEW YORK", 5574) && r2 == ZipRecord("NY", "ALBANY", 100)
    requires cities == [CityPop("NEW YORK", 5574), CityPop("ALBANY", 100)]
    ensures forall c :: 0 <= c < |cities| ==> cities[c].pop == PairTotal([r1, r2], "NY", cities[c].name)
  {
    assert "NEW YORK" != "ALBANY" by {
      assert "NEW YORK"[0] != "ALBANY"[0];
    }
    PairSnoc([], r1, "NY", "NEW YORK");
    PairSnoc([r1], r2, "NY", "NEW YORK");
    PairSnoc([], r1, "NY", "ALBANY");
    PairSnoc([r1], r2, "NY", "ALBANY");
    assert [] + [r1] == [r1] && [r1] + [r2] == [r1, r2];
    assert PairTotal([r1, r2], "NY", "NEW YORK") == 5574;
    assert PairTotal([r1, r2], "NY", "ALBANY") == 100;
    forall c | 0 <= c < |cities|
      ensures cities[c].pop == PairTotal([r1, r2], "NY", cities[c].name)
    {
      assert c == 0 || c == 1;
    }
  }

  /** New York is the largest city of the New York statistics and Albany the smallest. */
  lemma NewYorkAndAlbanyExtremes()
    ensures var info := StateInfo("NY", 5674, [CityPop("NEW YORK", 5574), CityPop("ALBANY", 100)]);
            ExtremeCities([info]) == [StateExtremes("NY", CityPop("NEW YORK", 5574), CityPop("ALBANY", 100))]
  {
    var cities := [CityPop("NEW YORK", 5574), CityPop("ALBANY", 100)];
    assert cities[..1] == [cities[0]];
    assert MaxByPop(cities) == 0 && MinByPop(cities) == 1;
    assert [StateInfo("NY", 5674, cities)][1..] == [];
  }

  /** What the prescriptions are for two records of state "NY". */
  lemma TwoRecords(r1: ZipRecord, r2: ZipRecord)
    requires r1.state == "NY" && r2.state == "NY"
    ensures FirstSeen(States([r1, r2])) == ["NY"]
    ensures StateTotal([r1, r2], "NY") == r1.pop + r2.pop
    ensures CitiesIn([r1, r2], "NY") == [r1.city, r2.city]
    ensures forall city :: PairTotal([r1, r2], "NY", city)
                           == (if r1.city == city then r1.pop else 0) + (if r2.city == city then r2.pop else 0)
  {
    assert [] + [r1] == [r1];
    assert [r1] + [r2] == [r1, r2];
    StatesSnoc([], r1);
    StatesSnoc([r1], r2);
    StateSnoc([], r1, "NY");
    StateSnoc([r1], r2, "NY");
    FirstSeenSnoc([], "NY");
    FirstSeenSnoc(["NY"], "NY");
    forall city
      ensures PairTotal([r1, r2], "NY", city)
              == (if r1.city == city then r1.pop else 0) + (if r2.city == city then r2.pop else 0)
    {
      PairSnoc([], r1, "NY", city);
      PairSnoc([r1], r2, "NY", city);
    }
  }

  /** Two records of the same city and state (100 and 200) add up instead of overwriting: the city totals 300. */
  lemma RepeatedCityAccumulates(stats: seq<StateInfo>)
    requires Accounts(stats, [ZipRecord("NY", "NEW YORK", 100), ZipRecord("NY", "NEW YORK", 200)])
    ensures stats == [StateInfo("NY", 300, [CityPop("NEW YORK", 300)])]
  {
    var r1, r2 := ZipRecord("NY", "NEW YORK", 100), ZipRecord("NY", "NEW YORK", 200);
    var rs := [r1, r2];
    var info := StateInfo("NY", 300, [CityPop("NEW YORK", 300)]);
    TwoRecords(r1, r2);
    FirstSeenSnoc([], "NEW YORK");
    FirstSeenSnoc(["NEW YORK"], "NEW YORK");
    assert ["NEW YORK"] + ["NEW YORK"] == CitiesIn(rs, "NY");
    assert Names(info.cities) == ["NEW YORK"];
    assert AccountsFor(info, rs);
    assert StateKeys([info]) == ["NY"];
    AccountsDetermines(stats, [info], rs);
  }

  /** No records, no statistics, and three empty answers. */
  lemma EmptyInput(stats: seq<StateInfo>)
    requires Accounts(stats, [])
    ensures stats == []
    ensures ProcessStatistics(stats) == Report([], [], [])
  {
    assert |StateKeys(stats)| == 0;
  }

  /** A state at exactly 10,000,000 is not reported as large; one at 10,000,001 is. */
  lemma ThresholdIsStrict(a: StateInfo, b: StateInfo)
    requires a.pop == 10_000_000 && b.pop == 10_000_001
    ensures LargeStates([a, b]) == [StatePop(b.state, b.pop)]
  {
    assert [a, b][1..] == [b];
    assert [b][1..] == [];
    assert LargeStates([b]) == [StatePop(b.state, b.pop)];
  }

  /** A state of population 10 with three cities averages 3: the remainder is dropped. */
  lemma AverageTruncated(info: StateInfo)
    requires info.pop == 10 && |info.cities| == 3
    ensures AverageCityPops([info]) == [StateAverage(info.state, 3)]
  {
  }

  /** A state whose only city is `c` averages `c`'s population, and `c` is both its largest and its smallest city. */
  lemma SingleCity(info: StateInfo, c: CityPop)
    requires info.cities == [c] && info.pop == c.pop
    ensures AverageCityPops([info]) == [StateAverage(info.state, c.pop)]
    ensures ExtremeCities([info]) == [StateExtremes(info.state, c, c)]
  {
    assert [info][1..] == [];
  }

}
