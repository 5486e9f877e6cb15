/**
 `process_source_data` in challenge1.rb: the per-state statistics of the
 zip code records, turned into the three answers. The contract of
 `ProcessSourceData` states every answer in terms of the records alone.
 */
module Challenge {

  import opened Records
  import opened StringOrder
  import opened Aggregator
  import opened Reporter

  /** `x` names a state of the records, with its total population, and that total is above 10 million. */
  ghost predicate LargeStateOf(rs: seq<ZipRecord>, x: StatePop)
  {
    x.id in States(rs) && x.pop == StateTotal(rs, x.id) && x.pop > LARGE_STATE_MIN_POPULATION
  }

  /**
   `a` and `e` describe the same state of the records: `a` holds the
   state's total divided by its number of distinct cities, and `e` the
   first largest and the first smallest of its cities by summed population.
   */
  ghost predicate DescribesState(rs: seq<ZipRecord>, a: StateAverage, e: StateExtremes)
  {
    var cities := CityTotals(rs, a.id);
    && a.id in States(rs) && e.id == a.id && cities != []
    && a.avgCityPop == StateTotal(rs, a.id) / |cities|
    && IsFirstMax(cities, e.biggestCity) && IsFirstMin(cities, e.smallestCity)
  }

  /** Keys that are distinct make the statistics' states distinct. */
  lemma KeysDistinct(stats: seq<StateInfo>)
    requires Distinct(StateKeys(stats))
    ensures DistinctStates(stats)
  {
    forall i, j | 0 <= i < j < |stats|
      ensures stats[i].state != stats[j].state
    {
      assert StateKeys(stats)[i] == stats[i].state && StateKeys(stats)[j] == stats[j].state;
    }
  }

  /** A state of the records is the state of some entry of statistics that account for them. */
  lemma EntryOf(stats: seq<StateInfo>, rs: seq<ZipRecord>, st: string) returns (k: nat)
    requires Accounts(stats, rs) && st in States(rs)
    ensures k < |stats| && stats[k].state == st
  {
    AccountsShape(stats, rs);
    k :| 0 <= k < |StateKeys(stats)| && StateKeys(stats)[k] == st;
  }

  /** Feature 1 over statistics that account for the records holds exactly the large states of the records. */
  lemma LargeStatesOfRecords(stats: seq<StateInfo>, rs: seq<ZipRecord>)
    requires Accounts(stats, rs) && DistinctStates(stats)
    requires forall k :: 0 <= k < |stats| ==> stats[k].cities != []
    ensures forall x :: x in ProcessStatistics(stats).feature1 <==> LargeStateOf(rs, x)
  {
    LargeStatesReported(stats);
    LargeOfRecords(stats, rs, ProcessStatistics(stats).feature1);
  }

  /**
   Entries that are exactly the large entries of statistics that account
   for the records are exactly the large states of the records.
   */
  lemma LargeOfRecords(stats: seq<StateInfo>, rs: seq<ZipRecord>, f1: seq<StatePop>)
    requires Accounts(stats, rs)
    requires forall x :: x in f1 <==>
               x.pop > LARGE_STATE_MIN_POPULATION && exists k :: 0 <= k < |stats| && LargeOf(stats[k], x)
    ensures forall x :: x in f1 <==> LargeStateOf(rs, x)
  {
    AccountsShape(stats, rs);
    forall x
      ensures x in f1 <==> LargeStateOf(rs, x)
    {
      if x in f1 {
        var k :| 0 <= k < |stats| && LargeOf(stats[k], x);
        assert StateKeys(stats)[k] == x.id;
      }
      if LargeStateOf(rs, x) {
        var k := EntryOf(stats, rs, x.id);
        assert LargeOf(stats[k], x);
      }
    }
  }

  /** Every entry of features 2 and 3 over statistics that account for the records describes a state of the records. */
  lemma PerStateOfRecords(stats: seq<StateInfo>, rs: seq<ZipRecord>)
    requires Accounts(stats, rs) && DistinctStates(stats)
    requires forall k :: 0 <= k < |stats| ==> stats[k].cities != []
    ensures var r := ProcessStatistics(stats);
            forall i :: 0 <= i < |stats| ==> DescribesState(rs, r.feature2[i], r.feature3[i])
  {
    var r := ProcessStatistics(stats);
    PerStateReported(stats);
    AllDescribe(stats, rs, r.feature2, r.feature3);
  }

  /** Entries that each describe some entry of statistics that account for the records describe states of the records. */
  lemma AllDescribe(stats: seq<StateInfo>, rs: seq<ZipRecord>, f2: seq<StateAverage>, f3: seq<StateExtremes>)
    requires Accounts(stats, rs) && |f2| == |f3| == |stats|
    requires forall i :: 0 <= i < |stats| ==>
               exists k :: 0 <= k < |stats| && AverageOf(stats[k], f2[i]) && ExtremesOf(stats[k], f3[i])
    ensures forall i :: 0 <= i < |stats| ==> DescribesState(rs, f2[i], f3[i])
  {
    forall i | 0 <= i < |stats|
      ensures DescribesState(rs, f2[i], f3[i])
    {
      var k :| 0 <= k < |stats| && AverageOf(stats[k], f2[i]) && ExtremesOf(stats[k], f3[i]);
      assert stats[k].state in States(rs) by {
        AccountsShape(stats, rs);
        assert StateKeys(stats)[k] == stats[k].state;
      }
      DescribesEntry(stats[k], rs, f2[i], f3[i]);
    }
  }

  /** Entries that describe the statistics of a state of the records describe that state of the records. */
  lemma DescribesEntry(info: StateInfo, rs: seq<ZipRecord>, a: StateAverage, e: StateExtremes)
    requires AccountsFor(info, rs) && info.state in States(rs)
    requires AverageOf(info, a) && ExtremesOf(info, e)
    ensures DescribesState(rs, a, e)
  {
    AccountsForCities(info, rs);
  }

  /** Every state of the records has an entry in features 2 and 3 over statistics that account for them. */
  lemma EveryStateOfRecords(stats: seq<StateInfo>, rs: seq<ZipRecord>)
    requires Accounts(stats, rs) && DistinctStates(stats)
    requires forall k :: 0 <= k < |stats| ==> stats[k].cities != []
    ensures var r := ProcessStatistics(stats);
            forall st :: st in States(rs) ==> exists i :: 0 <= i < |stats| && r.feature2[i].id == st && r.feature3[i].id == st
  {
    var r := ProcessStatistics(stats);
    EveryStateReported(stats);
    forall st | st in States(rs)
      ensures exists i :: 0 <= i < |stats| && r.feature2[i].id == st && r.feature3[i].id == st
    {
      var k := EntryOf(stats, rs, st);
      var i :| 0 <= i < |stats| && r.feature2[i].id == stats[k].state && r.feature3[i].id == stats[k].state;
    }
  }

  /**
   `process_source_data`: collects the per-state statistics of the records
   and derives the three answers from them.
   - Feature 1 holds exactly the states of the records whose total
     population is strictly above 10 million, each with that total, in
     ascending order of state.
   - Features 2 and 3 hold one entry per distinct state of the records,
     in ascending order of state; the i-th entries of both are about the
     same state, and give its total divided by its number of distinct
     cities (remainder dropped) and its first largest and first smallest
     city by summed population.
   */
  method ProcessSourceData(records: seq<ZipRecord>) returns (report: Report)
    ensures forall x :: x in report.feature1 <==> LargeStateOf(records, x)
    ensures forall i, j :: 0 <= i < j < |report.feature1| ==> Below(report.feature1[i].id, report.feature1[j].id)
    ensures |report.feature2| == |report.feature3| == |FirstSeen(States(records))|
    ensures forall i, j :: 0 <= i < j < |report.feature2| ==> Below(report.feature2[i].id, report.feature2[j].id)
    ensures forall i :: 0 <= i < |report.feature2| ==> DescribesState(records, report.feature2[i], report.feature3[i])
    ensures forall st :: st in States(records) ==>
              exists i :: 0 <= i < |report.feature2| && report.feature2[i].id == st && report.feature3[i].id == st
  {
    var stats := CollectStateStatistics(records);
    KeysDistinct(stats);
    report := ProcessStatistics(stats);
    assert |report.feature2| == |StateKeys(stats)|;
    LargeStatesReported(stats);
    PerStateReported(stats);
    LargeStatesOfRecords(stats, records);
    PerStateOfRecords(stats, records);
    EveryStateOfRecords(stats, records);
  }

}
