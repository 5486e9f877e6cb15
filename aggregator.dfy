/**
 The Aggregator: one pass over the zip code records that folds them into a
 hash of per-state statistics, keyed by state, each holding the state's
 running total and a hash from city name to summed population
 (`collect_state_statistics` and `new_state_info_for` in challenge1.rb).
 */
module Aggregator {

  import opened Wrappers
  import opened Records

  /**
   What the statistics of one state must be after the records `rs`: the
   total of the state's records; its cities, each once, in the order in
   which they were first seen; and for each city the total of the records
   of that (state, city) pair.
   */
  ghost predicate AccountsFor(info: StateInfo, rs: seq<ZipRecord>)
  {
    && info.pop == StateTotal(rs, info.state)
    && Names(info.cities) == FirstSeen(CitiesIn(rs, info.state))
    && forall c :: 0 <= c < |info.cities| ==> info.cities[c].pop == PairTotal(rs, info.state, info.cities[c].name)
  }

  /**
   What the whole hash must be after the records `rs`: one entry per
   distinct state, in the order in which the states were first seen, each
   accounting for its records.
   */
  ghost predicate Accounts(stats: seq<StateInfo>, rs: seq<ZipRecord>)
  {
    && StateKeys(stats) == FirstSeen(States(rs))
    && forall k :: 0 <= k < |stats| ==> AccountsFor(stats[k], rs)
  }

  /** A state's statistics that account for the records hold exactly the city hash the records prescribe. */
  lemma AccountsForCities(info: StateInfo, rs: seq<ZipRecord>)
    requires AccountsFor(info, rs)
    ensures info.cities == CityTotals(rs, info.state)
  {
    var names := FirstSeen(CitiesIn(rs, info.state));
    assert |info.cities| == |Names(info.cities)| == |names|;
    forall c | 0 <= c < |info.cities|
      ensures info.cities[c] == CityTotals(rs, info.state)[c]
    {
      assert Names(info.cities)[c] == names[c];
    }
  }

  /** Every state's total is the sum of its city totals. */
  ghost predicate Consistent(stats: seq<StateInfo>)
  {
    forall k :: 0 <= k < |stats| ==> stats[k].pop == Sum(stats[k].cities)
  }

  /** A fresh entry for a state: no population yet and no cities. */
  function NewStateInfoFor(state: string): (info: StateInfo)
    ensures info.state == state && info.pop == 0 && Names(info.cities) == []
  {
    StateInfo(state, 0, [])
  }

  /** A fresh entry accounts for every input in which its state has not yet occurred. */
  lemma FreshEntryAccounts(rs: seq<ZipRecord>, state: string)
    requires state !in States(rs)
    ensures AccountsFor(NewStateInfoFor(state), rs)
  {
    AbsentState(rs, state);
  }

  /** Looks up a state in the per-state hash (`memo[curr_state]`). */
  function FindState(stats: seq<StateInfo>, st: string): (r: Option<nat>)
    ensures r.None? <==> st !in StateKeys(stats)
    ensures r.Some? ==> r.value < |stats| && stats[r.value].state == st
  {
    if stats == [] then None
    else if stats[|stats| - 1].state == st then
      assert StateKeys(stats)[|stats| - 1] == st;
      Some(|stats| - 1)
    else
      assert StateKeys(stats) == StateKeys(stats[..|stats| - 1]) + [stats[|stats| - 1].state];
      FindState(stats[..|stats| - 1], st)
  }

  /** Looks up a city in a state's `cities` hash (`state_info.cities[curr_city]`). */
  function FindCity(cities: seq<CityPop>, city: string): (r: Option<nat>)
    ensures r.None? <==> city !in Names(cities)
    ensures r.Some? ==> r.value < |cities| && cities[r.value].name == city
  {
    if cities == [] then None
    else if cities[|cities| - 1].name == city then
      assert Names(cities)[|cities| - 1] == city;
      Some(|cities| - 1)
    else
      assert Names(cities) == Names(cities[..|cities| - 1]) + [cities[|cities| - 1].name];
      FindCity(cities[..|cities| - 1], city)
  }

  /**
   Adds `p` to the population of `city` in a `cities` hash, creating the
   entry at the end when the city is new: the same keys in the same order
   (plus the new one), only that city's value raised, the sum raised by `p`.
   */
  function AddCityPop(cities: seq<CityPop>, city: string, p: nat): (r: seq<CityPop>)
    requires Distinct(Names(cities))
    ensures Distinct(Names(r))
    ensures Names(r) == if city in Names(cities) then Names(cities) else Names(cities) + [city]
    ensures forall c :: 0 <= c < |r| ==>
              r[c].pop == (if c < |cities| then cities[c].pop else 0) + (if r[c].name == city then p else 0)
    ensures Sum(r) == Sum(cities) + p
  {
    var found := FindCity(cities, city);
    var cityPop := (if found.Some? then cities[found.value].pop else 0) + p;
    assert forall c :: 0 <= c < |cities| ==> Names(cities)[c] == cities[c].name;
    if found.Some? then
      var r := cities[found.value := CityPop(city, cityPop)];
      SumUpdate(cities, found.value, CityPop(city, cityPop));
      assert Names(r) == Names(cities);
      r
    else
      var r := cities + [CityPop(city, cityPop)];
      SumSnoc(cities, CityPop(city, cityPop));
      assert Names(r) == Names(cities) + [city];
      r
  }

  /** Statistics that account for `rs` still account for `rs + [r]` when `r` is of another state. */
  lemma OtherStateUnchanged(info: StateInfo, rs: seq<ZipRecord>, r: ZipRecord)
    requires AccountsFor(info, rs) && info.state != r.state
    ensures AccountsFor(info, rs + [r])
  {
    StateSnoc(rs, r, info.state);
    assert CitiesIn(rs + [r], info.state) == CitiesIn(rs, info.state);
    forall c | 0 <= c < |info.cities|
      ensures info.cities[c].pop == PairTotal(rs + [r], info.state, info.cities[c].name)
    {
      PairSnoc(rs, r, info.state, info.cities[c].name);
    }
  }

  /**
   The statistics of the record's state, once they have taken in the record
   (`state_info.pop += curr_pop` and the store into `state_info.cities`),
   account for the longer input.
   */
  lemma TakeInAccounts(info: StateInfo, rs: seq<ZipRecord>, r: ZipRecord)
    requires AccountsFor(info, rs) && info.state == r.state
    requires Distinct(Names(info.cities))
    ensures AccountsFor(StateInfo(info.state, info.pop + r.pop, AddCityPop(info.cities, r.city, r.pop)), rs + [r])
  {
    var cities := AddCityPop(info.cities, r.city, r.pop);
    StateSnoc(rs, r, r.state);
    assert Names(cities) == FirstSeen(CitiesIn(rs + [r], r.state)) by {
      FirstSeenSnoc(CitiesIn(rs, r.state), r.city);
      FirstSeenMembers(CitiesIn(rs, r.state));
    }
    forall c | 0 <= c < |cities|
      ensures cities[c].pop == PairTotal(rs + [r], r.state, cities[c].name)
    {
      CityTakesIn(info, rs, r, c);
    }
  }

  /** After the record is taken in, the city at position `c` holds the total of its (state, city) records. */
  lemma CityTakesIn(info: StateInfo, rs: seq<ZipRecord>, r: ZipRecord, c: nat)
    requires AccountsFor(info, rs) && info.state == r.state
    requires Distinct(Names(info.cities))
    requires c < |AddCityPop(info.cities, r.city, r.pop)|
    ensures var cities := AddCityPop(info.cities, r.city, r.pop);
            cities[c].pop == PairTotal(rs + [r], r.state, cities[c].name)
  {
    var cities := AddCityPop(info.cities, r.city, r.pop);
    var name := cities[c].name;
    PairSnoc(rs, r, r.state, name);
    assert Names(cities)[c] == name;
    if c < |info.cities| {
      assert Names(info.cities)[c] == info.cities[c].name;
    } else {
      assert PairTotal(rs, r.state, r.city) == 0 by {
        assert r.city !in CitiesIn(rs, r.state) by {
          FirstSeenMembers(CitiesIn(rs, r.state));
        }
        AbsentCity(rs, r.state, r.city);
      }
    }
  }

  /**
   Storing the updated statistics of a state that is already a key, in its
   place, gives a hash that accounts for the longer input.
   */
  lemma StoreExistingAccounts(stats: seq<StateInfo>, k: nat, updated: StateInfo, rs: seq<ZipRecord>, r: ZipRecord)
    requires Accounts(stats, rs) && Consistent(stats)
    requires k < |stats| && stats[k].state == r.state && updated.state == r.state
    requires AccountsFor(updated, rs + [r]) && updated.pop == Sum(updated.cities)
    ensures Accounts(stats[k := updated], rs + [r]) && Consistent(stats[k := updated])
  {
    var next := stats[k := updated];
    ExistingKeys(stats, k, updated, rs, r);
    forall j | 0 <= j < |next|
      ensures AccountsFor(next[j], rs + [r])
    {
      if j != k {
        KeysApart(stats, rs, j, k);
        OtherEntry(stats, rs, r, j);
      }
    }
  }

  /** Replacing the entry of the record's state keeps the keys, which are still the states first seen. */
  lemma ExistingKeys(stats: seq<StateInfo>, k: nat, updated: StateInfo, rs: seq<ZipRecord>, r: ZipRecord)
    requires StateKeys(stats) == FirstSeen(States(rs))
    requires k < |stats| && stats[k].state == r.state && updated.state == r.state
    ensures StateKeys(stats[k := updated]) == FirstSeen(States(rs + [r]))
  {
    StatesSnoc(rs, r);
    assert StateKeys(stats)[k] == r.state;
    assert r.state in States(rs) by {
      FirstSeenMembers(States(rs));
    }
    FirstSeenSnoc(States(rs), r.state);
    assert StateKeys(stats[k := updated]) == StateKeys(stats);
  }

  /** An entry of another state than the record's still accounts for the longer input. */
  lemma OtherEntry(stats: seq<StateInfo>, rs: seq<ZipRecord>, r: ZipRecord, j: nat)
    requires Accounts(stats, rs)
    requires j < |stats| && stats[j].state != r.state
    ensures AccountsFor(stats[j], rs + [r])
  {
    OtherStateUnchanged(stats[j], rs, r);
  }

  /** Two different positions of the hash hold different states. */
  lemma KeysApart(stats: seq<StateInfo>, rs: seq<ZipRecord>, j: nat, k: nat)
    requires StateKeys(stats) == FirstSeen(States(rs))
    requires j < |stats| && k < |stats| && j != k
    ensures stats[j].state != stats[k].state
  {
    FirstSeenDistinct(States(rs));
    assert StateKeys(stats)[j] == stats[j].state;
    assert StateKeys(stats)[k] == stats[k].state;
  }

  /**
   Appending the statistics of a state that is not yet a key gives a hash
   that accounts for the longer input.
   */
  lemma StoreNewAccounts(stats: seq<StateInfo>, updated: StateInfo, rs: seq<ZipRecord>, r: ZipRecord)
    requires Accounts(stats, rs) && Consistent(stats)
    requires r.state !in States(rs) && updated.state == r.state
    requires AccountsFor(updated, rs + [r]) && updated.pop == Sum(updated.cities)
    ensures Accounts(stats + [updated], rs + [r]) && Consistent(stats + [updated])
  {
    var next := stats + [updated];
    NewKeys(stats, updated, rs, r);
    forall j | 0 <= j < |next|
      ensures AccountsFor(next[j], rs + [r]) && next[j].pop == Sum(next[j].cities)
    {
      if j < |stats| {
        assert next[j] == stats[j];
        assert stats[j].state != r.state by {
          assert StateKeys(stats)[j] == stats[j].state;
          FirstSeenMembers(States(rs));
        }
        OtherEntry(stats, rs, r, j);
      }
    }
  }

  /** Appending the entry of a new state appends that state to the keys, as it is first seen. */
  lemma NewKeys(stats: seq<StateInfo>, updated: StateInfo, rs: seq<ZipRecord>, r: ZipRecord)
    requires StateKeys(stats) == FirstSeen(States(rs))
    requires r.state !in States(rs) && updated.state == r.state
    ensures StateKeys(stats + [updated]) == FirstSeen(States(rs + [r]))
  {
    StatesSnoc(rs, r);
    FirstSeenSnoc(States(rs), r.state);
    assert StateKeys(stats + [updated]) == StateKeys(stats) + [r.state];
  }

  /**
   The block of `each_with_object`: the statistics of the record's state
   (created when the state is new) take in the record, and nothing else
   changes.
   */
  method Tally(stats: seq<StateInfo>, r: ZipRecord, ghost rs: seq<ZipRecord>) returns (stats': seq<StateInfo>)
    requires Accounts(stats, rs) && Consistent(stats)
    ensures Accounts(stats', rs + [r]) && Consistent(stats')
    ensures TotalOf(stats') == TotalOf(stats) + r.pop
  {
    var found := FindState(stats, r.state);
    var k: nat;
    if found.None? {
      k := |stats|;
      stats' := stats + [NewStateInfoFor(r.state)];
    } else {
      k := found.value;
      stats' := stats;
    }
    ReadyToTakeIn(stats, rs, r, k, stats');
    var info := stats'[k];
    var updated := StateInfo(info.state, info.pop + r.pop, AddCityPop(info.cities, r.city, r.pop));
    StoreAccounts(stats, rs, r, k, stats', updated);
    stats' := stats'[k := updated];
  }

  /**
   The entry at position `k` is the record's state: a fresh entry appended
   when the state was not yet a key, or the existing one.
   */
  ghost predicate EntryFor(stats: seq<StateInfo>, r: ZipRecord, k: nat, grown: seq<StateInfo>)
  {
    || (k == |stats| && r.state !in StateKeys(stats) && grown == stats + [NewStateInfoFor(r.state)])
    || (k < |stats| && stats[k].state == r.state && grown == stats)
  }

  /** The entry of the record's state has distinct city names, so the record's city can be added to it. */
  lemma ReadyToTakeIn(stats: seq<StateInfo>, rs: seq<ZipRecord>, r: ZipRecord, k: nat, grown: seq<StateInfo>)
    requires Accounts(stats, rs) && EntryFor(stats, r, k, grown)
    ensures k < |grown| && Distinct(Names(grown[k].cities))
  {
    if k < |stats| {
      assert AccountsFor(stats[k], rs);
      FirstSeenDistinct(CitiesIn(rs, r.state));
    } else {
      assert grown[k] == NewStateInfoFor(r.state);
    }
  }

  /**
   Storing the entry of the record's state, once it has taken the record in,
   gives a hash that accounts for the longer input, stays consistent, and
   whose totals grow by the record's population.
   */
  lemma StoreAccounts(stats: seq<StateInfo>, rs: seq<ZipRecord>, r: ZipRecord, k: nat, grown: seq<StateInfo>, updated: StateInfo)
    requires Accounts(stats, rs) && Consistent(stats) && EntryFor(stats, r, k, grown)
    requires k < |grown| && Distinct(Names(grown[k].cities))
    requires updated == StateInfo(grown[k].state, grown[k].pop + r.pop, AddCityPop(grown[k].cities, r.city, r.pop))
    ensures Accounts(grown[k := updated], rs + [r]) && Consistent(grown[k := updated])
    ensures TotalOf(grown[k := updated]) == TotalOf(stats) + r.pop
  {
    if k < |stats| {
      ExistingStep(stats, rs, r, k, updated);
    } else {
      assert grown[k := updated] == stats + [updated];
      FreshStep(stats, rs, r, updated);
    }
  }

  /** A record of a state that is not yet a key: its fresh entry, having taken the record in, is appended. */
  lemma FreshStep(stats: seq<StateInfo>, rs: seq<ZipRecord>, r: ZipRecord, updated: StateInfo)
    requires Accounts(stats, rs) && Consistent(stats) && r.state !in StateKeys(stats)
    requires updated == StateInfo(r.state, r.pop, AddCityPop([], r.city, r.pop))
    ensures Accounts(stats + [updated], rs + [r]) && Consistent(stats + [updated])
    ensures TotalOf(stats + [updated]) == TotalOf(stats) + r.pop
  {
    assert r.state !in States(rs) by {
      FirstSeenMembers(States(rs));
    }
    FreshEntryAccounts(rs, r.state);
    TakeInStep(NewStateInfoFor(r.state), rs, r, updated);
    StoreNewAccounts(stats, updated, rs, r);
    TotalOfSnoc(stats, updated);
  }

  /** A record of a state that is already a key at position `k`: its entry takes the record in, in place. */
  lemma ExistingStep(stats: seq<StateInfo>, rs: seq<ZipRecord>, r: ZipRecord, k: nat, updated: StateInfo)
    requires Accounts(stats, rs) && Consistent(stats)
    requires k < |stats| && stats[k].state == r.state && Distinct(Names(stats[k].cities))
    requires updated == StateInfo(r.state, stats[k].pop + r.pop, AddCityPop(stats[k].cities, r.city, r.pop))
    ensures Accounts(stats[k := updated], rs + [r]) && Consistent(stats[k := updated])
    ensures TotalOf(stats[k := updated]) == TotalOf(stats) + r.pop
  {
    assert AccountsFor(stats[k], rs) && stats[k].pop == Sum(stats[k].cities);
    TakeInStep(stats[k], rs, r, updated);
    StoreExistingAccounts(stats, k, updated, rs, r);
    TotalOfUpdate(stats, k, updated);
  }

  /** The entry of the record's state, having taken the record in, accounts for the longer input and stays consistent. */
  lemma TakeInStep(info: StateInfo, rs: seq<ZipRecord>, r: ZipRecord, updated: StateInfo)
    requires AccountsFor(info, rs) && info.pop == Sum(info.cities)
    requires info.state == r.state && Distinct(Names(info.cities))
    requires updated == StateInfo(r.state, info.pop + r.pop, AddCityPop(info.cities, r.city, r.pop))
    ensures AccountsFor(updated, rs + [r]) && updated.pop == Sum(updated.cities)
  {
    TakeInAccounts(info, rs, r);
  }

  /**
   `collect_state_statistics`: folds the records into the per-state hash.
   Each distinct state of the input is a key exactly once; every state's
   total is the sum of its city totals and of its records; every city total
   is the sum of its (state, city) records; the totals of all states add up
   to the total of all records; and every state has at least one city.
   */
  method CollectStateStatistics(records: seq<ZipRecord>) returns (stats: seq<StateInfo>)
    ensures Accounts(stats, records)
    ensures Consistent(stats)
    ensures TotalOf(stats) == RecordTotal(records)
    ensures Distinct(StateKeys(stats))
    ensures forall st :: st in StateKeys(stats) <==> st in States(records)
    ensures forall k :: 0 <= k < |stats| ==> Distinct(Names(stats[k].cities)) && stats[k].cities != []
  {
    stats := [];
    var i := 0;
    while i < |records|
      invariant 0 <= i <= |records|
      invariant Accounts(stats, records[..i])
      invariant Consistent(stats)
      invariant TotalOf(stats) == RecordTotal(records[..i])
    {
      assert records[..i + 1] == records[..i] + [records[i]];
      RecordTotalSnoc(records[..i], records[i]);
      stats := Tally(stats, records[i], records[..i]);
      i := i + 1;
    }
    assert records[..i] == records;
    AccountsShape(stats, records);
  }

  /** What `Accounts` implies about the shape of the hash. */
  lemma AccountsShape(stats: seq<StateInfo>, rs: seq<ZipRecord>)
    requires Accounts(stats, rs)
    ensures Distinct(StateKeys(stats))
    ensures forall st :: st in StateKeys(stats) <==> st in States(rs)
    ensures forall k :: 0 <= k < |stats| ==> Distinct(Names(stats[k].cities)) && stats[k].cities != []
  {
    FirstSeenDistinct(States(rs));
    FirstSeenMembers(States(rs));
    forall k | 0 <= k < |stats|
      ensures Distinct(Names(stats[k].cities)) && stats[k].cities != []
    {
      var st := stats[k].state;
      assert StateKeys(stats)[k] == st;
      PresentStateHasCity(rs, st);
      FirstSeenDistinct(CitiesIn(rs, st));
      FirstSeenMembers(CitiesIn(rs, st));
      assert CitiesIn(rs, st)[0] in FirstSeen(CitiesIn(rs, st));
    }
  }

  /**
   The hash is determined by the input: two hashes that both account for
   the same records are equal (re-running the aggregation gives the same result).
   */
  lemma AccountsDetermines(a: seq<StateInfo>, b: seq<StateInfo>, rs: seq<ZipRecord>)
    requires Accounts(a, rs) && Accounts(b, rs)
    ensures a == b
  {
    assert |a| == |StateKeys(a)| == |StateKeys(b)| == |b|;
    forall k | 0 <= k < |a|
      ensures a[k] == b[k]
    {
      assert StateKeys(a)[k] == StateKeys(b)[k];
      var x, y := a[k].cities, b[k].cities;
      assert |x| == |Names(x)| == |Names(y)| == |y|;
      forall c | 0 <= c < |x|
        ensures x[c] == y[c]
      {
        assert Names(x)[c] == Names(y)[c];
      }
    }
  }

}
