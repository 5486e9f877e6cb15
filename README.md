# Zip code statistics

A model of the core of `challenge1.rb`, a zip code data processor. The
processor takes an array of zip code records. Each record has a state, a
city and a population. It answers three questions:

1. which states have a total population strictly above 10 million (`feature_1`);
2. what is the average city population of each state (`feature_2`);
3. which are the largest and the smallest city of each state (`feature_3`).

Answering them takes two steps.

- **Aggregation** (`collect_state_statistics`, `new_state_info_for`). This is
  one pass over the records into a hash keyed by state. Each value holds the
  state's running total and a hash from city name to summed population. This
  step is modelled imperatively, in `aggregator.dfy`:
  - Ruby hashes become insertion-ordered sequences with distinct keys.
  - `CollectStateStatistics` is a `while` loop over the records.
  - Its body, `Tally`, is the block of `each_with_object`.
  - Both are proved against `Accounts(stats, records)`, an independent
    description of the hash the records prescribe. It is built from
    specification functions in `records.dfy` that read the input one record
    at a time.
- **Reporting** (`process_statistics`, `feature_1`, `feature_2`, `feature_3`).
  This step sorts the statistics by state and derives the three answers. It
  is pure, and is modelled by functions and lemmas in `reporter.dfy`:
  - `string_order.dfy` models `String#<=>`.
  - `challenge.dfy` puts both steps together as `process_source_data`. It
    states every answer in terms of the records alone.
  - `scenarios.dfy` works out concrete inputs.

Two points of the code that the model keeps exactly:

- **Division.** Ruby's `Integer#/` floors. Populations are modelled as
  non-negative (`nat`), and on those flooring equals truncation, which is
  what Dafny's `/` computes.
- **Enumeration order of `cities`.** The tie-break of `max_by`/`min_by`
  follows the enumeration order of the `cities` hash, which in Ruby is
  insertion order. The model keeps that order and proves that ties go to
  the city first seen in the input.

## Model

| member | source | states |
|---|---|---|
| Aggregator.CollectStateStatistics | challenge1.rb:72-88 | The result accounts for the records: one key per distinct state, in first-seen order; each state total is the sum of its records; each city total is the sum of its (state, city) records. Each state total equals the sum of its city totals. The totals of all states add up to the total of all records. Every state has at least one city, with distinct names. |
| Aggregator.Tally | challenge1.rb:77-87 | Taking one more record into a hash that accounts for a prefix gives a hash that accounts for the longer prefix and stays consistent. The grand total grows by exactly the record's population. |
| Aggregator.NewStateInfoFor | challenge1.rb:131-135 | A fresh entry has the given state, population 0 and no cities. |
| Aggregator.FreshEntryAccounts | challenge1.rb:80-83 | A fresh entry is exactly right for a state that has not occurred in the records so far. |
| Aggregator.FindState | challenge1.rb:79 | `memo[curr_state]` finds nothing exactly when the state is not a key. Otherwise it finds a position holding that state. |
| Aggregator.FindCity | challenge1.rb:85 | `cities[curr_city]` finds nothing exactly when the city is not a key. Otherwise it finds a position holding that city. |
| Aggregator.AddCityPop | challenge1.rb:85-86 | Adding a population to a city keeps the keys distinct and in order. A new city is appended at the end. Only that city's value grows, by the population. The sum of the hash grows by the population. |
| Aggregator.TakeInAccounts | challenge1.rb:84-86 | After the record's state entry takes the record in, it accounts for the longer input. |
| Aggregator.OtherStateUnchanged | challenge1.rb:77-87 | The entry of any other state still accounts for the longer input, unchanged. |
| Aggregator.StoreExistingAccounts | challenge1.rb:79-86 | Replacing the entry of a state that is already a key, in its place, gives a hash that accounts for the longer input and stays consistent. |
| Aggregator.StoreNewAccounts | challenge1.rb:80-86 | Appending the entry of a new state gives a hash that accounts for the longer input and stays consistent. |
| Aggregator.AccountsShape | challenge1.rb:72-88 | In any hash that accounts for the records, the keys are distinct and are exactly the states of the records. Every entry has at least one city, with distinct names. |
| Aggregator.AccountsForCities | challenge1.rb:85-86 | A state entry that accounts for the records holds exactly the prescribed city hash. |
| Aggregator.AccountsDetermines | challenge1.rb:72-88 | Two hashes that account for the same records are equal, so the aggregation is determined by its input. |
| Records.AbsentState | challenge1.rb:79-83 | A state that does not occur in the records has total 0 and no cities. |
| Records.AbsentCity | challenge1.rb:85 | A city that does not occur for a state has total 0, the default the lookup falls back to. |
| Records.PresentStateHasCity | challenge1.rb:80-86 | A state that occurs in the records has at least one city record. |
| StringOrder.BelowTotal | challenge1.rb:91 | Of two different state names, one sorts before the other. |
| StringOrder.BelowTransitive | challenge1.rb:91 | The order of state names is transitive. |
| StringOrder.BelowAsymmetric | challenge1.rb:91 | No two state names sort before each other. |
| StringOrder.BelowIrreflexive | challenge1.rb:91 | No state name sorts before itself. |
| Reporter.SortByState | challenge1.rb:91 | The result is strictly ascending by state and is a permutation of the statistics. |
| Reporter.SortedUnique | challenge1.rb:91 | Two strictly ascending permutations of the same statistics are equal, so the answers do not depend on the sorting algorithm. |
| Reporter.LargeStates | challenge1.rb:105-108 | An entry is in the result exactly when some state has that id and population, and the population is strictly above 10,000,000. The result is ascending whenever the input is. |
| Reporter.AverageCityPops | challenge1.rb:111-115 | There is one entry per state, in the given order. Each holds the state's population divided by its number of cities. |
| Reporter.AverageTruncates | challenge1.rb:113 | The reported average is the truncated quotient: times the number of cities it is at most the population, and one more would exceed it. |
| Reporter.MaxByPop | challenge1.rb:121 | `max_by` returns a city whose population bounds all others from above. Every earlier city is strictly smaller, so ties go to the first. |
| Reporter.MinByPop | challenge1.rb:122 | `min_by` returns a city whose population bounds all others from below. Every earlier city is strictly larger, so ties go to the first. |
| Reporter.FirstMaxIsMaxBy | challenge1.rb:121 | Any first largest city is the one `max_by` picks. |
| Reporter.FirstMinIsMinBy | challenge1.rb:122 | Any first smallest city is the one `min_by` picks. |
| Reporter.ExtremesUnique | challenge1.rb:121-122 | A city hash has exactly one first largest and one first smallest city, so the tie-break is deterministic. |
| Reporter.ExtremeCities | challenge1.rb:118-128 | There is one entry per state, in the given order. Each holds a member of the state's cities that is first largest and one that is first smallest. |
| Reporter.ProcessStatistics | challenge1.rb:90-98 | Features 2 and 3 have exactly one entry per state of the statistics. |
| Reporter.LargeStatesReported | challenge1.rb:90-108 | Feature 1 holds exactly the states above the threshold, with their populations, in strictly ascending order of state. |
| Reporter.PerStateReported | challenge1.rb:90-98 | Features 2 and 3 are strictly ascending by state. Their i-th entries are the average and the extremes of the same state's statistics. |
| Reporter.EveryStateReported | challenge1.rb:90-98 | Every state of the statistics has an entry in features 2 and 3. |
| Challenge.LargeStatesOfRecords | challenge1.rb:65-67 | Feature 1 over the aggregated records holds exactly the states whose record total is above 10,000,000, each with that total. |
| Challenge.PerStateOfRecords | challenge1.rb:65-67 | Each entry of features 2 and 3 describes a state of the records. It holds the state's record total divided by its number of distinct cities, and its first largest and first smallest city by summed population. |
| Challenge.EveryStateOfRecords | challenge1.rb:65-67 | Every state of the records has an entry in features 2 and 3. |
| Challenge.ProcessSourceData | challenge1.rb:65-67 | It states all of the above in terms of the records alone: feature 1 exactly and ascending; features 2 and 3 one entry per distinct state, ascending, each describing its state. |
| Scenarios.NewYorkAndAlbany | challenge1.rb:77-87 | The records NY/NEW YORK 5574 and NY/ALBANY 100 give NY with 5674 and both cities in input order. NEW YORK is the largest city and ALBANY the smallest. |
| Scenarios.RepeatedCityAccumulates | challenge1.rb:85-86 | Two records of the same city (100 and 200) add up to 300 instead of overwriting. |
| Scenarios.EmptyInput | challenge1.rb:65-67 | No records give no statistics and three empty answers. |
| Scenarios.ThresholdIsStrict | challenge1.rb:106 | A state at exactly 10,000,000 is excluded. One at 10,000,001 is included. |
| Scenarios.AverageTruncated | challenge1.rb:113 | Population 10 over 3 cities averages 3. |
| Scenarios.SingleCity | challenge1.rb:111-125 | Any state whose only city is `c` averages `c`'s population, and `c` is both its largest and its smallest city. |

## Left out

- `Challenge1.perform`, `perform` and `acquire_source` read a JSON file (`DEFAULT_SRC_FILE_SPEC`, the top-level `cities` array). This is file I/O and parsing; the model starts from the array of records.
- The `rescue`/`raise` around reading the source is left out, because it only wraps I/O errors.
- The `STATE`, `CITY` and `POP` constants are the JSON keys of a record. They become the fields of `ZipRecord`.
- The `_id` and `loc` fields of a record are not read by the core and are not modelled.
- The `OpenStruct` results and the output hashes (`{ _id:, pop: }` and the like) are modelled as datatypes with the same fields.
- Records whose population is not a number (a String, or `nil` when the field is missing) are not modelled. Ruby raises inside `state_info.pop += curr_pop` on them; the model types the population as `nat`.
- Records with a missing `city` are not modelled. Ruby groups them under a `nil` city key without any error; the model types the city as `string`.
- Records with a missing `state` are not modelled. Ruby makes `nil` a state key, which raises only when `sort` compares it with another state; a sole `nil` state goes through. The model types the state as `string`.
- Records with a Float population are not modelled. Ruby adds it as a Float, and `feature_2` then divides in floating point; the model's populations are integers.
- Populations are non-negative (`nat`). With negative populations, Ruby's floor division would differ from truncation.
- Ruby integers are arbitrary precision, as Dafny's are, so there is no wrap-around to model.
- Aggregator.Tally: the `OpenStruct` entry and its `cities` hash are updated in place in Ruby. The model replaces the value in the sequence instead. Aliasing is not modelled, because each entry is reachable only through the hash.
- Reporter.SortByState: Ruby's `sort` algorithm is not modelled; insertion sort stands in. `SortedUnique` shows that every strictly ascending permutation is the same sequence.
- Reporter.AverageCityPops: requires every state to have a city. Ruby would raise `ZeroDivisionError` on an empty `cities` hash, but `CollectStateStatistics` proves that case cannot arise.
- Reporter.ExtremeCities: requires every state to have a city. `max_by` on an empty hash gives `nil`, on which `first` fails, but `CollectStateStatistics` proves that case cannot arise.
- Reporter.ProcessStatistics: requires distinct states with at least one city each. Both hold for the values of the aggregation's hash, as `CollectStateStatistics` proves.
- StringOrder.Below: compares characters by code point. For valid UTF-8 this is the order of Ruby's byte-wise comparison; string encodings are not modelled.
- The rest of the repository is not part of this model.
