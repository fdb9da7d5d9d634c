# A Dafny model of the time-indexed "brain" store

The bot keeps links and notes in a **brain**: an in-memory store keyed by string. Each
record (`thing`) holds a timestamp, a key and a payload. The brain keeps two structures
under one lock:

- `things`, a map from key to record, used by `Get`;
- `periodIndex`, a slice of records that `Remember` keeps sorted by timestamp. `GetInPeriod` queries it.

The operations are `Remember`, `Get`, `GetInPeriod`, `Forget` and `Each`. `Each` exists
only in `brain/brain.go`. `src/brain/brain.go` is an earlier copy of the same store
without `Each`, so one model covers both files. The table cites whichever copy a row
was checked against.

The model is functional. A `Brain` value is the pair (map, index), and each operation
is a pure function from the old value to the new one:

- `timespan.dfy` (`Timespan`): a period is a start and a duration in integer seconds. `ContainsTime` is the half-open test `start <= t < start + duration`. This agrees with the store's tests. The whole-year query from 2015-01-01 needs the start to be inside. The tests do not tell an open end from a closed one: the query whose span ends exactly at t1 returns nothing under either convention.
- `sort_search.dfy` (`SortSearch`): Go's `sort.Search` bisection. There is a recursive definition and Go's `i, j` loop, and a proof that they agree. The module also states what the bisection guarantees for any predicate, and what it guarantees for a monotone one.
- `brain.dfy` (`Brain`): the records, the store, the five operations, and the invariant `Valid`. `Valid` says the index is sorted and every record of the map is also in the index.
- `brain_scenarios.dfy` (`BrainScenarios`): the store's test cases, stated as lemmas over the model.
- `brain_fixed.dfy` (`BrainFixed`): the two gaps listed under "## Findings". Each gap has a concrete demonstration and a corrected definition with its intended property proved.

The model follows the code where the code differs from what the store is meant to do:

- `Remember` on an existing key leaves the old record in the index, so the index can hold several records for one key.
- `Forget` removes only the first index record with the key.
- `GetInPeriod` can miss records that lie inside the period.

None of these is smoothed over in `Brain`. "## Findings" and `BrainFixed` state each one and its correction.

## Model

| member | source | states |
|---|---|---|
| SortSearch.SearchRange | brain/brain.go:78-83 | The bisection of `sort.Search` over the window [i, j), written as recursion on the window: it halves the window at `h = (i + j) / 2` and returns a position inside [i, j]. What it keeps from step to step is stated by `SearchRangeIsBoundary`. |
| SortSearch.SearchRangeIsBoundary | brain/brain.go:78-83 | For any predicate, each bisection step keeps the record before the window false and the record at the window's end true. So the result is a boundary: f(r-1) is false (or r = 0), and f(r) is true (or r = n). |
| SortSearch.Search | brain/brain.go:78-83 | For ANY predicate, the index `sort.Search` returns is at most n and is a false-to-true boundary. No monotonicity is assumed. |
| SortSearch.SearchFindsFirst | brain/brain.go:78-83 | If the predicate is monotone over [0, n), the returned index is the first where it holds, and it holds at every later index. |
| SortSearch.SearchLoop | src/brain/brain.go:74-79 | Go's loop (`i, j := 0, n`, midpoint `h`, `i = h+1` or `j = h`) returns the same index as the bisection. |
| Brain.Valid | brain/brain.go:38-39 | The store invariant: the index is sorted by time, and every map entry is filed under its own key and is one of the index's records. It is the invariant `Remember` and `Forget` keep. |
| Brain.ValidIndexCoversMap | brain/brain.go:38-39 | Under the invariant the index holds at least as many records as the map has keys. Records under different keys differ, so each key has its own index record. |
| Brain.NewBrain | brain/brain.go:42-48 | The new store is empty, satisfies the invariant, and `Get` finds no key in it. |
| Brain.UpperBound | brain/brain.go:57 | Where sorting puts an appended record. Every record after that position is strictly later. The record just before it is no later. |
| Brain.Insert | brain/brain.go:56-57 | Append then sort. The result is one record longer and is a permutation of the old index plus the new record. On a sorted index the result is sorted, and the new record sits after every record with the same time and before every later one. |
| Brain.Remember | brain/brain.go:50-60 | The map entry for the key becomes the whole new record (time, key and payload), and every other entry stays as it was. So `Get(key)` returns `(payload, true)`, also when the key existed before, and no other key's lookup changes. The index grows by exactly one record even on overwrite. The invariant is preserved. |
| Brain.RememberLatestAppends | src/brain/brain.go:50-53 | A record no earlier than the last one in the index is appended at the end. |
| Brain.RememberKeepsStale | brain/brain.go:55-57 | Overwriting a key leaves both the replaced record and the new one in the index. |
| Brain.Get | brain/brain.go:62-72 | Found if and only if the key is in the map. When found, the payload is the stored record's. When missing, the payload is "". |
| Brain.ContainedAt | brain/brain.go:80-82 | The predicate handed to `sort.Search`. It holds at an index exactly when that record passes the reference filter of records inside the period, and never outside the index range. |
| Brain.ScanEnd | brain/brain.go:85-91 | The forward scan stops at the first record outside the period, or at the end. Every record it passed is inside the period. |
| Brain.GetInPeriod | brain/brain.go:74-94 | Whatever the index holds, the result is the payloads of a maximal run of index records inside the period, in index order. It is empty when no record is inside the period. |
| Brain.GetInPeriodLoop | src/brain/brain.go:70-90 | The code's search-then-loop-with-break computes `GetInPeriod`. |
| Brain.GetInPeriodAllOrNothing | brain/brain.go:78-91 | On a sorted index, the result is either empty or exactly the payloads of all records inside the period, in time order. |
| Brain.GetInPeriodCompleteWhenMonotone | brain/brain.go:78-91 | If every record from the first contained one onward is contained, the result is exactly the contained payloads. |
| Brain.FirstWithKey | brain/brain.go:105-106 | The position of the first index record with the key, or the index length when no record has it. |
| Brain.RemoveFirst | brain/brain.go:105-113 | Removes exactly the first record with the key and keeps the others in order. Leaves the index unchanged when no record has the key. |
| Brain.RemoveAtSorted | src/brain/brain.go:101-106 | Cutting one record out keeps a sorted index sorted and keeps every other record. |
| Brain.Forget | brain/brain.go:96-116 | On an absent key the store is unchanged. Otherwise the map loses exactly that key and keeps every other record as it was, `Get(key)` misses afterwards, and exactly the first index record with the key is cut out (one fewer record under the invariant). The invariant is preserved. |
| Brain.Call | brain/brain.go:123 | One visit: the visitor gets the stored record's time, its key and its payload. |
| Brain.VisitKeys | brain/brain.go:122-127 | Visits the keys in the given order. Every call before the last returned nil. A non-nil result is what the last call returned. A nil result means every key was visited and every call returned nil. |
| Brain.Each | brain/brain.go:118-130 | Over any enumeration of the map's keys: the result is nil if and only if the visitor returns nil for every record, and then it was called once per key. A non-nil result is the visitor's answer for some record. `Each` stops at the first non-nil answer: every earlier call in the enumeration returned nil, and the returned error is the answer of the last call made. |
| Brain.EachBreakVisitsOne | src/brain/brain_test.go:218-233 | On a non-empty store, a visitor that always returns `EachBreak` is called exactly once, and `EachBreak` is returned. |
| Brain.EachNeverStoppingVisitsAll | brain/brain.go:122-129 | A visitor that always returns nil is called once per key, and `Each` returns nil. |
| BrainScenarios.RememberAndGet | src/brain/brain_test.go:25-71 | Remember then Get returns the payload, and a missing key is not found. An overwrite returns the newer payload and leaves two index records. |
| BrainScenarios.RememberAllInTimeOrder | brain/brain.go:54-57 | Remembering records that are already in time order, starting from an empty store, leaves them in the index in exactly that order. Records with equal times keep the order they were remembered in. |
| BrainScenarios.RememberAllOneKey | brain/brain.go:54-55 | Remembering several records under one key leaves a single map entry, which holds the last record. |
| BrainScenarios.OneKeyFourTimesShape | src/brain/brain_test.go:186-205 | The `Each` test's store: four remembers of "k" leave one map entry, the 2015-02-02 record, and four index records. |
| BrainScenarios.FourThingsIndex | src/brain/brain_test.go:80-96 | Remembering t1, t2, t3, t4 in time order gives the index [t1, t2, t3, t4]. t3 comes after t2, which has the same time. |
| BrainScenarios.PartialCover | src/brain/brain_test.go:128-142 | A one-hour span at 2015-02-01 returns ["t2", "t3"] in that order. |
| BrainScenarios.CoverEverything | src/brain/brain_test.go:98-106 | A 365-day span from 2015-01-01 returns all four payloads. |
| BrainScenarios.CoverNothing | src/brain/brain_test.go:108-126 | 365-day spans from 2014-01-01 and from 2016-01-01 return nothing. The first one ends exactly at t1. |
| BrainScenarios.GetInPeriodScenario | src/brain/brain_test.go:73-143 | The four range queries of the test, on the store the test builds. |
| BrainScenarios.RememberThenForget | src/brain/brain_test.go:145-184 | After Remember then Forget, Get misses, and an hour from the record's time returns nothing. |
| BrainScenarios.EachOverOneKey | src/brain/brain_test.go:186-234 | Four remembers of one key leave one map entry and four index records. A nil visitor is called once and nil is returned. An `EachBreak` visitor is called once and `EachBreak` is returned. |
| BrainFixed.GetInPeriodMissesContained | brain/brain.go:78-91 | On records at 5 and 10, the span [5, 6) contains "a", yet `GetInPeriod` returns []. |
| BrainFixed.GetInPeriodFixed | brain/brain.go:74-94 | Corrected query: on any index the result is a maximal contained run. On a sorted index it is exactly the contained payloads, in time order. |
| BrainFixed.FixedAgreesWhenMonotone | src/brain/brain.go:74-89 | Wherever the original search predicate is monotone over a sorted index, the corrected query returns what the code returns. |
| BrainFixed.FixedScenario | src/brain/brain_test.go:98-142 | The range-query test's four expectations also hold for `GetInPeriodFixed`. |
| BrainFixed.ForgottenPayloadReappears | brain/brain.go:54-57 | Remember "k" twice, then Forget "k". Get misses, but a range query still returns the payload "b". |
| BrainFixed.ForgetKeepsConsistent | brain/brain.go:100-113 | Forget keeps the intended invariant: sorted, and the index holds exactly the map's records, one per key. |
| BrainFixed.RememberFreshKeepsConsistent | brain/brain.go:54-57 | Remembering a key that is not yet stored keeps the intended invariant. |
| BrainFixed.RememberReplacing | brain/brain.go:50-60 | Corrected overwrite (forget the key, then remember it). The map entry becomes the new record with its new time, as with `Remember`, and under the intended invariant that new record is in the index. It keeps the intended invariant. The index grows only for a new key. |
| BrainFixed.ConsistentOneRecordPerKey | brain/brain.go:38-39 | Under the intended invariant, each stored key has exactly one index record, and that record is the map's. |
| BrainFixed.ForgetPurges | brain/brain.go:96-116 | Under the intended invariant, Forget leaves no index record with the key. A range query can then only return records the map still holds. |

## Findings

| source | as written | input that shows it | evidently intended | confidence | as-written member | corrected member |
|---|---|---|---|---|---|---|
| brain/brain.go:78-91 (also src/brain/brain.go:74-87) | `sort.Search` gets the predicate "record inside the period". Over a sorted index that predicate is false, then true, then false again, so the bisection can land past the contained records. | Records at times 5 and 10, period [5, 6): the search tests index 1, moves right and returns 2, so the result is [] although "a" is inside the period. | Return every record inside the period, in time order. The correction searches for the first record not before the period's start, then scans. | high (not executed) | BrainFixed.GetInPeriodMissesContained | BrainFixed.GetInPeriodFixed |
| brain/brain.go:54-57 with 104-113 (also src/brain/brain.go:50-53 with 100-109) | `Remember` on an existing key appends a second index record and does not remove the old one. `Forget` removes only the first record with the key. | Remember(1, "k", "a"), Remember(2, "k", "b"), Forget("k"): Get("k") misses, but a range query over [0, 10) returns ["b"]. | One index record per stored key. A forgotten record never comes back. The correction forgets the key before remembering it. | high (not executed) | BrainFixed.ForgottenPayloadReappears | BrainFixed.RememberReplacing |

`Brain` models the code as written, including both gaps. The store's test scenarios in
`BrainScenarios` are proved as lemmas about `Brain`, the model of that code.
`BrainFixed.FixedScenario` shows that the range-query expectations also hold for the
corrected query.

## Left out

- The `sync.RWMutex` in both files is not modelled. Each operation is one atomic transition on an immutable value. The code guarantees less than that: `Get`, `GetInPeriod` and `Each` have value receivers (brain/brain.go:62, 74, 118), so the struct, including the index's slice header, is copied before the read lock is taken. Concurrent interleavings are out of scope.
- `time.Time` and `timespan.Span` are foreign types. Timestamps are integer seconds, and a span is a start plus a non-negative duration. Nanoseconds, time zones and negative durations are not modelled.
- Brain.Insert, Brain.Remember, BrainScenarios.RememberAllInTimeOrder: the model fixes the result of `sort.Sort` as a stable insertion, with the new record after every record of the same time. `sort.Sort` is not stable. Depending on the Go release and the slice length it may put records with equal times in another order, even on slices of a few records. Records at different times come out the same either way. The `InsertedAfterEquals` promise of `Remember`, and the order of equal-time records in `RememberAllInTimeOrder`, hold only for the stable insertion the model fixes.
- Brain.Insert: the model only inserts the new record into the index. On a sorted index that gives the same result as sorting the appended slice. On an unsorted index `sort.Sort` would sort every record, and `Insert` leaves the old records where they are. Under `Valid` the index is always sorted, so this case does not arise.
- Brain.Remember, Brain.Forget: the Go functions return an `error` that is always nil. The model returns only the new store.
- Brain.Each: Go's map iteration order is unspecified. The order is a parameter that must list every key exactly once. The visitor is a pure function of (time, key, payload). Side effects of the visitor, such as the test's counter, appear as the `visited` count in the result.
- Errors other than `EachBreak` are a single `Failure(msg)` case. Go compares errors by identity, and `EachBreak` is the distinguished `Break` case.
- The chat-bot dispatcher, the periodic dump and restore, and link extraction (robot/robot.go, src/robot/robot.go) are left out. They are I/O and goroutines that only call the store.
- The record manager goroutine and Telegram loop (src/cmd/read.go) and the `main` wiring (cmd/read/read.go) are left out. They are concurrency and I/O.
- The Medium client and the title and content formatting (publisher/medium.go, publisher/publisher.go) are left out. They are network and date-formatting code outside the store.
