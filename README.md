# LazySequence, modelled in Dafny

This project models the core of the C++ header library `LazySequence` and proves properties of the model.

- **The memoizing lazy sequence** (`LazySequence<T>`). It holds a materialized prefix, the *cache*. It may also have a *generation rule*: a function from the next index and the prefix computed so far to the value at that index.
  - `Get(i)` extends the cache one index at a time until `i` is covered.
  - Without a rule, an index past the cache is out of range.
  - `Map` builds a new sequence whose rule reads the source and applies a function.
- **The cursor** (`Generator<T>`). It holds a read position over one sequence. It reads forward (`GetNext`, `HasNext`, `TryGetNext`) and edits the sequence through the sequence's own operations (`Append`, `Insert` at the cursor's position, `Remove` by value).
- **The online statistics collector** (`StatisticsCollector<T>`). It keeps the count, the running sum, Welford's running mean and squared-deviation accumulator, and the extrema. It also keeps a two-heap running median: a max-heap `lower` holding the smaller half and a min-heap `upper` holding the larger half.
- **`CountSubstringFrequencies`**. It reads a character sequence through a cursor in one pass. A sliding window holds the last `k` characters, and every full window is counted.

Modules, one per file:

- `Outcomes` (`outcomes.dfy`): the error kinds, as `Result` and `Outcome` values.
  - `InvalidArgument` and `OutOfRange` stand for the `std::invalid_argument` and `std::out_of_range` exceptions the C++ code throws.
  - `IllegalState` is the model's own error for `Reduce` on a sequence with a rule. No code shown raises it.
- `LazySequences` (`lazy_sequence.dfy`): the class `LazySequence`, with the cache as a `seq` field and the rule as a `const` field.
  - `ValueAt` says what a read at an index answers.
  - `Grown` says what the cache looks like after the read.
  - `Get` is the source's `while` loop, proved against both.
- `Generators` (`generator.dfy`): the class `Generator`, with the fields `owner` and `index`.
- `SubstringFrequency` (`substring_frequency.dfy`): the counting method. Its loop is proved against `Frequencies(s, k)`, the tally of the length-`k` windows of `s`.
- `Statistics` (`statistics.dfy`):
  - The element type is `int32` (src/main.cpp:43 instantiates the collector with `int`). The sentinels are `INT_MAX` and `INT_MIN`.
  - The heaps are `seq`s in ascending order. The top of `lower` is its last entry and the top of `upper` is its first.
  - A ghost field `added` records every value added.
  - The sum, mean and `m2` are exact reals.
- `Examples` (`examples.dfy`): the repository's tests and demo as client methods, on the same inputs.
  - Values the programs assert: the twelve Fibonacci numbers (tests/tests.cpp:55-57), the edited sequence `[10, 15, 30, 40]` (tests/tests.cpp:78-79), the sum 10 (tests/tests.cpp:96), the counts of "ab" and "ba" (tests/tests.cpp:117-118), and the count, average, minimum and maximum of the statistics demo (src/main.cpp:62-65).
  - Values the programs only print: the 12 materialized Fibonacci entries (tests/tests.cpp:59), the median 3 and the variance 2.5 (src/main.cpp:58-59), and the empty squares sequence (tests/tests.cpp:102-103).
  - Values that follow from the library's intended behaviour on the same inputs and that no program reads: `MapLazinessExample` (index 2 of the squares), and in `AbabaFrequencies` that nothing but "ab" and "ba" is counted.

`StatisticsCollector.Valid()` is the collector's invariant:

- the heaps differ in size by at most one, in favour of `lower`;
- laid end to end, the heaps are `Arranged(added)`: the values added, in ascending order;
- the extrema are the least and greatest values added;
- the count, the sum and Welford's accumulators agree with `added`.

The heap properties the code relies on are lemmas about this invariant: ordering, ordering between the heaps, and the multiset union.

## Model

| member | source | states |
|---|---|---|
| LazySequences.LazySequence.constructor | include/LazySequence.h:17-20 | a sequence built from a rule (none by default) starts with an empty cache |
| LazySequences.LazySequence.FromItems | include/LazySequence.h:22-25 | a sequence built from a vector has exactly those items and no rule |
| LazySequences.LazySequence.Get | include/LazySequence.h:53-66 | answers `ValueAt(rule, old cache, index)` and leaves the cache `Grown(...)`; a cached index returns its entry and changes nothing; with no rule, an index past the cache is OutOfRange and changes nothing; otherwise the old prefix is kept, each new entry j is `rule(j, cache[..j])`, the cache ends with index + 1 entries and the result is its last entry; a rule failure is reported at the first index not covered |
| LazySequences.GrownExtends | include/LazySequence.h:60-64 | growing keeps the old prefix, and every entry added is the rule applied to the entries before it; nothing is generated for a cached index or without a rule |
| LazySequences.GrownOutcome | include/LazySequence.h:56-65 | a read succeeds exactly when the grown cache covers the index, and then returns the grown cache's entry there; a failure without a rule is OutOfRange with the cache unchanged |
| LazySequences.GrownIdempotent | include/LazySequence.h:56-65 | a repeated `Get(i)` answers the same and generates nothing more |
| LazySequences.ValueAtStable | include/LazySequence.h:56-65 | materializing never changes what any index reads afterwards |
| LazySequences.ValueAtFailsOnward | include/LazySequence.h:60-64 | once a read fails at an index, it fails the same way at every later index |
| LazySequences.LazySequence.GetFirst | include/LazySequence.h:69 | is `Get(0)`, with the same answer and the same effect on the cache |
| LazySequences.LazySequence.GetMaterializedCount | include/LazySequence.h:72-76 | is the cache length, and every index below it is served from the cache |
| LazySequences.LazySequence.HasGenerator | include/Generator.h:34 | true exactly when a rule is attached; without one, every index from the cache length on is out of range |
| LazySequences.LazySequence.Append | include/LazySequence.h:79-83 | the cache becomes `old + [value]`; the rule is a constant |
| LazySequences.LazySequence.InsertAt | include/Generator.h:66 | inserts at `index` when `index <= count`; otherwise OutOfRange and the cache is unchanged |
| LazySequences.LazySequence.RemoveValue | include/Generator.h:74 | removes the first entry equal to the value; reports a removal exactly when the value was present |
| LazySequences.RemoveFirstAt | include/Generator.h:74 | removing the first occurrence at position i keeps what comes before and after it, in order |
| LazySequences.RemoveFirstCount | include/Generator.h:74 | an absent value removes nothing; a present one removes exactly one copy and shortens the cache by one |
| LazySequences.LazySequence.Concat | include/Generator.h:58 | appends the other sequence's whole materialized prefix |
| LazySequences.LazySequence.Map | include/LazySequence.h:86-96 | returns a fresh sequence with an empty cache whose rule reads the source and applies f; the source is not touched |
| LazySequences.MappedRule | include/LazySequence.h:90-94 | the closure of `Map`: it fails exactly when the source's read at the requested index fails, with the same error; otherwise it gives f of the source's value; the mapped prefix it is handed makes no difference |
| LazySequences.GrownCompose | include/LazySequence.h:60-64 | growing the cache to j and then to i >= j is the same as growing it to i |
| LazySequences.SourceReadsGrown | include/LazySequence.h:92 | the C++ mapped read at idx reads the source at each index the mapped cache lacks, in order, stopping at the first failure; this leaves the source's cache as one `Get(idx)` on the source would (the model does not perform this growth; see Left out) |
| LazySequences.MappedValueAt | include/LazySequence.h:90-94 | a read of the mapped sequence is f of the source's read at the same index, and fails when that read fails |
| LazySequences.MappedGrowth | include/LazySequence.h:90-94 | every entry the mapped sequence memoizes is f of the source's value at that index |
| LazySequences.LazySequence.Reduce | tests/tests.cpp:94-95 | folds left over the materialized prefix; IllegalState while a rule is attached |
| LazySequences.FoldLeftAppend | tests/tests.cpp:94-95 | folding a concatenation folds the second part from the first part's result, which makes the loop a left fold |
| Generators.Generator.constructor | include/Generator.h:15-19 | the cursor reads owner, starting at startIndex |
| Generators.Generator.Create | include/Generator.h:15-19 | a null owner fails with InvalidArgument; otherwise a fresh cursor at startIndex |
| Generators.Generator.GetNext | include/Generator.h:21-28 | answers the owner's `Get(index)`, grows the owner's cache as `Get` does, and advances by exactly one on success; a failed read keeps the position |
| Generators.Generator.HasNext | include/Generator.h:30-37 | always true with a rule; otherwise true exactly when `index < count`, which is exactly when the next read is served from the cache; changes nothing |
| Generators.Generator.TryGetNext | include/Generator.h:39-44 | none and no change when there is no next value; otherwise exactly `GetNext` |
| Generators.Generator.Append | include/Generator.h:46-52 | appends to the owner; same cursor, same position |
| Generators.Generator.AppendSequence | include/Generator.h:54-60 | concatenates the other cache onto the owner; same cursor, same position |
| Generators.Generator.Insert | include/Generator.h:62-68 | inserts at the cursor's own position, so the item is read next; position unchanged; past the cache it is OutOfRange |
| Generators.Generator.Remove | include/Generator.h:70-76 | removes the owner's first equal entry, wherever the cursor stands; same cursor, same position |
| Generators.Generator.GetPosition | include/Generator.h:78 | is the index |
| Generators.Generator.Reset | include/Generator.h:79 | sets the index to newPos and touches only the cursor |
| Generators.CreateGenerator | include/Generator.h:82-86 | a fresh cursor over the sequence at startIndex |
| SubstringFrequency.CountSubstringFrequencies | tests/tests.cpp:14-32 | k = 0 is InvalidArgument and nothing is read; otherwise the result is `Frequencies(cache, k)` and the cache is unchanged |
| SubstringFrequency.Last | tests/tests.cpp:25-27 | the window: the last `min(k, read)` characters, never more than k |
| SubstringFrequency.SlideWindow | tests/tests.cpp:25-27 | pushing a character and dropping the front one once the window exceeds k keeps the window the last `min(k, read)` characters |
| SubstringFrequency.CountStep | tests/tests.cpp:28-29 | counting the window only when it is full counts exactly the windows ending at the character just read |
| SubstringFrequency.WindowsSnoc | tests/tests.cpp:24-29 | one more character adds exactly the window ending at it, once k characters have been read |
| SubstringFrequency.Bump | tests/tests.cpp:29 | `++freq[w]` (a missing entry counts as 0) adds one to w's count and changes no other count |
| SubstringFrequency.WindowsAt | tests/tests.cpp:22-31 | there are `n - k + 1` windows when `n >= k` and none otherwise; the window at p is `s[p..p + k]` |
| SubstringFrequency.TallyCounts | tests/tests.cpp:22-31 | the tally counts each substring exactly as often as it occurs; the keys are exactly the substrings that occur |
| SubstringFrequency.FrequenciesCount | tests/tests.cpp:22-31 | the count of each w is the number of positions whose window is w; every key has length k; there are `n - k + 1` windows counted in all, or none when `n < k` |
| Statistics.StatisticsCollector.constructor | include/StatisticsCollector.h:12 | count 0, empty heaps, min and max at the INT_MAX and INT_MIN sentinels; the invariant holds |
| Statistics.StatisticsCollector.Add | include/StatisticsCollector.h:15-53 | keeps the invariant; records the value; count goes up by exactly one; min and max move only to a smaller or larger value |
| Statistics.WelfordUpdate | include/StatisticsCollector.h:17-25 | the statements of Welford's update keep mean times count equal to the sum, and m2 equal to the sum of squares less mean times sum, for one more value |
| Statistics.MomentsStep | include/StatisticsCollector.h:17-25 | one Welford step keeps the moments in agreement with the values added |
| Statistics.WelfordStep | include/StatisticsCollector.h:22-25 | the algebra of one step: with `mean' = mean + (v - mean)/n'` and `m2' = m2 + (v - mean)(v - mean')`, the relations hold for n' values |
| Statistics.SecondMoment | include/StatisticsCollector.h:17-25 | after any number of updates, the mean is sum / count and m2 is the sum of squared deviations from it |
| Statistics.SquaredDeviationsExpand | include/StatisticsCollector.h:59 | the squared deviations from mu expand to the sum of squares, the sum and the count |
| Statistics.UpdateExtrema | include/StatisticsCollector.h:28-31 | a value below the minimum or above the maximum replaces it, so the extrema stay the least and greatest values added |
| Statistics.PushBalanced | include/StatisticsCollector.h:34-52 | pushing onto the right heap and moving at most one top across keeps the sizes balanced and the heaps together equal to the sorted values added |
| Statistics.PushLower | include/StatisticsCollector.h:34-36 | pushing onto `lower` (it is empty, or the value is at most its top) is inserting into the whole ascending arrangement |
| Statistics.PushUpper | include/StatisticsCollector.h:38-41 | pushing onto `upper` a value above the lower top is inserting into the whole arrangement |
| Statistics.MoveLowerTop | include/StatisticsCollector.h:43-47 | moving the lower top onto `upper` leaves the arrangement as it was |
| Statistics.MoveUpperTop | include/StatisticsCollector.h:48-52 | moving the upper top onto `lower` leaves the arrangement as it was |
| Statistics.InsertSortedAtEnd | include/StatisticsCollector.h:50 | pushing a value no smaller than every entry places it last |
| Statistics.InsertSorted | include/StatisticsCollector.h:36-50 | `priority_queue::push` (lines 36, 40, 45 and 50), with a queue held in ascending order: the pushed value goes before the first entry not smaller than it, and the queue grows by one entry |
| Statistics.InsertSortedSpec | include/StatisticsCollector.h:36 | a push keeps a queue ordered and adds exactly one copy of the value |
| Statistics.InsertSortedCount | include/StatisticsCollector.h:40 | a push adds exactly one copy and one entry |
| Statistics.ArrangedSpec | include/StatisticsCollector.h:34-52 | the arrangement of the values added is ordered, holds exactly those values and has one entry per value |
| Statistics.ArrangedSnoc | include/StatisticsCollector.h:34-52 | one more value is pushed into the arrangement of the earlier ones |
| Statistics.SortedUnique | include/StatisticsCollector.h:70-84 | two ordered sequences with the same values are equal |
| Statistics.HeapInvariants | include/StatisticsCollector.h:34-52 | after every Add: `\|lower\| - \|upper\|` is 0 or 1; each heap is ordered; every entry of `lower` is at most every entry of `upper`; the union of the two multisets is the multiset of the values added |
| Statistics.StatisticsCollector.GetCount | include/StatisticsCollector.h:55 | the number of values added |
| Statistics.StatisticsCollector.GetAverage | include/StatisticsCollector.h:57 | 0 before any value; otherwise the sum of the values added divided by their number |
| Statistics.StatisticsCollector.GetVariance | include/StatisticsCollector.h:59 | none exactly when count < 2; otherwise the squared deviations from the mean over count - 1 |
| Statistics.StatisticsCollector.HasStdDev | include/StatisticsCollector.h:61-65 | a standard deviation exists exactly when the variance does, that is, when count >= 2 |
| Statistics.StatisticsCollector.GetMin | include/StatisticsCollector.h:66 | the INT_MAX sentinel before any value; otherwise a value added that is at most every value added |
| Statistics.StatisticsCollector.GetMax | include/StatisticsCollector.h:67 | the INT_MIN sentinel before any value; otherwise a value added that is at least every value added |
| Statistics.StatisticsCollector.GetMedian | include/StatisticsCollector.h:70-84 | none exactly when count = 0; otherwise the median of the values added in ascending order, computed from the heap tops |
| Statistics.MedianOfAdded | include/StatisticsCollector.h:70-84 | the running median is the median of any ordered arrangement of the values added, whatever order they arrived in |
| Examples.FibRule | tests/tests.cpp:39-46 | the Fibonacci rule: asked for the index just past a cache holding the Fibonacci numbers before it, it gives the next one; it fails, with OutOfRange, exactly when the index is at least 2 and the cache is shorter than the index (the C++ lambda reads out of bounds there) |
| Examples.FibonacciExample | tests/tests.cpp:36-61 | twelve reads through a cursor give 0, 1, 1, 2, 3, 5, 8, 13, 21, 34, 55, 89, and 12 entries are materialized |
| Examples.ReadAll | tests/tests.cpp:18-24 | on a rule-free sequence, `while HasNext: GetNext` from position 0 yields exactly the cached values in order, then stops |
| Examples.ModifyExample | tests/tests.cpp:63-84 | from [10, 20, 30] at position 1: Insert(15), Append(40), Remove(20) give [10, 15, 30, 40] |
| Examples.MapReduceExample | tests/tests.cpp:86-105 | mapping squares materializes nothing; the sum of [1, 2, 3, 4] is 10 and the source is unchanged |
| Examples.MapLazinessExample | include/LazySequence.h:86-96 | reading the squares at index 2 answers 9 and memoizes 1, 4 and 9; the source is unchanged |
| Examples.TallyAlternating | tests/tests.cpp:28-29 | two different windows seen alternately twice are counted twice each, and nothing else is counted |
| Examples.AbabaFrequencies | tests/tests.cpp:117-118 | "ababa" with k = 2 counts "ab" twice and "ba" twice, and nothing else |
| Examples.SubstringExample | tests/tests.cpp:107-126 | the counting method on "ababa" with k = 2 gives "ab" 2 and "ba" 2 |
| Examples.AddAll | src/main.cpp:51-52 | adding values one by one records exactly those values and keeps the invariant |
| Examples.ExampleArranged | src/main.cpp:44 | 5, 1, 3, 2, 4 arrange to 1, 2, 3, 4, 5 |
| Examples.ExampleMedian | src/main.cpp:58 | after adding 5, 1, 3, 2, 4 the median is 3 |
| Examples.ExampleMoments | src/main.cpp:56-59 | after adding 5, 1, 3, 2, 4 the average is 3 and the variance is 2.5 |
| Examples.ExampleExtrema | src/main.cpp:64-65 | after adding 5, 1, 3, 2, 4 the minimum is 1 and the maximum is 5 |
| Examples.StatisticsExample | src/main.cpp:40-67 | adding 5, 1, 3, 2, 4 gives count 5, min 1, max 5, median 3, average 3 and variance 2.5 |

## Left out

- Locking (`std::mutex`, `lock_guard`) and the move constructor and move assignment of `LazySequence`. The model is single-threaded and has no resource management.
- `include/Stream.h` (`ReadOnlyStream`) is not part of this model. It is file, console and callback input.
- The demo driver in `src/main.cpp` and the printing in the tests are not modelled. Their expected values appear in `Examples`.
- Floating point: `sum`, `mean`, `m2`, the median's `(a + b) / 2.0` and the average are exact reals. Rounding is not modelled.
- Statistics.StatisticsCollector.HasStdDev: reports only whether `GetStdDev` has a value. The square root itself is not modelled.
- LazySequences.LazySequence.Map: a read of a mapped sequence does not grow the source's cache in the model. In C++ the closure calls `self->Get(idx)`, and when the source has a rule it grows the source's cache to `Grown(source rule, source cache, idx)`, so the source's `GetMaterializedCount()` changes. `SourceReadsGrown` states what that cache becomes. What the source answers at every index is the same either way (`ValueAtStable`).
- Object lifetime is not modelled: neither the `self` address that `Map` captures nor the cursor's non-owning `owner`. `Map`'s rule reads the source's rule and cache as they were when `Map` was called. `ValueAtStable` shows that reads of the source never change what it answers, but a later `Append`, `InsertAt` or `RemoveValue` on the source is not seen by an already mapped sequence. In C++ it would be.
- The cursor methods' `!owner` checks after construction (`runtime_error`, and `HasNext` returning false) cannot fire once construction has succeeded. They are not modelled.
- The tests name the rule type `LazySequence<T>::GenFunc`, but the header calls it `Generator`. The model has one rule type, `Rule<T>`.
- `Map` calls the non-const `Get` through `const LazySequence<T> *self`. The model's mapped rule only reads the source (see the `Map` line above).
- `MappedRule`, `MappedValueAt`, `MappedGrowth` and `Map` take a mapped element type without references (`U(!new)`), so that the rule's contract can quantify over mapped prefixes. C++ value types are of this kind.
- `long long` overflow in the Fibonacci example is not modelled; values are unbounded integers. The rule's out-of-range answer, for an index beyond the cache it is given, is never used, because `Get` always asks for the index just past the cache.
- `HasGenerator`, `InsertAt`, `RemoveValue`, `Concat` and `Reduce` are not declared in include/LazySequence.h; they are called at include/Generator.h:34,58,66,74 and tests/tests.cpp:94. Their behaviour is the model's choice, read from the call sites:
  - `InsertAt` past the cache is OutOfRange, and `RemoveValue` removes the first equal entry.
  - `Reduce` refuses a sequence with a rule, with IllegalState. The tests only fold rule-free sequences.
- `CreateGenerator` is defined outside the class (include/Generator.h:82-86), but it is not declared in the class in include/LazySequence.h, and it is called in none of the files modelled.
- `Prepend`, `GetLast` and `Where` are not in include/LazySequence.h and are not modelled.
- The element type of the statistics collector is fixed to `int32`, since src/main.cpp:43 instantiates it with `int`.
- SubstringFrequency.CountSubstringFrequencies: requires a sequence without a rule, and leaves out both things the C++ does with one.
  - With a rule that never fails, `HasNext` is always true and the loop never ends.
  - With a rule that fails, the loop reads until a read fails and then the exception propagates out of the count. For example, a `Map` over a rule-free sequence of n characters throws `out_of_range` at index n (tests/tests.cpp:24, include/Generator.h:25, include/LazySequence.h:92 and 59).
- SubstringFrequency.FrequenciesCount: states that the counts add up to `n - k + 1` as the size of the multiset of windows. The map's values are not summed.
- A rule that fails midway: `Get` keeps the entries generated before the failing index, as the code's `push_back` loop does (include/LazySequence.h:60-64). The model does not roll back a failed read, which an all-or-nothing reading of `Get` would call for.
