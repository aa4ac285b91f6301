# jwp.fuzz parameter composition, modelled in Dafny

This project models the parameter-composition engine of the jwp fuzzer:

- `ParamGenerator`: a restartable value source for one parameter of the function under test. It is finite or infinite, and it hears back about every execution through `onComplete`.
- The `ParamProvider` strategies, which combine one generator per parameter into a stream of argument tuples:
  - `EvenAllParamChange`
  - `EvenSingleParamChange`
  - `AllPermutations`
  - `RandomSingleParamChange`
  - `Partitioned`, and `Suggested`, the default hybrid built from it
- The small pure helpers of `TestWriter`: the class-name splitting in `Config` and the test-method namer `SuccessOrFailCounted`.

## Layout

The model has two layers.

- **A pure layer** (`strategies.dfy`):
  - `Strategy` is a provider's configuration. `IterState` holds the fields of its live iterator.
  - `Fresh(strategy, gens)` is `iterator()`.
  - `Step(state, env)` is one `doNext()`. Its outcome is `Emit(tuple)`, `End` (the `null` that ends a `NullMeansCompleteIterator`) or `Throw(e)`.
  - `Run` is what a consumer of the iterator sees.
  - `Env` models `java.util.Random`: `nextInt(n)` is `draws(used) % n`.
- **Imperative classes** (`iterators.dfy`, `provider.dfy`). These mirror the Java iterators: arrays for `iters`, `completedOnce` and `iterIndices`, and `while`/`for` loops where the Java has loops. Each `DoNext` is proved to perform exactly one `Step` of the pure layer. The lemma modules (`evenall.dfy`, `evensingle.dfy`, `permutations.dfy`, `random.dfy`, `partitioned.dfy`, `suggested.dfy`) prove what each strategy promises about `Step`, `Fresh` and `Run`.

Generators are values (`generators.dfy`).

- `Finite(values)` or `Infinite(stream)`. A live Java iterator over a generator is a position into it.
- `iterator()` restarts at position 0. `hasNext()` is `HasAt(pos)` and `next()` is `At(pos)`.

Exceptions are outcomes, not preconditions:

| situation | outcome |
|---|---|
| an empty generator read eagerly | `NoSuchElementException` |
| `EvenSingleParamChange` over no generators | `IndexOutOfBoundsException` |
| `RandomSingleParamChange` over no generators | `IllegalArgumentException` (from `nextInt(0)`) |
| `AllPermutations` over an infinite generator | `IllegalStateException` |
| `onResult` with too short a `params` array | `IndexOutOfBoundsException` |

Where the comment and the code disagree, the code is followed. `Suggested` sends the finite generators at positions `index < 4` (among the finite ones) to `AllPermutations`, although its comment speaks of "the first 3".

## Model

| member | source | states |
|---|---|---|
| Generators.Of | fuzz/src/main/java/jwp/fuzz/ParamGenerator.java:66-80 | `of(items)` is a finite generator that yields exactly the items, in order, and nothing after them |
| Generators.MapNotNull | fuzz/src/main/java/jwp/fuzz/ParamGenerator.java:24-34 | the mapped generator keeps the base's infiniteness; a finite one yields the base's values through `fnTo` with nulls dropped; an infinite one yields `fnTo` of each base value |
| Generators.FilterMapAppend | fuzz/src/main/java/jwp/fuzz/ParamGenerator.java:28-31 | filtering a concatenation filters each part independently, so the mapped stream preserves the base's order |
| Generators.FilterMapMembers | fuzz/src/main/java/jwp/fuzz/ParamGenerator.java:28-31 | a value is yielded by the mapped generator iff some base value maps to it (both directions) |
| Generators.FilterMapTotal | fuzz/src/main/java/jwp/fuzz/ParamGenerator.java:28-31 | when `fnTo` never yields null, nothing is dropped: same length, and position i is the image of base value i |
| Generators.MappedFeedbackFromBase | fuzz/src/main/java/jwp/fuzz/ParamGenerator.java:37-39 | the mapped generator's `onComplete` reaches the base with the same result and index, and, when `fnFrom` inverts `fnTo`, with a value the base generator produced |
| Generators.RangeClosed | fuzz/src/main/java/jwp/fuzz/ParamGenerator.java:85 | `rangeClosed(lo, hi)` has `hi - lo + 1` elements and element i is `lo + i` |
| Generators.InterestingBytes | fuzz/src/main/java/jwp/fuzz/ParamGenerator.java:82-87 | 75 values, all within the byte range, containing -128, 64, 100, 127 and every value from -35 to 35 |
| Generators.InterestingShorts | fuzz/src/main/java/jwp/fuzz/ParamGenerator.java:89-94 | 85 values within the short range, the first 75 being the byte list |
| Generators.InterestingInts | fuzz/src/main/java/jwp/fuzz/ParamGenerator.java:96-101 | 93 values within the int range, the first 85 being the short list |
| Generators.InterestingLongs | fuzz/src/main/java/jwp/fuzz/ParamGenerator.java:103-108 | 95 values within the long range, the first 93 being the int list |
| Generators.InterestingListsNested | fuzz/src/main/java/jwp/fuzz/ParamGenerator.java:89-108 | each wider list starts with every narrower one (bytes within ints and longs, shorts within longs) |
| Generators.InterestingFloats | fuzz/src/main/java/jwp/fuzz/ParamGenerator.java:110-116 | the long list as doubles plus six special values: 101 floating-point values |
| Generators.InterestingDoubles | fuzz/src/main/java/jwp/fuzz/ParamGenerator.java:118-123 | the float list followed by three more values |
| Generators.SuggestedAsWritten | fuzz/src/main/java/jwp/fuzz/ParamGenerator.java:46-64 | `suggested` as written: fails exactly for char and unsupported classes, with the source's exception; every numeric class yields a one-element finite generator |
| Generators.Suggested | fuzz/src/main/java/jwp/fuzz/ParamGenerator.java:46-64 | the intended `suggested`: booleans are `{true, false}` (`null` first when boxed); each primitive numeric class yields its interesting list; char and other classes fail with the source's exception |
| Generators.SuggestedBoxedIsNullThenPrimitive | fuzz/src/main/java/jwp/fuzz/ParamGenerator.java:47-60 | for every supported kind, the boxed generator is `null` followed by exactly the primitive one |
| Generators.SuggestedAsWrittenWrapsIntended | fuzz/src/main/java/jwp/fuzz/ParamGenerator.java:49-60 | the as-written numeric generators yield one stream object wrapping the intended values; for `byte` that is one value instead of 75 |
| Strategies.Fresh | fuzz/src/main/java/jwp/fuzz/ParamProvider.java:82-311 | `iterator()` of every provider: on success a well-formed iterator whose tuples have one slot per generator |
| Strategies.FreshPartitioned | fuzz/src/main/java/jwp/fuzz/ParamProvider.java:82-109 | Partitioned's `iterator()` yields a well-formed iterator with the provider's arity |
| Strategies.Select | fuzz/src/main/java/jwp/fuzz/ParamProvider.java:87-95 | the index list the split loop builds holds indices below the loop bound |
| Strategies.SelectSpec | fuzz/src/main/java/jwp/fuzz/ParamProvider.java:87-95 | the split's index list is increasing, holds exactly the indices whose predicate result matches the side, and the two sides' sizes add up to the count |
| Strategies.SelectIncreasing | fuzz/src/main/java/jwp/fuzz/ParamProvider.java:87-95 | each side's index list is strictly increasing |
| Strategies.SelectMembers | fuzz/src/main/java/jwp/fuzz/ParamProvider.java:87-95 | an index below the bound is in a side's list iff the predicate's result on it matches the side (both directions) |
| Strategies.SelectSizes | fuzz/src/main/java/jwp/fuzz/ParamProvider.java:87-95 | the two sides' lists together hold one entry per index below the bound |
| Strategies.SelectPartitions | fuzz/src/main/java/jwp/fuzz/ParamProvider.java:83-95 | the true and false index lists together partition 0..n-1 |
| Strategies.Pick | fuzz/src/main/java/jwp/fuzz/ParamProvider.java:96-99 | the side's generator array has one generator per index in the side's list |
| Strategies.Scatter | fuzz/src/main/java/jwp/fuzz/ParamProvider.java:122-127 | the scattered tuple has the full arity |
| Strategies.Cartesian | fuzz/src/main/java/jwp/fuzz/ParamProvider.java:241-258 | the cartesian product has as many tuples as the product of the generator sizes, each with one slot per generator |
| Strategies.FlatMapLength | fuzz/src/main/java/jwp/fuzz/ParamProvider.java:247-255 | flat-mapping through equally sized results multiplies the length |
| Strategies.FlatMapMembers | fuzz/src/main/java/jwp/fuzz/ParamProvider.java:247-255 | flat-mapping keeps every tuple at the same width |
| Strategies.EvenAllLoop | fuzz/src/main/java/jwp/fuzz/ParamProvider.java:161-171 | EvenAll's per-index loop keeps one position and one flag per generator and emits a full-width tuple |
| Strategies.EvenSingleTake | fuzz/src/main/java/jwp/fuzz/ParamProvider.java:224-226 | taking the next value under the cursor always emits and keeps the iterator well-formed |
| Strategies.RestartDone | fuzz/src/main/java/jwp/fuzz/ParamProvider.java:218-221 | finding the generator under the cursor exhausted changes no other completion flag, and sets its own when the completion flag is on |
| Strategies.EvenSingleRestarts | fuzz/src/main/java/jwp/fuzz/ParamProvider.java:217-224 | a restart that neither ends the stream nor finds the generator empty takes its first value, whatever position the old iterator had reached |
| Strategies.EvenSingleStep | fuzz/src/main/java/jwp/fuzz/ParamProvider.java:212-227 | EvenSingle's `doNext` keeps the iterator well-formed over the same generators |
| Strategies.RandomMove | fuzz/src/main/java/jwp/fuzz/ParamProvider.java:291-306 | one pass of the do-while body emits or throws (never ends), leaves the seen set alone, and makes the emitted tuple the current params |
| Strategies.RandomAttempt | fuzz/src/main/java/jwp/fuzz/ParamProvider.java:288-308 | the do-while from a given attempt keeps the configuration; an emitted tuple becomes the current params and has full width |
| Strategies.TakeSide | fuzz/src/main/java/jwp/fuzz/ParamProvider.java:123-125 | a side's `next()` never ends the stream: a fresh iterator that is immediately empty throws NoSuchElementException |
| Strategies.HasNextSide | fuzz/src/main/java/jwp/fuzz/ParamProvider.java:113-120 | after `hasNext()` and a possible restart, a side that was not restarted and did not throw holds a full-width tuple |
| Strategies.PartStep | fuzz/src/main/java/jwp/fuzz/ParamProvider.java:112-128 | Partitioned's `doNext` keeps the iterator well-formed, with full-width tuples |
| Strategies.PartFalse | fuzz/src/main/java/jwp/fuzz/ParamProvider.java:116-127 | after the true side's check, the false side's `hasNext()` and restart keep the iterator well-formed and the completion flags set; emitted tuples have full width |
| Strategies.PartTake | fuzz/src/main/java/jwp/fuzz/ParamProvider.java:121-127 | the stream ends iff the stop flag is set and both sides have completed; the completion flags are kept |
| Strategies.PartTakeFalse | fuzz/src/main/java/jwp/fuzz/ParamProvider.java:125-127 | taking the false side never ends the stream and keeps the completion flags |
| Strategies.Step | fuzz/src/main/java/jwp/fuzz/ParamProvider.java:112-309 | every `doNext` keeps the iterator well-formed with the same arity; emitted tuples have one slot per generator |
| Strategies.Run | fuzz/src/main/java/jwp/fuzz/ParamProvider.java:147 | the consumer sees only tuples before the first null or exception, which ends the stream, and every tuple has full width |
| Strategies.RunEmits | fuzz/src/main/java/jwp/fuzz/ParamProvider.java:147 | an emitted tuple is followed by the stream from the iterator's next state |
| Strategies.RunStops | fuzz/src/main/java/jwp/fuzz/ParamProvider.java:147 | a null or an exception is the last thing the consumer sees |
| Strategies.RunCountsDown | fuzz/src/main/java/jwp/fuzz/ParamProvider.java:147 | a stream whose states carry a countdown to null from D is exactly D - 1 tuples and then null |
| Strategies.RunEmitsEnds | fuzz/src/main/java/jwp/fuzz/ParamProvider.java:147 | a tuple followed by a stream of D - 1 that ends in null makes a stream of D that ends in null |
| PartitionedLemmas.IndexOfIncreasing | fuzz/src/main/java/jwp/fuzz/ParamProvider.java:100-104 | in an increasing index list, the slot of the k-th entry is k |
| PartitionedLemmas.ScatterPlaces | fuzz/src/main/java/jwp/fuzz/ParamProvider.java:122-127 | the k-th value of each side lands at that side's k-th original index |
| PartitionedLemmas.SelectOneSide | fuzz/src/main/java/jwp/fuzz/ParamProvider.java:87-95 | when the predicate agrees everywhere, that side gets every index in order and the other gets none |
| PartitionedLemmas.PickAll | fuzz/src/main/java/jwp/fuzz/ParamProvider.java:96-97 | picking every index in order gives back the generator array |
| PartitionedLemmas.PartitionedAllFalse | fuzz/src/main/java/jwp/fuzz/ParamProvider.java:96 | with no true generators, Partitioned's iterator is the false provider's iterator over all generators |
| PartitionedLemmas.PartitionedAllTrue | fuzz/src/main/java/jwp/fuzz/ParamProvider.java:97 | with at least one generator and all of them true, it is the true provider's iterator over all generators |
| PartitionedLemmas.FreshIsFreshPartitioned | fuzz/src/main/java/jwp/fuzz/ParamProvider.java:82 | Partitioned's `iterator()` is the split construction |
| PartitionedLemmas.FreshTwoSided | fuzz/src/main/java/jwp/fuzz/ParamProvider.java:99-109 | with both sides non-empty, the sub-providers' iterators are built true side first; the first throw wins, else the two-sided iterator starts with neither side completed |
| PartitionedLemmas.PartitionedFresh | fuzz/src/main/java/jwp/fuzz/ParamProvider.java:83-109 | with both sides non-empty, `iterator()` succeeds iff both sub-providers' `iterator()` does; every index goes to exactly the side its predicate picks; each side's generators are taken in order |
| PartitionedLemmas.PartitionedStep | fuzz/src/main/java/jwp/fuzz/ParamProvider.java:112-128 | `doNext` returns null iff the stop flag is set and both sides have completed (counting this call's restarts); completion is never forgotten; an emitted tuple exists only when neither side's `hasNext()` threw and both sides' `next()` emitted; the sub-iterators move on to the states those `next()` calls leave; slot `trueIndices[k]` holds the k-th value of the true side's `next()` tuple and slot `falseIndices[k]` the k-th value of the false side's |
| PartitionedLemmas.PartitionedSteadyStep | fuzz/src/main/java/jwp/fuzz/ParamProvider.java:112-128 | when the stream is not stopped and both sub-iterators emit, one `doNext` emits, leaves the flags alone, moves each sub-iterator one `doNext` on, and puts the true side's k-th value at `trueIndices[k]` and the false side's at `falseIndices[k]` |
| PartitionedLemmas.HasNextSideSpec | fuzz/src/main/java/jwp/fuzz/ParamProvider.java:113-120 | a side restarts iff its own `doNext` returns null; without a restart the cached pull and state are that `doNext`'s; a restart either fails with the provider's `iterator()` error or starts the side's fresh iterator |
| PartitionedLemmas.TakeSideSpec | fuzz/src/main/java/jwp/fuzz/ParamProvider.java:123-125 | a side's `next()` returns the cached tuple unless the side was restarted; after a restart it is the fresh iterator's `doNext`, with a null turned into NoSuchElementException |
| PartitionedLemmas.TakeEmits | fuzz/src/main/java/jwp/fuzz/ParamProvider.java:121-126 | past both `hasNext()` checks, a tuple is emitted iff the stop test fails and both sides' `next()` emit |
| PartitionedLemmas.PartFalseStops | fuzz/src/main/java/jwp/fuzz/ParamProvider.java:117-121 | from the false side's check on: null iff the stop flag is set and both sides have completed, without a throw; the flags never clear |
| PartitionedLemmas.PartFalseSteps | fuzz/src/main/java/jwp/fuzz/ParamProvider.java:116-127 | from the false side's check on, an emitted tuple means the false side's `hasNext()` did not throw and both sides' `next()` emitted; the sub-iterators are the states those calls leave and the tuple is the scatter of exactly their two tuples |
| PartitionedLemmas.TakeScatters | fuzz/src/main/java/jwp/fuzz/ParamProvider.java:121-127 | an emitted tuple means both sides' `next()` emitted; the sub-iterators are the states those calls leave and the tuple is the scatter of exactly the two tuples they returned |
| PartitionedLemmas.TakeFalseScatters | fuzz/src/main/java/jwp/fuzz/ParamProvider.java:124-127 | once the true-side tuple is taken, a tuple is emitted iff the false side's `next()` emits; the false sub-iterator becomes the state that call leaves, the true one is kept, and the tuple is the scatter of the given true tuple with the false side's |
| PartitionedLemmas.PartitionedNoStopNeverEnds | fuzz/src/main/java/jwp/fuzz/ParamProvider.java:121 | without the stop flag the two-sided iterator never returns null |
| EvenAllLemmas.EvenAllLoopNoStop | fuzz/src/main/java/jwp/fuzz/ParamProvider.java:161-171 | without the completion flag the per-index loop never returns null |
| EvenAllLemmas.EvenAllNoStopNeverEnds | fuzz/src/main/java/jwp/fuzz/ParamProvider.java:163-165 | without the completion flag EvenAll's `doNext` never returns null |
| EvenAllLemmas.EvenAllIndexStep | fuzz/src/main/java/jwp/fuzz/ParamProvider.java:162-169 | one index of the loop in round t advances that generator cyclically and takes its value at `t mod size` |
| EvenAllLemmas.EvenAllLoopEmits | fuzz/src/main/java/jwp/fuzz/ParamProvider.java:161-171 | before the longest generator wraps, round t emits the tuple whose slot i is value `t mod size_i` |
| EvenAllLemmas.EvenAllLoopEnds | fuzz/src/main/java/jwp/fuzz/ParamProvider.java:161-166 | in round MaxSize the loop returns null, at the last of the longest generators |
| EvenAllLemmas.EvenAllStepEmits | fuzz/src/main/java/jwp/fuzz/ParamProvider.java:160-172 | a `doNext` in round t emits that round's tuple and moves to round t + 1 |
| EvenAllLemmas.EvenAllRunCons | fuzz/src/main/java/jwp/fuzz/ParamProvider.java:160-172 | before round MaxSize the consumer sees this round's tuple, then the stream from the next round |
| EvenAllLemmas.EvenAllRunEnds | fuzz/src/main/java/jwp/fuzz/ParamProvider.java:161-166 | in round MaxSize the stream ends at once |
| EvenAllLemmas.EvenAllRunStep | fuzz/src/main/java/jwp/fuzz/ParamProvider.java:159-172 | the stream from round t + 1 being the remaining tuples and the end, so is the stream from round t |
| EvenAllLemmas.EvenAllRunFrom | fuzz/src/main/java/jwp/fuzz/ParamProvider.java:159-172 | from round t on, the consumer sees the remaining rounds' tuples and then the end |
| EvenAllLemmas.EvenAllStream | fuzz/src/main/java/jwp/fuzz/ParamProvider.java:146-172 | over non-empty finite generators with the completion flag, the stream is exactly MaxSize tuples (slot i cycling through generator i) and then ends |
| EvenAllLemmas.EvenAllNoStopStream | fuzz/src/main/java/jwp/fuzz/ParamProvider.java:159-172 | without the flag, the stream cycles forever through the same tuples |
| EvenSingleLemmas.EvenSingleFresh | fuzz/src/main/java/jwp/fuzz/ParamProvider.java:199-216 | `iterator()` throws NoSuchElementException iff some generator is empty; otherwise the first tuple is every generator's first value, and the cursor stays at 0 |
| EvenSingleLemmas.EvenSingleLaterStep | fuzz/src/main/java/jwp/fuzz/ParamProvider.java:217-226 | a later call changes only the slot under the cursor, to that generator's next value (its first value after a restart), and moves the cursor on cyclically |
| EvenSingleLemmas.EvenSingleTakes | fuzz/src/main/java/jwp/fuzz/ParamProvider.java:223-224 | taking value p under the cursor changes that slot alone, to value p, and moves the cursor on cyclically |
| EvenSingleLemmas.EvenSingleEnds | fuzz/src/main/java/jwp/fuzz/ParamProvider.java:217-221 | the stream ends iff, with the completion flag set, the generator under the cursor is exhausted for the first time and every other generator has already completed (both directions) |
| EvenSingleLemmas.EvenSingleCountdown | fuzz/src/main/java/jwp/fuzz/ParamProvider.java:212-226 | after the first call with the completion flag, over non-empty finite generators: a call never throws; it returns null iff every not-yet-completed generator is due now; otherwise every pending generator moves one call closer to its due call and one that is not due stays pending |
| EvenSingleLemmas.CountdownBound | fuzz/src/main/java/jwp/fuzz/ParamProvider.java:212-226 | with latest due call D, the next call ends the stream only when D is 1, and otherwise emits and leaves a latest due call of D - 1 |
| EvenSingleLemmas.EvenSingleRunFrom | fuzz/src/main/java/jwp/fuzz/ParamProvider.java:212-226 | from a state whose latest due call is D, the stream is exactly D - 1 tuples and then null |
| EvenSingleLemmas.EvenSingleAfterFirst | fuzz/src/main/java/jwp/fuzz/ParamProvider.java:199-216 | the first call emits without drawing randomness; then the last of the longest generators is pending and due after EvenSingleLength calls, the latest of all |
| EvenSingleLemmas.EvenSingleLengthBound | fuzz/src/main/java/jwp/fuzz/ParamProvider.java:212-226 | the number of tuples is at most the generator count times the largest size |
| EvenSingleLemmas.EvenSingleStream | fuzz/src/main/java/jwp/fuzz/ParamProvider.java:199-226 | with the completion flag, over non-empty finite generators, `iterator()` succeeds and the stream is exactly EvenSingleLength tuples, at most n * MaxSize, and then null |
| EvenSingleLemmas.EvenSingleTwoThree | fuzz/src/main/java/jwp/fuzz/ParamProvider.java:199-226 | two generators of sizes 2 and 3 give six tuples and then null |
| EvenSingleLemmas.EvenSingleInfiniteNeverEnds | fuzz/src/main/java/jwp/fuzz/ParamProvider.java:212-226 | over infinite generators every call emits, except with zero generators after the first call |
| PermutationLemmas.PermsFresh | fuzz/src/main/java/jwp/fuzz/ParamProvider.java:241-245 | `stream()` throws IllegalStateException iff some generator is infinite; otherwise it iterates over the cartesian product |
| PermutationLemmas.PermsRun | fuzz/src/main/java/jwp/fuzz/ParamProvider.java:238 | iterating a materialised tuple list yields its tuples in order and then ends |
| PermutationLemmas.FlatMapAt | fuzz/src/main/java/jwp/fuzz/ParamProvider.java:247-255 | element `q*m + r` of a flat-map is element r of the q-th block |
| PermutationLemmas.CartesianSnoc | fuzz/src/main/java/jwp/fuzz/ParamProvider.java:247-255 | the product of the first i generators extends each tuple of the product of the first i - 1 with every value of generator i - 1 |
| PermutationLemmas.CartesianAt | fuzz/src/main/java/jwp/fuzz/ParamProvider.java:247-255 | tuple `q*k + r` of the product extends tuple q of the shorter product with value r of the last generator |
| PermutationLemmas.CartesianDigits | fuzz/src/main/java/jwp/fuzz/ParamProvider.java:243-256 | tuple j of the product takes, at slot i, the value at digit i of j in mixed radix: the first generator varies slowest and the last fastest |
| PermutationLemmas.PermsNoGenerators | fuzz/src/main/java/jwp/fuzz/ParamProvider.java:242 | with no generators, the stream is the one empty tuple |
| PermutationLemmas.PermsStream | fuzz/src/main/java/jwp/fuzz/ParamProvider.java:238-258 | over finite generators the stream is exactly the product of their sizes' worth of tuples, in cartesian order, then the end |
| PermutationLemmas.FlatMapOfMap | fuzz/src/main/java/jwp/fuzz/ParamProvider.java:247-255 | flat-mapping after a map equals mapping after the flat-map, when the blocks commute with the map |
| PermutationLemmas.FillPad | fuzz/src/main/java/jwp/fuzz/ParamProvider.java:250-254 | copying a partial tuple and setting its next slot equals extending the tuple and padding it with nulls |
| PermutationLemmas.JavaStreamPrefix | fuzz/src/main/java/jwp/fuzz/ParamProvider.java:242-256 | after i rounds of the loop, the Java stream is the product of the first i generators, padded with nulls |
| PermutationLemmas.JavaStreamStep | fuzz/src/main/java/jwp/fuzz/ParamProvider.java:247-256 | one round of the flatMap loop turns the padded product of the first i - 1 generators into that of the first i |
| PermutationLemmas.JavaStreamIsCartesian | fuzz/src/main/java/jwp/fuzz/ParamProvider.java:241-258 | the stream the flatMap loop builds is exactly the cartesian product, with no null left in any slot |
| RandomLemmas.RandomFirst | fuzz/src/main/java/jwp/fuzz/ParamProvider.java:287-297 | the first call: ends at once when maxDupe <= 0; otherwise throws NoSuchElementException when a generator is empty, else emits every generator's first value with the all-zero position vector, whose hash becomes the only seen hash |
| RandomLemmas.RandomMoveSettles | fuzz/src/main/java/jwp/fuzz/ParamProvider.java:292-306 | each pass keeps "slot i holds value iterIndices[i] of generator i"; after the first tuple a pass over at least one generator always emits and draws exactly one random number |
| RandomLemmas.RandomAttemptSettles | fuzz/src/main/java/jwp/fuzz/ParamProvider.java:288-308 | the do-while keeps that invariant; after the first tuple it never throws, and it gives up only after exactly `maxDupe - attempts` rejected draws |
| RandomLemmas.RandomStep | fuzz/src/main/java/jwp/fuzz/ParamProvider.java:287-309 | after the first tuple, `doNext` over at least one generator emits a tuple matching its position vector, or ends after exactly maxDupe draws, and never throws |
| RandomLemmas.RandomSeenBounded | fuzz/src/main/java/jwp/fuzz/ParamProvider.java:291-307 | the seen-hash set never grows beyond max(hashSetMaxBeforeReset, 1) |
| RandomLemmas.RandomEmitsUnseen | fuzz/src/main/java/jwp/fuzz/ParamProvider.java:291-307 | an emitted tuple's position-vector hash is now seen; only that hash was added, on top of what was kept; below the cap it was new |
| SuggestedLemmas.LeadingSplit | fuzz/src/main/java/jwp/fuzz/ParamProvider.java:44 | of the finite generators, positions 0..3 (as far as they exist) go to AllPermutations and the rest to RandomSingleParamChange, in order |
| SuggestedLemmas.EvenSingleOverInfiniteOk | fuzz/src/main/java/jwp/fuzz/ParamProvider.java:41 | EvenSingleParamChange's `iterator()` over infinite generators never throws |
| SuggestedLemmas.PermsOverFiniteOk | fuzz/src/main/java/jwp/fuzz/ParamProvider.java:45 | AllPermutations' `iterator()` over finite generators never throws |
| SuggestedLemmas.FixedFreshOk | fuzz/src/main/java/jwp/fuzz/ParamProvider.java:42-47 | the finite-side provider's `iterator()` never throws over finite generators |
| SuggestedLemmas.SuggestedFreshOk | fuzz/src/main/java/jwp/fuzz/ParamProvider.java:36-52 | Suggested's `iterator()` never throws: AllPermutations never receives an infinite generator |
| SuggestedLemmas.SuggestedRouting | fuzz/src/main/java/jwp/fuzz/ParamProvider.java:38-48 | with both kinds present, exactly the infinite generators go to EvenSingleParamChange and the finite ones to the nested provider; the stream stops once both sides have completed |
| Providers.Deliveries | fuzz/src/main/java/jwp/fuzz/ParamProvider.java:20-24 | `onResult` makes one `onComplete` call per generator that `params` reaches |
| Providers.EmittedTupleReachesEveryGenerator | fuzz/src/main/java/jwp/fuzz/ParamProvider.java:16-24 | fed back as an execution's params, a tuple the iterator emitted reaches every generator, each with its own slot's value |
| Providers.DeliveriesMapped | fuzz/src/main/java/jwp/fuzz/ParamProvider.java:20-24 | through a mapped generator, generator k's base receives `fnFrom(params[k])` at index k |
| Providers.Provider.constructor | fuzz/src/main/java/jwp/fuzz/ParamProvider.java:12-14 | the provider keeps its generator array; no feedback or close has happened yet |
| Providers.Provider.Iterator | fuzz/src/main/java/jwp/fuzz/ParamProvider.java:17 | a successful `iterator()` is well-formed with the provider's arity |
| Providers.Provider.OnResult | fuzz/src/main/java/jwp/fuzz/ParamProvider.java:20-24 | generators get `onComplete(result, i, params[i])` in index order; ArrayIndexOutOfBounds iff `params` is shorter than the generator array |
| Providers.Provider.Close | fuzz/src/main/java/jwp/fuzz/ParamProvider.java:27-29 | every generator is closed once, in index order |
| ProviderIterators.RandomSource.constructor | fuzz/src/main/java/jwp/fuzz/ParamProvider.java:267 | a random source that has not drawn yet |
| ProviderIterators.RandomSource.NextInt | fuzz/src/main/java/jwp/fuzz/ParamProvider.java:299 | `nextInt(bound)` throws IllegalArgumentException for bound 0 without drawing; otherwise returns the next draw mod bound and consumes it |
| ProviderIterators.AllCompleted | fuzz/src/main/java/jwp/fuzz/ParamProvider.java:154-157 | true iff every generator has completed once |
| ProviderIterators.EvenAllIterator.constructor | fuzz/src/main/java/jwp/fuzz/ParamProvider.java:147-152 | the new iterator is exactly the pure `iterator()` state: every position 0, nothing completed |
| ProviderIterators.EvenAllIterator.DoNext | fuzz/src/main/java/jwp/fuzz/ParamProvider.java:160-172 | the array loop returns exactly the pure `doNext` outcome and leaves exactly its next state |
| ProviderIterators.EvenSingleIterator.constructor | fuzz/src/main/java/jwp/fuzz/ParamProvider.java:193-197 | the iterator's state is given positions, the cursor at 0, first run pending, nothing completed |
| ProviderIterators.EvenSingleIterator.Open | fuzz/src/main/java/jwp/fuzz/ParamProvider.java:199-204 | the initializer loop throws NoSuchElementException iff the pure `iterator()` does; otherwise it builds exactly its state |
| ProviderIterators.EvenSingleIterator.DoNext | fuzz/src/main/java/jwp/fuzz/ParamProvider.java:212-227 | returns exactly the pure `doNext` outcome and leaves exactly its next state |
| ProviderIterators.EvenSingleIterator.Take | fuzz/src/main/java/jwp/fuzz/ParamProvider.java:223-224 | reading the next value under the cursor and moving the cursor matches the pure take |
| ProviderIterators.RandomSingleIterator.constructor | fuzz/src/main/java/jwp/fuzz/ParamProvider.java:280-284 | the new iterator is exactly the pure `iterator()` state |
| ProviderIterators.RandomSingleIterator.ReadAll | fuzz/src/main/java/jwp/fuzz/ParamProvider.java:292-297 | the first-call branch matches the pure body pass, without drawing a random number |
| ProviderIterators.RandomSingleIterator.ChangeOne | fuzz/src/main/java/jwp/fuzz/ParamProvider.java:298-306 | the random single change matches the pure body pass, including the draw it consumes |
| ProviderIterators.RandomSingleIterator.DoNext | fuzz/src/main/java/jwp/fuzz/ParamProvider.java:287-309 | the do-while returns exactly the pure `doNext` outcome, with its next state and random draws |
| ProviderIterators.Split | fuzz/src/main/java/jwp/fuzz/ParamProvider.java:83-95 | the split loop builds exactly the specified index lists and generator arrays for both sides |
| ProviderIterators.ScatterInto | fuzz/src/main/java/jwp/fuzz/ParamProvider.java:122-127 | the two copy loops fill the params array with exactly the specified scattered tuple, leaving no slot null |
| ProviderIterators.PartitionedIterator.constructor | fuzz/src/main/java/jwp/fuzz/ParamProvider.java:105-109 | the two-sided iterator's state is the given split with both sub-iterators |
| ProviderIterators.PartitionedIterator.Open | fuzz/src/main/java/jwp/fuzz/ParamProvider.java:82-109 | `iterator()` delegates, throws or builds the two-sided iterator exactly as the pure `iterator()` does |
| ProviderIterators.PartitionedIterator.DoNext | fuzz/src/main/java/jwp/fuzz/ParamProvider.java:112-128 | returns exactly the pure `doNext` outcome and leaves exactly its next state |
| ProviderIterators.PartitionedIterator.FalseSide | fuzz/src/main/java/jwp/fuzz/ParamProvider.java:116-127 | the false side's `hasNext()`, restart and the rest of `doNext` match the pure continuation |
| ProviderIterators.PartitionedIterator.Take | fuzz/src/main/java/jwp/fuzz/ParamProvider.java:121-127 | the stop test and both `next()` calls match the pure continuation |
| ProviderIterators.PartitionedIterator.TakeFalse | fuzz/src/main/java/jwp/fuzz/ParamProvider.java:125-127 | the false side's `next()` and the scatter match the pure continuation |
| TestWriting.LastIndexOf | fuzz/src/main/java/jwp/fuzz/TestWriter.java:139 | `lastIndexOf` is -1 iff the character is absent; otherwise it is the index of an occurrence with none after it |
| TestWriting.SimpleClassName | fuzz/src/main/java/jwp/fuzz/TestWriter.java:138-140 | the simple name is a dot-free suffix of the class name, the whole name when there is no dot, and otherwise exactly the part after the last dot |
| TestWriting.PackageName | fuzz/src/main/java/jwp/fuzz/TestWriter.java:142-144 | fails with StringIndexOutOfBoundsException iff the name has no dot; otherwise package + "." + simple name is the class name |
| TestWriting.Decimal | fuzz/src/main/java/jwp/fuzz/TestWriter.java:119-120 | the decimal rendering is a non-empty digit string, one digit exactly for numbers below 10 |
| TestWriting.DecimalValue | fuzz/src/main/java/jwp/fuzz/TestWriter.java:119-120 | reading the rendered counter back as decimal digits gives the counter |
| TestWriting.DecimalInjective | fuzz/src/main/java/jwp/fuzz/TestWriter.java:119-120 | different counters render differently |
| TestWriting.NamesDistinct | fuzz/src/main/java/jwp/fuzz/TestWriter.java:119-120 | two names with the same prefix are equal only when they have the same tag and counter |
| TestWriting.SuccessOrFailCounted.constructor | fuzz/src/main/java/jwp/fuzz/TestWriter.java:113-115 | both counters start at 0 and no name has been issued |
| TestWriting.SuccessOrFailCounted.Name | fuzz/src/main/java/jwp/fuzz/TestWriter.java:118-121 | a failure bumps only the failure counter and yields prefix + "Fail" + n; a success bumps only the success counter and yields prefix + "Success" + n; the name was never issued before |
| TestWriting.Config.constructor | fuzz/src/main/java/jwp/fuzz/TestWriter.java:129-131 | the one-argument Config uses a fresh SuccessOrFailCounted namer with prefix "test" |
| TestWriting.Config.WithNamer | fuzz/src/main/java/jwp/fuzz/TestWriter.java:133-136 | the two-argument Config keeps the class name and namer it is given |

## Left out

- Generators.InterestingFloats: floating-point values are opaque tokens. Only the list lengths and the double list's float prefix are modelled, not the float and double arithmetic or values such as NaN.
- Generators.InterestingDoubles: the same opaque tokens as the float list.
- Generators.MapNotNull: over an infinite base it requires that `fnTo` never yields null. Dropping values from an infinite stream would need a coinductive stream, which is not modelled.
- Generators.Of: `ofFixed` wraps one Java stream, which can be iterated only once. The model lets `iterator()` replay the values, as the providers expect when they restart a generator.
- Generators.SuggestedAsWritten: the stream object that `of(stream)` wraps is a token carrying the values. Whether a provider could iterate it is not modelled.
- A generator's own `onComplete` and `close()` bodies are not modelled. `Provider` records the calls it makes, and `MappedFeedback` shows how the mapped generator forwards feedback. The forwarding of `close()` by `mapNotNull` is not modelled.
- Providers.Provider.Close: a `close()` that throws, and so stops the loop, is not modelled.
- Strategies.Run: `Util.NullMeansCompleteIterator` is not part of this model. Run assumes that iteration stops at the first `null` or exception, and that `hasNext()` caches the pulled tuple.
- The `params` arrays the Java iterators reuse are sequences here, so every emitted tuple is a snapshot. A consumer that keeps a tuple and sees it change at the next `next()` (aliasing) is not captured.
- ProviderIterators.PartitionedIterator.DoNext: the two sub-iterators are values of the pure layer rather than objects. `java.util.Random` is threaded explicitly as `Env`.
- `java.util.Random` is reduced to a fixed sequence of draws, `nextInt(n)` being `draws(used) % n`. The linear congruential generator is not modelled.
- Strategies.RandomMove: after a first call that throws, Java's `params` array is non-null with some slots filled, so the next call would take the random branch. The model leaves `params` unset; the iterator is dead after a throw in practice.
- `Arrays.hashCode` is a parameter (`hash`), so collisions between different position vectors are whatever that function gives.
- TestWriting.SuccessOrFailCounted.Name: counters are unbounded. Java's `int` overflow after 2^31 - 1 names is not modelled.
- TestWriting.SuccessOrFailCounted.Name: `synchronized` is not modelled, nor is any other concurrency (for example parallel `onResult` calls).
- The list-to-array copy loops at `ParamProvider.java:100-104` are folded into `Split`, which returns sequences.
- `ExecutionResult` is reduced to the tuple (`params`) and whether the execution threw (`failed`).
- The JavaPoet code generation of `TestWriter`, `doubleQuotedString`, the output and every other kind of I/O are not modelled.

## Findings

| source | as written | input that shows it | evidently intended | confidence | as-written member | corrected member |
|---|---|---|---|---|---|---|
| fuzz/src/main/java/jwp/fuzz/ParamGenerator.java:49-60 | `of(interestingBytes())` passes a single stream to the varargs `of(T... items)`, so the generator yields one value, the stream object (likewise for every numeric class) | `suggested(byte.class)` | a finite generator over the stream's values (`ofFixed`), 75 bytes | not executed | Generators.SuggestedAsWritten | Generators.Suggested |
