# C++ teaching snippets, modelled in Dafny

The repository is a set of independent C++20 exercise programs, one per
chapter. Each program demonstrates one part of the language or the standard
library. This project models the sequential logic of ten of them, one Dafny
module per source file, and proves what each program computes:

| module | source | what it is |
|---|---|---|
| `Containers` | codes/ch11.cpp | filling a vector with 0..cnt-1; case-insensitive letter counting into an `unordered_map`, sorted by count, with the top five reported; a `TaskQueue` over `std::list` with `addTask` and `removeTask` |
| `Coroutines` | ch10.cpp | a lazy `Generator<T>` over a coroutine handle, and three coroutine bodies: even numbers up to n, five fixed names, the first n Fibonacci numbers |
| `Statistics` | ch9-1.cpp | class `statistics`, which cuts a vector into `nThread` proportional chunks `[i*n/k, (i+1)*n/k)`, runs a function on each chunk and combines the results into max, min or an even count |
| `ChunkedSum` | ch7-6.cpp | a whole-vector sum compared with the sum of per-chunk sums; `chunk_size = size / num_threads`, and the last chunk takes the remainder |
| `MoveSemantics` | codes/ch14.cpp | a `Task` with copy and move constructors and a move assignment that marks the moved-from object with id -1; `constexpr square` |
| `ConstMutable` | ch15.cpp | a `Timer` whose `const call()` increments a `mutable` counter; squaring a vector in place with `std::transform` |
| `OptionalViews` | codes/ch8.cpp | `parseId`, which returns `std::optional<int>`; the `views::filter` / `views::transform` pipeline |
| `Templates` | ch5.cpp | the function templates `maxOfThree`, `retFirst`, `retSecond` and the integral-only `isEven` |
| `AlgorithmDemos` | codes/ch3.cpp | `std::iota`, `std::for_each` with printing and accumulating lambdas, a sort by string length, a toggled ascending/descending sort, an in-place doubling |
| `Lambdas` | ch6.cpp | a descending sort, `count_if` by word length, and a `transform` into a second vector |

Three modules hold what several programs share:
- `CppInt`: the 32-bit `int` range, C++'s truncating `%`, the `int` to `size_t` conversion, and division lemmas.
- `SeqOps`: sequence folds standing for `std::accumulate`, `count_if`, `max_element`, `min_element`, `views::filter` and `views::transform`.
- `Algorithms`: `std::sort` with a key comparator, and `std::transform`.

Modelling choices:
- State that the source changes in place is a Dafny `class` whose methods
  carry `modifies`:
  - `TaskQueue.tasks`, a `seq` standing for the `std::list`;
  - the generator's resume count and promise value;
  - `Task.id` in ch14;
  - `Timer.cnt`.
- Vectors that are sorted or transformed in place are `array`s.
- Everything a program only computes is a function, or a method with the
  source's loop.
- `std::async` tasks and futures are modelled as the values they compute,
  produced sequentially in the order the source collects them.
- Where a program prints, the model returns the sequence of printed values.

## Model

| member | source | states |
|---|---|---|
| CppInt.CppRem | ch5.cpp:22 | C++ `%` with a positive divisor: the remainder is smaller than the divisor in absolute value, has the sign of the dividend, and differs from the dividend by a multiple of the divisor, which together fix it as the truncating remainder |
| CppInt.CppRemParity | ch5.cpp:22 | the test `n % 2 == 0` reads the same under C++ truncation and Euclidean remainder; a C++ odd remainder is never 0 |
| CppInt.ToSizeT | codes/ch3.cpp:61 | the conversion of `int` to `size_t` in `word.size() > count`: non-negative values are kept, negative ones wrap to value + 2^64 |
| SeqOps.Square | codes/ch14.cpp:43-45 | `square(x)` is never negative and is 0 only for 0 |
| SeqOps.CountIf | ch6.cpp:34-36 | `count_if` counts at most as many elements as the range has |
| SeqOps.Filter | codes/ch8.cpp:73 | `views::filter` keeps as many elements as `count_if` counts; every kept element comes from the input and passes |
| SeqOps.FilterKeeps | codes/ch8.cpp:73 | every passing input element is kept, so with `Filter`'s own contract the result is exactly the passing elements |
| SeqOps.FilterAppend | codes/ch8.cpp:73 | filtering distributes over concatenation: kept elements stay in their original relative order |
| SeqOps.FilterSingleton | codes/ch8.cpp:73 | a one-element range is kept exactly when its element passes |
| SeqOps.FilterAllKept | codes/ch11.cpp:70 | when every element passes, filtering changes nothing |
| SeqOps.FilterAllRejected | codes/ch3.cpp:60-64 | when no element passes, nothing is kept |
| SeqOps.Map | codes/ch8.cpp:74 | `views::transform` keeps the length and applies the function at each position |
| SeqOps.MapAppend | codes/ch8.cpp:74 | transforming distributes over concatenation |
| SeqOps.SeqMax | ch9-1.cpp:30 | `*max_element` of a non-empty range is an element of it and no element is larger |
| SeqOps.SeqMin | ch9-1.cpp:36 | `*min_element` of a non-empty range is an element of it and no element is smaller |
| SeqOps.Slices | ch9-1.cpp:55 | cutting at boundaries gives one chunk per adjacent pair of boundaries, chunk i running from boundary i to boundary i+1 |
| SeqOps.SlicesTile | ch7-6.cpp:27-29 | chunks cut at boundaries that run from 0 to n without decreasing concatenate, in order, to the whole range: no gap and no overlap |
| SeqOps.SumAppend | ch7-6.cpp:29 | `accumulate` over a concatenation is the sum of the two accumulates |
| SeqOps.CountIfAppend | ch9-1.cpp:42 | `count_if` over a concatenation is the sum of the two counts |
| SeqOps.SumFlatten | ch7-6.cpp:32-35 | the sum of the per-chunk sums is the sum of the concatenated chunks |
| SeqOps.CountIfFlatten | ch9-1.cpp:40-44 | the sum of the per-chunk counts is the count over the concatenated chunks |
| SeqOps.FlattenMember | ch9-1.cpp:28-39 | a value occurs in the concatenation exactly when it occurs in some chunk |
| SeqOps.EvensOfOneTo | codes/ch3.cpp:19-25 | the even numbers among 1..n are 2, 4, ..., 2*(n/2), in increasing order |
| SeqOps.SumOneTo | codes/ch3.cpp:49-53 | 1 + 2 + ... + n == n(n+1)/2 |
| Algorithms.Swap | codes/ch11.cpp:46 | a swap exchanges two elements, leaves the rest alone, and keeps the multiset of elements |
| Algorithms.SortBy | codes/ch11.cpp:46-48 | `std::sort` with comparator `key(a) > key(b)` (or `<`) leaves a permutation of the input in which no later element compares strictly before an earlier one |
| Algorithms.Transform | codes/ch3.cpp:41-43 | `std::transform` writes f of each source element into the same position of the destination, which may be the source itself; the rest of the destination, and a distinct source, are unchanged |
| Algorithms.SortedUnique | codes/ch3.cpp:72-80 | two int sequences sorted in the same direction with the same elements are equal, so a sort by `<` or `>` has one outcome |
| Algorithms.SortedHead | codes/ch3.cpp:72-74 | the first element of a sorted sequence is ordered before every element |
| Algorithms.PermutationDistinct | codes/ch11.cpp:46-48 | `std::sort` only reorders, so a vector without repeated entries has none after sorting |
| Containers.FillSequential | codes/ch11.cpp:20-22 | after the push_back loop the vector holds 0, 1, ..., cnt-1 (nothing for cnt <= 0) |
| Containers.ToLower | codes/ch11.cpp:41 | `tolower` maps each upper-case letter to the lower-case letter at the same place in the alphabet and leaves every other character alone |
| Containers.KeyIgnoresCase | codes/ch11.cpp:39-41 | a letter and its upper-case form are counted under the same key |
| Containers.Increment | codes/ch11.cpp:41 | `word_count[k]++` adds k if absent, raises its count by one, and leaves every other entry as it was |
| Containers.CountLetters | codes/ch11.cpp:37-43 | the counting loop builds the letter-count map of the paragraph |
| Containers.LetterCountsKeys | codes/ch11.cpp:39-41 | every key is a single lower-case letter |
| Containers.LetterCountsAgree | codes/ch11.cpp:37-43 | the count under key k is the number of letters whose lower-case form is k, and k is present exactly when that count is positive |
| Containers.TotalOverIncrement | codes/ch11.cpp:41 | incrementing one letter's count raises the total over the alphabet by exactly one |
| Containers.TotalOverEmpty | codes/ch11.cpp:36 | the empty map's total is 0 |
| Containers.LetterCountsTotal | codes/ch11.cpp:37-43 | the counts add up to the number of alphabetic characters in the paragraph |
| Containers.Entries | codes/ch11.cpp:45 | copying the map into a vector gives one entry per key, with that key's count, and no key twice |
| Containers.SortedEntries | codes/ch11.cpp:45-48 | the pair vector holds every map entry, no letter twice, sorted by non-increasing count; equal counts may come in any order |
| Containers.TopFive | codes/ch11.cpp:49-51 | exactly min(5, entries) entries are reported, as a prefix of the sorted list, each with a count at least that of every entry left out |
| Containers.TopLetterFrequencies | codes/ch11.cpp:36-51 | end to end: min(5, distinct letters) different letters are reported, most frequent first, each with its true positive count, and no unreported letter occurs more often than a reported one |
| Containers.TaskQueue.constructor | codes/ch11.cpp:79 | a new queue is empty |
| Containers.TaskQueue.AddTask | codes/ch11.cpp:65-67 | `addTask` appends the task at the back; earlier tasks keep their positions |
| Containers.TaskQueue.RemoveTask | codes/ch11.cpp:69-71 | `removeTask` leaves exactly the tasks with another id, in their order |
| Containers.RemoveMatchingRemovesAll | codes/ch11.cpp:70 | every task with the id is removed, not only the first, and every other task stays |
| Containers.RemoveMatchingKeepsOrder | codes/ch11.cpp:70 | removal works piecewise on any split of the queue, so the remaining tasks keep their relative order |
| Containers.RemoveAbsentId | codes/ch11.cpp:70 | removing an id that no task has leaves the queue unchanged |
| Containers.RemoveMiddle | codes/ch11.cpp:70 | removing the id of the middle one of three tasks, which the outer two lack, keeps exactly the outer two in order |
| Containers.TaskQueueDemo | codes/ch11.cpp:81-89 | adding tasks 1, 2, 3 and removing 2 leaves exactly [1, 3] |
| Coroutines.Generator.constructor | ch10.cpp:16-18 | a new generator is suspended before its body: nothing is produced and it is not done |
| Coroutines.Generator.HasValue | ch10.cpp:39 | `has_value()` is true exactly while the body has not run to its end |
| Coroutines.Generator.Value | ch10.cpp:28-40 | `value()` is the element most recently stored by `yield_value` |
| Coroutines.Generator.Next | ch10.cpp:41 | `next()` resumes once; it returns true exactly when a new element was yielded, which `value()` then returns, and false when the body ended, leaving the value as it was |
| Coroutines.Drain | ch10.cpp:72-74 | the loop `while (gen.next()) ... gen.value()` visits every yielded element exactly once, in order, and leaves the generator done |
| Coroutines.EvenNumbersBody | ch10.cpp:45-49 | the body yields 0, 2, 4, ... up to the largest even number <= n: n/2+1 values for n >= 0, none for n < 0; `i += 2` stays within `int` when n <= INT_MAX-2 |
| Coroutines.EvenNumbers | ch10.cpp:45-49 | `even_numbers(n)` is a fresh suspended generator over those values |
| Coroutines.GenerateWords | ch10.cpp:51-57 | `generate_words()` yields Alice, Bob, Charlie, David, Eve and ends |
| Coroutines.FibMonotone | ch10.cpp:59-67 | Fibonacci numbers never decrease |
| Coroutines.FibonacciInt32Bound | ch10.cpp:63 | F(46) fits in 32-bit `int` and F(47) does not |
| Coroutines.FibonacciBody | ch10.cpp:59-67 | the body yields exactly F(0), ..., F(n-1); the look-ahead sum `a + b` stays within `int` for n <= 45 |
| Coroutines.GenerateFibonacci | ch10.cpp:59-67 | `generate_Fibonacci(n)` is a fresh suspended generator over those values |
| Coroutines.EvenNumbersDemo | ch10.cpp:70-75 | draining `even_numbers(30)` gives 0, 2, ..., 30 |
| Coroutines.WordsDemo | ch10.cpp:77-82 | draining `generate_words()` gives the five names |
| Coroutines.FibonacciDemo | ch10.cpp:84-89 | draining `generate_Fibonacci(10)` gives 0 1 1 2 3 5 8 13 21 34 |
| Statistics.Boundaries | ch9-1.cpp:55 | the chunk boundaries i*n/k run from 0 to n without decreasing |
| Statistics.Chunks | ch9-1.cpp:55 | there are exactly k chunks and chunk i is `v[i*n/k .. (i+1)*n/k)` |
| Statistics.ChunksTile | ch9-1.cpp:53-57 | the chunks are disjoint and concatenate, in order, to v |
| Statistics.ChunkSize | ch9-1.cpp:55 | every chunk has n/k or n/k+1 elements, and n/k+1 only when k does not divide n |
| Statistics.ChunksNonEmpty | ch9-1.cpp:28-39 | with at least as many elements as chunks, no chunk is empty |
| Statistics.Statistics.Calc | ch9-1.cpp:49-65 | `calc` returns exactly nThread results, the i-th being `func` of chunk i |
| Statistics.Statistics.Max | ch9-1.cpp:28-33 | for v.size() >= nThread >= 1, `max` is an element of v and no element is larger |
| Statistics.Statistics.Min | ch9-1.cpp:34-39 | for v.size() >= nThread >= 1, `min` is an element of v and no element is smaller |
| Statistics.Statistics.NEven | ch9-1.cpp:40-45 | `nEven` is the number of even elements of v for any nThread >= 1, empty chunks included; with nThread == 0 it is 0 |
| Statistics.ShortVectorHasEmptyChunk | ch9-1.cpp:28-33 | with one element and 8 threads, chunk 0 is empty, so `max` and `min` as written dereference `max_element`/`min_element` of an empty range |
| Statistics.Statistics.MaxSkippingEmpty | ch9-1.cpp:28-33 | max that skips empty chunks is the maximum of any non-empty v, whatever nThread >= 1 |
| Statistics.Statistics.MinSkippingEmpty | ch9-1.cpp:34-39 | min that skips empty chunks is the minimum of any non-empty v, whatever nThread >= 1 |
| ChunkedSum.Bounds | ch7-6.cpp:24-28 | chunk i runs from `start_index = i*chunk_size` to `end_index`; each chunk starts where the previous ends, from 0 to size |
| ChunkedSum.ChunkLengths | ch7-6.cpp:24-28 | every chunk but the last has exactly `chunk_size = size / num_threads` elements; the last has chunk_size + size % num_threads |
| ChunkedSum.ParallelSum | ch7-6.cpp:22-35 | `total_sum`, the sum of the chunk sums, equals the single-pass accumulate over the whole vector |
| ChunkedSum.SumOfOnes | ch7-6.cpp:11-13 | the sum of n ones is n |
| ChunkedSum.OnesDemo | ch7-6.cpp:11-36 | for 100'000'000 ones both sums are 100'000'000, which fits in 32-bit `int` |
| MoveSemantics.Task.constructor | codes/ch14.cpp:14 | `Task(id)` stores the id |
| MoveSemantics.Task.Copy | codes/ch14.cpp:21-23 | the copy has the source's id; the source is not touched |
| MoveSemantics.Task.Move | codes/ch14.cpp:25-28 | the new Task takes the source's id and the source's id becomes -1 |
| MoveSemantics.Task.MoveAssign | codes/ch14.cpp:30-37 | from a different Task: id := other.id, other.id := -1; from itself: nothing changes |
| MoveSemantics.SelfMoveAfterMove | codes/ch14.cpp:31 | a self move-assignment after a move-assignment leaves the moved state as it was |
| MoveSemantics.MoveDemo | codes/ch14.cpp:68-73 | after the moves, task and taskMove hold -1 and taskNext holds 1 |
| MoveSemantics.SquareOfFive | codes/ch14.cpp:76 | square(5) == 25 |
| ConstMutable.Timer.constructor | ch15.cpp:22-23 | a new Timer has cnt == 0 and the name "Timer" |
| ConstMutable.Timer.Call | ch15.cpp:13-16 | `call()` raises cnt by exactly one and changes nothing else |
| ConstMutable.Timer.GetCount | ch15.cpp:18-20 | `getCount()` returns cnt and changes nothing |
| ConstMutable.TimerDemo | ch15.cpp:42-46 | after ten calls `getCount()` is 10 |
| ConstMutable.SquareInPlace | ch15.cpp:58 | the in-place transform replaces every element by its square, length unchanged |
| ConstMutable.SquareDemo | ch15.cpp:56-65 | a vector of 42s becomes all 1764, in the sequential run and in the parallel-policy run alike |
| OptionalViews.ParseId | codes/ch8.cpp:11-16 | `parseId` is empty exactly for negative values, and otherwise holds the value itself, 0 included |
| OptionalViews.ParseIdDemo | codes/ch8.cpp:47-53 | parseId(42) holds 42 and parseId(-1) is empty |
| OptionalViews.EvenSquaresAppend | codes/ch8.cpp:72-74 | the pipeline distributes over concatenation, keeping the original order |
| OptionalViews.EvenSquaresSingleton | codes/ch8.cpp:72-74 | on one element the pipeline gives its square if it is even, nothing otherwise |
| OptionalViews.EvenSquaresContents | codes/ch8.cpp:72-74 | one output per even input, and each output is the square of an even input |
| OptionalViews.EvenSquaresDemo | codes/ch8.cpp:71-78 | {1..6} gives 4 16 36 |
| Templates.MaxOfThree | ch5.cpp:5-8 | `maxOfThree` returns one of its three arguments, whatever `>` is |
| Templates.MaxOfThreeIsMax | ch5.cpp:7 | under a strict total order no argument is greater than the result |
| Templates.IntGreaterIsStrictTotalOrder | ch5.cpp:27 | `>` on int is a strict total order |
| Templates.StringLessIrreflexive | ch5.cpp:29 | no string compares less than itself |
| Templates.StringLessTransitive | ch5.cpp:29 | string comparison is transitive |
| Templates.StringLessTotal | ch5.cpp:29 | two distinct strings are always ordered one way or the other |
| Templates.StringGreaterIsStrictTotalOrder | ch5.cpp:29 | `>` on std::string is a strict total order |
| Templates.MaxOfThreeDemo | ch5.cpp:27-29 | maxOfThree(3, 7, 5) is 7; for "apple", "banana", "cherry" it is "cherry" |
| Templates.PairAccessors | ch5.cpp:11-18 | `retFirst` and `retSecond` take a pair apart: rebuilding from them gives the pair back |
| Templates.IsEven | ch5.cpp:20-23 | `isEven(n)` is 1 if n % 2 == 0 and 0 otherwise |
| Templates.IsEvenDemo | ch5.cpp:43-44 | 4 is even and 5 is not; -3 is odd, though its C++ remainder is -1 |
| AlgorithmDemos.Iota | codes/ch3.cpp:20 | `iota(v, value)` writes value + i at position i |
| AlgorithmDemos.PrintEvens | codes/ch3.cpp:21-25 | the lambda prints exactly the even elements, in order |
| AlgorithmDemos.EvensDemo | codes/ch3.cpp:19-25 | v is 1..30 and 2, 4, ..., 30 is printed |
| AlgorithmDemos.SortByLength | codes/ch3.cpp:31-33 | the comparator `a.size() > b.size()` leaves a permutation sorted by length DESCENDING |
| AlgorithmDemos.NamesDemo | codes/ch3.cpp:30-33 | Charlie comes first and Bob last; Alice and David are in the middle in an unspecified order |
| AlgorithmDemos.NamesEnds | codes/ch3.cpp:30-33 | any length-descending permutation of the four names starts with Charlie, ends with Bob, and has Alice and David in the middle |
| AlgorithmDemos.LongestFirst | codes/ch3.cpp:31-33 | in a length-descending sequence the first element is at least as long as any element |
| AlgorithmDemos.ShortestLast | codes/ch3.cpp:31-33 | in a length-descending sequence the last element is at most as long as any element |
| AlgorithmDemos.DoubleInPlace | codes/ch3.cpp:41-43 | each element becomes twice its old value, length unchanged |
| AlgorithmDemos.DoublingDemo | codes/ch3.cpp:38-43 | {5, 3, 8, 1, 2, 7, 4, 6, 9, 10} becomes {10, 6, 16, 2, 4, 14, 8, 12, 18, 20} |
| AlgorithmDemos.OffsetSum | codes/ch3.cpp:49-53 | the accumulating lambda leaves the offset plus the sum of the elements |
| AlgorithmDemos.OffsetSumDemo | codes/ch3.cpp:49-54 | 33 + (1 + ... + 10) is 88 |
| AlgorithmDemos.PrintLongWords | codes/ch3.cpp:60-64 | exactly the words with `word.size() > count` are printed, in order |
| AlgorithmDemos.LongerThanSigned | codes/ch3.cpp:61 | for count >= 0 the test is the plain length comparison; for a negative count it converts to a huge `size_t` and no word is printed |
| AlgorithmDemos.LongWordsDemo | codes/ch3.cpp:58-64 | with count = 6 only "elderberry" is printed |
| AlgorithmDemos.ToggleSort | codes/ch3.cpp:72-74 | the comparator `ascending ? a < b : a > b` leaves a permutation that is non-decreasing if ascending and non-increasing otherwise |
| AlgorithmDemos.AscendingOutcome | codes/ch3.cpp:72-75 | the only ascending order of {5, 3, 8, 1, 2} is 1 2 3 5 8 |
| AlgorithmDemos.DescendingOutcome | codes/ch3.cpp:78-81 | the only descending order of those numbers is 8 5 3 2 1 |
| AlgorithmDemos.ToggleDemo | codes/ch3.cpp:69-81 | the first sort gives 1 2 3 5 8, and after the toggle the second gives 8 5 3 2 1 |
| Lambdas.SortDescending | ch6.cpp:25-27 | the comparator `a > b` leaves a non-increasing permutation of the input |
| Lambdas.SortDescendingOutcome | ch6.cpp:25-27 | a descending sort has one possible result |
| Lambdas.CountLongWords | ch6.cpp:34-36 | `count_if(length > 5)` is at most the number of words and is the number of words the filter keeps |
| Lambdas.CountLongWordsDemo | ch6.cpp:33-37 | for the seven given words the count is 3 |
| Lambdas.Squares | ch6.cpp:41-45 | `squares` has the length of `numbers2` and holds the square of each of its elements; `numbers2` is only read |
| Lambdas.SquaresDemo | ch6.cpp:40-46 | {1, 2, 3, 4, 5} gives 1 4 9 16 25, and numbers2 is unchanged |

## Findings

| source | as written | input that shows it | evidently intended | confidence | as-written member | corrected member |
|---|---|---|---|---|---|---|
| ch9-1.cpp:28-39 | `max` and `min` apply `*max_element` / `*min_element` to every chunk, including empty ones, which dereferences the end iterator (undefined behaviour) | a one-element vector with the default 8 threads: chunk 0 is `v[0..0)` | the maximum (minimum) of the non-empty chunks, which is the maximum (minimum) of v | medium, not executed | Statistics.ShortVectorHasEmptyChunk, Statistics.Statistics.Max | Statistics.Statistics.MaxSkippingEmpty, Statistics.Statistics.MinSkippingEmpty |

## Left out

- Threads and futures: each `std::async` task of ch9-1.cpp and ch7-6.cpp is modelled as a sequential call whose result is collected in the source's order. Data races, `wait_for` and interleaved output are not modelled; neither are the other chapter-7 programs, whose point is concurrency.
- Timing: every `std::chrono` measurement and the benchmark loops around it have no result to state.
- Floating point: `statistics::mean`, the `double` instantiations of `maxOfThree`, the `double` pair of ch5.cpp and the tuple of codes/ch8.cpp.
- Lambdas.SortDescending: the source sorts a vector of `double`; the model sorts `int`, whose `>` is also a strict total order.
- Coroutine mechanics: `from_promise`, `destroy`, `final_suspend` and the laziness of the body are not modelled. A body is the sequence of its yields, computed when the generator is created.
- Coroutines.Generator.Value: reading `value()` before the first `next()` reads an uninitialised promise, so the model requires one yield to have happened.
- Coroutines.Generator.Next: resuming a done handle is undefined behaviour and is excluded by the precondition.
- Console output: `printId`, `printValue`, `printVector`, `printTasks`, `printContainer` and the greetings of ch6.cpp. Where output is the point, the model returns the printed values instead.
- Compile-time demos: `printConstExpr`, the `Iterable` concept, the `std::variant` and `std::tuple` demos of codes/ch8.cpp, and `enable_if` itself. `isEven` takes an `int`, the one integral type the program instantiates it with.
- Smart-pointer and destructor demos (codes/ch2-1.cpp, codes/ch2-2.cpp, and the destructor message of codes/ch14.cpp) are not part of this model.
- codes/ch4-1.cpp duplicates `square`. codes/ch4-2.cpp depends on `rand()` and on `unordered_map` iteration order. ch4-3.cpp and codes/ch13.cpp are not part of this model.
- The `par_unseq` policy of ch15.cpp: only its result is modelled, which is the same as the sequential run's.
- 32-bit `int` overflow is modelled only where a value can reach the limit: the loop bounds of `even_numbers` and `generate_Fibonacci`, and the 100'000'000 sum. Elsewhere values are unbounded integers.
- Statistics.Statistics.Calc: a negative `nThread` makes `futures.reserve` throw `length_error`, which the precondition excludes.
- Statistics.Statistics.Max and Statistics.Statistics.Min require v.size() >= nThread, because otherwise they dereference an empty chunk.
- ChunkedSum.ParallelSum: the source fixes `num_threads = 8`; the model takes any positive thread count. It does not model `int` overflow of a chunk sum, because the source only sums ones.
- Containers: `isalpha` and `tolower` are those of the "C" locale over ASCII letters. Characters are Unicode code points rather than possibly-negative `char` bytes, on which `isalpha` would be undefined.
- Containers.SortedEntries: `unordered_map` iteration order is unspecified, so the entries are taken out in an arbitrary order. `std::sort` is not stable, so entries with equal counts may end up in any order.
- Containers.TaskQueue.RemoveTask: `std::list` nodes and iterator stability are not modelled; the list is a sequence.
- ConstMutable.Timer: `const` on `call()` is expressed by a frame that allows only `cnt` to change.
- The two comments in codes/ch3.cpp that disagree with the code: the sort at lines 31-33 is by length descending, not ascending, and the filter at lines 60-64 keeps words longer than 6 characters, not 4. The model follows the code.
