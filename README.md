# bench-hashmaps: the benchmark harness, modelled in Dafny

bench-hashmaps compares Go hash map implementations. A Go test file per key type (u32_test.go,
u64_test.go, uuid_test.go) defines benchmark functions. Each one generates a key array
(bench.go), builds a fresh map through `createMap` for every repetition, drives it through a
fixed script of Put/Get/Remove/Each calls and checks the outcome with `b.Fatal`. chart.py
reads the printed results back and groups them per benchmark and per map.

This project models the parts of the harness whose behaviour lies inside the repository:

- **Ranges** (`ranges.dfy`): `getRanges`. It splits the RANGES text on single spaces and
  converts every piece with Go's `strconv.Atoi`. The first piece that fails makes it panic.
- **Generators** (`generators.dfy`): the three key generators and `rand.Shuffle`.
  - Randomness is an `Rng` object: a fixed stream of draws and a position in it.
    `Uint64`, `Intn` and `Shuffle` consume draws from that stream. `Uint64` reads a draw's low 64 bits;
    Int63, Uint32 and Int31 are its low 63 bits and the top 32 or 31 bits of those, as in Go's
    seeded source. Go's rejection loops (`Int31n`, and the `int31n` that `rand.Shuffle` uses)
    may take several draws for one number.
  - Keys are truncated to the key width, either `uint32` or `uint64`.
  - The generators' own retry loops get a retry budget; running out of it gives `RetriesExhausted`.
  - A negative length gives `NegativeLength`, where `make` panics in Go.
- **StdAdapter** (`std_adapter.dfy`): the "std" case of `createMap`, as a class `StdMap`
  over a Go map. It keeps the quirks of the source: `Put` always reports false, `Remove`
  always reports true and `Load` is always -1. It also models `handleElem` and the switch
  on map names.
- **Scenarios** (`scenarios.dfy`): one repetition of each benchmark script, over an
  `array` of keys that the script reshuffles in place, plus the `b.N` repetition loop.
  These scripts are shared by the three test files.
- **IntBench, U32Bench, U64Bench** (`int_bench.dfy`, `u32_bench.dfy`, `u64_bench.dfy`):
  the ten integer benchmark functions. Each one picks a key source, a size hint and a
  script, and runs one sub-benchmark.
- **UuidBench** (`uuid_bench.dfy`): the eight UUID benchmark functions, with the UUID arrays
  taken as inputs.
- **Chart** (`chart.dfy`): the reading half of chart.py.
  - The line filter, the name split and Python `int()`/`str.strip()`.
  - The extra memory series, and the collecting loop into nested series.
  - The sorted order in which benchmarks are emitted.
- **Text** and **Base** (`text.dfy`, `base.dfy`): string splitting, decimal digits, Go's
  Atoi and `%d`, Python's strip and int(), distinctness and counting.

## Model

| member | source | states |
|---|---|---|
| Text.Split | bench.go:35 | `strings.Split` with a one-character separator (and `str.split` at chart.py:54, 57, 59) gives at least one piece |
| Text.SplitCount | chart.py:54-55 | a split has one more piece than the string has separators, so eight tab fields mean seven tabs |
| Text.SplitPiecesAreSepFree | bench.go:35 | no piece of `strings.Split(s, sep)` contains the separator |
| Text.JoinSplit | bench.go:35 | gluing the pieces of a split back with the separator gives the original string |
| Text.SplitJoin | bench.go:35 | splitting separator-free pieces glued with the separator gives exactly those pieces back |
| Text.SplitOfSepFree | bench.go:35 | a string without the separator splits into itself alone |
| Text.SplitHead | chart.py:57-59 | the first piece is the text before the first separator; there is one piece iff the separator is absent; the rest is the split of what follows the first separator |
| Text.SplitAtFirstSep | chart.py:57-59 | a separator-free head followed by the separator splits into that head, then the split of the rest |
| Text.NatToStringDigits | u32_test.go:17 | `%d` of a natural number is a non-empty digit string whose value is the number |
| Text.NatToString | u32_test.go:17 | `%d` of a natural number starts with a digit, and with a non-zero one unless the number is 0 |
| Text.IntToString | u32_test.go:17 | `%d` of an integer is non-empty and starts with `-` exactly when the integer is negative |
| Text.Atoi | bench.go:40 | a result exists only for a sign-or-digit start and lies in the 64-bit `int` range |
| Text.AtoiIntToString | bench.go:40-43 | Atoi reads back every 64-bit integer `%d` writes |
| Text.AtoiRejectsEmptyPieces | bench.go:38-43 | the empty piece (two adjacent spaces) and a lone sign are Atoi errors, so getRanges panics on them |
| Text.ContainsNeedsRoom | chart.py:65 | a needle longer than the haystack is not a substring of it |
| Text.StripLeft | chart.py:62 | removes exactly the leading whitespace, as a suffix of the input |
| Text.StripRight | chart.py:62 | removes exactly the trailing whitespace, as a prefix of the input |
| Text.Strip | chart.py:62 | what `str.strip()` leaves is no longer than its input, starts and ends with a non-space, and is empty exactly when the input is all whitespace |
| Text.StripSkipsPadding | chart.py:62 | leading whitespace does not change what strip leaves |
| Text.StripTrimmed | chart.py:62 | text with non-space ends is unchanged by strip |
| Text.DropUnderscores | chart.py:61 | removing underscores from a digits-and-underscores body leaves only digits |
| Text.PyInt | chart.py:61 | int() succeeds only on text that is not blank after stripping |
| Text.PyIntNatToString | chart.py:61 | int() reads back every `%d` figure, also with whitespace before and after it |
| Text.StripPaddedDigits | chart.py:62 | strip of digits with padding on either side is the digits |
| Text.StripPaddedWord | chart.py:62 | strip of padding on either side of text with non-space ends is that text |
| Text.StripSkipsTrailing | chart.py:61 | trailing whitespace does not change what the right strip leaves |
| Text.DropUnderscoresOfDigits | chart.py:61 | a pure digit body is unchanged by dropping underscores |
| Ranges.RangesSource | bench.go:31-34 | the text read is never empty: an unset RANGES falls back to the default list |
| Ranges.GetRanges | bench.go:30-46 | Ok iff every piece of the split parses; then one int per piece, in order, each Atoi of its piece; Err names the first piece Atoi rejects, every earlier piece having parsed |
| Ranges.FormattedRangesReadBack | bench.go:35-45 | 64-bit sizes written with `%d` and joined with single spaces split back into those texts, and Atoi returns each size |
| Generators.Truncate | bench.go:245 | the conversion `V(...)` lands below 2^32 or 2^64 |
| Generators.Int63Of | bench.go:245 | `Int63` of a draw lies below 2^63 |
| Generators.Uint32Of | bench.go:262 | `Uint32`, the value int31n multiplies, lies below 2^32 |
| Generators.Int31Of | u32_test.go:326 | `Int31`, the value Int31n reduces, lies below 2^31 |
| Generators.Threshold | bench.go:262 | int31n's rejection threshold `uint32(-n) % uint32(n)` lies below n |
| Generators.Max31 | u32_test.go:326 | Int31n's largest acceptable Int31 lies in [2^31 - n, 2^31) |
| Generators.PowerOfTwoAcceptsAll | u32_test.go:326 | for a power-of-two bound such as the 4 of `rand.Intn(4)`, Max31 admits every Int31 and the threshold is 0: no draw is ever rejected, so the single-draw mask branch loses nothing |
| Generators.Rng.constructor | bench.go:26-28 | a generator starts at the beginning of its stream |
| Generators.Rng.Uint64 | bench.go:245 | the next draw reduced modulo 2^64; the position advances by one |
| Generators.Rng.Intn | u32_test.go:326 | `rand.Intn(n)` for n > 0 lands below n and takes at least one draw; for a 31-bit power of two (the 4 of the mixed script) exactly one draw, whose Int31 modulo n is the result |
| Generators.Rng.Int31n | u32_test.go:326 | a power of two masks one draw; any other bound takes the first draw whose Int31 is at most `Max31(n)`, rejecting every earlier one, and returns that Int31 modulo n |
| Generators.Rng.Lemire31n | bench.go:262 | the index `rand.Shuffle` draws: below n, the first draw int31n accepts from the current position, and its product's high half |
| Generators.Rng.Int63n | bench.go:262 | one draw's Int63 modulo n (rejection left out, see below) |
| Generators.Rng.ShuffleIndex | bench.go:262 | the index `rand.Shuffle` swaps position i with lies in 0..i and takes at least one draw |
| Generators.Shuffle | bench.go:262 | `rand.Shuffle` leaves the same multiset of elements and takes at least one draw for each of the n-1 positions it visits |
| Generators.Sampled | bench.go:244-251 | the values genRandIntArray keeps from a run of draws: at most one per draw |
| Generators.SampleOnce | bench.go:245-250 | one turn of the loop takes one draw and stores it at position i exactly when it is new, keeping the array prefix equal to the accepted draws and `values` equal to them plus 0 |
| Generators.SampledIsKeySequence | bench.go:240-254 | the accepted draws form a key sequence: pairwise distinct, never 0 and below the width |
| Generators.SampledStep | bench.go:244-251 | a draw already in `values` is rejected, a new one is appended and added to `values` |
| Generators.GenRandIntArray | bench.go:240-254 | NegativeLength for n < 0; otherwise exactly n keys, distinct, non-zero, below the width, equal to the accepted draws of the stream; Err only when the budget ran out |
| Generators.Sequential | bench.go:257-260 | the filled array holds n elements |
| Generators.SequentialIsKeySequence | bench.go:256-260 | below the width, `V(i+1)` gives 1..n, a key sequence |
| Generators.GenShuffledIntArray | bench.go:256-264 | Ok iff n >= 0; the result is a permutation of `V(1)..V(n)`; below the width it is distinct and within 1..n |
| Generators.Kept | bench.go:274-281 | the values genDifferentRandIntArray keeps from a run of draws: at most one per draw |
| Generators.KeepOnce | bench.go:275-280 | one turn of the loop takes one draw and stores it at position j exactly when `values` lacks it, keeping the output prefix equal to the kept draws |
| Generators.KeptStep | bench.go:274-281 | a draw in `values` is skipped, any other is appended to the output |
| Generators.KeptAvoidsExcluded | bench.go:266-284 | no kept value is an input key or 0, and each is below the width |
| Generators.KeptMayRepeat | bench.go:274-281 | two equal fresh draws are both kept: the output can repeat a value |
| Generators.GenDifferentRandIntArray | bench.go:266-284 | the output has the input's length, avoids every input key and 0, and equals the kept draws of the stream; Err only when the budget ran out |
| StdAdapter.ResolveMap | bench.go:65-237 | "std" is the built-in map, the eight other known names are foreign, any other name panics |
| StdAdapter.HandleElem | bench.go:48-50 | the iteration callback never asks to stop |
| StdAdapter.StdMap.constructor | bench.go:67-68 | `make(map[K]V, n)`: an empty map with size hint n |
| StdAdapter.StdMap.Put | bench.go:70-73 | the key now maps to the value, other keys unchanged; always reports false |
| StdAdapter.StdMap.Get | bench.go:74-77 | found iff the key is present; the stored value when found, the zero value otherwise |
| StdAdapter.StdMap.Remove | bench.go:78-81 | the key is gone, other keys unchanged; always reports true, present or not |
| StdAdapter.StdMap.Each | bench.go:82-88 | visits distinct keys of the map; every visited entry but the last got false; it visits all keys unless a callback returned true |
| StdAdapter.StdMap.Load | bench.go:89-91 | always -1 |
| Base.PermutationKeepsDistinct | u32_test.go:109 | reordering a distinct key array keeps it distinct, with the same keys and length |
| Base.CountInDistinct | u32_test.go:254-262 | over a distinct array, the number of positions falling in a set is the size of the overlap |
| Base.SameMultisetSameElems | u32_test.go:140 | a shuffled array holds the same keys |
| Scenarios.Ones | u32_test.go:25-27 | the contents after putting (k, 1) for every key: exactly those keys, each with value 1 |
| Scenarios.PutOnes | u32_test.go:25-27 | the insert loop adds every key with value 1 to the map |
| Scenarios.InsertsRepetition | u32_test.go:19-30 | a fresh map with the requested hint, holding exactly the keys of the array, each with value 1 |
| Scenarios.FullDeletesRepetition | u32_test.go:102-118 | after inserting, reshuffling and removing every key, the map is empty and the array is a permutation of itself |
| Scenarios.ReadsRepetition | u32_test.go:133-152 | after inserting and reshuffling, every Get finds its key: the fatal branch is never taken |
| Scenarios.ReadsMissesRepetition | u32_test.go:204-223 | fatal iff some probe `other[j]` is an inserted key; the run stops at the first such probe, every earlier probe having missed; otherwise every probe missed |
| Scenarios.RemovePrefix | u32_test.go:247-250 | removing the first numRemoved keys removes exactly that prefix's keys |
| Scenarios.CountMisses | u32_test.go:254-262 | `ac` counts the positions whose key is among the removed ones |
| Scenarios.HalfDeleteCount | u32_test.go:246-266 | for distinct keys, the reshuffled array holds exactly numRemoved removed keys |
| Scenarios.ReadsAfterDeletingHalfRepetition | u32_test.go:239-269 | removes len/2 keys; `ac` counts the misses; fatal iff `ac != len/2`; never fatal on a distinct key array |
| Scenarios.IterationRepetition | u32_test.go:284-298 | Each(handleElem) visits every inserted key exactly once |
| Scenarios.Dispatch | u32_test.go:326-335 | draws 0 and 1 read, 2 inserts (k, k), 3 deletes, always for the loop's key |
| Scenarios.Apply | u32_test.go:326-335 | one step changes only its own key: a put stores (k, k), a delete removes k, a read leaves the map as it was |
| Scenarios.ReplayKeepsSelfValues | u32_test.go:319-336 | whatever the draws, stored values equal their keys, and only keys present at the start or named by a step are present |
| Scenarios.ReadsLeaveContents | u32_test.go:327-330 | read steps never change the contents |
| Scenarios.SelfMap | u32_test.go:319-321 | the setup contents: each key of the first half mapped to itself |
| Scenarios.PutSelfPrefix | u32_test.go:319-321 | the setup loop adds (k, k) for each of the first len/2 keys |
| Scenarios.Planned | u32_test.go:325-326 | one step per key, in order, each chosen by `rand.Intn(4)` of its draw |
| Scenarios.PlannedSnoc | u32_test.go:325-326 | one more key appends the step chosen by the next draw |
| Scenarios.Step | u32_test.go:326-335 | one switch turn changes the contents as its dispatched step does |
| Scenarios.MixedSteps | u32_test.go:325-336 | the measured loop takes one draw per key, and the map ends as the planned steps applied in order |
| Scenarios.PlannedKeys | u32_test.go:325 | the planned steps name exactly the keys of the array |
| Scenarios.MixedRepetition | u32_test.go:314-339 | setup of the first half, then a reshuffle taking at least n-1 draws, then the steps fixed by the last n draws |
| Scenarios.MixedKeepsSelfValues | u32_test.go:317-336 | starting from the first half of the keys and running over any reordering, values equal keys and no outside key is ever stored |
| Scenarios.RunRepetitions | u32_test.go:18-32 | the b.N loop keeps the key multiset; a Fatal only comes from a probe that hits an inserted key or from a repeated key in the half-delete script; otherwise it reports (len, -1) |
| IntBench.PlanOf | u32_test.go:13-345 | only the two Shuffle benchmarks use sequential keys; only Reserve and Deletes pass the size hint; the insert and read benchmarks run the right scripts |
| IntBench.HintFor | u32_test.go:78 | the hint is r for Reserve and Deletes, 0 for the others |
| IntBench.RunSubBenchmark | u32_test.go:14-35 | NegativeLength for r < 0; a generator failure is an exhausted budget; sequential keys always run; a run reports (r, -1) except a half-delete over wrapped sequential keys |
| U32Bench.Run | u32_test.go:13-345 | for uint32 keys: a run reports (r, -1); a generation failure is an exhausted budget with random keys |
| U64Bench.Run | u64_test.go:13-345 | the same for uint64 keys |
| UuidBench.ScriptOf | uuid_test.go:10-262 | which of the eight UUID benchmarks runs which script: both insert benchmarks run the insert script, and each other script is run by exactly one benchmark |
| UuidBench.HintOf | uuid_test.go:45 | the hint is r only for InsertsWithReserve and RandomFullDeletes |
| UuidBench.Run | uuid_test.go:10-262 | reports (len, -1) unless a probe is among the keys (miss reads) or the UUIDs repeat (half delete) |
| Chart.ResultLineFilter | chart.py:54-56 | a raw line passes the filter exactly when it holds seven tabs and starts with "Benchmark" |
| Chart.FirstWord | chart.py:62-63 | `strip().split(' ')[0]` is a space-free prefix of the stripped field |
| Chart.NameParts | chart.py:57-61 | IndexError without '/'; on success the benchmark is the '/'-free text before the first '/', and the map name holds neither '/' nor '-' |
| Chart.NamePartsRoundTrip | chart.py:57-61 | the name Go prints for `bench/map-r`, padded with blanks, with or without the `-procs` suffix, reads back as (bench, map, r) |
| Chart.SlashSplit | chart.py:57-58 | a name with one '/' splits into its two sides |
| Chart.AnnotationSplit | chart.py:59-61 | `map-n[-procs]` plus padding splits on '-' into the map name, then n (still padded when there is no `-procs`) |
| Chart.MemoryKeys | chart.py:65-73 | a memory series is fed iff the name contains the matching insert benchmark name; no key twice, never the name itself |
| Chart.ReadFields | chart.py:57-73 | Ok iff the name, the time and (when a memory series wants it) the memory field all parse; IndexError exactly from the name; the reading carries the parsed values |
| Chart.FirstWordOfMetric | chart.py:62-63 | the first word of a padded `value unit` field is the value |
| Chart.ReadFieldsRoundTrip | chart.py:57-73 | a line printed from a name (padded, with or without `-procs`), a time, a memory figure and a load reads back as exactly those |
| Chart.PyIntOfPrinted | chart.py:62 | int() of a printed figure gives the figure |
| Chart.EntriesOf | chart.py:64-73 | the timing point first, then one memory point per memory series, all for the same map, size and load; no series twice |
| Chart.LineEntries | chart.py:54-73 | a line the filter skips adds nothing; otherwise the entries of its reading, or its exception; no series twice |
| Chart.Append | chart.py:64 | append grows only the named series, by the point at its end, and creates no empty level |
| Chart.AppendEntries | chart.py:64-73 | each series grows by the points of its own entries, in order |
| Chart.AppendAll | chart.py:64-73 | appending a list of entries in order creates no empty level |
| Chart.AppendAllSeries | chart.py:64-73 | appending a list of entries grows each series by the points of its own entries, in order |
| Chart.Lookup | chart.py:52 | reading the `defaultdict`: a missing series reads as empty, and in a mapping built by appends a series is non-empty exactly when it is stored |
| Chart.PointsOf | chart.py:53-73 | the series after reading every line, in input order, with at most one point per line |
| Chart.PointsOfSnoc | chart.py:53-73 | reading one more line extends each series by that line's points |
| Chart.Collect | chart.py:52-73 | Ok iff every line reads; Err names the first line that raises; on Ok every series holds the points of its lines in input order and no level is empty |
| Chart.PointsInSeparate | chart.py:64-73 | each series a line names receives exactly that line's point |
| Chart.PointsInNone | chart.py:64-73 | a series no entry names receives nothing |
| Chart.LineAppendsOnePoint | chart.py:64-73 | one more result line appends exactly one point at the end of each series it names and leaves all others unchanged |
| Chart.StrLess | chart.py:93 | Python's `<` on str: a proper prefix sorts first |
| Chart.StrLessIrreflexive | chart.py:93 | no name sorts before itself |
| Chart.StrLessTransitive | chart.py:93 | str order is transitive |
| Chart.StrLessTotal | chart.py:93 | two different names are ordered one way or the other |
| Chart.InsertSorted | chart.py:93 | inserting a new name keeps the list strictly sorted, with that name added |
| Chart.BenchmarkOrder | chart.py:93 | `sorted(mapping)`: strictly ascending, each benchmark exactly once |
| Chart.SortedDistinct | chart.py:93 | a strictly sorted list has no repeats |
| Chart.SortedOrderUnique | chart.py:93 | only one strictly sorted list holds a given set of names, so the emission order is fixed |
| Chart.SortedHeadsAgree | chart.py:93 | two sorted lists of the same names start with the same least name |
| Chart.MemorySeriesTitledAsTime | chart.py:97-99 | as written, every memory series gets the time title |
| Chart.AxisTitleMatchesSeries | chart.py:97-99 | with the intended test, memory series are titled memory and timing series time |

## Left out

- Timing and metrics are left out: `b.StartTimer`/`b.StopTimer`, `runtime.GC`, `runtime.ReadMemStats` and `report`'s `ReportAllocs`/`ReportMetric`. An outcome records only the size and load that `report` receives.
- Seeding (`rand.Seed` in `init` and in `genShuffledIntArray`) is left out. The random stream is a parameter of the model. It is assumed fair: from every position, the rejection loops of `int31n` and `Int31n` eventually accept a draw (`Generators.Stream`), as they do on Go's seeded source.
- Generators.Rng.Int63n: Go redraws while Int63 exceeds the largest multiple of n below 2^63. The model takes one draw. Only `rand.Shuffle` positions from 2^31 - 1 up and `rand.Intn` bounds from 2^31 up reach it, and neither occurs in the benchmarks.
- The outer loops over `getRanges()` and `getMapNames()`, and `getMapNames` itself, are left out. A run models one sub-benchmark for the "std" map at one size.
- The foreign map implementations and `sync.Map` are not part of this model. `ResolveMap` only names them.
- The std adapter leaves `Reserve`, `Clear` and `Size` unset, so the model has none of them.
- `genUUIDArray` and the UUID library are not part of this model. UUID key arrays are inputs.
- GenRandIntArray: the source retries forever until n keys are found. The model stops after a retry budget with `RetriesExhausted`.
- GenDifferentRandIntArray: the source retries forever. The model stops after a retry budget with `RetriesExhausted`.
- Atoi: Go's syntax error and range error are merged into one None.
- UuidBench.Run: the key array is copied into a fresh array per call. The model does not capture that Go shares it across map names and shuffles it in place between them.
- chart.py's float divisions to milliseconds and megabytes are left out. The model keeps the raw integers.
- PyInt: Python's limit on the number of digits and its non-ASCII digits are left out.
- chart.py's argument parsing, file handling and all HTML/Plotly output are left out. Only the y-axis title test is modelled, for the finding below.
- Behaviour a reader might not expect; the model follows the code:
  - The std adapter's `Put` always reports false and its `Remove` always reports true (bench.go:70-81).
  - `genDifferentRandIntArray` never adds a fresh value to `values`, so its output can repeat a value (bench.go:274-281, `KeptMayRepeat`).
  - The key array is shuffled in place and stays shuffled across repetitions.
  - The comment at u32_test.go:11 and u64_test.go:11 says the values are "[0, N)", but `genShuffledIntArray` yields 1..n (bench.go:257-260).
  - The UUID miss-read benchmark's second array is not checked to be disjoint from the keys.
  - Sequential keys wrap at the key width, so a uint32 run repeats a key once it uses more than 2^32 keys (a uint64 run, more than 2^64); the clause `r < Modulus(w)` in `IntBench.RunSubBenchmark`'s contract is one key more cautious than that.

## Findings

| source | as written | input that shows it | evidently intended | confidence | as-written member | corrected member |
|---|---|---|---|---|---|---|
| chart.py:98 | the memory y-axis title is used only for the key "MemoryConsumption", which no line creates (the keys are MemoryConsumptionU32/U64/UUID) | a line for BenchmarkU32RandomFullInserts/std-100 creates the series "MemoryConsumptionU32", which is titled "time (ms)" | memory series titled "memory (MB)" | high; not executed | Chart.MemorySeriesTitledAsTime | Chart.AxisTitleMatchesSeries |
