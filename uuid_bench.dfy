/** The benchmark functions of uuid_test.go: string keys (random UUIDs),
    for the "std" map at one size. The UUIDs are inputs here: `arr` is the
    key array and `other` the second array the miss-read benchmark probes
    with. */
module UuidBench {
  import opened Base
  import opened Generators
  import Scenarios

  /** The eight benchmark functions (the name after the UUID prefix). */
  datatype Benchmark =
    | RandomInserts
    | InsertsWithReserve
    | RandomFullDeletes
    | RandomReads
    | ReadsMisses
    | RandomFullReadsAfterDeletingHalf
    | RandomFullIteration
    | Mixed50Reads25Inserts25Deletes

  /** The script each benchmark function runs. */
  function ScriptOf(b: Benchmark): (s: Scenarios.Script)
    ensures s == Scenarios.Inserts <==> b == RandomInserts || b == InsertsWithReserve
    ensures s == Scenarios.ReadsMisses <==> b == ReadsMisses
    ensures s == Scenarios.ReadsAfterDeletingHalf <==> b == RandomFullReadsAfterDeletingHalf
    ensures s == Scenarios.FullDeletes <==> b == RandomFullDeletes
    ensures s == Scenarios.Reads <==> b == RandomReads
    ensures s == Scenarios.Iteration <==> b == RandomFullIteration
    ensures s == Scenarios.Mixed <==> b == Mixed50Reads25Inserts25Deletes
  {
    match b
    case RandomInserts => Scenarios.Inserts
    case InsertsWithReserve => Scenarios.Inserts
    case RandomFullDeletes => Scenarios.FullDeletes
    case RandomReads => Scenarios.Reads
    case ReadsMisses => Scenarios.ReadsMisses
    case RandomFullReadsAfterDeletingHalf => Scenarios.ReadsAfterDeletingHalf
    case RandomFullIteration => Scenarios.Iteration
    case Mixed50Reads25Inserts25Deletes => Scenarios.Mixed
  }

  /** The size hint createMap receives: the key count for the reserving
      insert benchmark and the delete benchmark, 0 for the others. */
  function HintOf(b: Benchmark, r: nat): (hint: nat)
    ensures b == InsertsWithReserve || b == RandomFullDeletes ==> hint == r
    ensures b != InsertsWithReserve && b != RandomFullDeletes ==> hint == 0
  {
    if b == InsertsWithReserve || b == RandomFullDeletes then r else 0
  }

  /** BenchmarkUUID<b>, one sub-benchmark. Random UUIDs are not checked for
      repeats, so the half-delete check can fail, but only on a key array
      that repeats a UUID; the miss-read check fails only when a probe
      is among the keys. Otherwise the run reports the key count and load -1. */
  method Run(b: Benchmark, arr: seq<string>, other: seq<string>, rng: Rng, reps: nat)
    returns (o: Scenarios.Outcome)
    requires b == ReadsMisses ==> |other| >= |arr|
    modifies rng
    ensures o.Reported? ==> o == Scenarios.Reported(|arr|, -1.0)
    ensures o.Fatal? ==>
      || (b == ReadsMisses && exists j :: 0 <= j < |arr| && other[j] in arr)
      || (b == RandomFullReadsAfterDeletingHalf && !Distinct(arr))
  {
    var keys := new string[|arr|](i requires 0 <= i < |arr| => arr[i]);
    assert keys[..] == arr;
    o := Scenarios.RunRepetitions(ScriptOf(b), keys, other, HintOf(b, |arr|), "", rng, reps);
  }
}
