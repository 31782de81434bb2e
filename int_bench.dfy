/** What u32_test.go and u64_test.go share: a benchmark function there picks
    a key generator, a script and whether the map is created with the size
    hint r, then runs, for each size r, one sub-benchmark per map name. This
    module runs one such sub-benchmark for the "std" map. */
module IntBench {
  import opened Base
  import opened Generators
  import opened Scenarios

  /** Which generator fills the key array. */
  datatype KeySource =
    | ShuffledSequential   // genShuffledIntArray
    | RandomSparse         // genRandIntArray

  /** The choices a benchmark function makes. */
  datatype Plan = Plan(source: KeySource, script: Script, reserve: bool)

  /** The ten benchmark functions each of u32_test.go and u64_test.go
      defines (the name after the U32 or U64 prefix). */
  datatype Benchmark =
    | RandomShuffleInserts
    | RandomFullInserts
    | RandomFullWithReserveInserts
    | RandomFullDeletes
    | RandomShuffleReads
    | FullReads
    | FullReadsMisses
    | RandomFullReadsAfterDeletingHalf
    | RandomFullIteration
    | Mixed50Reads25Inserts25Deletes

  /** What each benchmark function does: only the two "Shuffle" benchmarks
      use 1..n, only the reserving insert benchmark and the delete benchmark
      pass r as the size hint, and the 1..n keys only meet the insert and
      hit-read scripts. */
  function PlanOf(b: Benchmark): (p: Plan)
    ensures p.source == ShuffledSequential <==> b == RandomShuffleInserts || b == RandomShuffleReads
    ensures p.reserve <==> b == RandomFullWithReserveInserts || b == RandomFullDeletes
    ensures p.script == Inserts <==>
      b == RandomShuffleInserts || b == RandomFullInserts || b == RandomFullWithReserveInserts
    ensures p.script == Reads <==> b == RandomShuffleReads || b == FullReads
    ensures p.source == ShuffledSequential ==> p.script == Inserts || p.script == Reads
  {
    match b
    case RandomShuffleInserts => Plan(ShuffledSequential, Inserts, false)
    case RandomFullInserts => Plan(RandomSparse, Inserts, false)
    case RandomFullWithReserveInserts => Plan(RandomSparse, Inserts, true)
    case RandomFullDeletes => Plan(RandomSparse, FullDeletes, true)
    case RandomShuffleReads => Plan(ShuffledSequential, Reads, false)
    case FullReads => Plan(RandomSparse, Reads, false)
    case FullReadsMisses => Plan(RandomSparse, ReadsMisses, false)
    case RandomFullReadsAfterDeletingHalf => Plan(RandomSparse, ReadsAfterDeletingHalf, false)
    case RandomFullIteration => Plan(RandomSparse, Iteration, false)
    case Mixed50Reads25Inserts25Deletes => Plan(RandomSparse, Mixed, false)
  }

  /** The sub-benchmark ran (and reported or failed its check), or making its
      keys failed (a negative size panics; the retry budget ran out). */
  datatype RunResult = Ran(outcome: Outcome) | GenFailed(error: GenError)

  /** The size hint createMap receives: r for the reserving benchmarks, 0
      for the others. */
  function HintFor(plan: Plan, r: nat): (hint: nat)
    ensures plan.reserve ==> hint == r
    ensures !plan.reserve ==> hint == 0
  {
    if plan.reserve then r else 0
  }

  /** One sub-benchmark for the "std" map at size r: generate the key array
      (and, for the miss-read script, the miss keys right after it), then run
      `reps` repetitions with the plan's size hint. The checks never fail on
      keys the generators produce, except that 1..r taken modulo the key
      range repeats keys once r reaches that range, which only the
      half-delete check can notice. */
  method RunSubBenchmark(plan: Plan, w: Width, r: int, rng: Rng, budget: nat, reps: nat) returns (res: RunResult)
    modifies rng
    ensures r < 0 ==> res == GenFailed(NegativeLength)
    ensures res.GenFailed? && r >= 0 ==> res.error == RetriesExhausted
    ensures plan.source == ShuffledSequential && plan.script != ReadsMisses && r >= 0 ==> res.Ran?
    ensures res.Ran? && (plan.source == RandomSparse || r < Modulus(w) || plan.script != ReadsAfterDeletingHalf) ==>
      res.outcome == Reported(r, -1.0)
  {
    var keys: Result<seq<nat>, GenError>;
    if plan.source == ShuffledSequential {
      keys := GenShuffledIntArray(r, w, rng);
    } else {
      keys := GenRandIntArray(r, w, rng, budget);
    }
    if keys.Err? {
      return GenFailed(keys.error);
    }
    var other: seq<nat> := [];
    if plan.script == ReadsMisses {
      var diff := GenDifferentRandIntArray(keys.value, w, rng, budget);
      if diff.Err? {
        return GenFailed(diff.error);
      }
      other := diff.value;
    }
    var arr := new nat[|keys.value|](i requires 0 <= i < |keys.value| => keys.value[i]);
    assert arr[..] == keys.value;
    var o := RunRepetitions(plan.script, arr, other, HintFor(plan, r), 0, rng, reps);
    return Ran(o);
  }
}
