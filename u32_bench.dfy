/** The benchmark functions of u32_test.go: keys of type uint32, for the
    "std" map at one size r. */
module U32Bench {
  import opened Generators
  import opened Scenarios
  import opened IntBench

  /** BenchmarkU32<b>, one sub-benchmark: its checks never fail, and making
      its keys only fails for a negative size or, for the random generators,
      when the retry budget runs out. */
  method Run(b: Benchmark, r: int, rng: Rng, budget: nat, reps: nat) returns (res: RunResult)
    modifies rng
    ensures r < 0 ==> res == GenFailed(NegativeLength)
    ensures res.GenFailed? && r >= 0 ==> res.error == RetriesExhausted && PlanOf(b).source == RandomSparse
    ensures res.Ran? ==> res.outcome == Reported(r, -1.0)
  {
    res := RunSubBenchmark(PlanOf(b), W32, r, rng, budget, reps);
  }
}
