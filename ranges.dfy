/** Reading the list of element counts the benchmarks run over
    (bench.go, getRanges). The environment lookup is a parameter: `env` is
    the value of the RANGES variable, "" when it is unset. */
module Ranges {
  import opened Base
  import opened Text

  /** The sizes used when RANGES is unset or empty. */
  const DefaultRanges: string :=
    "50000 100000 200000 400000 600000 800000 1000000 1200000 1400000 1600000 1800000 2000000 2200000 2400000 2600000 2800000 3000000"

  /** The text the sizes are read from. */
  function RangesSource(env: string): (src: string)
    ensures src != ""
  {
    if env == "" then DefaultRanges else env
  }

  /** Piece i is the first one Atoi rejects. */
  predicate FirstRejected(pieces: seq<string>, i: nat) {
    i < |pieces| && Atoi(pieces[i]).None? && forall k :: 0 <= k < i ==> Atoi(pieces[k]).Some?
  }

  /** getRanges: split on single spaces and convert every piece with Atoi, in
      order; the first piece Atoi rejects makes the harness panic, which is
      Err carrying that piece. */
  method GetRanges(env: string) returns (r: Result<seq<int>, string>)
    ensures var pieces := Split(RangesSource(env), ' ');
      && (r.Ok? <==> forall i :: 0 <= i < |pieces| ==> Atoi(pieces[i]).Some?)
      && (r.Ok? ==> |r.value| == |pieces|
                    && forall i :: 0 <= i < |pieces| ==> Atoi(pieces[i]) == Some(r.value[i]))
      && (r.Err? ==> exists i: nat :: FirstRejected(pieces, i) && r.error == pieces[i])
  {
    var src := RangesSource(env);
    var rangesStr := Split(src, ' ');
    var rangesInt := new int[|rangesStr|];
    for i := 0 to |rangesStr|
      invariant forall k :: 0 <= k < i ==> Atoi(rangesStr[k]) == Some(rangesInt[k])
    {
      var parsed := Atoi(rangesStr[i]);
      if parsed.None? {
        r := Err(rangesStr[i]);
        assert FirstRejected(rangesStr, i);
        assert rangesStr == Split(RangesSource(env), ' ');
        assert !(forall k :: 0 <= k < |rangesStr| ==> Atoi(rangesStr[k]).Some?);
        return;
      }
      rangesInt[i] := parsed.value;
    }
    return Ok(rangesInt[..]);
  }

  /** The %d forms of a list of sizes. */
  function Formatted(xs: seq<int>): (r: seq<string>)
    ensures |r| == |xs|
  {
    seq(|xs|, i requires 0 <= i < |xs| => IntToString(xs[i]))
  }

  /** A RANGES value written as the %d forms of 64-bit integers separated by
      single spaces splits into exactly those forms, and Atoi reads each one
      back: getRanges returns the list it was given. */
  lemma FormattedRangesReadBack(xs: seq<int>)
    requires |xs| >= 1
    requires forall i :: 0 <= i < |xs| ==> MinInt64 <= xs[i] <= MaxInt64
    ensures Split(Join(Formatted(xs), ' '), ' ') == Formatted(xs)
    ensures forall i :: 0 <= i < |xs| ==> Atoi(Formatted(xs)[i]) == Some(xs[i])
  {
    var pieces := Formatted(xs);
    forall i | 0 <= i < |pieces| ensures ' ' !in pieces[i] && Atoi(pieces[i]) == Some(xs[i]) {
      AtoiIntToString(xs[i]);
      if xs[i] < 0 {
        NatToStringDigits(-xs[i]);
        assert pieces[i] == "-" + NatToString(-xs[i]);
      } else {
        NatToStringDigits(xs[i]);
      }
    }
    SplitJoin(pieces, ' ');
  }
}
