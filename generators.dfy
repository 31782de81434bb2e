/** The key generators of bench.go and the pseudo-random source they share.

    Go's process-wide generator is an object here: `stream` is the sequence
    of raw values it hands out and `pos` how many it has handed out. Seeding
    from the clock is left out; which stream a seed yields is not modelled,
    only that each draw consumes the next value. */
module Generators {
  import opened Base

  const TwoTo31: nat := 0x8000_0000
  const TwoTo32: nat := 0x1_0000_0000
  const TwoTo63: nat := 0x8000_0000_0000_0000
  const TwoTo64: nat := 0x1_0000_0000_0000_0000

  /** The unsigned key types the integer benchmarks instantiate. */
  datatype Width = W32 | W64

  function Modulus(w: Width): nat {
    match w
    case W32 => 0x1_0000_0000
    case W64 => TwoTo64
  }

  /** Go's conversion V(x) from uint64 to the unsigned key type: the low bits. */
  function Truncate(x: nat, w: Width): (v: nat)
    ensures v < Modulus(w)
  {
    x % Modulus(w)
  }

  /** What the generators promise of their keys: distinct, never 0 (the
      value the benchmarks keep out of the key set) and below the width. */
  predicate KeySequence(keys: seq<nat>, w: Width) {
    Distinct(keys) && 0 !in keys && forall x :: x in keys ==> x < Modulus(w)
  }

  datatype GenError =
    | NegativeLength     // make([]V, n) with n < 0 panics
    | RetriesExhausted   // the rejection loop ran past its retry budget

  // ---- the views of one draw, and Go's rejection tests ----

  /** Int63: the low 63 bits of a draw. */
  function Int63Of(x: nat): (v: nat)
    ensures v < TwoTo63
  {
    x % TwoTo63
  }

  /** Uint32: the top 32 of those 63 bits. */
  function Uint32Of(x: nat): (v: nat)
    ensures v < TwoTo32
  {
    Int63Of(x) / TwoTo31
  }

  /** Int31: the top 31 of those 63 bits. */
  function Int31Of(x: nat): (v: nat)
    ensures v < TwoTo31
  {
    Int63Of(x) / TwoTo32
  }

  /** Go's test `n&(n-1) == 0` for a positive n. */
  predicate PowerOfTwo(n: nat)
    decreases n
  {
    n == 1 || (n >= 2 && n % 2 == 0 && PowerOfTwo(n / 2))
  }

  /** 2^e. */
  function Pow2(e: nat): (p: nat)
    ensures PowerOfTwo(p)
  {
    if e == 0 then 1 else 2 * Pow2(e - 1)
  }

  /** Eight doublings multiply by 256. */
  lemma Pow2Plus8(e: nat)
    ensures Pow2(e + 8) == 256 * Pow2(e)
  {
    assert Pow2(e + 8) == 2 * Pow2(e + 7) == 4 * Pow2(e + 6) == 8 * Pow2(e + 5) == 16 * Pow2(e + 4)
      == 32 * Pow2(e + 3) == 64 * Pow2(e + 2) == 128 * Pow2(e + 1) == 256 * Pow2(e);
  }

  /** A power of two divides every power of two at least as large: `k` is
      the quotient. */
  lemma {:induction false} PowerOfTwoDivides(n: nat, p: nat) returns (k: nat)
    requires PowerOfTwo(n) && PowerOfTwo(p) && n <= p
    ensures p == n * k
    decreases n
  {
    if n == 1 {
      k := p;
    } else {
      var h := PowerOfTwoDivides(n / 2, p / 2);
      k := h;
      calc {
        p;
        2 * (p / 2);
        2 * ((n / 2) * h);
        (2 * (n / 2)) * h;
        n * k;
      }
    }
  }

  /** A multiple of n leaves no remainder. */
  lemma MultipleModIsZero(n: nat, k: nat)
    requires n > 0
    ensures (n * k) % n == 0
  {
    var q, r := (n * k) / n, (n * k) % n;
    assert n * (k - q) == r;
    if k - q >= 1 {
      assert false;
    } else if k - q <= -1 {
      assert false;
    }
  }

  /** 2^31 and 2^32 are powers of two. */
  lemma WordPowersOfTwo()
    ensures PowerOfTwo(TwoTo31) && PowerOfTwo(TwoTo32)
  {
    Pow2Plus8(0);
    assert Pow2(8) == 0x100;
    Pow2Plus8(8);
    assert Pow2(16) == 0x1_0000;
    Pow2Plus8(16);
    assert Pow2(24) == 0x100_0000;
    Pow2Plus8(24);
    assert Pow2(32) == TwoTo32;
    assert Pow2(31) == TwoTo31;
  }

  /** Below a larger power of two p, a power of two n leaves no remainder
      from p or from p - n. */
  lemma PowerOfTwoModZero(n: nat, p: nat)
    requires PowerOfTwo(n) && PowerOfTwo(p) && n <= p
    ensures p % n == 0 && (p - n) % n == 0
  {
    var k := PowerOfTwoDivides(n, p);
    MultipleModIsZero(n, k);
    if k == 0 {
      assert false;
    }
    assert p - n == n * (k - 1);
    MultipleModIsZero(n, k - 1);
  }

  /** For a power-of-two bound no draw is ever rejected: Max31 admits every
      Int31 and int31n's threshold is 0. So the mask branch of Int31n, which
      takes a single draw, is what the rejection loop would do anyway. */
  lemma PowerOfTwoAcceptsAll(n: nat)
    requires PowerOfTwo(n) && n <= TwoTo31
    ensures Max31(n) == TwoTo31 - 1
    ensures Threshold(n) == 0
  {
    WordPowersOfTwo();
    PowerOfTwoModZero(n, TwoTo31);
    PowerOfTwoModZero(n, TwoTo32);
  }

  /** int31n's threshold `uint32(-n) % uint32(n)`: 2^32 mod n. */
  function Threshold(n: nat): (t: nat)
    requires 0 < n < TwoTo32
    ensures t < n
  {
    (TwoTo32 - n) % n
  }

  /** The low half of the product int31n forms from a draw and n. */
  function LemireLow(x: nat, n: nat): nat {
    (Uint32Of(x) * n) % TwoTo32
  }

  /** int31n accepts a draw whose product's low half reaches the threshold. */
  predicate LemireAccepts(x: nat, n: nat)
    requires 0 < n < TwoTo32
  {
    LemireLow(x, n) >= Threshold(n)
  }

  /** The bound int31n returns for an accepted draw: the product's high half. */
  function LemireValue(x: nat, n: nat): nat {
    Uint32Of(x) * n / TwoTo32
  }

  /** Int31n's largest acceptable Int31: below it every residue mod n is
      equally frequent. */
  function Max31(n: nat): (m: int)
    requires 0 < n
    ensures TwoTo31 - n <= m < TwoTo31
  {
    TwoTo31 - 1 - TwoTo31 % n
  }

  predicate Int31nAccepts(x: nat, n: nat)
    requires 0 < n
  {
    Int31Of(x) <= Max31(n)
  }

  ghost predicate LemireEnds(s: nat -> nat, p: nat, n: nat)
    requires 0 < n < TwoTo31
  {
    LemireAccepts(s(p), n) || exists q :: q > p && LemireAccepts(s(q), n)
  }

  ghost predicate Int31nEnds(s: nat -> nat, p: nat, n: nat)
    requires 0 < n < TwoTo31
  {
    Int31nAccepts(s(p), n) || exists q :: q > p && Int31nAccepts(s(q), n)
  }

  /** A stream on which the rejection loops of int31n and Int31n end: from
      any position, for any 31-bit bound, some draw is accepted. */
  ghost predicate Fair(s: nat -> nat) {
    forall p, n :: 0 < n < TwoTo31 ==> LemireEnds(s, p, n) && Int31nEnds(s, p, n)
  }

  /** A constant stream whose draws every rejection test accepts: their
      Uint32 is 1 and their Int31 is 0. */
  function Steady(i: nat): (x: nat)
    ensures Uint32Of(x) == 1 && Int31Of(x) == 0
  {
    TwoTo31
  }

  /** The draws of a seeded source; Steady shows that such streams exist. */
  type Stream = s: nat -> nat | Fair(s) witness Steady

  /** The high half of int31n's product is below n. */
  lemma LemireValueBelow(x: nat, n: nat)
    requires 0 < n
    ensures LemireValue(x, n) < n
  {
    ProductHighBelow(Uint32Of(x), n);
  }

  /** The high half of the product of a 32-bit value and n is below n. */
  lemma ProductHighBelow(v: nat, n: nat)
    requires v < TwoTo32 && 0 < n
    ensures v * n / TwoTo32 < n
  {
    assert v * n < TwoTo32 * n;
  }

  class Rng {
    const stream: Stream
    var pos: nat

    constructor (stream: Stream)
      ensures this.stream == stream && pos == 0
    {
      this.stream := stream;
      pos := 0;
    }

    /** rand.Uint64: the next draw, as a 64-bit value. */
    method Uint64() returns (x: nat)
      modifies this
      ensures x == stream(old(pos)) % TwoTo64 && pos == old(pos) + 1
    {
      x := stream(pos) % TwoTo64;
      pos := pos + 1;
    }

    /** rand.Intn: n <= 0 panics in Go; a 31-bit bound goes to Int31n, a
        larger one to Int63n. */
    method Intn(n: nat) returns (x: nat)
      requires n > 0
      modifies this
      ensures x < n && old(pos) < pos
      ensures n < TwoTo31 && PowerOfTwo(n) ==> pos == old(pos) + 1 && x == Int31Of(stream(old(pos))) % n
      ensures n < TwoTo31 && !PowerOfTwo(n) ==>
        && Int31nAccepts(stream(pos - 1), n) && x == Int31Of(stream(pos - 1)) % n
        && forall q :: old(pos) <= q < pos - 1 ==> !Int31nAccepts(stream(q), n)
      ensures n >= TwoTo31 ==> pos == old(pos) + 1 && x == Int63Of(stream(old(pos))) % n
    {
      if n < TwoTo31 {
        x := Int31n(n);
      } else {
        x := Int63n(n);
      }
    }

    /** rand.Int31n: a power of two masks one draw's Int31; any other bound
        draws until Int31 is at most Max31(n) and returns it modulo n. */
    method Int31n(n: nat) returns (x: nat)
      requires 0 < n < TwoTo31
      modifies this
      ensures x < n && old(pos) < pos
      ensures PowerOfTwo(n) ==> pos == old(pos) + 1 && x == Int31Of(stream(old(pos))) % n
      ensures !PowerOfTwo(n) ==>
        && Int31nAccepts(stream(pos - 1), n) && x == Int31Of(stream(pos - 1)) % n
        && forall q :: old(pos) <= q < pos - 1 ==> !Int31nAccepts(stream(q), n)
    {
      if PowerOfTwo(n) {
        x := Int31Of(stream(pos)) % n;
        pos := pos + 1;
        return;
      }
      ghost var bound := pos;
      assert Int31nEnds(stream, pos, n);
      if !Int31nAccepts(stream(pos), n) {
        bound :| bound > pos && Int31nAccepts(stream(bound), n);
      }
      var max, p := Max31(n), pos;
      var v := Int31Of(stream(p));
      while v > max
        invariant pos <= p <= bound
        invariant v == Int31Of(stream(p))
        invariant forall q :: pos <= q < p ==> !Int31nAccepts(stream(q), n)
        decreases bound - p
      {
        p := p + 1;
        v := Int31Of(stream(p));
      }
      pos := p + 1;
      x := v % n;
    }

    /** rand.Int63n, as one draw's Int63 modulo n. Go masks one draw for a
        power of two and otherwise redraws above the largest multiple of n
        below 2^63; that loop is not modelled. */
    method Int63n(n: nat) returns (x: nat)
      requires n > 0
      modifies this
      ensures x == Int63Of(stream(old(pos))) % n && pos == old(pos) + 1
    {
      x := Int63Of(stream(pos)) % n;
      pos := pos + 1;
    }

    /** The j rand.Shuffle swaps position i with: positions from 2^31 - 1 up
        draw it with Int63n, the others with int31n. */
    method ShuffleIndex(i: nat) returns (j: nat)
      requires i > 0
      modifies this
      ensures j <= i && old(pos) < pos
    {
      if i > TwoTo31 - 2 {
        j := Int63n(i + 1);
      } else {
        j := Lemire31n(i + 1);
      }
    }

    /** The unexported int31n rand.Shuffle draws with (Lemire's method):
        multiply a draw's Uint32 by n, redraw while the low half of the
        product is below the threshold, return the high half. */
    method Lemire31n(n: nat) returns (x: nat)
      requires 0 < n < TwoTo31
      modifies this
      ensures x < n && old(pos) < pos
      ensures LemireAccepts(stream(pos - 1), n) && x == LemireValue(stream(pos - 1), n)
      ensures forall q :: old(pos) <= q < pos - 1 ==> !LemireAccepts(stream(q), n)
    {
      ghost var bound := pos;
      assert LemireEnds(stream, pos, n);
      if !LemireAccepts(stream(pos), n) {
        bound :| bound > pos && LemireAccepts(stream(bound), n);
      }
      var p := pos;
      var low := LemireLow(stream(p), n);
      if low < n {
        var thresh := Threshold(n);
        while low < thresh
          invariant pos <= p <= bound
          invariant low == LemireLow(stream(p), n)
          invariant forall q :: pos <= q < p ==> !LemireAccepts(stream(q), n)
          decreases bound - p
        {
          p := p + 1;
          low := LemireLow(stream(p), n);
        }
      }
      LemireValueBelow(stream(p), n);
      x := LemireValue(stream(p), n);
      pos := p + 1;
    }
  }

  /** The fewest draws rand.Shuffle takes for n elements: one per position
      from the last down to the second. */
  function ShuffleDraws(n: nat): nat {
    if n == 0 then 0 else n - 1
  }

  /** rand.Shuffle with the swap closure every caller passes: Fisher-Yates
      from the last position down, swapping position i with a drawn j <= i.
      The result is a reordering of the same elements, and every position
      takes at least one draw. */
  method Shuffle<T>(a: array<T>, rng: Rng)
    modifies a, rng
    ensures multiset(a[..]) == multiset(old(a[..]))
    ensures rng.pos >= old(rng.pos) + ShuffleDraws(a.Length)
  {
    var i := a.Length - 1;
    while i > 0
      invariant -1 <= i < a.Length
      invariant a.Length > 0 ==> i >= 0
      invariant multiset(a[..]) == multiset(old(a[..]))
      invariant rng.pos >= old(rng.pos) + (a.Length - 1 - i)
    {
      var j := rng.ShuffleIndex(i);
      a[i], a[j] := a[j], a[i];
      i := i - 1;
    }
  }

  // ---- genRandIntArray ----

  /** The values genRandIntArray keeps from `count` draws starting at `from`:
      a draw is kept when its truncated value is neither 0 (pre-seeded in the
      membership map) nor already kept. */
  function Sampled(stream: nat -> nat, from: nat, count: nat, w: Width): (keys: seq<nat>)
    ensures |keys| <= count
  {
    if count == 0 then []
    else
      var prev := Sampled(stream, from, count - 1, w);
      var x := Truncate(stream(from + count - 1) % TwoTo64, w);
      if x == 0 || x in prev then prev else prev + [x]
  }

  /** Whatever the draws, the kept values are distinct, non-zero and in the
      key type's range. */
  lemma {:induction false} SampledIsKeySequence(stream: nat -> nat, from: nat, count: nat, w: Width)
    ensures KeySequence(Sampled(stream, from, count, w), w)
  {
    if count > 0 {
      SampledIsKeySequence(stream, from, count - 1, w);
    }
  }

  /** One more draw `x`, judged against the membership set {0} + kept. */
  lemma SampledStep(stream: nat -> nat, from: nat, count: nat, w: Width, values: set<nat>, x: nat)
    requires values == {0} + Elems(Sampled(stream, from, count, w))
    requires x == Truncate(stream(from + count) % TwoTo64, w)
    ensures x in values ==> Sampled(stream, from, count + 1, w) == Sampled(stream, from, count, w)
    ensures x !in values ==> Sampled(stream, from, count + 1, w) == Sampled(stream, from, count, w) + [x]
    ensures x !in values ==> values + {x} == {0} + Elems(Sampled(stream, from, count, w) + [x])
  {
    var prev := Sampled(stream, from, count, w);
    assert x in values <==> x == 0 || x in prev;
    assert Elems(prev + [x]) == Elems(prev) + {x};
  }

  /** One turn of genRandIntArray's loop: draw a value and store it at
      position i when the membership set does not hold it yet. */
  method SampleOnce(arr: array<nat>, i: nat, values: set<nat>, w: Width, rng: Rng, ghost p0: nat, ghost tries: nat)
    returns (values': set<nat>, i': nat)
    requires i < arr.Length && rng.pos == p0 + tries
    requires arr[..i] == Sampled(rng.stream, p0, tries, w)
    requires values == {0} + Elems(arr[..i])
    modifies arr, rng
    ensures rng.pos == p0 + tries + 1
    ensures i <= i' <= i + 1
    ensures arr[..i'] == Sampled(rng.stream, p0, tries + 1, w)
    ensures values' == {0} + Elems(arr[..i'])
  {
    var u := rng.Uint64();
    var x := Truncate(u, w);
    SampledStep(rng.stream, p0, tries, w, values, x);
    values', i' := values, i;
    if x !in values {
      ghost var kept := arr[..i];
      values' := values + {x};
      arr[i] := x;
      assert arr[..i + 1] == kept + [x];
      i' := i + 1;
    }
  }

  /** genRandIntArray: n distinct non-zero keys by rejection sampling. The
      source retries without bound; here the loop gives up after `budget`
      draws. */
  method GenRandIntArray(n: int, w: Width, rng: Rng, budget: nat) returns (r: Result<seq<nat>, GenError>)
    modifies rng
    ensures n < 0 ==> r == Err(NegativeLength) && rng.pos == old(rng.pos)
    ensures old(rng.pos) <= rng.pos
    ensures r.Ok? ==> |r.value| == n && KeySequence(r.value, w)
    ensures r.Ok? ==> r.value == Sampled(rng.stream, old(rng.pos), rng.pos - old(rng.pos), w)
    ensures r.Err? && n >= 0 ==>
      && r.error == RetriesExhausted
      && rng.pos == old(rng.pos) + budget
      && |Sampled(rng.stream, old(rng.pos), budget, w)| < n
  {
    if n < 0 {
      return Err(NegativeLength);
    }
    ghost var p0, stream := rng.pos, rng.stream;
    var values: set<nat> := {0};
    var arr := new nat[n];
    var i, tries := 0, 0;
    while i < n
      invariant 0 <= i <= n && tries <= budget
      invariant rng.pos == p0 + tries && rng.stream == stream
      invariant arr[..i] == Sampled(stream, p0, tries, w)
      invariant values == {0} + Elems(arr[..i])
      decreases budget - tries
    {
      if tries == budget {
        return Err(RetriesExhausted);
      }
      values, i := SampleOnce(arr, i, values, w, rng, p0, tries);
      tries := tries + 1;
    }
    assert arr[..] == arr[..i];
    SampledIsKeySequence(stream, p0, tries, w);
    return Ok(arr[..]);
  }

  // ---- genShuffledIntArray ----

  /** V(1), ..., V(n) before the shuffle. */
  function Sequential(n: nat, w: Width): (s: seq<nat>)
    ensures |s| == n
  {
    seq(n, (k: int) requires 0 <= k => Truncate(k + 1, w))
  }

  /** Below the key type's range, 1..n is distinct and lies in [1, n]. */
  lemma SequentialIsKeySequence(n: nat, w: Width)
    requires n < Modulus(w)
    ensures KeySequence(Sequential(n, w), w)
    ensures forall x :: x in Sequential(n, w) ==> 1 <= x <= n
  {
    forall k | 0 <= k < n ensures Sequential(n, w)[k] == k + 1 {
    }
  }

  /** genShuffledIntArray: 1..n (converted to the key type) in a shuffled order. */
  method GenShuffledIntArray(n: int, w: Width, rng: Rng) returns (r: Result<seq<nat>, GenError>)
    modifies rng
    ensures r.Ok? <==> n >= 0
    ensures r.Err? ==> r.error == NegativeLength
    ensures r.Ok? ==> |r.value| == n && multiset(r.value) == multiset(Sequential(n, w))
    ensures r.Ok? && n < Modulus(w) ==>
      KeySequence(r.value, w) && forall x :: x in r.value ==> 1 <= x <= n
  {
    if n < 0 {
      return Err(NegativeLength);
    }
    var arr := new nat[n];
    for i := 0 to n
      invariant arr[..i] == Sequential(n, w)[..i]
    {
      arr[i] := Truncate(i + 1, w);
      assert arr[..i + 1] == arr[..i] + [arr[i]];
    }
    assert arr[..] == Sequential(n, w);
    Shuffle(arr, rng);
    assert |arr[..]| == |multiset(arr[..])| == |multiset(Sequential(n, w))| == n;
    if n < Modulus(w) {
      SequentialIsKeySequence(n, w);
      PermutationKeepsDistinct(arr[..], Sequential(n, w));
      forall x | x in arr[..] ensures 1 <= x <= n {
        assert x in Elems(Sequential(n, w));
      }
    }
    return Ok(arr[..]);
  }

  // ---- genDifferentRandIntArray ----

  /** The values genDifferentRandIntArray keeps from `count` draws starting
      at `from`: a draw is kept when its truncated value is not excluded.
      Kept values are not added to the excluded set. */
  function Kept(stream: nat -> nat, from: nat, count: nat, excluded: set<nat>, w: Width): (kept: seq<nat>)
    ensures |kept| <= count
  {
    if count == 0 then []
    else
      var prev := Kept(stream, from, count - 1, excluded, w);
      var y := Truncate(stream(from + count - 1) % TwoTo64, w);
      if y in excluded then prev else prev + [y]
  }

  /** One more draw `y`, kept unless excluded. */
  lemma KeptStep(stream: nat -> nat, from: nat, count: nat, excluded: set<nat>, w: Width, y: nat)
    requires y == Truncate(stream(from + count) % TwoTo64, w)
    ensures y in excluded ==> Kept(stream, from, count + 1, excluded, w) == Kept(stream, from, count, excluded, w)
    ensures y !in excluded ==> Kept(stream, from, count + 1, excluded, w) == Kept(stream, from, count, excluded, w) + [y]
  {
  }

  lemma {:induction false} KeptAvoidsExcluded(stream: nat -> nat, from: nat, count: nat, excluded: set<nat>, w: Width)
    ensures forall y :: y in Kept(stream, from, count, excluded, w) ==> y !in excluded && y < Modulus(w)
  {
    if count > 0 {
      KeptAvoidsExcluded(stream, from, count - 1, excluded, w);
    }
  }

  /** The miss set may repeat a value: two equal fresh draws are both kept. */
  lemma KeptMayRepeat(stream: nat -> nat)
    requires stream(0) == 5 && stream(1) == 5
    ensures Kept(stream, 0, 2, {0, 1}, W64) == [5, 5]
    ensures !Distinct(Kept(stream, 0, 2, {0, 1}, W64))
  {
    assert Kept(stream, 0, 1, {0, 1}, W64) == [5];
    var k := Kept(stream, 0, 2, {0, 1}, W64);
    assert k[0] == k[1];
  }

  /** One turn of genDifferentRandIntArray's loop: draw a value and store
      it at position j unless the membership set holds it. */
  method KeepOnce(out: array<nat>, j: nat, values: set<nat>, w: Width, rng: Rng, ghost p0: nat, ghost tries: nat)
    returns (j': nat)
    requires j < out.Length && rng.pos == p0 + tries
    requires out[..j] == Kept(rng.stream, p0, tries, values, w)
    modifies out, rng
    ensures rng.pos == p0 + tries + 1
    ensures j <= j' <= j + 1
    ensures out[..j'] == Kept(rng.stream, p0, tries + 1, values, w)
  {
    var u := rng.Uint64();
    var y := Truncate(u, w);
    KeptStep(rng.stream, p0, tries, values, w, y);
    j' := j;
    if y !in values {
      ghost var kept := out[..j];
      out[j] := y;
      assert out[..j + 1] == kept + [y];
      j' := j + 1;
    }
  }

  /** genDifferentRandIntArray: as many values as `input` has, none of them 0
      or an element of `input`, by rejection against the membership set of
      `input`; the source retries without bound, here the loop gives up
      after `budget` draws. */
  method GenDifferentRandIntArray(input: seq<nat>, w: Width, rng: Rng, budget: nat)
    returns (r: Result<seq<nat>, GenError>)
    modifies rng
    ensures old(rng.pos) <= rng.pos
    ensures r.Ok? ==> |r.value| == |input|
    ensures r.Ok? ==> forall y :: y in r.value ==> y !in input && y != 0 && y < Modulus(w)
    ensures r.Ok? ==> r.value == Kept(rng.stream, old(rng.pos), rng.pos - old(rng.pos), Elems(input) + {0}, w)
    ensures r.Err? ==>
      && r.error == RetriesExhausted
      && rng.pos == old(rng.pos) + budget
      && |Kept(rng.stream, old(rng.pos), budget, Elems(input) + {0}, w)| < |input|
  {
    ghost var p0, stream := rng.pos, rng.stream;
    var out := new nat[|input|];
    var values := Elems(input) + {0};
    var j, tries := 0, 0;
    while j < |input|
      invariant 0 <= j <= |input| && tries <= budget
      invariant rng.pos == p0 + tries && rng.stream == stream
      invariant out[..j] == Kept(stream, p0, tries, values, w)
      decreases budget - tries
    {
      if tries == budget {
        return Err(RetriesExhausted);
      }
      j := KeepOnce(out, j, values, w, rng, p0, tries);
      tries := tries + 1;
    }
    assert out[..] == out[..j];
    KeptAvoidsExcluded(stream, p0, tries, values, w);
    return Ok(out[..]);
  }
}
