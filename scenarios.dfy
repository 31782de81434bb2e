/** The per-repetition scripts the benchmark functions of u32_test.go,
    u64_test.go and uuid_test.go run against the "std" adapter, with the
    consistency checks that end a run through b.Fatal, and the repetition
    loop around them. The three files share these scripts; they differ only
    in the key type, the key generator and whether the map gets a size hint.

    Every script builds its map afresh, so a repetition never sees the map of
    the one before; what carries over is the key array, which the shuffling
    scripts reorder in place. */
module Scenarios {
  import opened Base
  import opened Generators
  import opened StdAdapter

  /** The map every script but the mixed one fills: each key with value 1. */
  function Ones<K>(keys: seq<K>): (m: map<K, nat>)
    ensures m.Keys == Elems(keys)
    ensures forall k :: k in m ==> m[k] == 1
  {
    map k | k in keys :: 1
  }

  /** The setup loop `for j := range arr { m.Put(arr[j], 1) }`. */
  method PutOnes<K(==)>(m: StdMap<K, nat>, keys: seq<K>)
    modifies m
    ensures m.m == old(m.m) + Ones(keys)
  {
    for j := 0 to |keys|
      invariant m.m == old(m.m) + Ones(keys[..j])
    {
      assert Ones(keys[..j + 1]) == Ones(keys[..j])[keys[j] := 1];
      var _ := m.Put(keys[j], 1);
    }
    assert keys[..|keys|] == keys;
  }

  /** The insert benchmarks: a fresh map (with the hint) and Put(k, 1) for
      every key, in array order; afterwards the map holds exactly the keys. */
  method InsertsRepetition<K(==)>(arr: array<K>, hint: nat) returns (m: StdMap<K, nat>)
    ensures fresh(m) && m.hint == hint
    ensures m.m == Ones(arr[..])
  {
    m := new StdMap(hint, 0);
    PutOnes(m, arr[..]);
  }

  /** RandomFullDeletes: fill, reshuffle the keys, then Remove every key in
      the new order; afterwards the map is empty. */
  method FullDeletesRepetition<K(==)>(arr: array<K>, hint: nat, rng: Rng) returns (m: StdMap<K, nat>)
    modifies arr, rng
    ensures fresh(m) && m.hint == hint
    ensures multiset(arr[..]) == multiset(old(arr[..]))
    ensures m.m == map[]
  {
    m := new StdMap(hint, 0);
    PutOnes(m, arr[..]);
    ghost var filled := m.m;
    assert arr[..] == old(arr[..]);
    Shuffle(arr, rng);
    assert multiset(arr[..]) == multiset(old(arr[..]));
    ghost var shuffled := arr[..];
    SameMultisetSameElems(arr[..], old(arr[..]));
    for j := 0 to arr.Length
      modifies m
      invariant m.m == filled - Elems(arr[..j])
    {
      assert Elems(arr[..j + 1]) == Elems(arr[..j]) + {arr[j]};
      var _ := m.Remove(arr[j]);
    }
    assert arr[..] == shuffled;
    assert arr[..arr.Length] == arr[..];
  }

  /** The hit-read benchmarks: fill, reshuffle, Get every key; a key that is
      not found ends the run (`fatal`), which never happens: every key just
      put is found. */
  method ReadsRepetition<K(==)>(arr: array<K>, hint: nat, rng: Rng) returns (m: StdMap<K, nat>, fatal: bool)
    modifies arr, rng
    ensures fresh(m) && m.hint == hint
    ensures multiset(arr[..]) == multiset(old(arr[..]))
    ensures m.m == Ones(old(arr[..]))
    ensures !fatal
  {
    m := new StdMap(hint, 0);
    PutOnes(m, arr[..]);
    assert arr[..] == old(arr[..]);
    Shuffle(arr, rng);
    assert multiset(arr[..]) == multiset(old(arr[..]));
    SameMultisetSameElems(arr[..], old(arr[..]));
    ghost var shuffled := arr[..];
    fatal := false;
    var j := 0;
    while j < arr.Length && !fatal
      modifies {}
      invariant 0 <= j <= arr.Length && !fatal
      invariant arr[..] == shuffled
    {
      var _, found := m.Get(arr[j]);
      fatal := !found;
      j := j + 1;
    }
  }

  /** The miss-read benchmarks: fill with `arr` (no reshuffle), then Get
      other[j] for every position j of arr; a found key ends the run. The
      run fails exactly when one of the probed keys is among the inserted
      ones, and `probed` says how many probes were made: the run stops at
      the first probe that is found. */
  method ReadsMissesRepetition<K(==)>(arr: array<K>, other: seq<K>, hint: nat)
    returns (m: StdMap<K, nat>, fatal: bool, probed: nat)
    requires |other| >= arr.Length
    ensures fresh(m) && m.hint == hint
    ensures m.m == Ones(arr[..])
    ensures fatal <==> exists j :: 0 <= j < arr.Length && other[j] in arr[..]
    ensures !fatal ==> probed == arr.Length
    ensures fatal ==> 0 < probed <= arr.Length && other[probed - 1] in arr[..]
                      && forall j :: 0 <= j < probed - 1 ==> other[j] !in arr[..]
  {
    m := new StdMap(hint, 0);
    PutOnes(m, arr[..]);
    fatal := false;
    probed := 0;
    while probed < arr.Length && !fatal
      invariant 0 <= probed <= arr.Length
      invariant m.m == Ones(arr[..])
      invariant forall j :: 0 <= j < probed - (if fatal then 1 else 0) ==> other[j] !in arr[..]
      invariant fatal ==> 0 < probed && other[probed - 1] in arr[..]
    {
      var _, found := m.Get(other[probed]);
      fatal := found;
      probed := probed + 1;
    }
  }

  /** The removal loop `for j := 0; j < count; j++ { m.Remove(keys[j]) }`. */
  method RemovePrefix<K(==)>(m: StdMap<K, nat>, keys: seq<K>, count: nat)
    requires count <= |keys|
    modifies m
    ensures m.m == old(m.m) - Elems(keys[..count])
  {
    for j := 0 to count
      invariant m.m == old(m.m) - Elems(keys[..j])
    {
      assert Elems(keys[..j + 1]) == Elems(keys[..j]) + {keys[j]};
      var _ := m.Remove(keys[j]);
    }
  }

  /** The measured loop of the half-delete benchmark: Get every key and add
      1 to `ac` for each one not found. When the keys missing from the map
      are those of `absent`, `ac` counts the positions holding one of them. */
  method CountMisses<K(==)>(m: StdMap<K, nat>, keys: seq<K>, ghost absent: set<K>) returns (ac: nat)
    requires forall i :: 0 <= i < |keys| ==> (keys[i] in m.m <==> keys[i] !in absent)
    ensures ac == CountIn(keys, absent)
  {
    ac := 0;
    for j := 0 to |keys|
      invariant ac == CountIn(keys[..j], absent)
    {
      var _, found := m.Get(keys[j]);
      assert keys[..j + 1][..j] == keys[..j];
      var x := 0;
      if !found {
        x := 1;
      }
      ac := ac + x;
    }
    assert keys[..|keys|] == keys;
  }

  /** Why the half-delete check holds on distinct keys: removing the first
      `half` keys of a reordering of a distinct array, then probing every key
      of another reordering, misses exactly `half` times. */
  lemma HalfDeleteCount<K>(original: seq<K>, firstOrder: seq<K>, lastOrder: seq<K>, half: nat)
    requires Distinct(original)
    requires multiset(firstOrder) == multiset(original)
    requires multiset(lastOrder) == multiset(original)
    requires half <= |firstOrder|
    ensures CountIn(lastOrder, Elems(firstOrder[..half])) == half
  {
    var removed := firstOrder[..half];
    PermutationKeepsDistinct(firstOrder, original);
    PermutationKeepsDistinct(lastOrder, original);
    assert Distinct(removed);
    DistinctCard(removed);
    CountInDistinct(lastOrder, Elems(removed));
    assert Elems(removed) * Elems(lastOrder) == Elems(removed);
  }

  /** RandomFullReadsAfterDeletingHalf: fill, reshuffle, Remove the first
      len/2 keys (`removed`), reshuffle, then Get every key and count the
      misses in `ac`; the run fails when the count differs from len/2. The
      count is the number of positions whose key was removed, so on distinct
      keys it is exactly len/2 and the check passes. */
  method ReadsAfterDeletingHalfRepetition<K(==)>(arr: array<K>, hint: nat, rng: Rng)
    returns (m: StdMap<K, nat>, ac: nat, fatal: bool, ghost removed: seq<K>)
    modifies arr, rng
    ensures fresh(m) && m.hint == hint
    ensures multiset(arr[..]) == multiset(old(arr[..]))
    ensures |removed| == arr.Length / 2 && multiset(removed) <= multiset(old(arr[..]))
    ensures m.m == Ones(old(arr[..])) - Elems(removed)
    ensures ac == CountIn(arr[..], Elems(removed))
    ensures fatal <==> ac != arr.Length / 2
    ensures Distinct(old(arr[..])) ==> ac == arr.Length / 2 && !fatal
  {
    ghost var original := arr[..];
    m := new StdMap(hint, 0);
    PutOnes(m, arr[..]);
    assert arr[..] == original;
    Shuffle(arr, rng);
    ghost var firstOrder := arr[..];
    assert multiset(firstOrder) == multiset(original);
    var numRemoved := arr.Length / 2;
    RemovePrefix(m, arr[..], numRemoved);
    removed := firstOrder[..numRemoved];
    assert arr[..] == firstOrder;
    assert m.m == Ones(original) - Elems(removed);
    assert firstOrder == removed + firstOrder[numRemoved..];
    ghost var afterRemoval := m.m;
    Shuffle(arr, rng);
    ghost var lastOrder := arr[..];
    assert m.m == afterRemoval;
    assert multiset(lastOrder) == multiset(original);
    SameMultisetSameElems(lastOrder, original);
    forall i | 0 <= i < |lastOrder|
      ensures lastOrder[i] in m.m <==> lastOrder[i] !in Elems(removed)
    {
      assert lastOrder[i] in Elems(original);
    }
    ac := CountMisses(m, arr[..], Elems(removed));
    fatal := ac != numRemoved;
    if Distinct(original) {
      HalfDeleteCount(original, firstOrder, lastOrder, numRemoved);
    }
  }

  /** RandomFullIteration: fill, then Each(handleElem); since handleElem
      never asks to stop, the traversal visits every stored key once. */
  method IterationRepetition<K(==)>(arr: array<K>, hint: nat) returns (m: StdMap<K, nat>, visited: seq<K>)
    ensures fresh(m) && m.hint == hint
    ensures m.m == Ones(arr[..])
    ensures Distinct(visited) && Elems(visited) == Elems(arr[..])
  {
    m := new StdMap(hint, 0);
    PutOnes(m, arr[..]);
    visited := m.Each((k, v) => HandleElem(k, v));
  }

  // ---- the mixed 50% reads / 25% inserts / 25% deletes script ----

  /** One measured step of the mixed script. */
  datatype Op<K> = Read(key: K) | Insert(key: K) | Delete(key: K)

  /** The switch on rand.Intn(4): 0 falls through to 1 and reads, 2 puts the
      key with itself as value, 3 removes it. */
  function Dispatch<K>(choice: nat, key: K): (op: Op<K>)
    requires choice < 4
    ensures op.key == key
    ensures op.Read? <==> choice <= 1
    ensures op.Insert? <==> choice == 2
    ensures op.Delete? <==> choice == 3
  {
    if choice == 0 || choice == 1 then Read(key)
    else if choice == 2 then Insert(key)
    else Delete(key)
  }

  /** The effect of one step on the map's contents: only the step's key
      can change; it is present afterwards exactly when the step put it or
      read it while present, and a put stores the key as its own value. */
  function Apply<K>(m: map<K, K>, op: Op<K>): (r: map<K, K>)
    ensures r - {op.key} == m - {op.key}
    ensures op.key in r <==> op.Insert? || (op.Read? && op.key in m)
    ensures op.Insert? ==> op.key in r && r[op.key] == op.key
    ensures op.Read? && op.key in m ==> r[op.key] == m[op.key]
  {
    match op
    case Read(_) => m
    case Insert(k) => m[k := k]
    case Delete(k) => m - {k}
  }

  /** The contents after a sequence of steps. */
  function Replay<K>(m: map<K, K>, ops: seq<Op<K>>): map<K, K> {
    if ops == [] then m else Apply(Replay(m, ops[..|ops| - 1]), ops[|ops| - 1])
  }

  /** The keys a sequence of steps names. */
  function OpKeys<K>(ops: seq<Op<K>>): set<K> {
    if ops == [] then {} else OpKeys(ops[..|ops| - 1]) + {ops[|ops| - 1].key}
  }

  /** Whatever the drawn choices, the mixed script keeps every stored value
      equal to its key, and only keys present at the start or named by a step
      can be present at the end. */
  lemma {:induction false} ReplayKeepsSelfValues<K>(m: map<K, K>, ops: seq<Op<K>>)
    requires forall k :: k in m ==> m[k] == k
    ensures forall k :: k in Replay(m, ops) ==> Replay(m, ops)[k] == k
    ensures Replay(m, ops).Keys <= m.Keys + OpKeys(ops)
  {
    if ops != [] {
      ReplayKeepsSelfValues(m, ops[..|ops| - 1]);
    }
  }

  /** Reads never change the contents. */
  lemma {:induction false} ReadsLeaveContents<K>(m: map<K, K>, ops: seq<Op<K>>)
    requires forall i :: 0 <= i < |ops| ==> ops[i].Read?
    ensures Replay(m, ops) == m
  {
    if ops != [] {
      ReadsLeaveContents(m, ops[..|ops| - 1]);
    }
  }

  /** The setup of the mixed script: the first half of the keys, each mapped
      to itself. */
  function SelfMap<K>(keys: seq<K>): (m: map<K, K>)
    ensures m.Keys == Elems(keys)
    ensures forall k :: k in m ==> m[k] == k
  {
    map k | k in keys :: k
  }

  /** The setup loop of the mixed script: Put(k, k) for the first `count` keys. */
  method PutSelfPrefix<K(==)>(m: StdMap<K, K>, keys: seq<K>, count: nat)
    requires count <= |keys|
    modifies m
    ensures m.m == old(m.m) + SelfMap(keys[..count])
  {
    for j := 0 to count
      invariant m.m == old(m.m) + SelfMap(keys[..j])
    {
      assert SelfMap(keys[..j + 1]) == SelfMap(keys[..j])[keys[j] := keys[j]];
      var _ := m.Put(keys[j], keys[j]);
    }
  }

  /** The steps the mixed script takes over `keys` when its draws start at
      position `from` of the stream: the i-th key goes with the i-th draw,
      whose Int31 modulo 4 is what rand.Intn(4) returns. */
  function Planned<K>(stream: nat -> nat, from: nat, keys: seq<K>): (ops: seq<Op<K>>)
    ensures |ops| == |keys|
  {
    if keys == [] then []
    else
      var n := |keys| - 1;
      Planned(stream, from, keys[..n]) + [Dispatch(Int31Of(stream(from + n)) % 4, keys[n])]
  }

  /** Planning one more key appends the step of the next draw. */
  lemma PlannedSnoc<K>(stream: nat -> nat, from: nat, keys: seq<K>, j: nat)
    requires j < |keys|
    ensures Planned(stream, from, keys[..j + 1])
         == Planned(stream, from, keys[..j]) + [Dispatch(Int31Of(stream(from + j)) % 4, keys[j])]
  {
    assert keys[..j + 1][..j] == keys[..j];
  }

  /** One measured step: the switch on the drawn choice. */
  method Step<K(==)>(m: StdMap<K, K>, choice: nat, key: K)
    requires choice < 4
    modifies m
    ensures m.m == Apply(old(m.m), Dispatch(choice, key))
  {
    if choice == 0 || choice == 1 {
      var _, _ := m.Get(key);
    } else if choice == 2 {
      var _ := m.Put(key, key);
    } else {
      var _ := m.Remove(key);
    }
  }

  /** The measured loop of the mixed script: one rand.Intn(4) draw per key,
      dispatched to Get, Put(k, k) or Remove. `ops` lists the steps taken;
      each is fixed by the draw at its position in the stream, and the map
      ends as those steps applied to its contents before the loop. */
  method MixedSteps<K(==)>(m: StdMap<K, K>, keys: seq<K>, rng: Rng) returns (ghost ops: seq<Op<K>>)
    modifies m, rng
    ensures ops == Planned(rng.stream, old(rng.pos), keys)
    ensures rng.pos == old(rng.pos) + |keys|
    ensures m.m == Replay(old(m.m), ops)
  {
    ghost var p0, m0 := rng.pos, m.m;
    ghost var stream := rng.stream;
    ops := [];
    for j := 0 to |keys|
      invariant rng.pos == p0 + j && rng.stream == stream
      invariant ops == Planned(stream, p0, keys[..j])
      invariant m.m == Replay(m0, ops)
    {
      ghost var before := m.m;
      var choice := rng.Intn(4);
      Step(m, choice, keys[j]);
      MixedStep(stream, p0, keys, j, m0, ops, before, m.m);
      ops := ops + [Dispatch(choice, keys[j])];
    }
    assert keys[..|keys|] == keys;
  }

  /** One turn of the measured loop: the step of the next draw extends both
      the plan and the replay. */
  lemma MixedStep<K>(stream: nat -> nat, from: nat, keys: seq<K>, j: nat, m0: map<K, K>,
                     ops: seq<Op<K>>, before: map<K, K>, after: map<K, K>)
    requires j < |keys|
    requires ops == Planned(stream, from, keys[..j]) && before == Replay(m0, ops)
    requires after == Apply(before, Dispatch(Int31Of(stream(from + j)) % 4, keys[j]))
    ensures ops + [Dispatch(Int31Of(stream(from + j)) % 4, keys[j])] == Planned(stream, from, keys[..j + 1])
    ensures after == Replay(m0, ops + [Dispatch(Int31Of(stream(from + j)) % 4, keys[j])])
  {
    PlannedSnoc(stream, from, keys, j);
    var longer := ops + [Dispatch(Int31Of(stream(from + j)) % 4, keys[j])];
    assert longer[..|ops|] == ops;
  }

  /** The planned steps name exactly the keys they are planned over. */
  lemma {:induction false} PlannedKeys<K>(stream: nat -> nat, from: nat, keys: seq<K>)
    ensures OpKeys(Planned(stream, from, keys)) == Elems(keys)
  {
    if keys != [] {
      var n := |keys| - 1;
      PlannedKeys(stream, from, keys[..n]);
      PlannedSnoc(stream, from, keys, n);
      assert keys[..n + 1] == keys;
      var ops := Planned(stream, from, keys);
      assert ops[..n] == Planned(stream, from, keys[..n]);
      assert Elems(keys) == Elems(keys[..n]) + {keys[n]};
    }
  }

  /** _50Reads_25Inserts_25Deletes: Put(k, k) for the first len/2 keys,
      reshuffle, then the mixed steps over the new order. The shuffle takes
      at least one draw for every position but the first; the steps take the
      last arr.Length draws, one each, and the map ends as those steps
      applied to the setup (MixedKeepsSelfValues states what that leaves in
      the map). */
  method MixedRepetition<K(==)>(arr: array<K>, hint: nat, zero: K, rng: Rng)
    returns (m: StdMap<K, K>, ghost ops: seq<Op<K>>)
    modifies arr, rng
    ensures fresh(m) && m.hint == hint
    ensures multiset(arr[..]) == multiset(old(arr[..]))
    ensures rng.pos >= old(rng.pos) + ShuffleDraws(arr.Length) + arr.Length
    ensures ops == Planned(rng.stream, rng.pos - arr.Length, arr[..])
    ensures m.m == Replay(SelfMap(old(arr[..])[..arr.Length / 2]), ops)
  {
    ghost var original := arr[..];
    m := new StdMap(hint, zero);
    PutSelfPrefix(m, arr[..], arr.Length / 2);
    assert m.m == SelfMap(original[..arr.Length / 2]);
    assert arr[..] == original;
    Shuffle(arr, rng);
    ops := MixedSteps(m, arr[..], rng);
  }

  /** Whatever the draws, the mixed script over a reordering of the keys,
      started from the first half of the original order, keeps every stored
      value equal to its key and stores no key outside the array. */
  lemma MixedKeepsSelfValues<K>(original: seq<K>, shuffled: seq<K>, stream: nat -> nat, from: nat)
    requires multiset(shuffled) == multiset(original)
    ensures var contents := Replay(SelfMap(original[..|original| / 2]), Planned(stream, from, shuffled));
      && (forall k :: k in contents ==> contents[k] == k)
      && contents.Keys <= Elems(original)
  {
    var setup := SelfMap(original[..|original| / 2]);
    var ops := Planned(stream, from, shuffled);
    ReplayKeepsSelfValues(setup, ops);
    PlannedKeys(stream, from, shuffled);
    SameMultisetSameElems(shuffled, original);
    assert setup.Keys <= Elems(original) by {
      assert original == original[..|original| / 2] + original[|original| / 2..];
    }
  }

  // ---- the repetition loop ----

  /** The shape of a benchmark function's measured phase. */
  datatype Script =
    | Inserts
    | FullDeletes
    | Reads
    | ReadsMisses
    | ReadsAfterDeletingHalf
    | Iteration
    | Mixed

  /** What one b.Run reports: report(b, n, load), or a b.Fatal. */
  datatype Outcome = Reported(n: nat, load: real) | Fatal

  /** The loop `for i := 0; i < b.N; i++` of one sub-benchmark: `reps`
      repetitions of the script on a fresh map each, with `load` starting at
      -1 and set to m.Load() after each repetition, and report(b, len, load)
      at the end. A run can only fail in the miss-read script, when a probe
      hits an inserted key, or in the half-delete script, when the key array
      repeats a key; the reported load is always -1 for the built-in map. */
  method RunRepetitions<K(==)>(script: Script, arr: array<K>, other: seq<K>, hint: nat, zero: K, rng: Rng, reps: nat)
    returns (o: Outcome)
    requires script == ReadsMisses ==> |other| >= arr.Length
    modifies arr, rng
    ensures multiset(arr[..]) == multiset(old(arr[..]))
    ensures o.Fatal? ==>
      || (script == ReadsMisses && exists j :: 0 <= j < arr.Length && other[j] in old(arr[..]))
      || (script == ReadsAfterDeletingHalf && !Distinct(old(arr[..])))
    ensures o.Reported? ==> o == Reported(arr.Length, -1.0)
  {
    ghost var original := arr[..];
    var load: real := -1.0;
    for i := 0 to reps
      invariant multiset(arr[..]) == multiset(original)
      invariant load == -1.0
    {
      var fatal := false;
      match script {
      case Inserts =>
        var m := InsertsRepetition(arr, hint);
        load := m.Load();
      case FullDeletes =>
        var m := FullDeletesRepetition(arr, hint, rng);
        load := m.Load();
      case Reads =>
        var m, f := ReadsRepetition(arr, hint, rng);
        fatal := f;
        load := m.Load();
      case ReadsMisses =>
        var m, f, _ := ReadsMissesRepetition(arr, other, hint);
        if f {
          SameMultisetSameElems(arr[..], original);
          ghost var j :| 0 <= j < arr.Length && other[j] in arr[..];
          assert other[j] in Elems(original);
        }
        fatal := f;
        load := m.Load();
      case ReadsAfterDeletingHalf =>
        ghost var before := arr[..];
        var m, _, f, _ := ReadsAfterDeletingHalfRepetition(arr, hint, rng);
        if Distinct(original) {
          PermutationKeepsDistinct(before, original);
        }
        fatal := f;
        load := m.Load();
      case Iteration =>
        var m, _ := IterationRepetition(arr, hint);
        load := m.Load();
      case Mixed =>
        var m, _ := MixedRepetition(arr, hint, zero, rng);
        load := m.Load();
      }
      if fatal {
        SameMultisetSameElems(arr[..], original);
        return Fatal;
      }
    }
    return Reported(arr.Length, load);
  }
}
