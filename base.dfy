/** Small shared vocabulary: optional and fallible results, distinctness of key
    sequences, and the counting facts the scenario checks rest on. */
module Base {

  datatype Option<+T> = None | Some(value: T)

  datatype Result<+T, +E> = Ok(value: T) | Err(error: E)

  /** No element occurs twice. */
  predicate Distinct<T(==)>(s: seq<T>) {
    forall i, j :: 0 <= i < j < |s| ==> s[i] != s[j]
  }

  /** The set of elements of a sequence. */
  function Elems<T>(s: seq<T>): set<T> {
    set x | x in s
  }

  /** The number of positions of `s` whose element lies in `S`. */
  function CountIn<T>(s: seq<T>, S: set<T>): (c: nat)
    ensures c <= |s|
  {
    if s == [] then 0
    else CountIn(s[..|s| - 1], S) + (if s[|s| - 1] in S then 1 else 0)
  }

  /** A distinct sequence has as many elements as positions. */
  lemma {:induction false} DistinctCard<T>(s: seq<T>)
    requires Distinct(s)
    ensures |Elems(s)| == |s|
  {
    if s != [] {
      var p := s[..|s| - 1];
      assert Distinct(p);
      DistinctCard(p);
      assert s == p + [s[|s| - 1]];
      assert s[|s| - 1] !in Elems(p);
      assert Elems(s) == Elems(p) + {s[|s| - 1]};
    }
  }

  /** In a distinct sequence every value occurs at most once. */
  lemma {:induction false} DistinctOccursOnce<T>(s: seq<T>, x: T)
    requires Distinct(s)
    ensures multiset(s)[x] <= 1
  {
    if s != [] {
      var p := s[..|s| - 1];
      assert s == p + [s[|s| - 1]];
      DistinctOccursOnce(p, x);
      if x == s[|s| - 1] {
        assert x !in p;
      }
    }
  }

  /** Reordering a distinct sequence keeps it distinct and keeps its elements;
      this is why an in-place shuffle of a generated key array keeps its keys
      distinct. */
  lemma PermutationKeepsDistinct<T>(a: seq<T>, b: seq<T>)
    requires multiset(a) == multiset(b)
    requires Distinct(b)
    ensures Distinct(a)
    ensures Elems(a) == Elems(b)
    ensures |a| == |b|
  {
    assert |a| == |multiset(a)| == |multiset(b)| == |b|;
    forall x ensures x in a <==> x in b {
      assert x in a <==> x in multiset(a);
      assert x in b <==> x in multiset(b);
    }
    forall i, j | 0 <= i < j < |a| ensures a[i] != a[j] {
      if a[i] == a[j] {
        assert a == a[..j] + a[j..];
        assert a[i] in multiset(a[..j]);
        assert a[j] in multiset(a[j..]);
        assert multiset(a)[a[i]] >= 2;
        DistinctOccursOnce(b, a[i]);
        assert false;
      }
    }
  }

  /** Two reorderings of one another hold the same elements. */
  lemma SameMultisetSameElems<T>(a: seq<T>, b: seq<T>)
    requires multiset(a) == multiset(b)
    ensures Elems(a) == Elems(b)
  {
    forall x ensures x in a <==> x in b {
      assert x in a <==> x in multiset(a);
      assert x in b <==> x in multiset(b);
    }
  }

  /** Counting the positions of a distinct sequence that fall in `S` counts
      the elements the two have in common. */
  lemma {:induction false} CountInDistinct<T>(s: seq<T>, S: set<T>)
    requires Distinct(s)
    ensures CountIn(s, S) == |S * Elems(s)|
  {
    if s == [] {
      assert S * Elems(s) == {};
    } else {
      var p, x := s[..|s| - 1], s[|s| - 1];
      assert Distinct(p);
      CountInDistinct(p, S);
      assert s == p + [x];
      assert x !in Elems(p);
      if x in S {
        assert S * Elems(s) == (S * Elems(p)) + {x};
      } else {
        assert S * Elems(s) == S * Elems(p);
      }
    }
  }
}
