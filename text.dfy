/** String handling shared by the harness and the chart script: splitting on a
    separator (Go's strings.Split and Python's str.split with an explicit
    separator agree on it), decimal digits, Go's strconv.Atoi and
    fmt's %d, and Python's str.strip and int(). */
module Text {
  import opened Base

  /** How many times `c` occurs in `s`. */
  function Occurrences(s: string, c: char): (k: nat)
    ensures k <= |s|
    ensures k == 0 <==> c !in s
  {
    if s == [] then 0 else (if s[0] == c then 1 else 0) + Occurrences(s[1..], c)
  }

  /** The pieces of `s` between occurrences of `sep`; an empty string gives
      one empty piece, as in both Go and Python. */
  function Split(s: string, sep: char): (r: seq<string>)
    ensures |r| >= 1
    decreases |s|
  {
    if s == [] then [""]
    else
      var rest := Split(s[1..], sep);
      if s[0] == sep then [""] + rest
      else [[s[0]] + rest[0]] + rest[1..]
  }

  /** The inverse of Split: the pieces glued back with the separator. */
  function Join(pieces: seq<string>, sep: char): string
    requires |pieces| >= 1
  {
    if |pieces| == 1 then pieces[0] else pieces[0] + [sep] + Join(pieces[1..], sep)
  }

  /** There is one more piece than there are separators. */
  lemma {:induction false} SplitCount(s: string, sep: char)
    ensures |Split(s, sep)| == Occurrences(s, sep) + 1
    decreases |s|
  {
    if s != [] {
      SplitCount(s[1..], sep);
    }
  }

  /** No piece holds the separator. */
  predicate SepFree(pieces: seq<string>, sep: char) {
    forall i :: 0 <= i < |pieces| ==> sep !in pieces[i]
  }

  lemma {:induction false} SplitPiecesAreSepFree(s: string, sep: char)
    ensures SepFree(Split(s, sep), sep)
    decreases |s|
  {
    if s != [] {
      SplitPiecesAreSepFree(s[1..], sep);
    }
  }

  /** Gluing the pieces of a split gives back the original string. */
  lemma {:induction false} JoinSplit(s: string, sep: char)
    ensures Join(Split(s, sep), sep) == s
    decreases |s|
  {
    if s != [] {
      JoinSplit(s[1..], sep);
      var rest := Split(s[1..], sep);
      if s[0] != sep {
        if |rest| > 1 {
          assert ([[s[0]] + rest[0]] + rest[1..])[1..] == rest[1..];
        }
      } else {
        assert ([""] + rest)[1..] == rest;
      }
    }
  }

  /** Splitting a glued sequence of separator-free pieces gives the pieces back. */
  lemma {:induction false} SplitJoin(pieces: seq<string>, sep: char)
    requires |pieces| >= 1 && SepFree(pieces, sep)
    ensures Split(Join(pieces, sep), sep) == pieces
    decreases |pieces|, |pieces[0]|, 1
  {
    if |pieces| == 1 {
      SplitOfSepFree(pieces[0], sep);
    } else if pieces[0] == [] {
      SplitJoinEmptyFirst(pieces, sep);
    } else {
      SplitJoinCharFirst(pieces, sep);
    }
  }

  /** SplitJoin when the first piece is empty: the glue starts with the separator. */
  lemma {:induction false} SplitJoinEmptyFirst(pieces: seq<string>, sep: char)
    requires |pieces| >= 2 && SepFree(pieces, sep) && pieces[0] == []
    ensures Split(Join(pieces, sep), sep) == pieces
    decreases |pieces|, |pieces[0]|, 0
  {
    var tail := pieces[1..];
    SplitJoin(tail, sep);
    SplitFirst([sep] + Join(tail, sep), sep);
    assert Join(pieces, sep) == [sep] + Join(tail, sep);
    assert [""] + tail == pieces;
  }

  /** SplitJoin when the first piece is not empty: its first character leads
      the glue and the first piece of the split. */
  lemma {:induction false} SplitJoinCharFirst(pieces: seq<string>, sep: char)
    requires |pieces| >= 2 && SepFree(pieces, sep) && pieces[0] != []
    ensures Split(Join(pieces, sep), sep) == pieces
    decreases |pieces|, |pieces[0]|, 0
  {
    var c := pieces[0][0];
    var shorter := [pieces[0][1..]] + pieces[1..];
    assert SepFree(shorter, sep) by {
      forall i | 0 <= i < |shorter| ensures sep !in shorter[i] {
        if i == 0 {
          assert forall x :: x in pieces[0][1..] ==> x in pieces[0];
        } else {
          assert shorter[i] == pieces[i];
        }
      }
    }
    SplitJoin(shorter, sep);
    JoinDropsFirstChar(pieces, sep);
    SplitFirst([c] + Join(shorter, sep), sep);
    assert [c] + pieces[0][1..] == pieces[0];
    assert [[c] + shorter[0]] + shorter[1..] == pieces;
  }

  /** One step of Split on a non-empty string. */
  lemma SplitFirst(s: string, sep: char)
    requires s != []
    ensures s[0] == sep ==> Split(s, sep) == [""] + Split(s[1..], sep)
    ensures s[0] != sep ==>
      Split(s, sep) == [[s[0]] + Split(s[1..], sep)[0]] + Split(s[1..], sep)[1..]
  {
  }

  /** Gluing pieces whose first piece is non-empty starts with that piece's
      first character, followed by the glue of the shortened pieces. */
  lemma JoinDropsFirstChar(pieces: seq<string>, sep: char)
    requires |pieces| >= 2 && pieces[0] != []
    ensures Join(pieces, sep) == [pieces[0][0]] + Join([pieces[0][1..]] + pieces[1..], sep)
  {
    var shorter := [pieces[0][1..]] + pieces[1..];
    assert shorter[1..] == pieces[1..];
    assert pieces[0] == [pieces[0][0]] + pieces[0][1..];
  }

  /** A string without the separator is a single piece. */
  lemma {:induction false} SplitOfSepFree(s: string, sep: char)
    requires sep !in s
    ensures Split(s, sep) == [s]
    decreases |s|
  {
    if s != [] {
      SplitOfSepFree(s[1..], sep);
      assert [s[0]] + s[1..] == s;
    }
  }

  /** The first piece of a split is the text before the first separator;
      the remaining pieces are the split of what follows that separator. */
  lemma {:induction false} SplitHead(s: string, sep: char)
    ensures sep !in Split(s, sep)[0]
    ensures |Split(s, sep)[0]| <= |s| && s[..|Split(s, sep)[0]|] == Split(s, sep)[0]
    ensures |Split(s, sep)| == 1 <==> sep !in s
    ensures |Split(s, sep)| >= 2 ==>
      var head := Split(s, sep)[0];
      |head| < |s| && s[|head|] == sep && Split(s, sep)[1..] == Split(s[|head| + 1..], sep)
    decreases |s|
  {
    if s != [] {
      SplitHead(s[1..], sep);
      SplitFirst(s, sep);
      if s[0] != sep {
        var rest := Split(s[1..], sep);
        assert s == [s[0]] + s[1..];
        if |rest| >= 2 {
          assert s[|rest[0]| + 2..] == s[1..][|rest[0]| + 1..];
        }
      }
    }
  }

  /** Splitting at a separator the head does not contain: the head is the
      first piece. */
  lemma {:induction false} SplitAtFirstSep(a: string, sep: char, b: string)
    requires sep !in a
    ensures Split(a + [sep] + b, sep) == [a] + Split(b, sep)
    decreases |a|
  {
    var s := a + [sep] + b;
    SplitFirst(s, sep);
    if a == [] {
      assert s[1..] == b;
    } else {
      SplitAtFirstSep(a[1..], sep, b);
      assert s[1..] == a[1..] + [sep] + b;
      assert [a[0]] + a[1..] == a;
    }
  }

  predicate StartsWith(s: string, prefix: string) {
    |prefix| <= |s| && s[..|prefix|] == prefix
  }

  /** Python's `needle in haystack` for strings: a substring test. */
  predicate Contains(haystack: string, needle: string) {
    exists i | 0 <= i <= |haystack| - |needle| :: StartsWith(haystack[i..], needle)
  }

  /** A needle longer than the haystack does not occur in it. */
  lemma ContainsNeedsRoom(haystack: string, needle: string)
    requires |needle| > |haystack|
    ensures !Contains(haystack, needle)
  {
  }

  // ---- decimal digits ----

  predicate IsDigit(c: char) {
    '0' <= c <= '9'
  }

  predicate AllDigits(s: string) {
    forall i :: 0 <= i < |s| ==> IsDigit(s[i])
  }

  /** The value of a string of decimal digits, most significant first. */
  function DigitsValue(s: string): nat
    requires AllDigits(s)
  {
    if s == [] then 0
    else DigitsValue(s[..|s| - 1]) * 10 + ((s[|s| - 1] as int) - ('0' as int))
  }

  function DigitChar(d: nat): (c: char)
    requires d < 10
    ensures IsDigit(c) && (c as int) - ('0' as int) == d
  {
    (('0' as int) + d) as char
  }

  /** fmt's %d of a non-negative integer: its shortest decimal form. */
  function NatToString(n: nat): (s: string)
    ensures s != [] && '0' <= s[0] <= '9'
    ensures n > 0 ==> s[0] != '0'
    decreases n
  {
    if n < 10 then [DigitChar(n)] else NatToString(n / 10) + [DigitChar(n % 10)]
  }

  /** fmt's %d: a minus sign for negative values, then the digits. */
  function IntToString(x: int): (s: string)
    ensures s != [] && (s[0] == '-' <==> x < 0)
  {
    if x < 0 then "-" + NatToString(-x) else NatToString(x)
  }

  /** The decimal form of a number is a non-empty digit string whose value is
      the number, and it never holds a sign or a separator. */
  lemma {:induction false} NatToStringDigits(n: nat)
    ensures |NatToString(n)| >= 1 && AllDigits(NatToString(n))
    ensures DigitsValue(NatToString(n)) == n
    decreases n
  {
    if n >= 10 {
      NatToStringDigits(n / 10);
      var s := NatToString(n);
      assert s[..|s| - 1] == NatToString(n / 10);
    }
  }

  // ---- Go: strconv.Atoi on a 64-bit platform ----

  const MinInt64: int := -0x8000_0000_0000_0000
  const MaxInt64: int := 0x7fff_ffff_ffff_ffff

  /** strconv.Atoi: an optional sign then at least one decimal digit, with
      the value inside the 64-bit `int`; anything else is an error (a syntax
      or a range error, both reported as None). */
  function Atoi(s: string): (r: Option<int>)
    ensures r.Some? ==> MinInt64 <= r.value <= MaxInt64
    ensures r.Some? ==> |s| >= 1 && (s[0] == '-' || s[0] == '+' || IsDigit(s[0]))
  {
    var signed := |s| >= 1 && (s[0] == '-' || s[0] == '+');
    var digits := if signed then s[1..] else s;
    if |digits| == 0 || !AllDigits(digits) then None
    else
      var d: int := DigitsValue(digits);
      var v := if signed && s[0] == '-' then -d else d;
      if v < MinInt64 || MaxInt64 < v then None else Some(v)
  }

  /** Atoi reads back every 64-bit integer that %d writes. */
  lemma AtoiIntToString(x: int)
    requires MinInt64 <= x <= MaxInt64
    ensures Atoi(IntToString(x)) == Some(x)
  {
    var s := IntToString(x);
    if x < 0 {
      var digits := NatToString(-x);
      NatToStringDigits(-x);
      assert s == "-" + digits;
      assert s[0] == '-' && s[1..] == digits;
    } else {
      NatToStringDigits(x);
      assert s == NatToString(x) && IsDigit(s[0]);
    }
  }

  /** Atoi rejects the empty string and a lone sign. */
  lemma AtoiRejectsEmptyPieces()
    ensures Atoi("") == None && Atoi("-") == None && Atoi("+") == None
  {
    assert "-"[1..] == "";
    assert "+"[1..] == "";
  }

  // ---- Python: str.strip() and int() ----

  /** The characters Python's str.isspace() accepts (the default set of
      str.strip() and of the whitespace int() ignores around a number). */
  predicate IsPySpace(c: char) {
    var u := c as int;
    || (0x09 <= u <= 0x0d) || (0x1c <= u <= 0x20) || u == 0x85 || u == 0xa0
    || u == 0x1680 || (0x2000 <= u <= 0x200a) || u == 0x2028 || u == 0x2029
    || u == 0x202f || u == 0x205f || u == 0x3000
  }

  /** Text made only of whitespace, such as the padding around a column. */
  predicate Blank(s: string) {
    forall i :: 0 <= i < |s| ==> IsPySpace(s[i])
  }

  function StripLeft(s: string): (r: string)
    ensures |r| <= |s| && r == s[|s| - |r|..]
    ensures r == [] || !IsPySpace(r[0])
    ensures forall i :: 0 <= i < |s| - |r| ==> IsPySpace(s[i])
    decreases |s|
  {
    if s != [] && IsPySpace(s[0]) then StripLeft(s[1..]) else s
  }

  function StripRight(s: string): (r: string)
    ensures |r| <= |s| && r == s[..|r|]
    ensures r == [] || !IsPySpace(r[|r| - 1])
    ensures forall i :: |r| <= i < |s| ==> IsPySpace(s[i])
    decreases |s|
  {
    if s != [] && IsPySpace(s[|s| - 1]) then StripRight(s[..|s| - 1]) else s
  }

  /** str.strip(): drop the whitespace at both ends. What is left starts
      and ends with a non-space, and nothing is left exactly when the string
      is all whitespace. */
  function Strip(s: string): (r: string)
    ensures |r| <= |s|
    ensures r == [] || (!IsPySpace(r[0]) && !IsPySpace(r[|r| - 1]))
    ensures r == [] <==> Blank(s)
  {
    var left := StripLeft(s);
    var r := StripRight(left);
    assert r != [] ==> r[0] == left[0];
    assert Blank(s) ==> left == [];
    r
  }

  /** Leading whitespace does not change the result of Strip. */
  lemma {:induction false} StripSkipsPadding(pad: string, s: string)
    requires Blank(pad)
    ensures StripLeft(pad + s) == StripLeft(s)
    decreases |pad|
  {
    if pad != [] {
      assert (pad + s)[0] == pad[0];
      assert (pad + s)[1..] == pad[1..] + s;
      StripSkipsPadding(pad[1..], s);
    } else {
      assert pad + s == s;
    }
  }

  /** Trailing whitespace does not change the result of StripRight. */
  lemma {:induction false} StripSkipsTrailing(s: string, tail: string)
    requires Blank(tail)
    ensures StripRight(s + tail) == StripRight(s)
    decreases |tail|
  {
    if tail != [] {
      var t := tail[..|tail| - 1];
      assert (s + tail)[..|s + tail| - 1] == s + t;
      StripSkipsTrailing(s, t);
    } else {
      assert s + tail == s;
    }
  }

  /** A string that already starts and ends with non-whitespace is unchanged by Strip. */
  lemma StripTrimmed(s: string)
    requires s != [] && !IsPySpace(s[0]) && !IsPySpace(s[|s| - 1])
    ensures Strip(s) == s
  {
  }

  /** The body of a Python decimal literal as int() accepts it: digits, with
      single underscores allowed between two digits. */
  predicate PyDigitBody(s: string) {
    && |s| >= 1 && IsDigit(s[0]) && IsDigit(s[|s| - 1])
    && (forall i :: 0 <= i < |s| ==> IsDigit(s[i]) || s[i] == '_')
    && (forall i :: 0 <= i < |s| - 1 ==> !(s[i] == '_' && s[i + 1] == '_'))
  }

  function DropUnderscores(s: string): (r: string)
    ensures (forall i :: 0 <= i < |s| ==> IsDigit(s[i]) || s[i] == '_') ==> AllDigits(r)
  {
    if s == [] then []
    else (if s[0] == '_' then [] else [s[0]]) + DropUnderscores(s[1..])
  }

  /** Python's int(text) in base 10: whitespace at both ends is ignored, then
      an optional sign and a digit body; anything else raises ValueError
      (None here). */
  function PyInt(text: string): (r: Option<int>)
    ensures r.Some? ==> Strip(text) != []
  {
    var t := Strip(text);
    var signed := |t| >= 1 && (t[0] == '-' || t[0] == '+');
    var body := if signed then t[1..] else t;
    if !PyDigitBody(body) then None
    else
      var v: int := DigitsValue(DropUnderscores(body));
      Some(if signed && t[0] == '-' then -v else v)
  }

  /** int() reads back every decimal form %d writes for a non-negative value,
      also with whitespace before and after it. */
  lemma PyIntNatToString(pad: string, n: nat, tail: string)
    requires Blank(pad) && Blank(tail)
    ensures PyInt(pad + NatToString(n) + tail) == Some(n)
  {
    var s := NatToString(n);
    NatToStringDigits(n);
    StripPaddedDigits(pad, s, tail);
    assert !(s[0] == '-' || s[0] == '+');
    assert PyDigitBody(s);
    DropUnderscoresOfDigits(s);
  }

  lemma StripPaddedDigits(pad: string, s: string, tail: string)
    requires Blank(pad) && Blank(tail)
    requires |s| >= 1 && AllDigits(s)
    ensures Strip(pad + s + tail) == s
  {
    assert IsDigit(s[0]) && IsDigit(s[|s| - 1]);
    StripPaddedWord(pad, s, tail);
  }

  /** Strip removes the padding around text that has no whitespace at its ends. */
  lemma StripPaddedWord(pad: string, s: string, tail: string)
    requires Blank(pad) && Blank(tail)
    requires s != [] && !IsPySpace(s[0]) && !IsPySpace(s[|s| - 1])
    ensures Strip(pad + s + tail) == s
  {
    var st := s + tail;
    assert pad + s + tail == pad + st;
    StripSkipsPadding(pad, st);
    assert st[0] == s[0];
    StripSkipsTrailing(s, tail);
  }

  lemma {:induction false} DropUnderscoresOfDigits(s: string)
    requires AllDigits(s)
    ensures DropUnderscores(s) == s
  {
    if s != [] {
      DropUnderscoresOfDigits(s[1..]);
      assert [s[0]] + s[1..] == s;
    }
  }
}
