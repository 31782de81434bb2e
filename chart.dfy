/** The reading half of chart.py: turning the text a benchmark run prints
    into per-benchmark, per-map series of points, and the order in which the
    benchmarks are emitted. The HTML it writes afterwards, the argument
    parsing and the file handling are not part of this model; the timing and
    memory figures stay raw integers (ns/op and bytes/op) instead of the
    floating-point milliseconds and megabytes the script divides them into. */
module Chart {
  import opened Base
  import opened Text

  /** One point of a series: the size n, the raw metric and the load label. */
  datatype Point = Point(n: int, value: int, load: string)

  /** The exceptions main() dies with on a malformed result line. */
  datatype ChartError = IndexError | ValueError

  /** A point together with the series it is appended to. */
  datatype Entry = Entry(bench: string, mapName: string, point: Point)

  /** The nested defaultdict: benchmark name, then map name, then the points
      in input order. */
  type Mapping = map<string, map<string, seq<Point>>>

  /** The line filter: exactly 8 tab-separated fields, the first starting
      with "Benchmark". */
  predicate IsResultLine(fields: seq<string>) {
    |fields| == 8 && StartsWith(fields[0], "Benchmark")
  }

  /** The filter on a raw line: it is a result line exactly when it holds
      seven tabs and starts with "Benchmark". */
  lemma ResultLineFilter(line: string)
    ensures IsResultLine(Split(line, '\t')) <==> Occurrences(line, '\t') == 7 && StartsWith(line, "Benchmark")
  {
    SplitCount(line, '\t');
    SplitHead(line, '\t');
    var head := Split(line, '\t')[0];
    var word := "Benchmark";
    assert '\t' !in word;
    if StartsWith(line, word) {
      if |Split(line, '\t')| == 1 {
        // no tab: the only piece is the whole line
        JoinSplit(line, '\t');
      }
      assert head[..|word|] == line[..|word|];
    }
    if StartsWith(head, word) {
      assert line[..|word|] == head[..|word|];
    }
  }

  /** `field.strip().split(' ')[0]`: the first word of a field. */
  function FirstWord(field: string): (w: string)
    ensures ' ' !in w
    ensures |w| <= |Strip(field)| && Strip(field)[..|w|] == w
  {
    SplitHead(Strip(field), ' ');
    Split(Strip(field), ' ')[0]
  }

  /** The sub-benchmark name `bench/map-n[-procs]` taken apart: the text
      before the first '/', the text before the first '-' of the second
      '/'-segment, and int() of the text after that '-'. A name without '/'
      or a segment without '-' is an IndexError, a size int() rejects a
      ValueError. */
  function NameParts(name: string): (r: Result<(string, string, int), ChartError>)
    ensures '/' !in name ==> r == Err(IndexError)
    ensures r.Ok? ==>
      var (bench, mapName, _) := r.value;
      && '/' !in bench && |bench| < |name| && name[..|bench|] == bench && name[|bench|] == '/'
      && '/' !in mapName && '-' !in mapName
  {
    SplitHead(name, '/');
    SplitPiecesAreSepFree(name, '/');
    var firstRaw := Split(name, '/');
    if |firstRaw| < 2 then Err(IndexError)
    else
      SplitHead(firstRaw[1], '-');
      var annotation := Split(firstRaw[1], '-');
      if |annotation| < 2 then Err(IndexError)
      else
        match PyInt(annotation[1])
        case None => Err(ValueError)
        case Some(n) =>
          assert forall x :: x in annotation[0] ==> x in firstRaw[1];
          Ok((firstRaw[0], annotation[0], n))
  }

  /** The name Go's testing package prints for a sub-benchmark started with
      b.Run(fmt.Sprintf("%s-%d", mapName, r)) inside `bench`, followed by
      `suffix`: "-" and the GOMAXPROCS count when that count is not 1, then
      the whitespace the name is left-justified with. */
  function SubBenchmarkName(bench: string, mapName: string, r: nat, suffix: string): string {
    bench + "/" + mapName + "-" + NatToString(r) + suffix
  }

  /** What may follow `map-n` in a printed name: blank padding alone, or a
      "-procs" part (with whatever padding comes after it). */
  predicate NameSuffix(suffix: string) {
    '/' !in suffix && (Blank(suffix) || (suffix != [] && suffix[0] == '-'))
  }

  /** Reading a printed sub-benchmark name gives back what was printed. */
  lemma NamePartsRoundTrip(bench: string, mapName: string, r: nat, suffix: string)
    requires '/' !in bench && '/' !in mapName && '-' !in mapName
    requires NameSuffix(suffix)
    ensures NameParts(SubBenchmarkName(bench, mapName, r, suffix)) == Ok((bench, mapName, r))
  {
    var digits := NatToString(r);
    var segment := mapName + "-" + digits + suffix;
    DigitsAvoidSeparators(r);
    assert '/' !in segment;
    SlashSplit(bench, segment);
    assert SubBenchmarkName(bench, mapName, r, suffix) == bench + ['/'] + segment;
    AnnotationSplit(mapName, digits, suffix);
    var none: string := [];
    var tail := if Blank(suffix) then suffix else none;
    assert none + digits + tail == digits + tail;
    assert digits + none == digits;
    PyIntNatToString(none, r, tail);
  }

  /** The decimal digits of a number hold neither separator. */
  lemma DigitsAvoidSeparators(r: nat)
    ensures '/' !in NatToString(r) && '-' !in NatToString(r)
  {
    var digits := NatToString(r);
    NatToStringDigits(r);
    forall i | 0 <= i < |digits| ensures digits[i] != '/' && digits[i] != '-' {
      assert IsDigit(digits[i]);
    }
  }

  /** A name with exactly one '/' splits into the two sides of it. */
  lemma SlashSplit(bench: string, segment: string)
    requires '/' !in bench && '/' !in segment
    ensures Split(bench + ['/'] + segment, '/') == [bench, segment]
  {
    SplitAtFirstSep(bench, '/', segment);
    SplitOfSepFree(segment, '/');
  }

  /** `map-n` or `map-n-procs`, padded, splits on '-' into the map name,
      then n: with the padding still attached when there is no "-procs". */
  lemma AnnotationSplit(mapName: string, digits: string, suffix: string)
    requires '-' !in mapName && '-' !in digits
    requires Blank(suffix) || (suffix != [] && suffix[0] == '-')
    ensures var pieces := Split(mapName + "-" + digits + suffix, '-');
      && |pieces| >= 2 && pieces[0] == mapName
      && (Blank(suffix) ==> pieces[1] == digits + suffix)
      && (!Blank(suffix) ==> pieces[1] == digits)
  {
    assert mapName + "-" + digits + suffix == mapName + ['-'] + (digits + suffix);
    SplitAtFirstSep(mapName, '-', digits + suffix);
    if Blank(suffix) {
      assert '-' !in suffix by {
        forall i | 0 <= i < |suffix| ensures suffix[i] != '-' {
          assert IsPySpace(suffix[i]);
        }
      }
      SplitOfSepFree(digits + suffix, '-');
    } else {
      assert digits + suffix == digits + ['-'] + suffix[1..];
      SplitAtFirstSep(digits, '-', suffix[1..]);
    }
  }

  const U32InsertsName: string := "BenchmarkU32RandomFullInserts"
  const U64InsertsName: string := "BenchmarkU64RandomFullInserts"
  const UuidInsertsName: string := "BenchmarkUUIDRandomInserts"

  /** The memory series a timing line also feeds: one per insert benchmark
      name the line's benchmark name contains, in the order of the three
      tests. */
  function MemoryKeys(bench: string): (keys: seq<string>)
    ensures "MemoryConsumptionU32" in keys <==> Contains(bench, U32InsertsName)
    ensures "MemoryConsumptionU64" in keys <==> Contains(bench, U64InsertsName)
    ensures "MemoryConsumptionUUID" in keys <==> Contains(bench, UuidInsertsName)
    ensures forall i :: 0 <= i < |keys| ==>
      keys[i] == "MemoryConsumptionU32" || keys[i] == "MemoryConsumptionU64" || keys[i] == "MemoryConsumptionUUID"
    ensures Distinct(keys)
    ensures bench !in keys
  {
    ContainsNeedsRoom("MemoryConsumptionU32", U32InsertsName);
    ContainsNeedsRoom("MemoryConsumptionU64", U64InsertsName);
    ContainsNeedsRoom("MemoryConsumptionUUID", UuidInsertsName);
    (if Contains(bench, U32InsertsName) then ["MemoryConsumptionU32"] else [])
    + (if Contains(bench, U64InsertsName) then ["MemoryConsumptionU64"] else [])
    + (if Contains(bench, UuidInsertsName) then ["MemoryConsumptionUUID"] else [])
  }

  /** The values main() reads from one result line: the three parts of the
      name, the time, the load label, the memory series the benchmark feeds
      and the memory figure (read only when there is such a series; 0
      otherwise). */
  datatype Reading = Reading(bench: string, mapName: string, n: int, time: int, load: string,
                             memSeries: seq<string>, mem: int)

  /** Reading the fields of a line the filter kept, in the order main() does:
      the name, then the time; the memory field only when a memory series
      wants it. The first exception raised is the result. */
  function ReadFields(fields: seq<string>): (r: Result<Reading, ChartError>)
    requires |fields| == 8
    ensures r.Ok? <==>
      && NameParts(fields[0]).Ok?
      && PyInt(FirstWord(fields[2])).Some?
      && (MemoryKeys(NameParts(fields[0]).value.0) != [] ==> PyInt(FirstWord(fields[3])).Some?)
    ensures r == Err(IndexError) <==> NameParts(fields[0]) == Err(IndexError)
    ensures r.Ok? ==>
      && NameParts(fields[0]) == Ok((r.value.bench, r.value.mapName, r.value.n))
      && PyInt(FirstWord(fields[2])) == Some(r.value.time)
      && r.value.load == "load=" + FirstWord(fields[4])
      && r.value.memSeries == MemoryKeys(r.value.bench)
      && (r.value.memSeries != [] ==> PyInt(FirstWord(fields[3])) == Some(r.value.mem))
      && (r.value.memSeries == [] ==> r.value.mem == 0)
      && Distinct(r.value.memSeries) && r.value.bench !in r.value.memSeries
  {
    match NameParts(fields[0])
    case Err(e) => Err(e)
    case Ok((bench, mapName, n)) =>
      match PyInt(FirstWord(fields[2]))
      case None => Err(ValueError)
      case Some(time) =>
        var load := "load=" + FirstWord(fields[4]);
        var memSeries := MemoryKeys(bench);
        if memSeries == [] then Ok(Reading(bench, mapName, n, time, load, [], 0))
        else
          match PyInt(FirstWord(fields[3]))
          case None => Err(ValueError)
          case Some(mem) => Ok(Reading(bench, mapName, n, time, load, memSeries, mem))
  }

  /** A metric field as Go's testing package pads and prints it, `value
      unit` after some whitespace: its first word is the value. */
  lemma FirstWordOfMetric(pad: string, word: string, unit: string)
    requires Blank(pad)
    requires word != [] && forall i :: 0 <= i < |word| ==> !IsPySpace(word[i])
    requires unit != [] && !IsPySpace(unit[|unit| - 1])
    ensures FirstWord(pad + word + " " + unit) == word
  {
    var w := word + [' '] + unit;
    assert pad + word + " " + unit == pad + w + "";
    assert w[0] == word[0] && w[|w| - 1] == unit[|unit| - 1];
    StripPaddedWord(pad, w, "");
    assert ' ' !in word by {
      forall i | 0 <= i < |word| ensures word[i] != ' ' {
        assert !IsPySpace(word[i]);
      }
    }
    SplitAtFirstSep(word, ' ', unit);
  }

  /** A line printed for sub-benchmark `bench/map-r`, whose time, memory and
      load fields start with the printed figures, reads back as those
      figures; the memory figure is kept exactly when the benchmark feeds a
      memory series. */
  lemma ReadFieldsRoundTrip(fields: seq<string>, bench: string, mapName: string, r: nat, suffix: string,
                            time: nat, mem: nat, load: string)
    requires |fields| == 8
    requires '/' !in bench && '/' !in mapName && '-' !in mapName
    requires NameSuffix(suffix)
    requires fields[0] == SubBenchmarkName(bench, mapName, r, suffix)
    requires FirstWord(fields[2]) == NatToString(time)
    requires FirstWord(fields[3]) == NatToString(mem)
    requires FirstWord(fields[4]) == load
    ensures ReadFields(fields) == Ok(Reading(bench, mapName, r, time, "load=" + load, MemoryKeys(bench),
                                             if MemoryKeys(bench) == [] then 0 else mem))
  {
    NamePartsRoundTrip(bench, mapName, r, suffix);
    PyIntOfPrinted(FirstWord(fields[2]), time);
    PyIntOfPrinted(FirstWord(fields[3]), mem);
    var rd := ReadFields(fields);
    assert rd.Ok?;
    assert rd.value.bench == bench && rd.value.mapName == mapName && rd.value.n == r;
  }

  /** int() of a figure %d printed gives the figure back. */
  lemma PyIntOfPrinted(word: string, v: nat)
    requires word == NatToString(v)
    ensures PyInt(word) == Some(v)
  {
    var none: string := "";
    assert none + word == word;
    assert none + word + none == word;
    PyIntNatToString(none, v, none);
  }

  /** No two entries of the list go to the same series. */
  predicate SeparateSeries(entries: seq<Entry>) {
    forall a, b :: 0 <= a < b < |entries| ==>
      entries[a].bench != entries[b].bench || entries[a].mapName != entries[b].mapName
  }

  /** The appends one reading makes: the timing point under its own
      benchmark, then the memory point under each memory series, all under
      the same map name, size and load label; no two go to the same series. */
  function EntriesOf(rd: Reading): (es: seq<Entry>)
    requires Distinct(rd.memSeries) && rd.bench !in rd.memSeries
    ensures |es| == 1 + |rd.memSeries|
    ensures es[0] == Entry(rd.bench, rd.mapName, Point(rd.n, rd.time, rd.load))
    ensures forall i :: 1 <= i < |es| ==>
      es[i] == Entry(rd.memSeries[i - 1], rd.mapName, Point(rd.n, rd.mem, rd.load))
    ensures SeparateSeries(es)
  {
    var timing := Entry(rd.bench, rd.mapName, Point(rd.n, rd.time, rd.load));
    var keys := rd.memSeries;
    var es := [timing] + seq(|keys|, i requires 0 <= i < |keys| => Entry(keys[i], rd.mapName, Point(rd.n, rd.mem, rd.load)));
    assert forall b :: 0 < b < |es| ==> es[b].bench == keys[b - 1];
    es
  }

  /** What one input line contributes, in the order the script appends it:
      nothing for a line the filter skips, the entries of its reading, or the
      exception the line raises. */
  function LineEntries(line: string): (r: Result<seq<Entry>, ChartError>)
    ensures !IsResultLine(Split(line, '\t')) ==> r == Ok([])
    ensures IsResultLine(Split(line, '\t')) ==>
      match ReadFields(Split(line, '\t'))
      case Ok(rd) => r == Ok(EntriesOf(rd))
      case Err(e) => r == Err(e)
    ensures r.Ok? ==> SeparateSeries(r.value)
  {
    var fields := Split(line, '\t');
    if !IsResultLine(fields) then Ok([])
    else
      match ReadFields(fields)
      case Err(e) => Err(e)
      case Ok(rd) => Ok(EntriesOf(rd))
  }

  /** What one entry appends to the series (bench, mapName): its point if it
      belongs there, nothing otherwise. */
  function Gain(e: Entry, bench: string, mapName: string): (pts: seq<Point>)
    ensures |pts| <= 1
  {
    if e.bench == bench && e.mapName == mapName then [e.point] else []
  }

  /** The points a list of entries appends to one series, in order. */
  function PointsIn(entries: seq<Entry>, bench: string, mapName: string): (pts: seq<Point>)
    ensures |pts| <= |entries|
  {
    if entries == [] then []
    else
      PointsIn(entries[..|entries| - 1], bench, mapName) + Gain(entries[|entries| - 1], bench, mapName)
  }

  /** Every line reads without an exception. */
  predicate AllParse(lines: seq<string>) {
    lines == [] || (AllParse(lines[..|lines| - 1]) && LineEntries(lines[|lines| - 1]).Ok?)
  }

  /** A list that reads has only lines that read. */
  lemma {:induction false} AllParseEach(lines: seq<string>, k: nat)
    requires AllParse(lines) && k < |lines|
    ensures LineEntries(lines[k]).Ok?
  {
    if k < |lines| - 1 {
      AllParseEach(lines[..|lines| - 1], k);
    }
  }

  /** The series (bench, mapName) after reading every line, in input order;
      no line adds more than one point to it. */
  function PointsOf(lines: seq<string>, bench: string, mapName: string): (pts: seq<Point>)
    requires AllParse(lines)
    ensures |pts| <= |lines|
  {
    if lines == [] then []
    else
      var entries := LineEntries(lines[|lines| - 1]).value;
      PointsInAtMostOne(entries, bench, mapName);
      PointsOf(lines[..|lines| - 1], bench, mapName) + PointsIn(entries, bench, mapName)
  }

  /** `mapping[bench][mapName]` read without the defaultdict creating it: a
      missing series reads as the empty list, and in a tidy mapping a series
      reads as non-empty exactly when it is stored. */
  function Lookup(m: Mapping, bench: string, mapName: string): (pts: seq<Point>)
    ensures pts != [] ==> bench in m && mapName in m[bench] && m[bench][mapName] == pts
    ensures Tidy(m) ==> (pts != [] <==> bench in m && mapName in m[bench])
  {
    if bench in m && mapName in m[bench] then m[bench][mapName] else []
  }

  /** A defaultdict filled only through append holds no empty level. */
  predicate Tidy(m: Mapping) {
    forall bench :: bench in m ==>
      m[bench] != map[] && forall mapName :: mapName in m[bench] ==> m[bench][mapName] != []
  }

  /** `mapping[e.bench][e.mapName].append(e.point)`: the one series grows by
      the point at its end, every other series stays as it was. */
  function Append(m: Mapping, e: Entry): (r: Mapping)
    ensures forall bench, mapName :: Lookup(r, bench, mapName) == Lookup(m, bench, mapName) + Gain(e, bench, mapName)
    ensures Tidy(m) ==> Tidy(r)
  {
    var inner := if e.bench in m then m[e.bench] else map[];
    var pts := if e.mapName in inner then inner[e.mapName] else [];
    m[e.bench := inner[e.mapName := pts + [e.point]]]
  }

  /** Where reading stopped: the index of the line that raised, and what it raised. */
  datatype LineError = LineError(index: nat, error: ChartError)

  /** The collecting loop of main(): every line in order, each contributing
      its entries by append. If a line raises, the script dies there (the
      mapping is never written out): Err names the first such line. Otherwise
      every series holds exactly the points of its entries, in input order,
      and no series or benchmark is empty. */
  method Collect(lines: seq<string>) returns (r: Result<Mapping, LineError>)
    ensures r.Ok? <==> AllParse(lines)
    ensures r.Err? ==>
      && r.error.index < |lines|
      && LineEntries(lines[r.error.index]) == Err(r.error.error)
      && AllParse(lines[..r.error.index])
    ensures r.Ok? ==> Tidy(r.value)
    ensures r.Ok? ==> forall bench, mapName :: Lookup(r.value, bench, mapName) == PointsOf(lines, bench, mapName)
  {
    var mapping: Mapping := map[];
    for i := 0 to |lines|
      invariant AllParse(lines[..i])
      invariant Tidy(mapping)
      invariant forall bench, mapName :: Lookup(mapping, bench, mapName) == PointsOf(lines[..i], bench, mapName)
    {
      var parsed := LineEntries(lines[i]);
      if parsed.Err? {
        if AllParse(lines) {
          AllParseEach(lines, i);
        }
        return Err(LineError(i, parsed.error));
      }
      mapping := AppendEntries(mapping, parsed.value);
      PointsOfSnoc(lines, i);
    }
    assert lines[..|lines|] == lines;
    return Ok(mapping);
  }

  /** The appends of one line, one entry after the other: each series grows
      by the points of its own entries, in order. */
  method AppendEntries(m: Mapping, entries: seq<Entry>) returns (r: Mapping)
    ensures Tidy(m) ==> Tidy(r)
    ensures forall bench, mapName ::
      Lookup(r, bench, mapName) == Lookup(m, bench, mapName) + PointsIn(entries, bench, mapName)
  {
    r := m;
    for k := 0 to |entries|
      invariant r == AppendAll(m, entries[..k])
    {
      assert entries[..k + 1][..k] == entries[..k];
      r := Append(r, entries[k]);
    }
    assert entries[..|entries|] == entries;
    forall bench, mapName
      ensures Lookup(r, bench, mapName) == Lookup(m, bench, mapName) + PointsIn(entries, bench, mapName)
    {
      AppendAllSeries(m, entries, bench, mapName);
    }
  }

  /** The mapping after appending every entry of a list, in order. */
  function AppendAll(m: Mapping, entries: seq<Entry>): (r: Mapping)
    ensures Tidy(m) ==> Tidy(r)
  {
    if entries == [] then m
    else Append(AppendAll(m, entries[..|entries| - 1]), entries[|entries| - 1])
  }

  /** Appending a list of entries grows each series by the points of its
      own entries, in order. */
  lemma {:induction false} AppendAllSeries(m: Mapping, entries: seq<Entry>, bench: string, mapName: string)
    ensures Lookup(AppendAll(m, entries), bench, mapName) == Lookup(m, bench, mapName) + PointsIn(entries, bench, mapName)
  {
    if entries != [] {
      var n := |entries| - 1;
      AppendAllSeries(m, entries[..n], bench, mapName);
      var start := Lookup(m, bench, mapName);
      var prior := PointsIn(entries[..n], bench, mapName);
      var gain := Gain(entries[n], bench, mapName);
      assert Lookup(AppendAll(m, entries), bench, mapName) == (start + prior) + gain;
      assert (start + prior) + gain == start + (prior + gain);
    }
  }

  /** Reading one more line of a parsing prefix: the series grow by that
      line's points. */
  lemma PointsOfSnoc(lines: seq<string>, i: nat)
    requires i < |lines| && AllParse(lines[..i]) && LineEntries(lines[i]).Ok?
    ensures AllParse(lines[..i + 1])
    ensures forall bench, mapName ::
      PointsOf(lines[..i + 1], bench, mapName)
      == PointsOf(lines[..i], bench, mapName) + PointsIn(LineEntries(lines[i]).value, bench, mapName)
  {
    var next := lines[..i + 1];
    assert next[..i] == lines[..i];
    assert next[i] == lines[i];
  }

  /** In a list of entries whose series are pairwise different, each series
      receives exactly its own entry's point. */
  lemma {:induction false} PointsInSeparate(entries: seq<Entry>, j: nat)
    requires j < |entries| && SeparateSeries(entries)
    ensures PointsIn(entries, entries[j].bench, entries[j].mapName) == [entries[j].point]
  {
    var prefix := entries[..|entries| - 1];
    if j == |entries| - 1 {
      PointsInNone(prefix, entries[j].bench, entries[j].mapName);
    } else {
      assert prefix[j] == entries[j];
      PointsInSeparate(prefix, j);
    }
  }

  /** Entries whose series are pairwise different add at most one point to
      any series. */
  lemma PointsInAtMostOne(entries: seq<Entry>, bench: string, mapName: string)
    requires SeparateSeries(entries)
    ensures |PointsIn(entries, bench, mapName)| <= 1
  {
    if j :| 0 <= j < |entries| && entries[j].bench == bench && entries[j].mapName == mapName {
      PointsInSeparate(entries, j);
    } else {
      PointsInNone(entries, bench, mapName);
    }
  }

  /** A series no entry belongs to receives nothing. */
  lemma {:induction false} PointsInNone(entries: seq<Entry>, bench: string, mapName: string)
    requires forall i :: 0 <= i < |entries| ==> entries[i].bench != bench || entries[i].mapName != mapName
    ensures PointsIn(entries, bench, mapName) == []
  {
    if entries != [] {
      PointsInNone(entries[..|entries| - 1], bench, mapName);
    }
  }

  /** Reading one more result line appends exactly one point to each series
      that line names (its timing series and each of its memory series), at
      the end, and leaves every other series as it was. */
  lemma LineAppendsOnePoint(lines: seq<string>, line: string)
    requires AllParse(lines) && LineEntries(line).Ok?
    ensures AllParse(lines + [line])
    ensures var entries := LineEntries(line).value;
      forall j :: 0 <= j < |entries| ==>
        PointsOf(lines + [line], entries[j].bench, entries[j].mapName)
        == PointsOf(lines, entries[j].bench, entries[j].mapName) + [entries[j].point]
    ensures var entries := LineEntries(line).value;
      forall bench, mapName ::
        (forall j :: 0 <= j < |entries| ==> entries[j].bench != bench || entries[j].mapName != mapName) ==>
        PointsOf(lines + [line], bench, mapName) == PointsOf(lines, bench, mapName)
  {
    var all := lines + [line];
    assert all[..|all| - 1] == lines;
    assert forall i :: 0 <= i < |lines| ==> lines[i] == all[i];
    assert all[|all| - 1] == line;
    var entries := LineEntries(line).value;
    forall j | 0 <= j < |entries| {
      PointsInSeparate(entries, j);
    }
    forall bench, mapName |
      forall j :: 0 <= j < |entries| ==> entries[j].bench != bench || entries[j].mapName != mapName
    {
      PointsInNone(entries, bench, mapName);
    }
  }

  // ---- emission order ----

  /** Python's `<` on str: lexicographic by code point, a proper prefix first. */
  predicate StrLess(a: string, b: string)
    ensures |a| < |b| && a == b[..|a|] ==> StrLess(a, b)
    decreases |a|
  {
    b != [] && (a == [] || a[0] < b[0] || (a[0] == b[0] && StrLess(a[1..], b[1..])))
  }

  lemma {:induction false} StrLessIrreflexive(a: string)
    ensures !StrLess(a, a)
    decreases |a|
  {
    if a != [] {
      StrLessIrreflexive(a[1..]);
    }
  }

  lemma {:induction false} StrLessTransitive(a: string, b: string, c: string)
    requires StrLess(a, b) && StrLess(b, c)
    ensures StrLess(a, c)
    decreases |a|
  {
    if a != [] && a[0] == b[0] && b[0] == c[0] {
      StrLessTransitive(a[1..], b[1..], c[1..]);
    }
  }

  lemma {:induction false} StrLessTotal(a: string, b: string)
    requires a != b
    ensures StrLess(a, b) || StrLess(b, a)
    decreases |a|
  {
    if a != [] && b != [] && a[0] == b[0] {
      assert a == [a[0]] + a[1..] && b == [b[0]] + b[1..];
      StrLessTotal(a[1..], b[1..]);
    }
  }

  predicate StrictlySorted(s: seq<string>) {
    forall i, j :: 0 <= i < j < |s| ==> StrLess(s[i], s[j])
  }

  /** Inserting a new name into a strictly sorted list at its place. */
  method InsertSorted(s: seq<string>, name: string) returns (t: seq<string>)
    requires StrictlySorted(s) && name !in s
    ensures StrictlySorted(t)
    ensures Elems(t) == Elems(s) + {name}
  {
    var i := 0;
    while i < |s| && StrLess(s[i], name)
      invariant 0 <= i <= |s|
      invariant forall k :: 0 <= k < i ==> StrLess(s[k], name)
    {
      i := i + 1;
    }
    forall k | i <= k < |s| ensures StrLess(name, s[k]) {
      StrLessTotal(s[i], name);
      if k > i {
        StrLessTransitive(name, s[i], s[k]);
      }
    }
    t := s[..i] + [name] + s[i..];
    assert Elems(t) == Elems(s) + {name} by {
      assert s == s[..i] + s[i..];
    }
    forall a, b | 0 <= a < b < |t| ensures StrLess(t[a], t[b]) {
      if b < i || a > i {
        // both from s, in the same order
      } else if a == i {
        assert t[b] == s[b - 1];
      } else if b == i {
        assert t[a] == s[a];
      } else {
        assert t[a] == s[a] && t[b] == s[b - 1];
      }
    }
  }

  /** `sorted(mapping)`: the benchmark names in ascending order, each once. */
  method BenchmarkOrder(m: Mapping) returns (order: seq<string>)
    ensures StrictlySorted(order)
    ensures Elems(order) == m.Keys
    ensures |order| == |m.Keys|
  {
    order := [];
    var remaining := m.Keys;
    while remaining != {}
      invariant remaining <= m.Keys
      invariant StrictlySorted(order)
      invariant Elems(order) == m.Keys - remaining
      decreases remaining
    {
      var name :| name in remaining;
      order := InsertSorted(order, name);
      remaining := remaining - {name};
    }
    SortedDistinct(order);
    DistinctCard(order);
  }

  lemma SortedDistinct(s: seq<string>)
    requires StrictlySorted(s)
    ensures Distinct(s)
  {
    forall i, j | 0 <= i < j < |s| ensures s[i] != s[j] {
      if s[i] == s[j] {
        StrLessIrreflexive(s[i]);
      }
    }
  }

  /** Only one strictly sorted list holds a given set of names, so the
      emission order is fixed by the benchmark names alone. */
  lemma {:induction false} SortedOrderUnique(a: seq<string>, b: seq<string>)
    requires StrictlySorted(a) && StrictlySorted(b)
    requires Elems(a) == Elems(b)
    ensures a == b
    decreases |a|
  {
    SortedDistinct(a);
    SortedDistinct(b);
    DistinctCard(a);
    DistinctCard(b);
    if a != [] {
      SortedHeadsAgree(a, b);
      TailElems(a);
      TailElems(b);
      SortedOrderUnique(a[1..], b[1..]);
      assert a == [a[0]] + a[1..] && b == [b[0]] + b[1..];
    }
  }

  /** Two non-empty strictly sorted lists of the same names start alike:
      both start with the least name. */
  lemma SortedHeadsAgree(a: seq<string>, b: seq<string>)
    requires StrictlySorted(a) && StrictlySorted(b)
    requires Elems(a) == Elems(b) && a != [] && b != []
    ensures a[0] == b[0]
  {
    assert a[0] in Elems(b);
    assert b[0] in Elems(a);
    var i :| 0 <= i < |a| && a[i] == b[0];
    var j :| 0 <= j < |b| && b[j] == a[0];
    if a[0] != b[0] {
      StrLessTransitive(a[0], a[i], b[j]);
      StrLessIrreflexive(a[0]);
    }
  }

  /** The tail of a distinct list holds every name but the head. */
  lemma TailElems(s: seq<string>)
    requires Distinct(s) && s != []
    ensures Elems(s[1..]) == Elems(s) - {s[0]}
  {
    assert s == [s[0]] + s[1..];
    assert forall x :: x in s[1..] ==> x in s;
  }

  // ---- the y-axis title ----

  const MemoryPrefix: string := "MemoryConsumption"

  /** The y-axis title of a benchmark's plot as chart.py writes it: the
      memory title only for the key "MemoryConsumption" itself. */
  function AxisTitleAsWritten(benchmark: string): string {
    if benchmark == MemoryPrefix then "memory (MB)" else "time (ms)"
  }

  /** No key the mapping can hold is "MemoryConsumption": every memory
      series is titled as a time series. */
  lemma MemorySeriesTitledAsTime(bench: string)
    ensures forall k :: k in MemoryKeys(bench) ==> AxisTitleAsWritten(k) == "time (ms)"
  {
  }

  /** The y-axis title the script evidently intends: memory for the memory
      series, time for everything else. */
  function AxisTitle(benchmark: string): string {
    if StartsWith(benchmark, MemoryPrefix) then "memory (MB)" else "time (ms)"
  }

  /** With the intended title every memory series is titled memory, and a
      timing series (a name the line filter accepted, so starting with
      "Benchmark") is titled time. */
  lemma AxisTitleMatchesSeries(bench: string)
    ensures forall k :: k in MemoryKeys(bench) ==> AxisTitle(k) == "memory (MB)"
    ensures StartsWith(bench, "Benchmark") ==> AxisTitle(bench) == "time (ms)"
  {
    forall k | k in MemoryKeys(bench) ensures AxisTitle(k) == "memory (MB)" {
      assert k[..|MemoryPrefix|] == MemoryPrefix;
    }
    if StartsWith(bench, "Benchmark") {
      assert bench[0] == 'B';
      assert |bench| < |MemoryPrefix| || bench[..|MemoryPrefix|][0] != MemoryPrefix[0];
    }
  }
}
