/**
 * The reader of the results file: from the file's lines to the list of
 * points, one point for every `;`-separated record in which all three
 * fields z, x and y are found. Lines that are empty or hold no '[' are
 * skipped; records that lack a field are dropped without an error.
 */
module ResultReader {
  import opened Wrappers
  import opened Digits
  import opened Decimals
  import opened FieldRegex
  import opened Splitting

  /** A point read from the file (`Point3D`); x and y are unsigned digit runs, z is exact. */
  datatype Point = Point(x: nat, y: nat, z: real)

  const ZKey: string := "z = "
  const XKey: string := "x = "
  const YKey: string := "y = "

  /**
   * `float.TryParse` of an x or y group: the value of a non-empty digit
   * string, below 10^length. The decimal text of n reads as n, and a digit
   * string without a leading zero is the text of what it reads as.
   */
  function ParseUnsigned(t: string): (r: Option<nat>)
    ensures r.Some? <==> |t| > 0 && AllDigits(t)
    ensures r.Some? ==> r.value < Pow10(|t|)
    ensures r.Some? && (|t| > 1 ==> t[0] != '0') ==> NatToText(r.value) == t
    ensures forall n: nat :: NatToText(n) == t ==> r == Some(n)
  {
    NatTextsRead(t);
    if |t| > 0 && AllDigits(t) then
      CanonicalRead(t);
      Some(DigitsValue(t))
    else None
  }

  /** A digit string without a leading zero is the text of what it reads as. */
  lemma CanonicalRead(t: string)
    requires |t| > 0 && AllDigits(t)
    ensures (|t| > 1 ==> t[0] != '0') ==> NatToText(DigitsValue(t)) == t
  {
    if |t| == 1 || t[0] != '0' {
      CanonicalTextRoundTrip(t);
    }
  }

  /** Every number whose decimal text is t reads back from t. */
  lemma NatTextsRead(t: string)
    ensures forall n: nat :: NatToText(n) == t ==> AllDigits(t) && DigitsValue(t) == n
  {
    forall n: nat | NatToText(n) == t
      ensures AllDigits(t) && DigitsValue(t) == n
    {
      NatTextRoundTrip(n);
    }
  }

  /** The numeral the z pattern captures at its leftmost match. */
  function ZNumeral(seg: string): (d: Option<Decimal>)
    ensures d.Some? <==> LeftmostMatch(seg, ZKey, SignedCommaDecimal).Some?
    ensures d.Some? ==>
      d.value.Valid() && d.value.CommaText() == LeftmostMatch(seg, ZKey, SignedCommaDecimal).value.group
  {
    match LeftmostMatch(seg, ZKey, SignedCommaDecimal)
    case Some(m) => SignedNumeralAt(seg, m.index + |ZKey|)
    case None => None
  }

  /**
   * One record: the leftmost z, x and y matches, converted; no point unless
   * all three are there. The conversions never fail on what the patterns
   * capture, so the point is there exactly when all three patterns match.
   */
  function ParseSegment(seg: string): (r: Option<Point>)
    ensures r.Some? <==>
      && LeftmostMatch(seg, ZKey, SignedCommaDecimal).Some?
      && LeftmostMatch(seg, XKey, UnsignedDigits).Some?
      && LeftmostMatch(seg, YKey, UnsignedDigits).Some?
    ensures r.Some? ==>
      && r.value.z == ZNumeral(seg).value.Value()
      && (var xs := LeftmostMatch(seg, XKey, UnsignedDigits).value.group;
          AllDigits(xs) && r.value.x == DigitsValue(xs))
      && (var ys := LeftmostMatch(seg, YKey, UnsignedDigits).value.group;
          AllDigits(ys) && r.value.y == DigitsValue(ys))
  {
    var zMatch := LeftmostMatch(seg, ZKey, SignedCommaDecimal);
    var xMatch := LeftmostMatch(seg, XKey, UnsignedDigits);
    var yMatch := LeftmostMatch(seg, YKey, UnsignedDigits);
    if zMatch.None? || xMatch.None? || yMatch.None? then
      None
    else
      CommaTextParses(ZNumeral(seg).value);
      var z := ParseDecimal(Replace(zMatch.value.group, ',', '.'));
      var x := ParseUnsigned(xMatch.value.group);
      var y := ParseUnsigned(yMatch.value.group);
      if z.Some? && x.Some? && y.Some? then Some(Point(x.value, y.value, z.value)) else None
  }

  /** The values that f finds in the elements of xs, in order. */
  function Collect<T, U>(f: T -> Option<U>, xs: seq<T>): (r: seq<U>)
    ensures |r| <= |xs|
  {
    if xs == [] then []
    else (match f(xs[0]) case Some(u) => [u] case None => []) + Collect(f, xs[1..])
  }

  lemma {:induction false} CollectAppend<T, U>(f: T -> Option<U>, a: seq<T>, b: seq<T>)
    ensures Collect(f, a + b) == Collect(f, a) + Collect(f, b)
  {
    if a != [] {
      assert (a + b)[0] == a[0] && (a + b)[1..] == a[1..] + b;
      CollectAppend(f, a[1..], b);
      var head := match f(a[0]) case Some(u) => [u] case None => [];
      assert Collect(f, a + b) == head + (Collect(f, a[1..]) + Collect(f, b));
    } else {
      assert a + b == b;
    }
  }

  lemma CollectOne<T, U>(f: T -> Option<U>, x: T)
    ensures Collect(f, [x]) == match f(x) case Some(u) => [u] case None => []
  {
    assert [x][1..] == [];
  }

  /** What f finds in two elements, in order. */
  lemma CollectPair<T, U>(f: T -> Option<U>, a: T, b: T)
    ensures Collect(f, [a, b]) ==
      (match f(a) case Some(u) => [u] case None => []) + (match f(b) case Some(u) => [u] case None => [])
  {
    assert [a, b] == [a] + [b];
    CollectAppend(f, [a], [b]);
    CollectOne(f, a);
    CollectOne(f, b);
  }

  /** When f finds a value in both of two elements, it collects both, in order. */
  lemma CollectBoth<T, U>(f: T -> Option<U>, a: T, b: T, p: U, q: U)
    requires f(a) == Some(p) && f(b) == Some(q)
    ensures Collect(f, [a, b]) == [p, q]
  {
    CollectPair(f, a, b);
  }

  /** The concatenation of what f yields for each element of xs, in order. */
  function FlatMap<T, U>(f: T -> seq<U>, xs: seq<T>): seq<U> {
    if xs == [] then [] else f(xs[0]) + FlatMap(f, xs[1..])
  }

  lemma {:induction false} FlatMapAppend<T, U>(f: T -> seq<U>, a: seq<T>, b: seq<T>)
    ensures FlatMap(f, a + b) == FlatMap(f, a) + FlatMap(f, b)
  {
    if a != [] {
      assert (a + b)[0] == a[0] && (a + b)[1..] == a[1..] + b;
      FlatMapAppend(f, a[1..], b);
      assert FlatMap(f, a + b) == f(a[0]) + (FlatMap(f, a[1..]) + FlatMap(f, b));
    } else {
      assert a + b == b;
    }
  }

  /** Nothing is yielded when f yields nothing for any element. */
  lemma {:induction false} FlatMapNothing<T, U>(f: T -> seq<U>, xs: seq<T>)
    requires forall k :: 0 <= k < |xs| ==> f(xs[k]) == []
    ensures FlatMap(f, xs) == []
  {
    if xs != [] {
      FlatMapNothing(f, xs[1..]);
    }
  }

  lemma FlatMapOne<T, U>(f: T -> seq<U>, x: T)
    ensures FlatMap(f, [x]) == f(x)
  {
    assert [x][1..] == [];
  }

  /** Extending xs by one element extends what f collects by what it finds there. */
  lemma CollectSnoc<T, U>(f: T -> Option<U>, xs: seq<T>, j: nat)
    requires j < |xs|
    ensures Collect(f, xs[..j + 1]) == Collect(f, xs[..j]) + match f(xs[j]) case Some(u) => [u] case None => []
  {
    assert xs[..j + 1] == xs[..j] + [xs[j]];
    CollectAppend(f, xs[..j], [xs[j]]);
    CollectOne(f, xs[j]);
  }

  /** Extending xs by one element extends the concatenation by what f yields for it. */
  lemma FlatMapSnoc<T, U>(f: T -> seq<U>, xs: seq<T>, i: nat)
    requires i < |xs|
    ensures FlatMap(f, xs[..i + 1]) == FlatMap(f, xs[..i]) + f(xs[i])
  {
    assert xs[..i + 1] == xs[..i] + [xs[i]];
    FlatMapAppend(f, xs[..i], [xs[i]]);
    FlatMapOne(f, xs[i]);
  }

  /** The records of a line, each contributing its point if it has one, in record order. */
  function ParseSegments(segs: seq<string>): (r: seq<Point>)
    ensures |r| <= |segs|
  {
    Collect(ParseSegment, segs)
  }

  /** One line of the file; a line that is empty or holds no '[' yields nothing. */
  function ParseLine(entry: string): (r: seq<Point>)
    ensures |r| <= Occurrences(entry, ';') + 1
    ensures '[' !in entry ==> r == []
  {
    if |entry| == 0 then []
    else if '[' !in entry then []
    else ParseSegments(Split(entry, ';'))
  }

  /** All lines, in file order; a file none of whose lines holds a '[' yields nothing. */
  function ParseLines(lines: seq<string>): (r: seq<Point>)
    ensures (forall k :: 0 <= k < |lines| ==> '[' !in lines[k]) ==> r == []
  {
    if forall k :: 0 <= k < |lines| ==> '[' !in lines[k] then
      FlatMapNothing(ParseLine, lines);
      FlatMap(ParseLine, lines)
    else FlatMap(ParseLine, lines)
  }

  /**
   * `ReadResultsFromFile` once the file has been read into lines: every line
   * that is not skipped has its records' points appended, in order.
   */
  method ReadResults(lines: seq<string>) returns (points: seq<Point>)
    ensures points == ParseLines(lines)
  {
    points := [];
    var i := 0;
    while i < |lines|
      invariant 0 <= i <= |lines|
      invariant points == FlatMap(ParseLine, lines[..i])
    {
      var entry := lines[i];
      FlatMapSnoc(ParseLine, lines, i);
      i := i + 1;
      if |entry| == 0 || '[' !in entry {
        continue;
      }
      points := AppendRecords(points, entry);
    }
    assert lines[..i] == lines;
  }

  /**
   * The inner loop of `ReadResultsFromFile` for a line that is not skipped:
   * split it on ';' and append the point of every record that has one.
   */
  method AppendRecords(points: seq<Point>, entry: string) returns (extended: seq<Point>)
    requires |entry| > 0 && '[' in entry
    ensures extended == points + ParseLine(entry)
  {
    var records := Split(entry, ';');
    extended := AppendFound(points, records, ParseSegment);
  }

  /** Appends, record by record, the value that `parse` finds in it, if any. */
  method AppendFound<T, U>(acc: seq<U>, records: seq<T>, parse: T -> Option<U>) returns (extended: seq<U>)
    ensures extended == acc + Collect(parse, records)
  {
    extended := acc;
    var j := 0;
    while j < |records|
      invariant 0 <= j <= |records|
      invariant extended == acc + Collect(parse, records[..j])
    {
      var found := parse(records[j]);
      CollectSnoc(parse, records, j);
      if found.Some? {
        extended := extended + [found.value];
      }
      j := j + 1;
    }
    assert records[..j] == records;
  }
}
