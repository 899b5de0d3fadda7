/**
 * The text the result file holds: one record `[X][Y] z = Z, x = X, y = Y`
 * per point, the records of a line joined by ';', with z written with a
 * decimal comma. The lemmas here show that the reader gives back exactly
 * the points written in this format, and what it does with records that
 * stray from it.
 */
module ResultFormat {
  import opened Wrappers
  import opened Digits
  import opened Decimals
  import opened FieldRegex
  import opened Splitting
  import opened ResultReader

  /** A computed point as it is written: its coordinates and the numeral printed for z. */
  datatype Sample = Sample(x: nat, y: nat, z: Decimal)

  /** The point the reader should build from a written sample. */
  function PointOf(s: Sample): Point
    requires s.z.Valid()
  {
    Point(s.x, s.y, s.z.Value())
  }

  /** `[X][Y] `: the coordinates in brackets, then a space. */
  function Header(s: Sample): string {
    "[" + NatToText(s.x) + "][" + NatToText(s.y) + "] "
  }

  /** `z = Z, x = X, y = Y`: the three fields the reader looks for. */
  function FieldsText(s: Sample): string {
    ZKey + s.z.CommaText() + ", " + XKey + NatToText(s.x) + ", " + YKey + NatToText(s.y)
  }

  /** One complete record. */
  function RecordText(s: Sample): string {
    Header(s) + FieldsText(s)
  }

  /** The records of the samples, in order. */
  function RecordTexts(samples: seq<Sample>): (texts: seq<string>)
    ensures |texts| == |samples|
    ensures forall k :: 0 <= k < |samples| ==> texts[k] == RecordText(samples[k])
  {
    if samples == [] then [] else [RecordText(samples[0])] + RecordTexts(samples[1..])
  }

  /** One line of the file: the records of the samples joined by ';'. */
  function LineText(samples: seq<Sample>): string {
    Join(RecordTexts(samples), ';')
  }

  /** The lines of the file, one per group of samples. */
  function FileText(groups: seq<seq<Sample>>): (lines: seq<string>)
    ensures |lines| == |groups|
  {
    if groups == [] then [] else [LineText(groups[0])] + FileText(groups[1..])
  }

  predicate AllValid(samples: seq<Sample>) {
    forall k :: 0 <= k < |samples| ==> samples[k].z.Valid()
  }

  /** The points of the samples, in order. */
  function PointsOf(samples: seq<Sample>): seq<Point>
    requires AllValid(samples)
  {
    if samples == [] then [] else [PointOf(samples[0])] + PointsOf(samples[1..])
  }

  /** The points of all groups, group after group. */
  function AllPointsOf(groups: seq<seq<Sample>>): seq<Point>
    requires forall g :: 0 <= g < |groups| ==> AllValid(groups[g])
  {
    if groups == [] then [] else PointsOf(groups[0]) + AllPointsOf(groups[1..])
  }

  /** A digit string holds no character that is not a digit. */
  lemma DigitsLack(t: string, c: char)
    requires AllDigits(t) && !IsDigit(c)
    ensures c !in t
  {
    forall k | 0 <= k < |t|
      ensures t[k] != c
    {
      assert IsDigit(t[k]);
    }
  }

  /** A comma numeral holds no character other than digits, '-' and ','. */
  lemma NumeralLacks(d: Decimal, c: char)
    requires d.Valid() && !IsDigit(c) && c != '-' && c != ','
    ensures c !in d.CommaText()
  {
    DigitsLack(d.intDigits, c);
    DigitsLack(d.fracDigits, c);
  }

  /** The header holds none of the characters that start a key, no ';' and no sign. */
  lemma HeaderLacks(s: Sample, c: char)
    requires !IsDigit(c) && c !in "[] "
    ensures c !in Header(s)
  {
    DigitsLack(NatToText(s.x), c);
    DigitsLack(NatToText(s.y), c);
  }

  /** The z numeral is captured right after the z key. */
  lemma ZNumeralFound(pre: string, s: Sample)
    requires s.z.Valid()
    ensures var r := pre + FieldsText(s);
      && |pre| + |ZKey| <= |r|
      && SignedNumeralAt(r, |pre| + |ZKey|) == Some(s.z)
      && GroupAt(r, |pre| + |ZKey|, SignedCommaDecimal) == Some(s.z.CommaText())
  {
    var r := pre + FieldsText(s);
    var after := ", " + XKey + NatToText(s.x) + ", " + YKey + NatToText(s.y);
    assert r == (pre + ZKey) + s.z.CommaText() + after;
    assert after[0] == ',';
    SignedGroupFinds(r, pre + ZKey, s.z, after);
  }

  /** The z field is found right after whatever precedes the fields. */
  lemma ZFieldFound(pre: string, s: Sample)
    requires s.z.Valid() && 'z' !in pre
    ensures var r := pre + FieldsText(s);
      && LeftmostMatch(r, ZKey, SignedCommaDecimal) == Some(FieldMatch(|pre|, s.z.CommaText()))
      && SignedNumeralAt(r, |pre| + |ZKey|) == Some(s.z)
  {
    var r := pre + FieldsText(s);
    var rest := s.z.CommaText() + ", " + XKey + NatToText(s.x) + ", " + YKey + NatToText(s.y);
    assert r == pre + ZKey + rest;
    ZNumeralFound(pre, s);
    LeftmostMatchAt(r, ZKey, SignedCommaDecimal, pre, rest, s.z.CommaText());
  }

  /** The text before the x key: anything without an 'x', then the z field. */
  function BeforeX(pre: string, s: Sample): string {
    pre + ZKey + s.z.CommaText() + ", "
  }

  /** The text before the y key: everything up to and including the x field. */
  function BeforeY(pre: string, s: Sample): string {
    BeforeX(pre, s) + XKey + NatToText(s.x) + ", "
  }

  /** Digits written right after a key are its group, when no digit follows them. */
  lemma KeyedDigits(r: string, before: string, key: string, t: string, after: string)
    requires r == before + key + t + after
    requires |t| > 0 && AllDigits(t)
    requires after == [] || !IsDigit(after[0])
    ensures r == before + key + (t + after)
    ensures GroupAt(r, |before| + |key|, UnsignedDigits) == Some(t)
  {
    Regroup3(before, key, t, after);
    UnsignedGroupFinds(r, before + key, t, after);
  }

  lemma Regroup3(a: string, b: string, c: string, d: string)
    ensures a + b + c + d == a + b + (c + d)
  {
  }

  lemma Regroup4(a: string, b: string, c: string, d: string, e: string)
    ensures a + b + c + d + e == a + b + (c + d + e)
  {
  }

  /** The fields, cut at the x key. */
  lemma FieldsAtX(pre: string, s: Sample)
    ensures pre + FieldsText(s) == BeforeX(pre, s) + XKey + NatToText(s.x) + (", " + YKey + NatToText(s.y))
  {
  }

  /** The x digits are captured right after the x key. */
  lemma XGroupFound(pre: string, s: Sample)
    ensures var r := pre + FieldsText(s);
      && r == BeforeX(pre, s) + XKey + (NatToText(s.x) + ", " + YKey + NatToText(s.y))
      && GroupAt(r, |BeforeX(pre, s)| + |XKey|, UnsignedDigits) == Some(NatToText(s.x))
  {
    FieldsAtX(pre, s);
    KeyedDigits(pre + FieldsText(s), BeforeX(pre, s), XKey, NatToText(s.x), ", " + YKey + NatToText(s.y));
    assert NatToText(s.x) + ", " + YKey + NatToText(s.y) == NatToText(s.x) + (", " + YKey + NatToText(s.y));
  }

  /** The x field is found after the z field, which holds no 'x'. */
  lemma XFieldFound(pre: string, s: Sample)
    requires s.z.Valid() && 'x' !in pre
    ensures var r := pre + FieldsText(s);
      LeftmostMatch(r, XKey, UnsignedDigits).Some?
      && LeftmostMatch(r, XKey, UnsignedDigits).value.group == NatToText(s.x)
  {
    NumeralLacks(s.z, 'x');
    assert 'x' !in BeforeX(pre, s);
    XGroupFound(pre, s);
    LeftmostMatchAt(pre + FieldsText(s), XKey, UnsignedDigits, BeforeX(pre, s),
      NatToText(s.x) + ", " + YKey + NatToText(s.y), NatToText(s.x));
  }

  /** The fields, cut at the y key. */
  lemma FieldsAtY(pre: string, s: Sample)
    ensures pre + FieldsText(s) == BeforeY(pre, s) + YKey + NatToText(s.y) + []
  {
  }

  /** The y digits are captured right after the y key, at the end of the fields. */
  lemma YGroupFound(pre: string, s: Sample)
    ensures var r := pre + FieldsText(s);
      && r == BeforeY(pre, s) + YKey + NatToText(s.y)
      && GroupAt(r, |BeforeY(pre, s)| + |YKey|, UnsignedDigits) == Some(NatToText(s.y))
  {
    FieldsAtY(pre, s);
    KeyedDigits(pre + FieldsText(s), BeforeY(pre, s), YKey, NatToText(s.y), []);
    assert NatToText(s.y) + [] == NatToText(s.y);
  }

  /** The y field is found last; nothing before it holds a 'y'. */
  lemma YFieldFound(pre: string, s: Sample)
    requires s.z.Valid() && 'y' !in pre
    ensures var r := pre + FieldsText(s);
      LeftmostMatch(r, YKey, UnsignedDigits).Some?
      && LeftmostMatch(r, YKey, UnsignedDigits).value.group == NatToText(s.y)
  {
    NumeralLacks(s.z, 'y');
    DigitsLack(NatToText(s.x), 'y');
    assert 'y' !in BeforeY(pre, s);
    YGroupFound(pre, s);
    LeftmostMatchAt(pre + FieldsText(s), YKey, UnsignedDigits, BeforeY(pre, s),
      NatToText(s.y), NatToText(s.y));
  }

  /**
   * The fields of a sample, after any text without the letters x, y and z,
   * read back as exactly the sample's point.
   */
  lemma FieldsRoundTrip(pre: string, s: Sample)
    requires s.z.Valid()
    requires 'x' !in pre && 'y' !in pre && 'z' !in pre
    ensures ParseSegment(pre + FieldsText(s)) == Some(PointOf(s))
  {
    ZFieldFound(pre, s);
    XFieldFound(pre, s);
    YFieldFound(pre, s);
    NatTextRoundTrip(s.x);
    NatTextRoundTrip(s.y);
  }

  /** A record read back is exactly the point written. */
  lemma RecordRoundTrip(s: Sample)
    requires s.z.Valid()
    ensures ParseSegment(RecordText(s)) == Some(PointOf(s))
  {
    HeaderLacks(s, 'x');
    HeaderLacks(s, 'y');
    HeaderLacks(s, 'z');
    FieldsRoundTrip(Header(s), s);
  }

  /** No record holds a ';', so records separated by ';' split apart again. */
  lemma RecordLacksSeparator(s: Sample)
    requires s.z.Valid()
    ensures ';' !in RecordText(s)
  {
    HeaderLacks(s, ';');
    NumeralLacks(s.z, ';');
    DigitsLack(NatToText(s.x), ';');
    DigitsLack(NatToText(s.y), ';');
  }

  /** Every character of the first part is in the joined text. */
  lemma JoinKeepsFirst(parts: seq<string>, sep: char, c: char)
    requires |parts| > 0 && c in parts[0]
    ensures c in Join(parts, sep)
  {
    if |parts| > 1 {
      assert Join(parts, sep) == parts[0] + ([sep] + Join(parts[1..], sep));
    }
  }

  /** The records read back are the points written, in order. */
  lemma {:induction false} RecordsRoundTrip(samples: seq<Sample>)
    requires AllValid(samples)
    ensures ParseSegments(RecordTexts(samples)) == PointsOf(samples)
  {
    if samples != [] {
      var texts := RecordTexts(samples);
      assert texts == [texts[0]] + RecordTexts(samples[1..]);
      RecordsRoundTrip(samples[1..]);
      RecordRoundTrip(samples[0]);
      CollectAppend(ParseSegment, [texts[0]], RecordTexts(samples[1..]));
      CollectOne(ParseSegment, texts[0]);
    }
  }

  /** A line of records splits back into its records. */
  lemma LineSplits(samples: seq<Sample>)
    requires AllValid(samples) && samples != []
    ensures Split(LineText(samples), ';') == RecordTexts(samples)
  {
    var texts := RecordTexts(samples);
    forall k | 0 <= k < |texts|
      ensures ';' !in texts[k]
    {
      RecordLacksSeparator(samples[k]);
    }
    SplitJoin(texts, ';');
  }

  /** A line of records holds a '[', the one that opens its first record. */
  lemma LineHasBracket(samples: seq<Sample>)
    requires samples != []
    ensures '[' in LineText(samples)
  {
    var s := samples[0];
    assert RecordText(s) == "[" + (NatToText(s.x) + "][" + NatToText(s.y) + "] " + FieldsText(s));
    assert RecordTexts(samples)[0] == RecordText(s);
    JoinKeepsFirst(RecordTexts(samples), ';', '[');
  }

  /** A line read back is the points of its records, in record order. */
  lemma LineRoundTrip(samples: seq<Sample>)
    requires AllValid(samples)
    ensures ParseLine(LineText(samples)) == PointsOf(samples)
  {
    if samples != [] {
      LineSplits(samples);
      LineHasBracket(samples);
      RecordsRoundTrip(samples);
    }
  }

  /** A file read back is the points of all its lines, line after line. */
  lemma {:induction false} FileRoundTrip(groups: seq<seq<Sample>>)
    requires forall g :: 0 <= g < |groups| ==> AllValid(groups[g])
    ensures ParseLines(FileText(groups)) == AllPointsOf(groups)
  {
    if groups != [] {
      var lines := FileText(groups);
      assert lines == [LineText(groups[0])] + FileText(groups[1..]);
      FileRoundTrip(groups[1..]);
      LineRoundTrip(groups[0]);
      FlatMapAppend(ParseLine, [lines[0]], FileText(groups[1..]));
      FlatMapOne(ParseLine, lines[0]);
    }
  }

  /** The fields alone hold no '['. */
  lemma FieldsLackBracket(s: Sample)
    requires s.z.Valid()
    ensures '[' !in FieldsText(s)
  {
    NumeralLacks(s.z, '[');
    DigitsLack(NatToText(s.x), '[');
    DigitsLack(NatToText(s.y), '[');
  }

  /** The fields hold no ';'. */
  lemma FieldsLackSeparator(s: Sample)
    requires s.z.Valid()
    ensures ';' !in FieldsText(s)
  {
    NumeralLacks(s.z, ';');
    DigitsLack(NatToText(s.x), ';');
    DigitsLack(NatToText(s.y), ';');
  }

  /** A record followed on its line by bare fields splits into the two. */
  lemma RecordThenFieldsSplits(first: Sample, second: Sample)
    requires first.z.Valid() && second.z.Valid()
    ensures Split(RecordText(first) + ";" + FieldsText(second), ';') == [RecordText(first), FieldsText(second)]
  {
    var r, f := RecordText(first), FieldsText(second);
    RecordLacksSeparator(first);
    FieldsLackSeparator(second);
    assert Join([r, f], ';') == r + ";" + f;
    SplitJoin([r, f], ';');
  }

  /** A line that starts with a record holds a '['. */
  lemma RecordOpensWithBracket(s: Sample, tail: string)
    ensures '[' in RecordText(s) + tail
  {
    assert (RecordText(s) + tail)[0] == '[';
  }

  /** Bare fields read back as the sample's point. */
  lemma BareFieldsRoundTrip(s: Sample)
    requires s.z.Valid()
    ensures ParseSegment(FieldsText(s)) == Some(PointOf(s))
  {
    assert FieldsText(s) == [] + FieldsText(s);
    FieldsRoundTrip([], s);
  }

  /** A line holding a record and then bare fields reads both, in order. */
  lemma RecordThenFieldsRead(first: Sample, second: Sample)
    requires first.z.Valid() && second.z.Valid()
    ensures ParseSegments([RecordText(first), FieldsText(second)]) == [PointOf(first), PointOf(second)]
  {
    RecordRoundTrip(first);
    BareFieldsRoundTrip(second);
    TwoRecordsRead(RecordText(first), FieldsText(second), PointOf(first), PointOf(second));
  }

  /** Two records that each have a point give both points, in order. */
  lemma TwoRecordsRead(a: string, b: string, p: Point, q: Point)
    requires ParseSegment(a) == Some(p) && ParseSegment(b) == Some(q)
    ensures ParseSegments([a, b]) == [p, q]
  {
    CollectBoth(ParseSegment, a, b, p, q);
  }

  /**
   * The '[' test is made once per line, not per record: the fields of a
   * sample on a line of their own are skipped, yet after a complete record
   * on the same line they are read.
   */
  lemma BracketTestIsPerLine(first: Sample, second: Sample)
    requires first.z.Valid() && second.z.Valid()
    ensures ParseLine(FieldsText(second)) == []
    ensures ParseLine(RecordText(first) + ";" + FieldsText(second)) == [PointOf(first), PointOf(second)]
  {
    FieldsLackBracket(second);
    RecordThenFieldsSplits(first, second);
    RecordOpensWithBracket(first, ";" + FieldsText(second));
    assert RecordText(first) + ";" + FieldsText(second) == RecordText(first) + (";" + FieldsText(second));
    RecordThenFieldsRead(first, second);
  }

  /**
   * The z pattern needs a comma between two digit runs: digits (signed or
   * not) that are followed by anything else give no z, and the record is
   * dropped.
   */
  lemma ZWithoutCommaDrops(seg: string, pre: string, sign: string, i: string, rest: string)
    requires sign == "" || sign == "-"
    requires |i| > 0 && AllDigits(i)
    requires rest == [] || !IsDigit(rest[0])
    requires !(|rest| >= 2 && rest[0] == ',' && IsDigit(rest[1]))
    requires seg == pre + ZKey + sign + i + rest
    requires 'z' !in pre && 'z' !in rest
    ensures ParseSegment(seg) == None
  {
    SignedNumeralFails(seg, pre + ZKey, sign, i, rest);
    DigitsLack(i, 'z');
    Regroup4(pre, ZKey, sign, i, rest);
    LeftmostMatchNone(seg, ZKey, SignedCommaDecimal, pre, sign + i + rest);
  }

  /**
   * The x and y patterns take unsigned digits only: a key followed by
   * anything but a digit gives no match, and the record is dropped.
   */
  lemma UnsignedFieldRequired(seg: string, key: string, pre: string, rest: string)
    requires key == XKey || key == YKey
    requires seg == pre + key + rest
    requires key[0] !in pre && key[0] !in rest
    requires rest == [] || !IsDigit(rest[0])
    ensures ParseSegment(seg) == None
  {
    MiddleSlice(pre, key, rest);
    assert DigitRun(seg, |pre| + |key|) == 0 by {
      if rest != [] {
        assert seg[|pre| + |key|] == rest[0];
      }
    }
    LeftmostMatchNone(seg, key, UnsignedDigits, pre, rest);
  }

  /** The numeral `-2,25` and its value. */
  lemma NegativeNumeral()
    ensures Decimal(true, "2", "25").Valid()
    ensures Decimal(true, "2", "25").CommaText() == "-2,25"
    ensures Decimal(true, "2", "25").Value() == -2.25
  {
    assert DigitsValue("25") == 25 by {
      assert "25"[..1] == "2";
    }
  }

  /** `z = -2,25` keeps its sign and reads as -2.25. */
  lemma NegativeCommaZ()
    ensures ParseSegment(RecordText(Sample(1, 2, Decimal(true, "2", "25")))) == Some(Point(1, 2, -2.25))
  {
    NegativeNumeral();
    RecordRoundTrip(Sample(1, 2, Decimal(true, "2", "25")));
  }

  /** `z = 1.5`, with a decimal point, drops the record. */
  lemma PointZDrops()
    ensures ParseSegment("[1][2] z = 1.5, x = 1, y = 2") == None
  {
    ZWithoutCommaDrops("[1][2] z = 1.5, x = 1, y = 2", "[1][2] ", "", "1", ".5, x = 1, y = 2");
  }

  /** `z = 3`, without a fractional part, drops the record. */
  lemma IntegerZDrops()
    ensures ParseSegment("[3][4] z = 3, x = 3, y = 4") == None
  {
    ZWithoutCommaDrops("[3][4] z = 3, x = 3, y = 4", "[3][4] ", "", "3", ", x = 3, y = 4");
  }

  /** `x = -3` does not match the unsigned x pattern and drops the record. */
  lemma NegativeXDrops()
    ensures ParseSegment("[1][2] z = 1,5, x = -3, y = 2") == None
  {
    UnsignedFieldRequired("[1][2] z = 1,5, x = -3, y = 2", XKey, "[1][2] z = 1,5, ", "-3, y = 2");
  }
}
