/**
 * Exact decimal numbers as the result file writes them: an optional minus
 * sign, integer digits, a separator and fractional digits. The reader takes
 * its z coordinate from such a text, written with a comma, after replacing
 * the comma by a point.
 */
module Decimals {
  import opened Wrappers
  import opened Digits

  /** A decimal numeral split into its sign and its two digit strings. */
  datatype Decimal = Decimal(negative: bool, intDigits: string, fracDigits: string) {

    /** Both digit strings are non-empty and made of digits, as `\d+,\d+` demands. */
    predicate Valid() {
      |intDigits| > 0 && AllDigits(intDigits) && |fracDigits| > 0 && AllDigits(fracDigits)
    }

    function Sign(): (sign: string)
      ensures |sign| == if negative then 1 else 0
    {
      if negative then "-" else ""
    }

    /** The numeral written with a decimal comma, `-2,25`. */
    function CommaText(): (t: string)
      ensures |t| == |Sign()| + |intDigits| + 1 + |fracDigits|
    {
      Sign() + intDigits + "," + fracDigits
    }

    /** The numeral written with a decimal point, `-2.25`. */
    function DotText(): string {
      Sign() + intDigits + "." + fracDigits
    }

    /** The exact number the numeral denotes. */
    function Value(): real
      requires Valid()
    {
      var magnitude := DigitsValue(intDigits) as real
        + DigitsValue(fracDigits) as real / Pow10(|fracDigits|) as real;
      if negative then -magnitude else magnitude
    }
  }

  /** `string.Replace(char, char)`: every occurrence of `a` becomes `b`, and nothing else changes. */
  function Replace(s: string, a: char, b: char): (r: string)
    ensures |r| == |s|
    ensures forall k :: 0 <= k < |s| ==> r[k] == if s[k] == a then b else s[k]
  {
    if s == [] then [] else [if s[0] == a then b else s[0]] + Replace(s[1..], a, b)
  }

  /**
   * Parses a numeral `-?\d+\.\d+` exactly. This is `float.TryParse` under the
   * invariant culture restricted to the only shape the reader ever hands it,
   * and without rounding to single precision; any other text fails. It
   * succeeds exactly on the point texts of numerals, with their values.
   */
  function ParseDecimal(t: string): (r: Option<real>)
    ensures r.Some? ==> exists d: Decimal :: d.Valid() && d.DotText() == t && r.value == d.Value()
    ensures forall d: Decimal :: d.Valid() && d.DotText() == t ==> r == Some(d.Value())
  {
    DotTextsParse(t);
    match ReadNumeral(t)
    case Some(d) => Some(d.Value())
    case None => None
  }

  /** Splits a numeral `-?\d+\.\d+` into its sign and digit strings; t is that numeral's text. */
  function ReadNumeral(t: string): (r: Option<Decimal>)
    ensures r.Some? ==> r.value.Valid() && r.value.DotText() == t
  {
    var negative := |t| > 0 && t[0] == '-';
    var body := if negative then t[1..] else t;
    var n := DigitRun(body, 0);
    if 0 < n && n + 1 < |body| && body[n] == '.' && AllDigits(body[n + 1..]) then
      PointJoins(t, negative, body, n);
      Some(Decimal(negative, body[..n], body[n + 1..]))
    else
      None
  }

  /** A text cut at a point, after its sign, is the point text of the numeral of its pieces. */
  lemma PointJoins(t: string, negative: bool, body: string, n: nat)
    requires negative ==> |t| > 0 && t[0] == '-'
    requires body == if negative then t[1..] else t
    requires n < |body| && body[n] == '.'
    ensures Decimal(negative, body[..n], body[n + 1..]).DotText() == t
  {
    assert body == body[..n] + "." + body[n + 1..];
    if negative {
      assert t == "-" + body;
    }
  }

  /** The comma numeral, after the reader's comma-to-point replacement, is its point numeral. */
  lemma {:induction false} CommaToDot(d: Decimal)
    requires d.Valid()
    ensures Replace(d.CommaText(), ',', '.') == d.DotText()
  {
    var c, t := d.CommaText(), d.DotText();
    var r := Replace(c, ',', '.');
    var i := |d.Sign()|;
    var n := |d.intDigits|;
    assert |r| == |t|;
    forall k | 0 <= k < |t|
      ensures r[k] == t[k]
    {
      if k < i {
      } else if k < i + n {
        assert c[k] == d.intDigits[k - i] && t[k] == d.intDigits[k - i];
      } else if k == i + n {
      } else {
        assert c[k] == d.fracDigits[k - i - n - 1] && t[k] == d.fracDigits[k - i - n - 1];
      }
    }
  }

  /** The greedy integer run of `i.f` stops at the point. */
  lemma PointSplits(i: string, f: string)
    requires |i| > 0 && AllDigits(i)
    ensures var body := i + "." + f;
      DigitRun(body, 0) == |i| && body[|i|] == '.' && body[..|i|] == i && body[|i| + 1..] == f
  {
    var body := i + "." + f;
    assert forall k :: 0 <= k < |i| ==> body[k] == i[k];
    DigitRunIs(body, 0, |i|);
    assert body[..|i|] == i;
    assert body[|i| + 1..] == f;
  }

  /** What remains of a point numeral once its sign is read. */
  lemma SignSplits(d: Decimal)
    requires d.Valid()
    ensures var t := d.DotText();
      && (|t| > 0 && t[0] == '-') == d.negative
      && (if d.negative then t[1..] else t) == d.intDigits + "." + d.fracDigits
  {
    var t := d.DotText();
    var body := d.intDigits + "." + d.fracDigits;
    assert t == d.Sign() + body;
    if d.negative {
      assert t[1..] == body;
    } else {
      assert t == body && t[0] == d.intDigits[0];
    }
  }

  /** A point numeral parses to exactly the number it denotes. */
  lemma DotTextParses(d: Decimal)
    requires d.Valid()
    ensures ReadNumeral(d.DotText()) == Some(d)
  {
    SignSplits(d);
    PointSplits(d.intDigits, d.fracDigits);
  }

  /** What the reader does with a captured z group: replace the comma, then parse. */
  lemma CommaTextParses(d: Decimal)
    requires d.Valid()
    ensures ParseDecimal(Replace(d.CommaText(), ',', '.')) == Some(d.Value())
  {
    CommaToDot(d);
    DotTextParses(d);
  }

  /** Every numeral whose point text is t is what t parses to. */
  lemma DotTextsParse(t: string)
    ensures forall d: Decimal :: d.Valid() && d.DotText() == t ==> ReadNumeral(t) == Some(d)
  {
    forall d: Decimal | d.Valid() && d.DotText() == t
      ensures ReadNumeral(t) == Some(d)
    {
      DotTextParses(d);
    }
  }
}
