/**
 * The three field patterns of the result reader, `z = (-?\d+,\d+)`,
 * `x = (\d+)` and `y = (\d+)`, with the semantics of `Regex.Match`: the
 * leftmost position where the pattern matches, and the text of its capture
 * group. Each pattern is a literal key followed by one capture group.
 */
module FieldRegex {
  import opened Wrappers
  import opened Digits
  import opened Decimals

  /** The two capture groups: `(\d+)` and `(-?\d+,\d+)`. */
  datatype GroupShape = UnsignedDigits | SignedCommaDecimal

  /** A successful match: its start index and the text of capture group 1. */
  datatype FieldMatch = FieldMatch(index: nat, group: string)

  /**
   * `\d+,\d+` starting at q, as the lengths of its integer and fractional
   * digit runs. Greedy `\d+` gives nothing back, because giving back a digit
   * never makes the following ',' (or whatever follows the group) match.
   */
  function CommaNumeralAt(s: string, q: nat): (r: Option<(nat, nat)>)
    requires q <= |s|
    ensures r.Some? ==>
      var (n, m) := r.value;
      var e := q + n + 1 + m;
      n > 0 && m > 0 && e <= |s|
      && (forall k :: q <= k < q + n ==> IsDigit(s[k]))
      && s[q + n] == ','
      && (forall k :: q + n + 1 <= k < e ==> IsDigit(s[k]))
      && (e == |s| || !IsDigit(s[e]))
  {
    var n := DigitRun(s, q);
    if n > 0 && q + n < |s| && s[q + n] == ',' then
      var m := DigitRun(s, q + n + 1);
      if m > 0 then Some((n, m)) else None
    else None
  }

  /** Digits at every index of a slice make the slice a digit string. */
  lemma SliceDigits(s: string, lo: nat, hi: nat)
    requires lo <= hi <= |s|
    requires forall k :: lo <= k < hi ==> IsDigit(s[k])
    ensures AllDigits(s[lo..hi])
  {
    forall k | 0 <= k < hi - lo
      ensures IsDigit(s[lo..hi][k])
    {
      assert s[lo..hi][k] == s[lo + k];
    }
  }

  /**
   * The numeral d is written in s at p, and no digit follows it: its sign,
   * its integer digits, a comma and its fractional digits, one after the other.
   */
  predicate WrittenAt(s: string, p: nat, d: Decimal) {
    var q := p + |d.Sign()|;
    var c := q + |d.intDigits|;
    var e := c + 1 + |d.fracDigits|;
    && e <= |s| && (d.negative ==> s[p] == '-')
    && s[q..c] == d.intDigits && s[c] == ',' && s[c + 1..e] == d.fracDigits
    && (e == |s| || !IsDigit(s[e]))
  }

  /** A slice is the concatenation of its two halves. */
  lemma SliceSplit(s: string, lo: nat, mid: nat, hi: nat)
    requires lo <= mid <= hi <= |s|
    ensures s[lo..hi] == s[lo..mid] + s[mid..hi]
  {
  }

  /** The text before the digits of a numeral written at p is its sign. */
  lemma SignWritten(s: string, p: nat, d: Decimal)
    requires WrittenAt(s, p, d)
    ensures s[p..p + |d.Sign()|] == d.Sign()
  {
  }

  /** Four neighbouring slices of s, the third a comma, make up the slice they cover. */
  lemma Pieces(s: string, p: nat, q: nat, c: nat, e: nat, sign: string, i: string, f: string)
    requires p <= q <= c < e <= |s|
    requires s[p..q] == sign && s[q..c] == i && s[c] == ',' && s[c + 1..e] == f
    ensures s[p..e] == sign + i + "," + f
  {
    SliceSplit(s, p, q, e);
    SliceSplit(s, q, c, e);
    SliceSplit(s, c, c + 1, e);
    assert s[c..c + 1] == ",";
    assert sign + i + "," + f == sign + (i + ("," + f));
  }

  /** A numeral written at p is the text of s there. */
  lemma WrittenText(s: string, p: nat, d: Decimal)
    requires WrittenAt(s, p, d)
    ensures p + |d.CommaText()| <= |s| && s[p..p + |d.CommaText()|] == d.CommaText()
  {
    var q := p + |d.Sign()|;
    var c := q + |d.intDigits|;
    SignWritten(s, p, d);
    Pieces(s, p, q, c, c + 1 + |d.fracDigits|, d.Sign(), d.intDigits, d.fracDigits);
  }

  /** Digit runs around a comma found after the sign at p form a numeral written at p. */
  lemma NumeralWritten(s: string, p: nat, q: nat, n: nat, m: nat, negative: bool)
    requires q == if negative then p + 1 else p
    requires negative ==> p < |s| && s[p] == '-'
    requires q + n + 1 + m <= |s| && s[q + n] == ','
    requires q + n + 1 + m == |s| || !IsDigit(s[q + n + 1 + m])
    ensures WrittenAt(s, p, Decimal(negative, s[q..q + n], s[q + n + 1..q + n + 1 + m]))
  {
  }

  /**
   * The numeral that starts at p: its sign, when it has one, is the '-' at p,
   * and `\d+,\d+` follows the sign.
   */
  function NumeralFrom(s: string, p: nat, negative: bool): (r: Option<Decimal>)
    requires p <= |s|
    requires negative ==> p < |s| && s[p] == '-'
    ensures r.Some? ==> r.value.negative == negative && r.value.Valid() && WrittenAt(s, p, r.value)
  {
    var q := if negative then p + 1 else p;
    match CommaNumeralAt(s, q)
    case Some(runs) => Some(NumeralOfRuns(s, p, q, runs.0, runs.1, negative))
    case None => None
  }

  /** The numeral made of the digit runs that `\d+,\d+` found after the sign at p. */
  function NumeralOfRuns(s: string, p: nat, q: nat, n: nat, m: nat, negative: bool): (d: Decimal)
    requires q == if negative then p + 1 else p
    requires negative ==> p < |s| && s[p] == '-'
    requires q <= |s| && CommaNumeralAt(s, q) == Some((n, m))
    ensures d.negative == negative && d.Valid() && WrittenAt(s, p, d)
  {
    SliceDigits(s, q, q + n);
    SliceDigits(s, q + n + 1, q + n + 1 + m);
    NumeralWritten(s, p, q, n, m, negative);
    Decimal(negative, s[q..q + n], s[q + n + 1..q + n + 1 + m])
  }

  /**
   * `-?\d+,\d+` starting at p, as the numeral it captures: the numeral
   * written at p. The optional sign is tried first; when the rest fails with
   * it, the backtracking attempt without it starts at '-', which is no digit,
   * and fails too.
   */
  function SignedNumeralAt(s: string, p: nat): (r: Option<Decimal>)
    requires p <= |s|
    ensures r.Some? ==> r.value.Valid() && WrittenAt(s, p, r.value)
  {
    if p < |s| && s[p] == '-' && CommaNumeralAt(s, p + 1).Some? then
      NumeralFrom(s, p, true)
    else
      NumeralFrom(s, p, false)
  }

  /** The middle piece of a concatenation is the slice at its position. */
  lemma MiddleSlice(a: string, t: string, b: string)
    ensures |a| + |t| <= |a + t + b|
    ensures (a + t + b)[|a|..|a| + |t|] == t
  {
    assert a + t + b == a + (t + b);
  }

  /** The greedy digit run at |pre| is t when t is digits and no digit follows it. */
  lemma DigitRunOver(s: string, pre: string, t: string, post: string)
    requires AllDigits(t)
    requires s == pre + t + post
    requires post == [] || !IsDigit(post[0])
    ensures DigitRun(s, |pre|) == |t|
  {
    forall k | |pre| <= k < |pre| + |t|
      ensures IsDigit(s[k])
    {
      assert s[k] == t[k - |pre|];
    }
    if post != [] {
      assert s[|pre| + |t|] == post[0];
    }
    DigitRunIs(s, |pre|, |t|);
  }

  /** The greedy digit runs around a comma written at |a|. */
  lemma CommaNumeralRuns(s: string, a: string, i: string, f: string, b: string)
    requires |i| > 0 && AllDigits(i) && |f| > 0 && AllDigits(f)
    requires s == a + i + "," + f + b
    requires b == [] || !IsDigit(b[0])
    ensures DigitRun(s, |a|) == |i|
    ensures s[|a| + |i|] == ','
    ensures DigitRun(s, |a| + |i| + 1) == |f|
  {
    var tail := "," + f + b;
    assert s == a + i + tail;
    assert tail[0] == ',';
    DigitRunOver(s, a, i, tail);
    assert s == (a + i + ",") + f + b;
    DigitRunOver(s, a + i + ",", f, b);
  }

  /** `\d+,\d+` finds digits, a comma and digits written at |a| when no digit follows them. */
  lemma CommaNumeralFinds(s: string, a: string, i: string, f: string, b: string)
    requires |i| > 0 && AllDigits(i) && |f| > 0 && AllDigits(f)
    requires s == a + i + "," + f + b
    requires b == [] || !IsDigit(b[0])
    ensures CommaNumeralAt(s, |a|) == Some((|i|, |f|))
    ensures s[|a|..|a| + |i|] == i && s[|a| + |i| + 1..|a| + |i| + 1 + |f|] == f
  {
    CommaNumeralRuns(s, a, i, f, b);
    MiddleSlice(a, i, "," + f + b);
    assert s == a + i + ("," + f + b);
    MiddleSlice(a + i + ",", f, b);
  }

  /**
   * The numeral with the given sign, starting at p, is the one written there;
   * pre ends with the sign.
   */
  lemma NumeralFromFinds(s: string, p: nat, pre: string, i: string, f: string, b: string, negative: bool)
    requires |i| > 0 && AllDigits(i) && |f| > 0 && AllDigits(f)
    requires s == pre + i + "," + f + b
    requires b == [] || !IsDigit(b[0])
    requires |pre| == if negative then p + 1 else p
    requires negative ==> s[p] == '-'
    ensures CommaNumeralAt(s, |pre|).Some?
    ensures NumeralFrom(s, p, negative) == Some(Decimal(negative, i, f))
  {
    CommaNumeralFinds(s, pre, i, f, b);
  }

  /**
   * The numeral pattern finds a numeral written at |a|, as long as no digit
   * follows it (a following digit would belong to the greedy run).
   */
  lemma SignedNumeralAtFinds(s: string, a: string, d: Decimal, b: string)
    requires d.Valid()
    requires s == a + d.CommaText() + b
    requires b == [] || !IsDigit(b[0])
    ensures SignedNumeralAt(s, |a|) == Some(d)
  {
    var i, f := d.intDigits, d.fracDigits;
    Regroup(a, d.Sign(), i, f, b);
    if d.negative {
      NegativeNumeralFinds(s, a, i, f, b);
    } else {
      assert s == a + i + "," + f + b;
      assert s[|a|] == i[0];
      NumeralFromFinds(s, |a|, a, i, f, b, false);
    }
  }

  /** A numeral with a minus sign: the sign is taken, not given back. */
  lemma NegativeNumeralFinds(s: string, a: string, i: string, f: string, b: string)
    requires |i| > 0 && AllDigits(i) && |f| > 0 && AllDigits(f)
    requires s == (a + "-") + i + "," + f + b
    requires b == [] || !IsDigit(b[0])
    ensures SignedNumeralAt(s, |a|) == Some(Decimal(true, i, f))
  {
    assert s[|a|] == '-';
    NumeralFromFinds(s, |a|, a + "-", i, f, b, true);
  }

  lemma Regroup(a: string, sign: string, i: string, f: string, b: string)
    ensures a + (sign + i + "," + f) + b == (a + sign) + i + "," + f + b
  {
  }

  /** The text capture group 1 takes when it starts at p, if the group matches there. */
  function GroupAt(s: string, p: nat, shape: GroupShape): (g: Option<string>)
    requires p <= |s|
    ensures g.Some? ==>
      p + |g.value| <= |s| && g.value == s[p..p + |g.value|]
      && (p + |g.value| == |s| || !IsDigit(s[p + |g.value|]))
    ensures g.Some? && shape == UnsignedDigits ==> |g.value| > 0 && AllDigits(g.value)
  {
    match shape
    case UnsignedDigits =>
      var n := DigitRun(s, p);
      if n > 0 then Some(s[p..p + n]) else None
    case SignedCommaDecimal =>
      match SignedNumeralAt(s, p)
      case Some(d) => WrittenText(s, p, d); Some(d.CommaText())
      case None => None
  }

  /** The signed decimal pattern captures a numeral written at p when no digit follows it. */
  lemma SignedGroupFinds(s: string, a: string, d: Decimal, b: string)
    requires d.Valid()
    requires s == a + d.CommaText() + b
    requires b == [] || !IsDigit(b[0])
    ensures SignedNumeralAt(s, |a|) == Some(d)
    ensures GroupAt(s, |a|, SignedCommaDecimal) == Some(d.CommaText())
  {
    SignedNumeralAtFinds(s, a, d, b);
  }

  /** The unsigned pattern captures a digit string written at p when no digit follows it. */
  lemma UnsignedGroupFinds(s: string, a: string, t: string, b: string)
    requires |t| > 0 && AllDigits(t)
    requires s == a + t + b
    requires b == [] || !IsDigit(b[0])
    ensures GroupAt(s, |a|, UnsignedDigits) == Some(t)
  {
    assert forall k :: |a| <= k < |a| + |t| ==> s[k] == t[k - |a|];
    DigitRunIs(s, |a|, |t|);
    assert s[|a|..|a| + |t|] == t;
  }

  /** The group captured when the whole pattern, key then group, matches at position i. */
  function MatchAt(s: string, key: string, shape: GroupShape, i: nat): (g: Option<string>)
    ensures g.Some? ==>
      var p := i + |key|;
      p + |g.value| <= |s| && s[i..p] == key && s[p..p + |g.value|] == g.value
  {
    if i + |key| <= |s| && s[i..i + |key|] == key then GroupAt(s, i + |key|, shape) else None
  }

  /** The first successful attempt at or after `from`, trying the positions in order. */
  function FirstMatch(attempts: seq<Option<string>>, from: nat): (r: Option<FieldMatch>)
    requires from <= |attempts|
    ensures r.Some? ==> from <= r.value.index < |attempts| && attempts[r.value.index] == Some(r.value.group)
    ensures forall j :: from <= j < (if r.Some? then r.value.index else |attempts|) ==> attempts[j].None?
    decreases |attempts| - from
  {
    if from == |attempts| then None
    else if attempts[from].Some? then Some(FieldMatch(from, attempts[from].value))
    else FirstMatch(attempts, from + 1)
  }

  /** The match attempted at every position of s, the end included. */
  function Attempts(s: string, key: string, shape: GroupShape): (attempts: seq<Option<string>>)
    ensures |attempts| == |s| + 1
    ensures forall j :: 0 <= j <= |s| ==> attempts[j] == MatchAt(s, key, shape, j)
  {
    seq(|s| + 1, i requires 0 <= i <= |s| => MatchAt(s, key, shape, i))
  }

  /** `Regex.Match(s, key + group)`: the leftmost position where the pattern matches, or none. */
  function LeftmostMatch(s: string, key: string, shape: GroupShape): (r: Option<FieldMatch>)
    ensures r.Some? ==> MatchAt(s, key, shape, r.value.index) == Some(r.value.group)
    ensures forall j :: 0 <= j < (if r.Some? then r.value.index else |s| + 1) ==> MatchAt(s, key, shape, j).None?
  {
    FirstMatch(Attempts(s, key, shape), 0)
  }

  /** The first successful attempt is at k when attempt k succeeds and none between `from` and k does. */
  lemma {:induction false} FirstMatchAt(attempts: seq<Option<string>>, from: nat, k: nat, g: string)
    requires from <= k < |attempts| && attempts[k] == Some(g)
    requires forall j :: from <= j < k ==> attempts[j].None?
    ensures FirstMatch(attempts, from) == Some(FieldMatch(k, g))
    decreases k - from
  {
    if from < k {
      FirstMatchAt(attempts, from + 1, k, g);
    }
  }

  /** No match at j when the character at j differs from the key's first character. */
  lemma NoMatchAt(s: string, key: string, shape: GroupShape, j: nat)
    requires j < |s| && |key| > 0 && s[j] != key[0]
    ensures MatchAt(s, key, shape, j).None?
  {
    if j + |key| <= |s| {
      assert s[j..j + |key|][0] == s[j];
    }
  }

  /**
   * When the key is written at |a|, its first character does not occur
   * before, and the group matches after it, the leftmost match is there.
   */
  lemma LeftmostMatchAt(s: string, key: string, shape: GroupShape, a: string, rest: string, g: string)
    requires |key| > 0 && key[0] !in a
    requires s == a + key + rest
    requires GroupAt(s, |a| + |key|, shape) == Some(g)
    ensures LeftmostMatch(s, key, shape) == Some(FieldMatch(|a|, g))
  {
    MiddleSlice(a, key, rest);
    var attempts := Attempts(s, key, shape);
    assert attempts[|a|] == Some(g);
    forall j | 0 <= j < |a|
      ensures attempts[j].None?
    {
      assert s[j] == a[j];
      NoMatchAt(s, key, shape, j);
    }
    FirstMatchAt(attempts, 0, |a|, g);
  }

  /** No attempt at or after `from` succeeds, so there is no match. */
  lemma {:induction false} FirstMatchNone(attempts: seq<Option<string>>, from: nat)
    requires from <= |attempts|
    requires forall j :: from <= j < |attempts| ==> attempts[j].None?
    ensures FirstMatch(attempts, from).None?
    decreases |attempts| - from
  {
    if from < |attempts| {
      FirstMatchNone(attempts, from + 1);
    }
  }

  /** Where the key's first character occurs only at |a|, every other position holds something else. */
  lemma KeyStartsOnlyAt(s: string, key: string, a: string, rest: string, j: nat)
    requires |key| > 0 && key[0] !in a && key[0] !in key[1..] && key[0] !in rest
    requires s == a + key + rest
    requires j < |s| && j != |a|
    ensures s[j] != key[0]
  {
    if j < |a| {
      assert s[j] == a[j];
    } else if j < |a| + |key| {
      assert s[j] == key[1..][j - |a| - 1];
    } else {
      assert s[j] == rest[j - |a| - |key|];
    }
  }

  /**
   * When the key's first character occurs in s only where the key is written,
   * at |a|, and the group does not match after it, the pattern does not match.
   */
  lemma LeftmostMatchNone(s: string, key: string, shape: GroupShape, a: string, rest: string)
    requires |key| > 0 && key[0] !in a && key[0] !in key[1..] && key[0] !in rest
    requires s == a + key + rest
    requires GroupAt(s, |a| + |key|, shape).None?
    ensures LeftmostMatch(s, key, shape).None?
  {
    MiddleSlice(a, key, rest);
    var attempts := Attempts(s, key, shape);
    assert attempts[|a|].None?;
    forall j | 0 <= j < |s| && j != |a|
      ensures attempts[j].None?
    {
      KeyStartsOnlyAt(s, key, a, rest, j);
      NoMatchAt(s, key, shape, j);
    }
    FirstMatchNone(attempts, 0);
  }

  /**
   * `-?\d+,\d+` fails at |a| when the digits written there (after an
   * optional '-') are not followed by a comma and a digit.
   */
  lemma SignedNumeralFails(s: string, a: string, sign: string, i: string, b: string)
    requires sign == "" || sign == "-"
    requires |i| > 0 && AllDigits(i)
    requires s == a + sign + i + b
    requires b == [] || !IsDigit(b[0])
    requires !(|b| >= 2 && b[0] == ',' && IsDigit(b[1]))
    ensures SignedNumeralAt(s, |a|).None?
  {
    var q := |a| + |sign|;
    assert s == (a + sign) + i + b;
    DigitRunOver(s, a + sign, i, b);
    if q + |i| < |s| && s[q + |i|] == ',' {
      assert b[0] == ',';
      if q + |i| + 1 < |s| {
        assert s[q + |i| + 1] == b[1];
      }
    }
    assert CommaNumeralAt(s, q).None?;
    if sign == "-" {
      assert s[|a|] == '-';
      assert DigitRun(s, |a|) == 0;
    }
  }
}
