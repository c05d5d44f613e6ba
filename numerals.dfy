/**
 * The pieces of amount parsing shared by parser.py and backup.py: the
 * leftmost match of the numeral pattern `[+-]?\d[\d\s,.]*` (or, in
 * backup.py, `[+-]?\d[\d,.]*`), Python's `float()` on the strings that can
 * reach it, and `round(abs(x))`.
 */
module Numerals {
  import opened Wrappers
  import opened Text

  /** A character the pattern's repeated class accepts: `[\d\s,.]` when `spaces`, else `[\d,.]`. */
  predicate InTail(c: char, spaces: bool) {
    IsDigit(c) || c == ',' || c == '.' || (spaces && IsWhitespace(c))
  }

  /** A match of `[+-]?\d` begins at `i`. */
  predicate StartsNumeral(s: string, i: int) {
    0 <= i < |s| && (IsDigit(s[i]) || (IsSign(s[i]) && i + 1 < |s| && IsDigit(s[i + 1])))
  }

  /** The leftmost position at or after `from` where a match begins. */
  function FirstStart(s: string, from: nat): (r: Option<nat>)
    requires from <= |s|
    ensures r.Some? ==> from <= r.value < |s| && StartsNumeral(s, r.value)
    ensures r.Some? ==> forall j :: from <= j < r.value ==> !StartsNumeral(s, j)
    ensures r.None? ==> forall j :: from <= j < |s| ==> !StartsNumeral(s, j)
    decreases |s| - from
  {
    if from == |s| then None
    else if StartsNumeral(s, from) then Some(from)
    else FirstStart(s, from + 1)
  }

  /** Where the greedy repetition that starts at `k` stops. */
  function TailEnd(s: string, k: nat, spaces: bool): (e: nat)
    requires k <= |s|
    ensures k <= e <= |s|
    ensures forall j :: k <= j < e ==> InTail(s[j], spaces)
    ensures e < |s| ==> !InTail(s[e], spaces)
    decreases |s| - k
  {
    if k < |s| && InTail(s[k], spaces) then TailEnd(s, k + 1, spaces) else k
  }

  /** `re.findall(pattern, s)[0]` when there is a match: the leftmost match, extended greedily. */
  function FirstNumeral(s: string, spaces: bool): (r: Option<string>)
    ensures r.Some? ==> |r.value| > 0 && (IsDigit(r.value[0]) || (IsSign(r.value[0]) && |r.value| > 1 && IsDigit(r.value[1])))
    ensures r.Some? ==> forall j :: 1 <= j < |r.value| ==> InTail(r.value[j], spaces) || (j == 1 && IsDigit(r.value[1]))
  {
    match FirstStart(s, 0)
    case None => None
    case Some(i) =>
      var k := if IsDigit(s[i]) then i + 1 else i + 2;
      Some(s[i..TailEnd(s, k, spaces)])
  }

  /**
   * Where the first match lies: `s[start..end]`, beginning at the leftmost
   * position where the pattern can start, and ending at the end of `s` or
   * at the first character outside the repeated class.
   */
  lemma FirstNumeralAt(s: string, spaces: bool) returns (start: nat, end: nat)
    requires FirstNumeral(s, spaces).Some?
    ensures start < end <= |s| && FirstNumeral(s, spaces).value == s[start..end]
    ensures StartsNumeral(s, start) && forall j :: 0 <= j < start ==> !StartsNumeral(s, j)
    ensures end == |s| || !InTail(s[end], spaces)
  {
    start := FirstStart(s, 0).value;
    var k := if IsDigit(s[start]) then start + 1 else start + 2;
    end := TailEnd(s, k, spaces);
  }

  /** The pattern matches somewhere exactly when the string holds a digit. */
  lemma NumeralIffDigit(s: string, spaces: bool)
    ensures FirstNumeral(s, spaces).Some? <==> HasDigit(s)
  {
    if HasDigit(s) {
      var j :| 0 <= j < |s| && IsDigit(s[j]);
      assert StartsNumeral(s, j);
    }
  }

  /** A string that starts like the pattern and continues with its class is matched whole. */
  lemma WholeMatch(s: string, spaces: bool)
    requires |s| > 0 && (IsDigit(s[0]) || (s[0] == '-' && |s| > 1 && IsDigit(s[1])))
    requires forall j :: 1 <= j < |s| ==> InTail(s[j], spaces)
    ensures FirstNumeral(s, spaces) == Some(s)
  {
    assert StartsNumeral(s, 0);
    assert FirstStart(s, 0) == Some(0);
    var k := if IsDigit(s[0]) then 1 else 2;
    assert TailEnd(s, k, spaces) == |s|;
    assert s[0..|s|] == s;
  }

  /** A numeral read as sign, whole digits and fraction digits. */
  datatype Decimal = Decimal(negative: bool, whole: string, fraction: string)

  predicate ValidDecimal(d: Decimal) {
    AllDigits(d.whole) && AllDigits(d.fraction) && |d.whole| + |d.fraction| > 0
  }

  /**
   * `float(s)` on the strings that reach it in the pipeline: surrounding
   * whitespace is ignored, then an optional sign, digits and at most one
   * `.` with digits on at least one side. `None` is the `ValueError`.
   */
  function ToFloat(s: string): (r: Option<Decimal>)
    ensures r.Some? ==> ValidDecimal(r.value)
  {
    SignedDecimal(Strip(s))
  }

  /** An optional sign, then the unsigned numeral. */
  function SignedDecimal(t: string): (r: Option<Decimal>)
    ensures r.Some? ==> ValidDecimal(r.value)
  {
    if |t| > 0 && IsSign(t[0]) then UnsignedDecimal(t[0] == '-', t[1..]) else UnsignedDecimal(false, t)
  }

  /** Digits with at most one `.`, and a digit on at least one side of it. */
  function UnsignedDecimal(negative: bool, body: string): (r: Option<Decimal>)
    ensures r.Some? ==> ValidDecimal(r.value)
  {
    match IndexOf(body, '.')
    case None =>
      if |body| > 0 && AllDigits(body) then Some(Decimal(negative, body, "")) else None
    case Some(i) =>
      var whole, fraction := body[..i], body[i + 1..];
      if AllDigits(whole) && AllDigits(fraction) && |whole| + |fraction| > 0
      then Some(Decimal(negative, whole, fraction)) else None
  }

  /**
   * The converse of reading a float: an accepted string is, once stripped,
   * an optional sign, the whole digits, an optional point and the fraction
   * digits, so anything else (an inner blank, a second point) is refused.
   */
  lemma FloatShape(s: string) returns (sign: string, point: string)
    requires ToFloat(s).Some?
    ensures var d := ToFloat(s).value;
            && (sign == "" || sign == "+" || sign == "-") && (d.negative <==> sign == "-")
            && (point == "" || point == ".") && (point == "" ==> d.fraction == "")
            && Strip(s) == sign + d.whole + point + d.fraction
  {
    sign, point := SignedShape(Strip(s));
  }

  /** A string whose stripped form holds whitespace, such as a tab between digits, is refused. */
  lemma BlankRefused(s: string, k: nat)
    requires k < |Strip(s)| && IsWhitespace(Strip(s)[k])
    ensures ToFloat(s).None?
  {
    if ToFloat(s).Some? {
      var sign, point := FloatShape(s);
      var d := ToFloat(s).value;
      ShapeNotBlank(Strip(s), sign, d.whole, point, d.fraction, k);
      assert false;
    }
  }

  /** No character of a sign, digits, an optional point and digits is whitespace. */
  lemma ShapeNotBlank(t: string, sign: string, whole: string, point: string, fraction: string, k: nat)
    requires sign == "" || sign == "+" || sign == "-"
    requires point == "" || point == "."
    requires AllDigits(whole) && AllDigits(fraction)
    requires t == sign + whole + point + fraction && k < |t|
    ensures !IsWhitespace(t[k])
  {
    var a := |sign|;
    var b := a + |whole|;
    var c := b + |point|;
    if k < a {
      assert t[k] == sign[k];
    } else if k < b {
      assert t[k] == whole[k - a];
    } else if k < c {
      assert t[k] == point[k - b];
    } else {
      assert t[k] == fraction[k - c];
    }
  }

  /** The shape of an accepted numeral after stripping: sign, whole digits, optional point, fraction digits. */
  lemma SignedShape(t: string) returns (sign: string, point: string)
    requires SignedDecimal(t).Some?
    ensures var d := SignedDecimal(t).value;
            && (sign == "" || sign == "+" || sign == "-") && (d.negative <==> sign == "-")
            && (point == "" || point == ".") && (point == "" ==> d.fraction == "")
            && t == sign + d.whole + point + d.fraction
  {
    if |t| > 0 && IsSign(t[0]) {
      sign := [t[0]];
      assert t == sign + t[1..];
      point := SignedBodyShape(t, sign, t[0] == '-', t[1..]);
    } else {
      sign := "";
      assert t == sign + t;
      point := SignedBodyShape(t, sign, false, t);
    }
  }

  /** A sign followed by an accepted unsigned numeral: the sign, whole digits, optional point, fraction digits. */
  lemma SignedBodyShape(t: string, sign: string, negative: bool, body: string) returns (point: string)
    requires t == sign + body && UnsignedDecimal(negative, body).Some?
    ensures var d := UnsignedDecimal(negative, body).value;
            && d.negative == negative && (point == "" || point == ".") && (point == "" ==> d.fraction == "")
            && t == sign + d.whole + point + d.fraction
  {
    var d := UnsignedDecimal(negative, body).value;
    point := UnsignedShape(negative, body);
    assert sign + (d.whole + point + d.fraction) == sign + d.whole + point + d.fraction;
  }

  /** An accepted unsigned numeral is its whole digits, an optional point and its fraction digits. */
  lemma UnsignedShape(negative: bool, body: string) returns (point: string)
    requires UnsignedDecimal(negative, body).Some?
    ensures var d := UnsignedDecimal(negative, body).value;
            && d.negative == negative && (point == "" || point == ".") && (point == "" ==> d.fraction == "")
            && body == d.whole + point + d.fraction
  {
    match IndexOf(body, '.')
    case None =>
      point := "";
      assert body + "" + "" == body;
    case Some(i) =>
      point := ".";
      assert body == body[..i] + "." + body[i + 1..];
  }

  predicate AllZero(s: string) {
    forall i :: 0 <= i < |s| ==> s[i] == '0'
  }

  /**
   * `round(abs(x))` for the decimal `x`: the nearest integer to its
   * magnitude, halves going to the even neighbour (Python's rounding).
   */
  function RoundHalfEven(d: Decimal): (n: nat)
    requires ValidDecimal(d)
    ensures var w, f, p := NumberValue(d.whole), NumberValue(d.fraction), Pow10(|d.fraction|);
            && (n == w || n == w + 1)
            && (n == w ==> 2 * f < p || (2 * f == p && w % 2 == 0))
            && (n == w + 1 ==> 2 * f > p || (2 * f == p && w % 2 == 1))
  {
    var w := NumberValue(d.whole);
    var f := d.fraction;
    var n := if |f| == 0 || f[0] < '5' then w
      else if f[0] > '5' || !AllZero(f[1..]) then w + 1
      else if w % 2 == 0 then w
      else w + 1;
    RoundingCompares(f);
    n
  }

  /** `round(abs(float(t)))`, or `None` for the `ValueError` of `float`. */
  function RoundedFloat(t: string): Option<nat> {
    match ToFloat(t)
    case None => None
    case Some(x) => Some(RoundHalfEven(x))
  }

  /** How the fraction digits compare with one half. */
  lemma RoundingCompares(f: string)
    requires AllDigits(f)
    ensures var v, p := NumberValue(f), Pow10(|f|);
            && (|f| == 0 || f[0] < '5' ==> 2 * v < p)
            && (|f| > 0 && f[0] > '5' ==> 2 * v > p)
            && (|f| > 0 && f[0] == '5' && !AllZero(f[1..]) ==> 2 * v > p)
            && (|f| > 0 && f[0] == '5' && AllZero(f[1..]) ==> 2 * v == p)
  {
    if |f| > 0 {
      var rest := f[1..];
      var q := Pow10(|rest|);
      FirstDigitSplit(f);
      NumberBound(rest);
      ZeroValue(rest);
      var d := DigitValue(f[0]);
      assert Pow10(|f|) == 10 * q;
      ScaleBounds(d, q, NumberValue(rest));
      assert d < 5 <==> f[0] < '5';
      assert d > 5 <==> f[0] > '5';
    }
  }

  /** Twice `d * q + r`, for a digit `d` and `r < q`, against `10 * q`. */
  lemma ScaleBounds(d: nat, q: nat, r: nat)
    requires d <= 9 && r < q
    ensures d < 5 ==> 2 * (d * q + r) < 10 * q
    ensures d > 5 ==> 2 * (d * q + r) > 10 * q
    ensures d == 5 ==> 2 * (d * q + r) == 10 * q + 2 * r
  {
    if d == 0 {} else if d == 1 {} else if d == 2 {} else if d == 3 {} else if d == 4 {}
    else if d == 5 {} else if d == 6 {} else if d == 7 {} else if d == 8 {} else {}
  }

  /** Reading the first digit off the front: `v = d * 10^(k-1) + rest`. */
  lemma {:induction false} FirstDigitSplit(f: string)
    requires AllDigits(f) && |f| > 0
    ensures NumberValue(f) == DigitValue(f[0]) * Pow10(|f| - 1) + NumberValue(f[1..])
  {
    if |f| > 1 {
      var init, rest := f[..|f| - 1], f[1..];
      FirstDigitSplit(init);
      assert init[0] == f[0];
      assert init[1..] == rest[..|rest| - 1] && rest[|rest| - 1] == f[|f| - 1];
      ShiftDigit(DigitValue(f[0]), Pow10(|f| - 2), NumberValue(init[1..]), DigitValue(f[|f| - 1]));
    } else {
      assert f[1..] == "";
    }
  }

  /** One more digit on the right scales the leading digit's place by ten. */
  lemma ShiftDigit(d: nat, q: nat, x: nat, last: nat)
    ensures 10 * (d * q + x) + last == d * (10 * q) + (10 * x + last)
  {
  }

  /** A k-digit number is below 10^k. */
  lemma {:induction false} NumberBound(f: string)
    requires AllDigits(f)
    ensures NumberValue(f) < Pow10(|f|)
  {
    if |f| > 0 {
      NumberBound(f[..|f| - 1]);
    }
  }

  /** The digits read as zero exactly when they are all zeros. */
  lemma {:induction false} ZeroValue(f: string)
    requires AllDigits(f)
    ensures NumberValue(f) == 0 <==> AllZero(f)
  {
    if |f| > 0 {
      ZeroValue(f[..|f| - 1]);
      assert AllZero(f) <==> AllZero(f[..|f| - 1]) && f[|f| - 1] == '0';
    }
  }

  /** A numeral that starts with a sign, digit or point and ends with a digit or point is unchanged by stripping. */
  lemma PointNumeralStripped(s: string, sign: string, whole: string, fraction: string)
    requires s == sign + whole + "." + fraction && (sign == "" || sign == "-")
    requires AllDigits(whole) && AllDigits(fraction)
    ensures Strip(s) == s
  {
    if sign == "-" {
      assert s[0] == '-';
    } else if |whole| > 0 {
      assert s[0] == whole[0];
    } else {
      assert s[0] == '.';
    }
    if |fraction| > 0 {
      assert s[|s| - 1] == fraction[|fraction| - 1];
    } else {
      assert s[|s| - 1] == '.';
    }
    StripNoop(s);
  }

  /** The point of `whole.fraction` is the first one. */
  lemma PointIndex(whole: string, fraction: string)
    requires AllDigits(whole)
    ensures IndexOf(whole + "." + fraction, '.') == Some(|whole|)
  {
    var body := whole + "." + fraction;
    assert body[|whole|] == '.';
  }

  /** `float()` of an optionally negative `whole.fraction` numeral. */
  lemma PointDecimal(s: string, sign: string, whole: string, fraction: string)
    requires s == sign + whole + "." + fraction && (sign == "" || sign == "-")
    requires AllDigits(whole) && AllDigits(fraction) && |whole| + |fraction| > 0
    ensures ToFloat(s) == Some(Decimal(sign == "-", whole, fraction))
  {
    PointNumeralStripped(s, sign, whole, fraction);
    var body := whole + "." + fraction;
    assert s == sign + body;
    PointBodyUnsigned(whole, fraction);
    SignedBody(s, sign, body);
    PointBody(sign == "-", whole, fraction);
  }

  /** The sign, if any, is read off a body that does not start with one. */
  lemma SignedBody(s: string, sign: string, body: string)
    requires s == sign + body && (sign == "" || sign == "-")
    requires |body| > 0 && !IsSign(body[0])
    ensures SignedDecimal(s) == UnsignedDecimal(sign == "-", body)
  {
    if sign == "-" {
      assert s[0] == '-' && s[1..] == body;
    } else {
      assert s == body;
    }
  }

  /** `whole.fraction` starts with a digit or the point, never a sign. */
  lemma PointBodyUnsigned(whole: string, fraction: string)
    requires AllDigits(whole)
    ensures |whole + "." + fraction| > 0 && !IsSign((whole + "." + fraction)[0])
  {
    var body := whole + "." + fraction;
    if |whole| > 0 {
      assert body[0] == whole[0];
    } else {
      assert body[0] == '.';
    }
  }

  /** The unsigned `whole.fraction` reads as its two digit runs. */
  lemma PointBody(negative: bool, whole: string, fraction: string)
    requires AllDigits(whole) && AllDigits(fraction) && |whole| + |fraction| > 0
    ensures UnsignedDecimal(negative, whole + "." + fraction) == Some(Decimal(negative, whole, fraction))
  {
    var body := whole + "." + fraction;
    PointIndex(whole, fraction);
    assert body[..|whole|] == whole && body[|whole| + 1..] == fraction;
  }

  /** `float()` of a digit string after an optional `-`. */
  lemma WholeDecimal(s: string, sign: string, ds: string)
    requires |ds| > 0 && AllDigits(ds) && (sign == "" || sign == "-") && s == sign + ds
    ensures ToFloat(s) == Some(Decimal(sign == "-", ds, ""))
  {
    if sign == "-" {
      assert s[0] == '-';
    } else {
      assert s[0] == ds[0];
    }
    assert s[|s| - 1] == ds[|ds| - 1];
    StripNoop(s);
    SignedBody(s, sign, ds);
    assert '.' !in ds;
  }

  /** Below one half, or no fraction at all: the whole part. */
  lemma RoundsDown(d: Decimal)
    requires ValidDecimal(d) && (|d.fraction| == 0 || d.fraction[0] < '5')
    ensures RoundHalfEven(d) == NumberValue(d.whole)
  {
  }

  /** Above one half: the next integer up. */
  lemma RoundsUp(d: Decimal)
    requires ValidDecimal(d) && |d.fraction| > 0
    requires d.fraction[0] > '5' || (d.fraction[0] == '5' && !AllZero(d.fraction[1..]))
    ensures RoundHalfEven(d) == NumberValue(d.whole) + 1
  {
  }

  /** A numeral with two points is not a float: everything after the first point must be digits. */
  lemma TwoPointsNoFloat(t: string, i: nat, j: nat)
    requires i < j < |t| && t[i] == '.' && t[j] == '.'
    requires !IsWhitespace(t[0]) && !IsWhitespace(t[|t| - 1])
    ensures ToFloat(t) == None
  {
    StripNoop(t);
    if |t| > 0 && IsSign(t[0]) {
      assert t[1..][i - 1] == '.' && t[1..][j - 1] == '.';
      UnsignedTwoPoints(t[0] == '-', t[1..], i - 1, j - 1);
    } else {
      UnsignedTwoPoints(false, t, i, j);
    }
  }

  /** Digits with two points are not a float: after the first point there is another. */
  lemma UnsignedTwoPoints(negative: bool, body: string, i: nat, j: nat)
    requires i < j < |body| && body[i] == '.' && body[j] == '.'
    ensures UnsignedDecimal(negative, body) == None
  {
    var k := IndexOf(body, '.');
    assert k.Some?;
    var fraction := body[k.value + 1..];
    assert fraction[j - k.value - 1] == '.';
  }
}
