/**
 * `normalize_date` (parser.py and, identically, backup.py): try six
 * `strptime` formats in order, then an eight-digit DDMMYYYY reading of the
 * digits alone, and render a parsed date as DD.MM.YYYY; otherwise return the
 * stripped input.
 */
module Dates {
  import opened Wrappers
  import opened Text

  datatype Date = Date(day: nat, month: nat, year: nat)

  predicate IsLeapYear(y: nat) {
    (y % 4 == 0 && y % 100 != 0) || y % 400 == 0
  }

  function DaysInMonth(month: nat, year: nat): nat {
    if month == 2 then (if IsLeapYear(year) then 29 else 28)
    else if month == 4 || month == 6 || month == 9 || month == 11 then 30
    else 31
  }

  /** A date `datetime` accepts: years 1..9999, months 1..12, days within the (Gregorian) month. */
  predicate ValidDate(d: Date) {
    1 <= d.year <= 9999 && 1 <= d.month <= 12 && 1 <= d.day <= DaysInMonth(d.month, d.year)
  }

  // ---------------------------------------------------------------------
  // The fields of strptime's regular expressions: %d, %m and %Y.
  // ---------------------------------------------------------------------

  /** `%d`: `3[01]|[12]\d|0[1-9]|[1-9]| [1-9]`, i.e. 01..31, 1..9 or a space and 1..9. */
  function DayField(tok: string): Option<nat> {
    if |tok| == 1 && '1' <= tok[0] <= '9' then Some(DigitValue(tok[0]))
    else if |tok| == 2 && AllDigits(tok) && 1 <= NumberValue(tok) <= 31 then Some(NumberValue(tok))
    else if |tok| == 2 && tok[0] == ' ' && '1' <= tok[1] <= '9' then Some(DigitValue(tok[1]))
    else None
  }

  /** `%m`: `1[0-2]|0[1-9]|[1-9]`, i.e. 01..12 or 1..9. */
  function MonthField(tok: string): Option<nat> {
    if |tok| == 1 && '1' <= tok[0] <= '9' then Some(DigitValue(tok[0]))
    else if |tok| == 2 && AllDigits(tok) && 1 <= NumberValue(tok) <= 12 then Some(NumberValue(tok))
    else None
  }

  /** `%Y`: exactly four digits. */
  function YearField(tok: string): Option<nat> {
    if |tok| == 4 && AllDigits(tok) then Some(NumberValue(tok)) else None
  }

  // ---------------------------------------------------------------------
  // The six formats and how a string splits into their three fields.
  // ---------------------------------------------------------------------

  datatype Order = DayFirst | YearFirst

  /** A literal separator character, or a space in the format (which strptime reads as `\s+`). */
  datatype Separator = Literal(c: char) | Spaces

  datatype Format = Format(order: Order, sep: Separator)

  /** `%d.%m.%Y`, `%d-%m-%Y`, `%Y-%m-%d`, `%d/%m/%Y`, `%Y/%m/%d`, `%d %m %Y`, in the order they are tried. */
  const Formats: seq<Format> := [
    Format(DayFirst, Literal('.')), Format(DayFirst, Literal('-')), Format(YearFirst, Literal('-')),
    Format(DayFirst, Literal('/')), Format(YearFirst, Literal('/')), Format(DayFirst, Spaces)
  ]

  /** The length of the longest prefix of `s` made of whitespace (if `ws`) or of non-whitespace (if not). */
  function RunLength(s: string, ws: bool): (n: nat)
    ensures n <= |s|
    ensures forall i :: 0 <= i < n ==> IsWhitespace(s[i]) == ws
    ensures n < |s| ==> IsWhitespace(s[n]) != ws
  {
    if |s| > 0 && IsWhitespace(s[0]) == ws then 1 + RunLength(s[1..], ws) else 0
  }

  /**
   * Splits a string into the three fields of a format. With a literal
   * separator the fields are what lies around its first two occurrences
   * (no field of a matching string contains the separator). With `Spaces`
   * the fields are the non-whitespace runs around two non-empty whitespace
   * runs; this reading assumes the string does not start with whitespace,
   * which holds for the stripped strings it is applied to.
   */
  function Fields(s: string, sep: Separator): Option<(string, string, string)> {
    match sep
    case Literal(c) =>
      (match IndexOf(s, c)
       case None => None
       case Some(i) =>
         var rest := s[i + 1..];
         match IndexOf(rest, c)
         case None => None
         case Some(j) => Some((s[..i], rest[..j], rest[j + 1..])))
    case Spaces =>
      var a := RunLength(s, false);
      var w1 := RunLength(s[a..], true);
      if w1 == 0 then None
      else
        var rest := s[a + w1..];
        var b := RunLength(rest, false);
        var w2 := RunLength(rest[b..], true);
        if w2 == 0 then None else Some((s[..a], rest[..b], rest[b + w2..]))
  }

  /** `datetime.strptime(s, f)`: `Some(date)` or `None` for a `ValueError`. */
  function Strptime(s: string, f: Format): (r: Option<Date>)
    ensures r.Some? ==> ValidDate(r.value)
  {
    match Fields(s, f.sep)
    case None => None
    case Some(fields) =>
      var (dayTok, monthTok, yearTok) :=
        if f.order == DayFirst then (fields.0, fields.1, fields.2) else (fields.2, fields.1, fields.0);
      match (DayField(dayTok), MonthField(monthTok), YearField(yearTok))
      case (Some(d), Some(m), Some(y)) => if ValidDate(Date(d, m, y)) then Some(Date(d, m, y)) else None
      case _ => None
  }

  /** The first format in `fs` that parses `s`. */
  function FirstFormat(s: string, fs: seq<Format>): (r: Option<Date>)
    ensures r.Some? ==> exists i :: 0 <= i < |fs| && Strptime(s, fs[i]) == r
    ensures r.None? ==> forall i :: 0 <= i < |fs| ==> Strptime(s, fs[i]).None?
  {
    if |fs| == 0 then None
    else match Strptime(s, fs[0])
      case Some(d) => Some(d)
      case None =>
        var r := FirstFormat(s, fs[1..]);
        assert forall i :: 1 <= i < |fs| ==> fs[1..][i - 1] == fs[i];
        r
  }

  /** The digits of `s`, every other character removed. */
  function DigitsOnly(s: string): (r: string)
    ensures AllDigits(r) && |r| <= |s|
    ensures AllDigits(s) ==> r == s
    ensures !HasDigit(s) ==> r == ""
  {
    if |s| == 0 then ""
    else
      var init := s[..|s| - 1];
      assert !HasDigit(s) ==> !HasDigit(init) by {
        if HasDigit(init) {
          var i :| 0 <= i < |init| && IsDigit(init[i]);
          assert s[i] == init[i];
        }
      }
      if IsDigit(s[|s| - 1]) then (assert init + [s[|s| - 1]] == s; DigitsOnly(init) + [s[|s| - 1]])
      else DigitsOnly(init)
  }

  /** The digits of a concatenation are the digits of its parts, in order. */
  lemma {:induction false} DigitsOnlyAppend(a: string, b: string)
    ensures DigitsOnly(a + b) == DigitsOnly(a) + DigitsOnly(b)
    decreases |b|
  {
    if |b| == 0 {
      assert a + b == a;
    } else {
      var n := |b| - 1;
      assert (a + b)[..|a + b| - 1] == a + b[..n] && (a + b)[|a + b| - 1] == b[n];
      DigitsOnlyAppend(a, b[..n]);
    }
  }

  /**
   * `strptime(digits, "%d%m%Y")` on eight digits. Only the two-digit day,
   * two-digit month, four-digit year split consumes all eight (a one-digit
   * field leaves "unconverted data"), so the digits read as DDMMYYYY.
   */
  function EightDigits(ds: string): (r: Option<Date>)
    requires |ds| == 8 && AllDigits(ds)
    ensures r.Some? ==> ValidDate(r.value)
  {
    var d := Date(NumberValue(ds[..2]), NumberValue(ds[2..4]), NumberValue(ds[4..]));
    if ValidDate(d) then Some(d) else None
  }

  /** The date `normalize_date` finds in an already stripped string, if any. */
  function ParseDate(t: string): (r: Option<Date>)
    ensures r.Some? ==> ValidDate(r.value)
  {
    match FirstFormat(t, Formats)
    case Some(d) => Some(d)
    case None =>
      var ds := DigitsOnly(t);
      if |ds| == 8 then EightDigits(ds) else None
  }

  // ---------------------------------------------------------------------
  // Rendering as DD.MM.YYYY (strftime("%d.%m.%Y")).
  // ---------------------------------------------------------------------

  function DigitChar(k: nat): (c: char)
    requires k < 10
    ensures IsDigit(c) && DigitValue(c) == k
  {
    (('0' as int) + k) as char
  }

  /** `n` zero-padded to `width` digits. */
  function Padded(n: nat, width: nat): (s: string)
    ensures |s| == width && AllDigits(s)
    ensures n < Pow10(width) ==> NumberValue(s) == n
  {
    if width == 0 then ""
    else
      var s := Padded(n / 10, width - 1) + [DigitChar(n % 10)];
      assert s[..|s| - 1] == Padded(n / 10, width - 1);
      s
  }

  /** The DD.MM.YYYY rendering of a date. */
  function Render(d: Date): (s: string)
    requires ValidDate(d)
    ensures |s| == 10
  {
    Padded(d.day, 2) + "." + Padded(d.month, 2) + "." + Padded(d.year, 4)
  }

  /** A ten-character string DD.MM.YYYY whose fields form a valid date. */
  predicate IsRendered(s: string) {
    |s| == 10 && s[2] == '.' && s[5] == '.'
    && AllDigits(s[..2]) && AllDigits(s[3..5]) && AllDigits(s[6..])
    && ValidDate(Date(NumberValue(s[..2]), NumberValue(s[3..5]), NumberValue(s[6..])))
  }

  /**
   * `normalize_date`: the DD.MM.YYYY rendering of the date found in the
   * stripped input, or the stripped input itself.
   */
  function NormalizeDate(raw: string): (r: string)
    ensures IsRendered(r) || r == Strip(raw)
  {
    var t := Strip(raw);
    match ParseDate(t)
    case Some(d) => RenderIsRendered(d); Render(d)
    case None => t
  }

  // ---------------------------------------------------------------------
  // Properties.
  // ---------------------------------------------------------------------

  lemma RenderIsRendered(d: Date)
    requires ValidDate(d)
    ensures IsRendered(Render(d))
  {
    var s := Render(d);
    assert s[..2] == Padded(d.day, 2);
    assert s[3..5] == Padded(d.month, 2);
    assert s[6..] == Padded(d.year, 4);
  }

  /** The first occurrence of `c` in `a + [c] + b`, when `a` lacks it, is at `|a|`. */
  lemma IndexOfAfter(a: string, c: char, b: string)
    requires c !in a
    ensures IndexOf(a + [c] + b, c) == Some(|a|)
  {
    var s := a + [c] + b;
    var r := IndexOf(s, c);
    assert s[|a|] == c;
  }

  /** A string written as `a c b c y` with digit fields splits back into `a`, `b`, `y`. */
  lemma LiteralFields(a: string, b: string, y: string, c: char)
    requires AllDigits(a) && AllDigits(b) && !IsDigit(c)
    ensures Fields(a + [c] + b + [c] + y, Literal(c)) == Some((a, b, y))
  {
    var s := a + [c] + b + [c] + y;
    DigitsLack(a, c);
    DigitsLack(b, c);
    assert s == a + [c] + (b + [c] + y);
    IndexOfAfter(a, c, b + [c] + y);
    var rest := s[|a| + 1..];
    assert rest == b + [c] + y;
    IndexOfAfter(b, c, y);
    assert s[..|a|] == a;
    assert rest[..|b|] == b;
    assert rest[|b| + 1..] == y;
  }

  /** A run of `RunLength` stops at the first character of the other kind. */
  lemma RunLengthOf(a: string, b: string, ws: bool)
    requires forall i :: 0 <= i < |a| ==> IsWhitespace(a[i]) == ws
    requires |b| == 0 || IsWhitespace(b[0]) != ws
    ensures RunLength(a + b, ws) == |a|
  {
    assert forall i :: 0 <= i < |a| ==> (a + b)[i] == a[i];
    assert |b| > 0 ==> (a + b)[|a|] == b[0];
  }

  /** A digit field, one space, then something that does not start with whitespace. */
  lemma FieldThenSpace(a: string, t: string)
    requires AllDigits(a) && (|t| == 0 || !IsWhitespace(t[0]))
    ensures RunLength(a + " " + t, false) == |a|
    ensures (a + " " + t)[|a|..] == " " + t && RunLength(" " + t, true) == 1
    ensures (a + " " + t)[|a| + 1..] == t
  {
    var rest := " " + t;
    assert rest[0] == ' ';
    assert a + " " + t == a + rest;
    DigitRun(a, rest);
    SpaceSlices(a, t);
    SpaceRun(t);
  }

  lemma SpaceSlices(a: string, t: string)
    ensures (a + " " + t)[..|a|] == a
    ensures (a + " " + t)[|a|..] == " " + t && (a + " " + t)[|a| + 1..] == t
  {
  }

  /** Digits followed by a space: the non-whitespace run is the digits. */
  lemma DigitRun(a: string, rest: string)
    requires AllDigits(a) && |rest| > 0 && rest[0] == ' '
    ensures RunLength(a + rest, false) == |a|
  {
    assert forall i :: 0 <= i < |a| ==> !IsWhitespace(a[i]) by {
      forall i | 0 <= i < |a| ensures !IsWhitespace(a[i]) { assert IsDigit(a[i]); }
    }
    RunLengthOf(a, rest, false);
  }

  /** One space before something that does not start with whitespace. */
  lemma SpaceRun(t: string)
    requires |t| == 0 || !IsWhitespace(t[0])
    ensures RunLength(" " + t, true) == 1
  {
    RunLengthOf(" ", t, true);
  }

  /** The whitespace and non-whitespace runs of `a ␠ b ␠ y`. */
  lemma SpaceRuns(a: string, b: string, y: string)
    requires AllDigits(a) && AllDigits(b) && |b| > 0 && (|y| == 0 || !IsWhitespace(y[0]))
    ensures var s := a + " " + b + " " + y;
            && RunLength(s, false) == |a| && RunLength(s[|a|..], true) == 1
            && RunLength(s[|a| + 1..], false) == |b| && RunLength(s[|a| + 1..][|b|..], true) == 1
  {
    var rest := b + " " + y;
    assert a + " " + b + " " + y == a + " " + rest;
    FieldThenSpace(a, rest);
    FieldThenSpace(b, y);
  }

  /** A string written as `a ␠ b ␠ y` with digit fields splits back into `a`, `b`, `y`. */
  lemma SpaceFields(a: string, b: string, y: string)
    requires AllDigits(a) && AllDigits(b) && |b| > 0 && (|y| == 0 || !IsWhitespace(y[0]))
    ensures Fields(a + " " + b + " " + y, Spaces) == Some((a, b, y))
  {
    var s := a + " " + b + " " + y;
    var rest := b + " " + y;
    assert s == a + " " + rest;
    SpaceRuns(a, b, y);
    FieldsBySpaces(s, |a|, |b|);
    SpaceSlices(a, rest);
    SpaceSlices(b, y);
  }

  /** The `Spaces` split when the runs are one field, one blank, one field, one blank. */
  lemma FieldsBySpaces(s: string, n1: nat, n2: nat)
    requires n1 < |s| && RunLength(s, false) == n1 && RunLength(s[n1..], true) == 1
    requires n2 < |s[n1 + 1..]| && RunLength(s[n1 + 1..], false) == n2 && RunLength(s[n1 + 1..][n2..], true) == 1
    ensures Fields(s, Spaces) == Some((s[..n1], s[n1 + 1..][..n2], s[n1 + 1..][n2 + 1..]))
  {
  }

  /** The zero-padded two-digit rendering of 1..31 is a %d token, of 1..12 a %m token. */
  lemma PaddedFields(d: Date)
    requires ValidDate(d)
    ensures DayField(Padded(d.day, 2)) == Some(d.day)
    ensures MonthField(Padded(d.month, 2)) == Some(d.month)
    ensures YearField(Padded(d.year, 4)) == Some(d.year)
  {
  }

  /** `d` written in format `f` with two-digit day and month and four-digit year. */
  function WriteIn(f: Format, d: Date): string
    requires ValidDate(d)
  {
    var c := if f.sep.Literal? then f.sep.c else ' ';
    if f.order == DayFirst then Padded(d.day, 2) + [c] + Padded(d.month, 2) + [c] + Padded(d.year, 4)
    else Padded(d.year, 4) + [c] + Padded(d.month, 2) + [c] + Padded(d.day, 2)
  }

  lemma StrptimeOwnFormat(f: Format, d: Date)
    requires ValidDate(d) && f in Formats
    ensures Strptime(WriteIn(f, d), f) == Some(d)
  {
    if f.order == DayFirst && f.sep.Literal? {
      DayFirstOwnFormat(f.sep.c, d);
    } else if f.order == DayFirst {
      SpacesOwnFormat(d);
    } else {
      YearFirstOwnFormat(f.sep.c, d);
    }
  }

  lemma DayFirstOwnFormat(c: char, d: Date)
    requires ValidDate(d) && !IsDigit(c)
    ensures Strptime(WriteIn(Format(DayFirst, Literal(c)), d), Format(DayFirst, Literal(c))) == Some(d)
  {
    PaddedFields(d);
    LiteralFields(Padded(d.day, 2), Padded(d.month, 2), Padded(d.year, 4), c);
  }

  lemma SpacesOwnFormat(d: Date)
    requires ValidDate(d)
    ensures Strptime(WriteIn(Format(DayFirst, Spaces), d), Format(DayFirst, Spaces)) == Some(d)
  {
    PaddedFields(d);
    assert [' '] == " ";
    SpaceFields(Padded(d.day, 2), Padded(d.month, 2), Padded(d.year, 4));
  }

  lemma YearFirstOwnFormat(c: char, d: Date)
    requires ValidDate(d) && !IsDigit(c)
    ensures Strptime(WriteIn(Format(YearFirst, Literal(c)), d), Format(YearFirst, Literal(c))) == Some(d)
  {
    PaddedFields(d);
    LiteralFields(Padded(d.year, 4), Padded(d.month, 2), Padded(d.day, 2), c);
  }

  /**
   * A format with a literal separator reads any tokens its fields accept,
   * so a one-digit day or month is read as well as a zero-padded one.
   */
  lemma StrptimeReadsFields(f: Format, first: string, month: string, last: string, d: Date)
    requires f.sep.Literal? && !IsDigit(f.sep.c) && ValidDate(d)
    requires AllDigits(first) && AllDigits(month) && MonthField(month) == Some(d.month)
    requires f.order == DayFirst ==> DayField(first) == Some(d.day) && YearField(last) == Some(d.year)
    requires f.order == YearFirst ==> YearField(first) == Some(d.year) && DayField(last) == Some(d.day)
    ensures Strptime(first + [f.sep.c] + month + [f.sep.c] + last, f) == Some(d)
  {
    LiteralFields(first, month, last, f.sep.c);
  }

  /** A single digit 1..9 is a day token and a month token worth that digit. */
  lemma OneDigitFields(c: char)
    requires '1' <= c <= '9'
    ensures DayField([c]) == Some(DigitValue(c)) && MonthField([c]) == Some(DigitValue(c))
  {
  }

  /** A format whose separator does not occur in `s` does not match it. */
  lemma AbsentSeparator(s: string, f: Format)
    requires f.sep.Literal? && f.sep.c !in s
    ensures Strptime(s, f).None?
  {
  }

  /** A year-first string is not read by a day-first format with the same separator: "YYYY" is no %d. */
  lemma YearIsNoDay(d: Date, c: char)
    requires ValidDate(d) && !IsDigit(c)
    ensures Strptime(WriteIn(Format(YearFirst, Literal(c)), d), Format(DayFirst, Literal(c))).None?
  {
    LiteralFields(Padded(d.year, 4), Padded(d.month, 2), Padded(d.day, 2), c);
  }

  /** With no earlier format matching, the first matching format decides. */
  lemma {:induction false} FirstFormatAt(s: string, fs: seq<Format>, i: nat)
    requires i < |fs| && Strptime(s, fs[i]).Some?
    requires forall j :: 0 <= j < i ==> Strptime(s, fs[j]).None?
    ensures FirstFormat(s, fs) == Strptime(s, fs[i])
  {
    if i > 0 {
      assert Strptime(s, fs[0]).None?;
      var rest := fs[1..];
      assert rest[i - 1] == fs[i];
      forall j | 0 <= j < i - 1
        ensures Strptime(s, rest[j]).None?
      {
        assert rest[j] == fs[j + 1];
      }
      FirstFormatAt(s, rest, i - 1);
      assert FirstFormat(s, fs) == FirstFormat(s, rest);
    }
  }

  /** A written date holds no non-digit other than its separator. */
  lemma WrittenChars(f: Format, d: Date, x: char)
    requires ValidDate(d) && !IsDigit(x) && x != (if f.sep.Literal? then f.sep.c else ' ')
    ensures x !in WriteIn(f, d)
  {
    assert AllDigits(Padded(d.day, 2)) && AllDigits(Padded(d.month, 2)) && AllDigits(Padded(d.year, 4));
  }

  /** No format tried before `Formats[i]` reads a date written in `Formats[i]`. */
  lemma EarlierFormatsFail(i: nat, d: Date)
    requires i < |Formats| && ValidDate(d)
    ensures forall j :: 0 <= j < i ==> Strptime(WriteIn(Formats[i], d), Formats[j]).None?
  {
    forall j | 0 <= j < i
      ensures Strptime(WriteIn(Formats[i], d), Formats[j]).None?
    {
      EarlierFormatFails(i, j, d);
    }
  }

  lemma EarlierFormatFails(i: nat, j: nat, d: Date)
    requires j < i < |Formats| && ValidDate(d)
    ensures Strptime(WriteIn(Formats[i], d), Formats[j]).None?
  {
    var s := WriteIn(Formats[i], d);
    if j == 0 {
      WrittenChars(Formats[i], d, '.');
      AbsentSeparator(s, Formats[0]);
    } else if j == 1 && i == 2 {
      YearIsNoDay(d, '-');
    } else if j <= 2 {
      WrittenChars(Formats[i], d, '-');
      AbsentSeparator(s, Formats[j]);
    } else if j == 3 && i == 4 {
      YearIsNoDay(d, '/');
    } else {
      WrittenChars(Formats[i], d, '/');
      AbsentSeparator(s, Formats[j]);
    }
  }

  /**
   * Every supported format round-trips: a valid date written in any of the
   * six formats normalises to its DD.MM.YYYY rendering.
   */
  lemma NormalizeSupportedFormat(i: nat, d: Date)
    requires i < |Formats| && ValidDate(d)
    ensures NormalizeDate(WriteIn(Formats[i], d)) == Render(d)
  {
    var f := Formats[i];
    var s := WriteIn(f, d);
    assert AllDigits(Padded(d.day, 2)) && AllDigits(Padded(d.month, 2)) && AllDigits(Padded(d.year, 4));
    assert IsDigit(s[0]) && IsDigit(s[|s| - 1]);
    StripNoop(s);
    StrptimeOwnFormat(f, d);
    EarlierFormatsFail(i, d);
    FirstFormatAt(s, Formats, i);
  }

  /** A stripped string the first format reads is normalised to that date's rendering. */
  lemma NormalizeFirstFormat(s: string, d: Date)
    requires Strip(s) == s && Strptime(s, Formats[0]) == Some(d)
    ensures NormalizeDate(s) == Render(d)
  {
    FirstFormatAt(s, Formats, 0);
  }

  /** The DD.MM.YYYY rendering of a date is read back by the first format. */
  lemma RenderRoundTrip(d: Date)
    requires ValidDate(d)
    ensures NormalizeDate(Render(d)) == Render(d)
  {
    assert WriteIn(Formats[0], d) == Render(d);
    NormalizeSupportedFormat(0, d);
  }

  /** `normalize_date` leaves its own output unchanged. */
  lemma NormalizeIdempotent(raw: string)
    ensures NormalizeDate(NormalizeDate(raw)) == NormalizeDate(raw)
  {
    var t := Strip(raw);
    match ParseDate(t)
    case Some(d) => RenderRoundTrip(d);
    case None => StripIdempotent(raw);
  }

  /**
   * When no format matches and exactly eight digits remain, they are read as
   * DDMMYYYY: the result is that date rendered if it is valid, else the
   * stripped input.
   */
  lemma EightDigitFallback(raw: string)
    requires FirstFormat(Strip(raw), Formats).None? && |DigitsOnly(Strip(raw))| == 8
    ensures var ds := DigitsOnly(Strip(raw));
            var d := Date(NumberValue(ds[..2]), NumberValue(ds[2..4]), NumberValue(ds[4..]));
            NormalizeDate(raw) == if ValidDate(d) then Render(d) else Strip(raw)
  {
  }

  /** Input that no format reads and that has other than eight digits comes back stripped. */
  lemma UnparsedIsStripped(raw: string)
    requires FirstFormat(Strip(raw), Formats).None? && |DigitsOnly(Strip(raw))| != 8
    ensures NormalizeDate(raw) == Strip(raw)
  {
  }
}
