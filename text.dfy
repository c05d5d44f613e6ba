/**
 * The handful of Python string operations the pipeline relies on, stated on
 * `seq<char>`: whitespace as `str.isspace` sees it, `strip`, `lower`,
 * `replace`, substring `in`, and `" ".join`.
 */
module Text {
  import opened Wrappers

  const NBSP: char := '\U{A0}'
  const Tenge: char := '\U{20B8}'

  /** The characters Python treats as whitespace in `str.strip()`, `float()` and the regex class `\s`. */
  predicate IsWhitespace(c: char) {
    ('\t' <= c <= '\r') || ('\U{1C}' <= c <= '\U{1F}') || c == ' ' || c == '\U{85}' || c == NBSP
    || c == '\U{1680}' || ('\U{2000}' <= c <= '\U{200A}') || c == '\U{2028}' || c == '\U{2029}'
    || c == '\U{202F}' || c == '\U{205F}' || c == '\U{3000}'
  }

  /** The characters of a numeral are not whitespace. */
  lemma NumeralCharNotSpace(c: char)
    requires IsDigit(c) || IsSign(c) || c == ',' || c == '.'
    ensures !IsWhitespace(c)
  {
  }

  /** An ASCII decimal digit (the regex class `\d` restricted to ASCII). */
  predicate IsDigit(c: char) {
    '0' <= c <= '9'
  }

  predicate IsSign(c: char) {
    c == '+' || c == '-'
  }

  predicate AllDigits(s: string) {
    forall i :: 0 <= i < |s| ==> IsDigit(s[i])
  }

  predicate HasDigit(s: string) {
    exists i :: 0 <= i < |s| && IsDigit(s[i])
  }

  function DigitValue(c: char): nat
    requires IsDigit(c)
  {
    (c as int) - ('0' as int)
  }

  /** The value of a string of decimal digits read in base 10; the empty string reads as 0. */
  function NumberValue(s: string): nat
    requires AllDigits(s)
  {
    if |s| == 0 then 0 else 10 * NumberValue(s[..|s| - 1]) + DigitValue(s[|s| - 1])
  }

  function Pow10(k: nat): (p: nat)
    ensures p >= 1
  {
    if k == 0 then 1 else 10 * Pow10(k - 1)
  }

  /** `str.lower()` on one character: ASCII, the Latin-1 capitals and the Cyrillic capitals. */
  function LowerChar(c: char): char {
    if 'A' <= c <= 'Z' then ((c as int) + 32) as char
    else if '\U{C0}' <= c <= '\U{DE}' && c != '\U{D7}' then ((c as int) + 32) as char
    else if '\U{410}' <= c <= '\U{42F}' then ((c as int) + 32) as char
    else if '\U{400}' <= c <= '\U{40F}' then ((c as int) + 80) as char
    else c
  }

  function Lower(s: string): (r: string)
    ensures |r| == |s|
    ensures forall i {:trigger r[i]} :: 0 <= i < |s| ==> r[i] == LowerChar(s[i])
  {
    seq(|s|, i requires 0 <= i < |s| => LowerChar(s[i]))
  }

  lemma LowerCharIdempotent(c: char)
    ensures LowerChar(LowerChar(c)) == LowerChar(c)
  {
  }

  /** Lower-casing twice is lower-casing once. */
  lemma LowerIdempotent(s: string)
    ensures Lower(Lower(s)) == Lower(s)
  {
    forall i | 0 <= i < |s| ensures Lower(Lower(s))[i] == Lower(s)[i] {
      LowerCharIdempotent(s[i]);
    }
  }

  /** Lower-casing keeps whitespace as whitespace and everything else as non-whitespace. */
  lemma LowerCharWhitespace(c: char)
    ensures IsWhitespace(LowerChar(c)) == IsWhitespace(c)
  {
  }

  /** Lower-casing a stripped string leaves it stripped. */
  lemma LowerStripped(t: string)
    requires Strip(t) == t
    ensures Strip(Lower(t)) == Lower(t)
  {
    if |t| > 0 {
      LowerCharWhitespace(t[0]);
      LowerCharWhitespace(t[|t| - 1]);
    }
    StripNoop(Lower(t));
  }

  /** A text with no surrounding whitespace and no upper-case letter: its own strip and its own lower-case form. */
  predicate Clean(s: string) {
    Strip(s) == s && Lower(s) == s
  }

  /** A stripped, lower-cased text is clean. */
  lemma LowerStripClean(s: string)
    ensures Clean(Lower(Strip(s)))
  {
    StripIdempotent(s);
    LowerStripped(Strip(s));
    LowerIdempotent(Strip(s));
  }

  /** Lower-casing turns no other character into a newline. */
  lemma LowerNoNewline(t: string)
    requires '\n' !in t
    ensures '\n' !in Lower(t)
  {
  }

  /** The end of the whitespace run that starts at `k`. */
  function SpaceRunEnd(s: string, k: nat): (e: nat)
    requires k <= |s|
    ensures k <= e <= |s|
    ensures forall i {:trigger IsWhitespace(s[i])} :: k <= i < e ==> IsWhitespace(s[i])
    ensures e < |s| ==> !IsWhitespace(s[e])
    decreases |s| - k
  {
    if k < |s| && IsWhitespace(s[k]) then SpaceRunEnd(s, k + 1) else k
  }

  /** The start of the whitespace run that ends at `k`. */
  function SpaceRunStart(s: string, k: nat): (b: nat)
    requires k <= |s|
    ensures b <= k
    ensures forall i {:trigger IsWhitespace(s[i])} :: b <= i < k ==> IsWhitespace(s[i])
    ensures b > 0 ==> !IsWhitespace(s[b - 1])
  {
    if k > 0 && IsWhitespace(s[k - 1]) then SpaceRunStart(s, k - 1) else k
  }

  /** `str.lstrip()`: drop leading whitespace. */
  function StripLeft(s: string): string
  {
    s[SpaceRunEnd(s, 0)..]
  }

  /** `str.rstrip()`: drop trailing whitespace. */
  function StripRight(s: string): string
  {
    s[..SpaceRunStart(s, |s|)]
  }

  /** `str.strip()`: drop leading and trailing whitespace. */
  function Strip(s: string): (r: string)
    ensures |r| > 0 ==> !IsWhitespace(r[0]) && !IsWhitespace(r[|r| - 1])
  {
    StripRight(StripLeft(s))
  }

  lemma StripLeftNoop(s: string)
    requires |s| == 0 || !IsWhitespace(s[0])
    ensures StripLeft(s) == s
  {
  }

  lemma StripRightNoop(s: string)
    requires |s| == 0 || !IsWhitespace(s[|s| - 1])
    ensures StripRight(s) == s
  {
  }

  /** A string that neither starts nor ends with whitespace is its own strip. */
  lemma StripNoop(s: string)
    requires |s| == 0 || (!IsWhitespace(s[0]) && !IsWhitespace(s[|s| - 1]))
    ensures Strip(s) == s
  {
    StripLeftNoop(s);
    StripRightNoop(s);
  }

  /** Stripping twice is stripping once. */
  lemma StripIdempotent(s: string)
    ensures Strip(Strip(s)) == Strip(s)
  {
    StripNoop(Strip(s));
  }

  /** Stripping keeps only characters of its input. */
  lemma StripKeeps(s: string, c: char)
    requires c !in s
    ensures c !in Strip(s)
  {
    var l := StripLeft(s);
    assert forall i :: 0 <= i < |l| ==> l[i] in s;
    assert forall i :: 0 <= i < |Strip(s)| ==> Strip(s)[i] in l;
  }

  /** `needle` occurs in `hay` starting at index `i`. */
  predicate OccursAt(hay: string, needle: string, i: int) {
    0 <= i <= |hay| - |needle| && hay[i..i + |needle|] == needle
  }

  /** `needle in hay` for strings, scanning from the left. */
  predicate Contains(hay: string, needle: string)
    decreases |hay|
  {
    if |needle| > |hay| then false
    else if hay[..|needle|] == needle then true
    else Contains(hay[1..], needle)
  }

  /** The scan finds an occurrence exactly when there is one. */
  lemma {:induction false} ContainsOccurs(hay: string, needle: string)
    ensures Contains(hay, needle) <==> exists i :: OccursAt(hay, needle, i)
    decreases |hay|
  {
    if |needle| <= |hay| && hay[..|needle|] != needle {
      ContainsOccurs(hay[1..], needle);
      if exists i :: OccursAt(hay, needle, i) {
        var i :| OccursAt(hay, needle, i);
        assert i != 0;
        assert hay[1..][i - 1..i - 1 + |needle|] == hay[i..i + |needle|];
        assert OccursAt(hay[1..], needle, i - 1);
      }
      if Contains(hay[1..], needle) {
        var i :| OccursAt(hay[1..], needle, i);
        assert hay[1..][i..i + |needle|] == hay[i + 1..i + 1 + |needle|];
        assert OccursAt(hay, needle, i + 1);
      }
    } else if |needle| <= |hay| {
      assert OccursAt(hay, needle, 0);
    }
  }

  /** The first index of `c` in `s`. */
  function IndexOf(s: string, c: char): (r: Option<nat>)
    ensures r.Some? ==> r.value < |s| && s[r.value] == c && c !in s[..r.value]
    ensures r.None? ==> c !in s
  {
    if |s| == 0 then None
    else if s[0] == c then Some(0)
    else match IndexOf(s[1..], c)
      case None => None
      case Some(i) => assert s[..i + 1] == [s[0]] + s[1..][..i]; Some(i + 1)
  }

  /** `s` with every occurrence of `c` removed. */
  function RemoveAll(s: string, c: char): (r: string)
    ensures c !in r
    ensures |r| <= |s|
    ensures forall x :: x != c ==> (x in r <==> x in s)
  {
    if |s| == 0 then ""
    else if s[|s| - 1] == c then RemoveAll(s[..|s| - 1], c)
    else RemoveAll(s[..|s| - 1], c) + [s[|s| - 1]]
  }

  /** `s` with every `a` replaced by `b`. */
  function ReplaceAll(s: string, a: char, b: char): (r: string)
    ensures |r| == |s|
    ensures forall i {:trigger r[i]} :: 0 <= i < |s| ==> r[i] == if s[i] == a then b else s[i]
  {
    seq(|s|, i requires 0 <= i < |s| => if s[i] == a then b else s[i])
  }

  /** The parts joined by single spaces. */
  function JoinWithSpace(parts: seq<string>): string {
    if |parts| == 0 then ""
    else if |parts| == 1 then parts[0]
    else JoinWithSpace(parts[..|parts| - 1]) + " " + parts[|parts| - 1]
  }

  /** Removing a character the string lacks changes nothing. */
  lemma {:induction false} RemoveAbsent(s: string, c: char)
    requires c !in s
    ensures RemoveAll(s, c) == s
  {
    if |s| > 0 {
      assert c !in s[..|s| - 1];
      RemoveAbsent(s[..|s| - 1], c);
      assert s[..|s| - 1] + [s[|s| - 1]] == s;
    }
  }

  /** The joined text holds a character other than the separator exactly when some part holds it. */
  lemma {:induction false} JoinHasChar(parts: seq<string>, c: char)
    requires c != ' '
    ensures c in JoinWithSpace(parts) <==> exists k :: 0 <= k < |parts| && c in parts[k]
  {
    if |parts| > 1 {
      var init := parts[..|parts| - 1];
      JoinHasChar(init, c);
      if exists k :: 0 <= k < |init| && c in init[k] {
        var k :| 0 <= k < |init| && c in init[k];
        assert parts[k] == init[k];
      }
      if exists k :: 0 <= k < |parts| && c in parts[k] {
        var k :| 0 <= k < |parts| && c in parts[k];
        if k < |parts| - 1 { assert init[k] == parts[k]; }
      }
    }
  }

  /** A digit string lacks every non-digit. */
  lemma DigitsLack(s: string, c: char)
    requires AllDigits(s) && !IsDigit(c)
    ensures c !in s
  {
  }

  /** Removing a character adds no digit. */
  lemma RemoveKeepsDigits(s: string, c: char)
    ensures HasDigit(RemoveAll(s, c)) ==> HasDigit(s)
  {
    var r := RemoveAll(s, c);
    if HasDigit(r) {
      var j :| 0 <= j < |r| && IsDigit(r[j]);
      assert r[j] in r && r[j] != c;
      var k :| 0 <= k < |s| && s[k] == r[j];
      assert IsDigit(s[k]);
    }
  }

  /** Removing a character from a concatenation removes it from both parts. */
  lemma {:induction false} RemoveAllAppend(a: string, b: string, c: char)
    ensures RemoveAll(a + b, c) == RemoveAll(a, c) + RemoveAll(b, c)
    decreases |b|
  {
    if |b| == 0 {
      assert a + b == a;
    } else {
      var n := |b| - 1;
      assert (a + b)[..|a + b| - 1] == a + b[..n];
      RemoveAllAppend(a, b[..n], c);
    }
  }

  /** Removing the one occurrence of a character joins the pieces around it. */
  lemma RemoveOne(x: string, y: string, c: char)
    requires c !in x && c !in y
    ensures RemoveAll(x + [c] + y, c) == x + y
  {
    RemoveAllAppend(x + [c], y, c);
    RemoveAllAppend(x, [c], c);
    RemoveAbsent(x, c);
    RemoveAbsent(y, c);
    assert [c][..0] == [];
  }

  /** A needle with a character the haystack lacks does not occur in it. */
  lemma AbsentCharNotContained(hay: string, needle: string, k: nat)
    requires k < |needle| && needle[k] !in hay
    ensures !Contains(hay, needle)
  {
    ContainsOccurs(hay, needle);
  }

  /** A string occurs in itself. */
  lemma ContainsSelf(s: string)
    ensures Contains(s, s)
  {
    assert s[..|s|] == s;
  }
}
