/**
 * The PHP string built-ins the plugin relies on, over `seq<char>` with one
 * char per byte: `empty()` on a string, `trim`, `explode`/`implode` with a
 * one-character delimiter, `strpos`, `is_numeric` and `intval`/`absint`.
 */
module Php {
  import opened Optional
  import opened Decimal

  /** `empty($s)` for a string: true for "" and for "0". */
  predicate Empty(s: string) {
    s == "" || s == "0"
  }

  /** The PCRE class `\s`, which is also the whitespace `is_numeric` and `intval` skip. */
  predicate IsSpace(c: char) {
    c == ' ' || c == '\t' || c == '\n' || c == '\U{B}' || c == '\U{C}' || c == '\r'
  }

  /** The characters `trim()` strips by default (form feed is not one of them, NUL is). */
  predicate IsTrimChar(c: char) {
    c == ' ' || c == '\t' || c == '\n' || c == '\r' || c == '\0' || c == '\U{B}'
  }

  /** The first position at or after `i` that holds no trim character. */
  function SkipTrimFrom(s: string, i: nat): (j: nat)
    requires i <= |s|
    ensures i <= j <= |s|
    ensures forall k :: i <= k < j ==> IsTrimChar(s[k])
    ensures j == |s| || !IsTrimChar(s[j])
    decreases |s| - i
  {
    if i < |s| && IsTrimChar(s[i]) then SkipTrimFrom(s, i + 1) else i
  }

  /** Where `s[lo..j]` ends once its trailing trim characters are dropped. */
  function SkipTrimBack(s: string, lo: nat, j: nat): (e: nat)
    requires lo <= j <= |s|
    ensures lo <= e <= j
    ensures forall k :: e <= k < j ==> IsTrimChar(s[k])
    ensures e == lo || !IsTrimChar(s[e - 1])
    decreases j - lo
  {
    if j > lo && IsTrimChar(s[j - 1]) then SkipTrimBack(s, lo, j - 1) else j
  }

  /** Where the text `trim` keeps starts. */
  function TrimStart(s: string): nat {
    SkipTrimFrom(s, 0)
  }

  /** True when `t` is the slice of `s` at `i` and everything around it is a trim character. */
  ghost predicate TrimmedSliceAt(t: string, s: string, i: int) {
    0 <= i <= |s| - |t| && t == s[i..i + |t|]
    && (forall k :: 0 <= k < i ==> IsTrimChar(s[k]))
    && (forall k :: i + |t| <= k < |s| ==> IsTrimChar(s[k]))
  }

  /** `trim($s)`: the slice of `s` left after stripping trim characters at both ends. */
  function Trim(s: string): (r: string)
    ensures TrimmedSliceAt(r, s, TrimStart(s))
    ensures r == [] || (!IsTrimChar(r[0]) && !IsTrimChar(r[|r| - 1]))
  {
    var a := SkipTrimFrom(s, 0);
    s[a..SkipTrimBack(s, a, |s|)]
  }

  /** A string with no trim character at either end is left alone by `trim`. */
  lemma TrimOfTrimmed(s: string)
    requires s == [] || (!IsTrimChar(s[0]) && !IsTrimChar(s[|s| - 1]))
    ensures Trim(s) == s
  {
  }

  /** `trim` is idempotent. */
  lemma TrimIdempotent(s: string)
    ensures Trim(Trim(s)) == Trim(s)
  {
    TrimOfTrimmed(Trim(s));
  }

  /** The position of the first `c` in `s`. */
  function IndexOf(s: string, c: char): (i: nat)
    requires c in s
    ensures i < |s| && s[i] == c && c !in s[..i]
  {
    if s[0] == c then 0
    else
      assert c in s[1..];
      var j := IndexOf(s[1..], c);
      assert s[..j + 1] == [s[0]] + s[1..][..j];
      1 + j
  }

  /** `explode($sep, $s)` for a one-character delimiter: never empty, no part holds the delimiter. */
  function Explode(s: string, sep: char): (parts: seq<string>)
    ensures |parts| >= 1
    ensures forall i :: 0 <= i < |parts| ==> sep !in parts[i]
    decreases |s|
  {
    if sep !in s then [s]
    else
      var i := IndexOf(s, sep);
      [s[..i]] + Explode(s[i + 1..], sep)
  }

  /** `implode($sep, $parts)`. */
  function Implode(parts: seq<string>, sep: char): string {
    if |parts| == 0 then ""
    else if |parts| == 1 then parts[0]
    else parts[0] + [sep] + Implode(parts[1..], sep)
  }

  /** Joining the parts of an explode gives the original string back. */
  lemma {:induction false} ImplodeExplode(s: string, sep: char)
    ensures Implode(Explode(s, sep), sep) == s
    decreases |s|
  {
    if sep in s {
      var i := IndexOf(s, sep);
      var rest := Explode(s[i + 1..], sep);
      ImplodeExplode(s[i + 1..], sep);
      assert Explode(s, sep) == [s[..i]] + rest;
      assert ([s[..i]] + rest)[1..] == rest;
      assert s == s[..i] + [sep] + s[i + 1..];
    }
  }

  /** The first delimiter of `p + [sep] + tail` is the one after `p` when `p` has none. */
  lemma IndexOfJoin(p: string, sep: char, tail: string)
    requires sep !in p
    ensures sep in p + [sep] + tail
    ensures IndexOf(p + [sep] + tail, sep) == |p|
    ensures (p + [sep] + tail)[..|p|] == p && (p + [sep] + tail)[|p| + 1..] == tail
  {
    var s := p + [sep] + tail;
    assert s[|p|] == sep;
    var i := IndexOf(s, sep);
    assert s[..|p|] == p;
  }

  /** `explode` cuts at the first delimiter. */
  lemma ExplodeAt(s: string, sep: char, i: nat)
    requires sep in s && IndexOf(s, sep) == i
    ensures Explode(s, sep) == [s[..i]] + Explode(s[i + 1..], sep)
  {
  }

  /** Exploding a join of delimiter-free parts gives the parts back. */
  lemma {:induction false} ExplodeImplode(parts: seq<string>, sep: char)
    requires |parts| >= 1
    requires forall i :: 0 <= i < |parts| ==> sep !in parts[i]
    ensures Explode(Implode(parts, sep), sep) == parts
  {
    if |parts| > 1 {
      var p := parts[0];
      var tail := Implode(parts[1..], sep);
      assert Implode(parts, sep) == p + [sep] + tail;
      IndexOfJoin(p, sep, tail);
      ExplodeAt(p + [sep] + tail, sep, |p|);
      ExplodeImplode(parts[1..], sep);
      assert [p] + parts[1..] == parts;
    }
  }

  /** `needle` sits in `hay` at offset `i`. */
  predicate OccursAt(hay: string, needle: string, i: int) {
    0 <= i && i + |needle| <= |hay| && hay[i..i + |needle|] == needle
  }

  function StrPosFrom(hay: string, needle: string, from: nat): (r: Option<nat>)
    requires from <= |hay|
    ensures r.Some? ==> from <= r.value && OccursAt(hay, needle, r.value)
    ensures r.Some? ==> forall j :: from <= j < r.value ==> !OccursAt(hay, needle, j)
    ensures r.None? ==> forall j :: from <= j ==> !OccursAt(hay, needle, j)
    decreases |hay| - from
  {
    if from + |needle| > |hay| then None
    else if hay[from..from + |needle|] == needle then Some(from)
    else StrPosFrom(hay, needle, from + 1)
  }

  /** `strpos($hay, $needle)`: the first offset of `needle`, `None` for PHP's `false`. */
  function StrPos(hay: string, needle: string): (r: Option<nat>)
    ensures r.Some? ==> OccursAt(hay, needle, r.value)
    ensures r.Some? ==> forall j :: 0 <= j < r.value ==> !OccursAt(hay, needle, j)
    ensures r.None? <==> forall j :: !OccursAt(hay, needle, j)
  {
    StrPosFrom(hay, needle, 0)
  }

  /** The end of the run of digits starting at `i`. */
  function SpanDigits(s: string, i: nat): (j: nat)
    requires i <= |s|
    ensures i <= j <= |s|
    ensures forall k :: i <= k < j ==> IsDigit(s[k])
    ensures j == |s| || !IsDigit(s[j])
    decreases |s| - i
  {
    if i < |s| && IsDigit(s[i]) then SpanDigits(s, i + 1) else i
  }

  /** The end of the run of whitespace starting at `i`. */
  function SpanSpaces(s: string, i: nat): (j: nat)
    requires i <= |s|
    ensures i <= j <= |s|
    ensures forall k :: i <= k < j ==> IsSpace(s[k])
    ensures j == |s| || !IsSpace(s[j])
    decreases |s| - i
  {
    if i < |s| && IsSpace(s[i]) then SpanSpaces(s, i + 1) else i
  }

  predicate IsSign(c: char) {
    c == '+' || c == '-'
  }

  /** The value of the digit run `s[lo..hi]`. */
  function DigitsValue(s: string, lo: nat, hi: nat): nat
    requires lo <= hi <= |s|
    requires forall k :: lo <= k < hi ==> IsDigit(s[k])
  {
    assert AllDigits(s[lo..hi]) by {
      forall k | 0 <= k < hi - lo ensures IsDigit(s[lo..hi][k]) { assert s[lo..hi][k] == s[lo + k]; }
    }
    Value(s[lo..hi])
  }

  /**
   * An optional exponent `[eE][+-]?\d+` starting at `d`: where it ends (`d`
   * when there is none) and the power of ten it denotes (0 when there is none).
   */
  function ExponentAt(s: string, d: nat): (r: (nat, int))
    requires d <= |s|
    ensures d <= r.0 <= |s|
    ensures r.0 == d ==> r.1 == 0
    ensures r.0 > d ==> s[d] == 'e' || s[d] == 'E'
    ensures forall k :: d < k < r.0 ==> IsDigit(s[k]) || IsSign(s[k])
  {
    if d < |s| && (s[d] == 'e' || s[d] == 'E') then
      var f := if d + 1 < |s| && IsSign(s[d + 1]) then d + 2 else d + 1;
      var g := SpanDigits(s, f);
      if g > f then
        var v: int := DigitsValue(s, f, g);
        (g, if f == d + 2 && s[d + 1] == '-' then -v else v)
      else (d, 0)
    else (d, 0)
  }

  /** Where an optional exponent starting at `d` ends. */
  function ExponentEnd(s: string, d: nat): (e: nat)
    requires d <= |s|
    ensures d <= e <= |s|
    ensures e > d ==> s[d] == 'e' || s[d] == 'E'
    ensures forall k :: d < k < e ==> IsDigit(s[k]) || IsSign(s[k])
  {
    ExponentAt(s, d).0
  }

  /** The characters a numeric string is made of. */
  predicate NumericChar(c: char) {
    IsSpace(c) || IsDigit(c) || IsSign(c) || c == '.' || c == 'e' || c == 'E'
  }

  /**
   * Where the parts of a numeric prefix end: leading whitespace, sign,
   * integer digits, fraction, exponent.
   */
  datatype Layout = Layout(spaces: nat, sign: nat, whole: nat, frac: nat, exp: nat)

  function NumericLayout(s: string): (p: Layout)
    ensures p.spaces <= p.sign <= p.whole <= p.frac <= p.exp <= |s|
    ensures forall k :: 0 <= k < p.exp ==> NumericChar(s[k])
    ensures p.sign > p.spaces ==> IsSign(s[p.spaces])
    ensures forall k :: p.sign <= k < p.whole ==> IsDigit(s[k])
    ensures p.frac > p.whole ==> s[p.whole] == '.' && forall k :: p.whole < k < p.frac ==> IsDigit(s[k])
    ensures p.exp == ExponentEnd(s, p.frac)
  {
    var a := SpanSpaces(s, 0);
    var b := if a < |s| && IsSign(s[a]) then a + 1 else a;
    var c := SpanDigits(s, b);
    var d := if c < |s| && s[c] == '.' then SpanDigits(s, c + 1) else c;
    var e := ExponentEnd(s, d);
    assert forall k :: c < k < d ==> IsDigit(s[k]);
    Layout(a, b, c, d, e)
  }

  /** The string starts with a number: some digit before or after the decimal point. */
  predicate HasMantissa(p: Layout) {
    p.whole > p.sign || p.frac > p.whole + 1
  }

  /**
   * `is_numeric($s)` on a string (PHP 8): optional leading whitespace, an
   * optional sign, digits with an optional decimal point (at least one digit
   * on some side), an optional exponent, optional trailing whitespace, and
   * nothing else.
   */
  predicate IsNumeric(s: string) {
    var p := NumericLayout(s);
    HasMantissa(p) && SpanSpaces(s, p.exp) == |s|
  }

  /** A non-empty run of digits is numeric: a bare product id is a numeric string. */
  lemma DigitsAreNumeric(s: string)
    requires |s| > 0 && AllDigits(s)
    ensures IsNumeric(s)
  {
    assert !IsSpace(s[0]) && !IsSign(s[0]);
    assert SpanDigits(s, 0) == |s|;
  }

  /** A numeric string holds no comma: a list of several ids is never taken for a number. */
  lemma NumericHasNoComma(s: string)
    requires IsNumeric(s)
    ensures ',' !in s
  {
    var p := NumericLayout(s);
    assert forall k :: p.exp <= k < |s| ==> IsSpace(s[k]);
    assert forall k :: 0 <= k < |s| ==> NumericChar(s[k]);
  }

  /**
   * `intval($s)` for a string (PHP 7.1 and later): the leading numeric prefix
   * (whitespace, sign, digits, fraction, exponent) read as a number and
   * truncated toward zero; 0 when the string does not start with a number.
   */
  function Intval(s: string): int {
    var p := NumericLayout(s);
    if !HasMantissa(p) then 0
    else
      var k: nat := if p.frac > p.whole then p.frac - p.whole - 1 else 0;
      var whole := DigitsValue(s, p.sign, p.whole);
      var frac := if k > 0 then DigitsValue(s, p.whole + 1, p.frac) else 0;
      var m: int := Scale(Scale(whole, k) + frac, ExponentAt(s, p.frac).1 - k);
      if p.sign > p.spaces && s[p.spaces] == '-' then -m else m
  }

  /** `n` times ten to the power `x`, truncated toward zero when `x` is negative. */
  function Scale(n: nat, x: int): nat
    decreases if x >= 0 then x else -x
  {
    if x == 0 then n
    else if x > 0 then 10 * Scale(n, x - 1)
    else Scale(n, x + 1) / 10
  }

  /** `absint($s)`: the magnitude of `intval($s)`. */
  function Absint(s: string): nat {
    if Intval(s) < 0 then -Intval(s) else Intval(s)
  }

  /** On a digit string `absint` is the decimal value. */
  lemma AbsintOfDigits(s: string)
    requires AllDigits(s)
    ensures Absint(s) == Value(s)
  {
    if |s| > 0 {
      assert !IsSpace(s[0]) && !IsSign(s[0]);
      assert SpanDigits(s, 0) == |s|;
      assert s[0..|s|] == s;
    }
  }

  /** An exponent scales the digits before it: `absint("<w>e<x>")` is `w` times ten to the `x`. */
  lemma {:induction false} AbsintOfExponent(w: string, x: string)
    requires |w| > 0 && AllDigits(w) && |x| > 0 && AllDigits(x)
    ensures Absint(w + ['e'] + x) == Scale(Value(w), Value(x))
  {
    var s := w + ['e'] + x;
    assert !IsSpace(s[0]) && !IsSign(s[0]);
    assert SpanSpaces(s, 0) == 0;
    assert s[|w|] == 'e';
    assert SpanDigits(s, 0) == |w|;
    assert SpanDigits(s, |w| + 1) == |s|;
    assert s[0..|w|] == w;
    assert s[|w| + 1..|s|] == x;
    assert ExponentAt(s, |w|) == (|s|, Value(x));
  }

  /** Scaling down by `k` places divides by ten first and scales down by `k - 1` places after. */
  lemma {:induction false} ScaleDownStep(n: nat, k: nat)
    requires k >= 1
    ensures Scale(n, -(k as int)) == Scale(n / 10, 1 - k)
  {
    if k > 1 {
      ScaleDownStep(n, k - 1);
    }
  }

  /** Digits appended below `k` places vanish again when scaled down by `k` places. */
  lemma {:induction false} ScaleDownDropsLowDigits(w: nat, f: nat, k: nat)
    requires f < Scale(1, k)
    ensures Scale(Scale(w, k) + f, -(k as int)) == w
  {
    if k > 0 {
      var a := Scale(w, k - 1);
      assert (10 * a + f) / 10 == a + f / 10;
      ScaleDownStep(10 * a + f, k);
      ScaleDownDropsLowDigits(w, f / 10, k - 1);
    }
  }

  /** `k` digits denote less than ten to the `k`. */
  lemma {:induction false} ValueBelowScale(s: string)
    requires AllDigits(s)
    ensures Value(s) < Scale(1, |s|)
  {
    if |s| > 0 {
      ValueBelowScale(s[..|s| - 1]);
    }
  }

  /** A fraction is cut off toward zero: `absint("<w>.<f>")` is `w`. */
  lemma {:induction false} AbsintOfFraction(w: string, f: string)
    requires AllDigits(w) && AllDigits(f) && |w| + |f| > 0
    ensures Absint(w + ['.'] + f) == Value(w)
  {
    var s := w + ['.'] + f;
    assert !IsSpace(s[0]) && !IsSign(s[0]);
    assert SpanSpaces(s, 0) == 0;
    assert s[|w|] == '.';
    assert SpanDigits(s, 0) == |w|;
    assert SpanDigits(s, |w| + 1) == |s|;
    assert s[0..|w|] == w;
    assert s[|w| + 1..|s|] == f;
    assert ExponentAt(s, |s|) == (|s|, 0);
    ValueBelowScale(f);
    ScaleDownDropsLowDigits(Value(w), Value(f), |f|);
  }

  /** `absint("1e3")` asks for 1000, not 1. */
  lemma ExponentExample()
    ensures Absint("1e3") == 1000
  {
    AbsintOfExponent("1", "3");
    assert "1" + ['e'] + "3" == "1e3";
    assert Value("1") == 1 && Value("3") == 3;
  }

  /** `absint` reads back a printed number. */
  lemma AbsintOfDecimal(n: nat)
    ensures Absint(ToDecimal(n)) == n
  {
    AbsintOfDigits(ToDecimal(n));
  }
}
