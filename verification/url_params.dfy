/**
 * The `add-vambe-cart` parameter: the charset guard and a scanner equivalent
 * to `preg_match_all(..., PREG_SET_ORDER)` with the patterns
 *   `/(\d+)(?::(\d+))?/`            (packaged plugin, separators [':'])
 *   `/(\d+)(?:_(\d+))?(?::(\d+))?/` (root plugin, separators ['_', ':']).
 * A match is a maximal digit run (greedy `\d+`; nothing before it can start a
 * match) followed by each optional group `<sep>\d+` in turn; the search
 * resumes right after the match. Like PCRE, the scanner yields the matched
 * digit strings; turning them into numbers (`absint`) is the caller's job.
 */
module UrlParams {
  import opened Optional
  import opened Decimal
  import opened Php

  /** `[\d\s,:]`: what `preg_match('/[^\d\s,:]/', ...)` lets through in the packaged plugin. */
  predicate PackagedChar(c: char) {
    IsDigit(c) || IsSpace(c) || c == ',' || c == ':'
  }

  /** `[\d\s,_:]`: the root plugin also admits `_`. */
  predicate RootChar(c: char) {
    PackagedChar(c) || c == '_'
  }

  predicate PackagedCharset(s: string) {
    forall i :: 0 <= i < |s| ==> PackagedChar(s[i])
  }

  predicate RootCharset(s: string) {
    forall i :: 0 <= i < |s| ==> RootChar(s[i])
  }

  const PackagedSeps: seq<char> := [':']
  const RootSeps: seq<char> := ['_', ':']

  /** A non-empty run of digits: what `\d+` captures. */
  predicate Digits(d: string) {
    |d| > 0 && AllDigits(d)
  }

  /** A slice of a digit run is a digit string. */
  lemma DigitsSlice(s: string, a: nat, b: nat)
    requires a < b <= |s|
    requires forall k :: a <= k < b ==> IsDigit(s[k])
    ensures Digits(s[a..b])
  {
    forall k | 0 <= k < b - a ensures IsDigit(s[a..b][k]) {
      assert s[a..b][k] == s[a + k];
    }
  }

  /** One match: the captured id and, per optional group, its capture when the group matched. */
  datatype Match = Match(id: string, groups: seq<Option<string>>)

  datatype Group = Group(end: nat, value: Option<string>)

  /** The optional group `(?:<sep>(\d+))?` tried at `j`. */
  function OptGroup(s: string, j: nat, sep: char): (g: Group)
    requires j <= |s|
    ensures j <= g.end <= |s|
    ensures g.value.Some? ==> Digits(g.value.value)
  {
    if j + 1 < |s| && s[j] == sep && IsDigit(s[j + 1]) then
      var k := SpanDigits(s, j + 1);
      DigitsSlice(s, j + 1, k);
      Group(k, Some(s[j + 1..k]))
    else
      Group(j, None)
  }

  /** The optional groups for `seps`, in order, starting at `j`: where they end and what they captured. */
  function Groups(s: string, j: nat, seps: seq<char>): (r: (nat, seq<Option<string>>))
    requires j <= |s|
    ensures j <= r.0 <= |s| && |r.1| == |seps|
    ensures DigitGroups(r.1)
    decreases |seps|
  {
    if |seps| == 0 then (j, [])
    else
      var g := OptGroup(s, j, seps[0]);
      var rest := Groups(s, g.end, seps[1..]);
      assert forall k :: 0 < k < |seps| ==> ([g.value] + rest.1)[k] == rest.1[k - 1];
      (rest.0, [g.value] + rest.1)
  }

  /** The match starting at the digit at `i`, and where it ends. */
  function MatchAt(s: string, i: nat, seps: seq<char>): (r: (Match, nat))
    requires i < |s| && IsDigit(s[i])
    ensures i < r.1 <= |s| && WellFormed(r.0, seps)
  {
    var j := SpanDigits(s, i);
    DigitsSlice(s, i, j);
    var g := Groups(s, j, seps);
    (Match(s[i..j], g.1), g.0)
  }

  /** All matches at or after position `i`, in order. */
  function ScanFrom(s: string, i: nat, seps: seq<char>): (ms: seq<Match>)
    requires i <= |s|
    ensures forall k :: 0 <= k < |ms| ==> WellFormed(ms[k], seps)
    decreases |s| - i
  {
    if i == |s| then []
    else if !IsDigit(s[i]) then ScanFrom(s, i + 1, seps)
    else
      var r := MatchAt(s, i, seps);
      var rest := ScanFrom(s, r.1, seps);
      assert forall k :: 0 < k <= |rest| ==> ([r.0] + rest)[k] == rest[k - 1];
      [r.0] + rest
  }

  /** `preg_match_all` over the whole string. */
  function Scan(s: string, seps: seq<char>): (ms: seq<Match>)
    ensures forall k :: 0 <= k < |ms| ==> WellFormed(ms[k], seps)
  {
    ScanFrom(s, 0, seps)
  }

  // ---------------------------------------------------------------------
  // An independent encoder, and the round trip Scan(Encode(ms)) == ms.

  /** Captures are digit runs and there is one slot per separator. */
  predicate WellFormed(m: Match, seps: seq<char>) {
    Digits(m.id) && |m.groups| == |seps| && DigitGroups(m.groups)
  }

  /** Captures that are digit runs. */
  predicate DigitGroups(gs: seq<Option<string>>) {
    forall k :: 0 <= k < |gs| && gs[k].Some? ==> Digits(gs[k].value)
  }

  function GroupText(sep: char, v: Option<string>): string {
    if v.Some? then [sep] + v.value else ""
  }

  function GroupsText(gs: seq<Option<string>>, seps: seq<char>): string
    requires |gs| == |seps|
  {
    if |seps| == 0 then "" else GroupText(seps[0], gs[0]) + GroupsText(gs[1..], seps[1..])
  }

  function EncodeMatch(m: Match, seps: seq<char>): string
    requires |m.groups| == |seps|
  {
    m.id + GroupsText(m.groups, seps)
  }

  /** The matches written as a comma-separated parameter, e.g. `12:2,30,7:1`. */
  function Encode(ms: seq<Match>, seps: seq<char>): string
    requires forall k :: 0 <= k < |ms| ==> WellFormed(ms[k], seps)
  {
    if |ms| == 0 then ""
    else
      assert WellFormed(ms[0], seps);
      if |ms| == 1 then EncodeMatch(ms[0], seps)
      else
        assert forall k :: 0 <= k < |ms[1..]| ==> ms[1..][k] == ms[k + 1];
        EncodeMatch(ms[0], seps) + "," + Encode(ms[1..], seps)
  }

  /** Separators a scanner can tell apart: no digit, no comma, no repeats. */
  predicate GoodSeps(seps: seq<char>) {
    (forall k :: 0 <= k < |seps| ==> !IsDigit(seps[k]) && seps[k] != ',')
    && (forall k, m :: 0 <= k < m < |seps| ==> seps[k] != seps[m])
  }

  lemma SpanDigitsAt(s: string, i: nat, j: nat)
    requires i <= j <= |s|
    requires forall k :: i <= k < j ==> IsDigit(s[k])
    requires j == |s| || !IsDigit(s[j])
    ensures SpanDigits(s, i) == j
  {
  }

  /** `t` sits in `s` at offset `j`. */
  predicate TextAt(s: string, j: nat, t: string) {
    j + |t| <= |s| && forall k :: 0 <= k < |t| ==> s[j + k] == t[k]
  }

  lemma TextAtSplit(s: string, j: nat, a: string, b: string)
    requires TextAt(s, j, a + b)
    ensures TextAt(s, j, a) && TextAt(s, j + |a|, b)
  {
    forall k | 0 <= k < |a| ensures s[j + k] == a[k] {
      assert (a + b)[k] == a[k];
    }
    forall k | 0 <= k < |b| ensures s[j + |a| + k] == b[k] {
      assert (a + b)[|a| + k] == b[k];
    }
  }

  /** Position `e` ends an encoding: the end of `s`, or a character that is neither a digit nor a separator. */
  predicate StopsAt(s: string, e: nat, seps: seq<char>) {
    e <= |s| && (e == |s| || (!IsDigit(s[e]) && s[e] !in seps))
  }

  /** A stop for a list of separators is a stop for its first one and for the others. */
  lemma StopsTail(t: string, e: nat, seps: seq<char>)
    requires StopsAt(t, e, seps) && |seps| > 0
    ensures StopsAt(t, e, [seps[0]]) && StopsAt(t, e, seps[1..])
  {
    if e < |t| {
      assert seps[0] in seps;
      assert forall c :: c in seps[1..] ==> c in seps;
    }
  }

  /** A digit run sitting at `i`, followed by a non-digit or the end, is the run `\d+` takes there. */
  lemma DigitsAt(s: string, i: nat, d: string)
    requires Digits(d) && TextAt(s, i, d)
    requires i + |d| == |s| || !IsDigit(s[i + |d|])
    ensures SpanDigits(s, i) == i + |d| && s[i..i + |d|] == d
  {
    forall k | i <= k < i + |d| ensures IsDigit(s[k]) {
      assert s[k] == d[k - i];
    }
    SpanDigitsAt(s, i, i + |d|);
  }

  lemma {:induction false} GroupTextStart(gs: seq<Option<string>>, seps: seq<char>)
    requires |gs| == |seps|
    ensures GroupsText(gs, seps) == [] || GroupsText(gs, seps)[0] in seps
  {
    if |seps| > 0 {
      if gs[0].None? {
        GroupTextStart(gs[1..], seps[1..]);
        assert forall c :: c in seps[1..] ==> c in seps;
      }
    }
  }

  /** One encoded group followed by a stop reads back as itself. */
  lemma GroupOfEncoded(s: string, j: nat, sep: char, v: Option<string>)
    requires !IsDigit(sep) && (v.Some? ==> Digits(v.value))
    requires TextAt(s, j, GroupText(sep, v))
    requires StopsAt(s, j + |GroupText(sep, v)|, [sep])
    ensures OptGroup(s, j, sep) == Group(j + |GroupText(sep, v)|, v)
  {
    if v.Some? {
      var d := v.value;
      TextAtSplit(s, j, [sep], d);
      assert s[j] == ([sep] + d)[0];
      assert IsDigit(s[j + 1]) by { assert s[j + 1] == d[0]; }
      DigitsAt(s, j + 1, d);
    }
  }

  lemma GoodSepsTail(seps: seq<char>)
    requires GoodSeps(seps) && |seps| > 0
    ensures GoodSeps(seps[1..])
    ensures forall c :: c in seps[1..] ==> c in seps && c != seps[0]
  {
    forall k, m | 0 <= k < m < |seps[1..]| ensures seps[1..][k] != seps[1..][m] {
      assert seps[1..][k] == seps[k + 1] && seps[1..][m] == seps[m + 1];
    }
  }

  /** After the first encoded group comes another separator or the stop of the whole encoding. */
  lemma AfterFirstGroup(s: string, i: nat, gs: seq<Option<string>>, seps: seq<char>)
    requires GoodSeps(seps) && |gs| == |seps| && |seps| > 0
    requires TextAt(s, i, GroupsText(gs[1..], seps[1..]))
    requires StopsAt(s, i + |GroupsText(gs[1..], seps[1..])|, seps)
    ensures StopsAt(s, i, [seps[0]])
    ensures StopsAt(s, i + |GroupsText(gs[1..], seps[1..])|, seps[1..])
  {
    var tr := GroupsText(gs[1..], seps[1..]);
    GoodSepsTail(seps);
    if |tr| > 0 {
      GroupTextStart(gs[1..], seps[1..]);
      assert s[i] == tr[0];
    } else {
      assert seps[0] in seps;
    }
  }

  /** The first of several encoded groups reads back as itself, and the rest are encoded groups followed by a stop. */
  lemma FirstGroupOfEncoded(s: string, j: nat, gs: seq<Option<string>>, seps: seq<char>)
    requires GoodSeps(seps) && |gs| == |seps| > 0 && DigitGroups(gs)
    requires TextAt(s, j, GroupsText(gs, seps))
    requires StopsAt(s, j + |GroupsText(gs, seps)|, seps)
    ensures OptGroup(s, j, seps[0]) == Group(j + |GroupText(seps[0], gs[0])|, gs[0])
    ensures GoodSeps(seps[1..]) && DigitGroups(gs[1..])
    ensures TextAt(s, j + |GroupText(seps[0], gs[0])|, GroupsText(gs[1..], seps[1..]))
    ensures StopsAt(s, j + |GroupText(seps[0], gs[0])| + |GroupsText(gs[1..], seps[1..])|, seps[1..])
    ensures |GroupsText(gs, seps)| == |GroupText(seps[0], gs[0])| + |GroupsText(gs[1..], seps[1..])|
  {
    var t0 := GroupText(seps[0], gs[0]);
    var tr := GroupsText(gs[1..], seps[1..]);
    TextAtSplit(s, j, t0, tr);
    AfterFirstGroup(s, j + |t0|, gs, seps);
    GroupOfEncoded(s, j, seps[0], gs[0]);
    GoodSepsTail(seps);
    forall k | 0 <= k < |gs[1..]| && gs[1..][k].Some? ensures Digits(gs[1..][k].value) {
      assert gs[1..][k] == gs[k + 1];
    }
  }

  /** `Groups` takes the first optional group, then the others from where it ended. */
  lemma GroupsStep(s: string, j: nat, seps: seq<char>, v: Option<string>, e1: nat, rest: seq<Option<string>>, e: nat)
    requires j <= |s| && |seps| > 0
    requires OptGroup(s, j, seps[0]) == Group(e1, v)
    requires Groups(s, e1, seps[1..]).0 == e && Groups(s, e1, seps[1..]).1 == rest
    ensures Groups(s, j, seps).0 == e && Groups(s, j, seps).1 == [v] + rest
  {
  }

  /** Encoded groups followed by a stop read back as themselves. */
  lemma {:induction false} GroupsOfEncoded(s: string, j: nat, gs: seq<Option<string>>, seps: seq<char>)
    requires GoodSeps(seps) && |gs| == |seps| && DigitGroups(gs)
    requires TextAt(s, j, GroupsText(gs, seps))
    requires StopsAt(s, j + |GroupsText(gs, seps)|, seps)
    ensures Groups(s, j, seps).0 == j + |GroupsText(gs, seps)| && Groups(s, j, seps).1 == gs
    decreases |seps|
  {
    if |seps| > 0 {
      var e1 := j + |GroupText(seps[0], gs[0])|;
      FirstGroupOfEncoded(s, j, gs, seps);
      GroupsOfEncoded(s, e1, gs[1..], seps[1..]);
      GroupsStep(s, j, seps, gs[0], e1, gs[1..], e1 + |GroupsText(gs[1..], seps[1..])|);
      assert [gs[0]] + gs[1..] == gs;
    }
  }

  /** An encoded match starts with its id, followed by a non-digit or the end. */
  lemma IdOfEncodedMatch(s: string, i: nat, m: Match, seps: seq<char>)
    requires GoodSeps(seps) && WellFormed(m, seps)
    requires TextAt(s, i, EncodeMatch(m, seps))
    requires StopsAt(s, i + |EncodeMatch(m, seps)|, seps)
    ensures TextAt(s, i, m.id)
    ensures i + |m.id| == |s| || !IsDigit(s[i + |m.id|])
  {
    var gt := GroupsText(m.groups, seps);
    TextAtSplit(s, i, m.id, gt);
    if |gt| > 0 {
      GroupTextStart(m.groups, seps);
      assert s[i + |m.id|] == gt[0];
    }
  }

  /** After the id of an encoded match come its groups, then a stop. */
  lemma GroupsOfEncodedMatch(s: string, i: nat, m: Match, seps: seq<char>)
    requires GoodSeps(seps) && WellFormed(m, seps)
    requires TextAt(s, i, EncodeMatch(m, seps))
    requires StopsAt(s, i + |EncodeMatch(m, seps)|, seps)
    ensures i + |m.id| <= |s|
    ensures Groups(s, i + |m.id|, seps).0 == i + |EncodeMatch(m, seps)|
    ensures Groups(s, i + |m.id|, seps).1 == m.groups
  {
    var gt := GroupsText(m.groups, seps);
    TextAtSplit(s, i, m.id, gt);
    GroupsOfEncoded(s, i + |m.id|, m.groups, seps);
  }

  /** A digit run at `i` followed by a non-digit is the id of the match found at `i`. */
  lemma IdAt(s: string, i: nat, d: string)
    requires Digits(d) && TextAt(s, i, d)
    requires i + |d| == |s| || !IsDigit(s[i + |d|])
    ensures i < |s| && IsDigit(s[i])
    ensures SpanDigits(s, i) == i + |d| && s[i..i + |d|] == d
  {
    assert s[i] == d[0];
    DigitsAt(s, i, d);
  }

  lemma MatchAtParts(s: string, i: nat, seps: seq<char>, m: Match, e: nat)
    requires i < |s| && IsDigit(s[i])
    requires SpanDigits(s, i) == i + |m.id| && s[i..i + |m.id|] == m.id
    requires Groups(s, i + |m.id|, seps).0 == e && Groups(s, i + |m.id|, seps).1 == m.groups
    ensures MatchAt(s, i, seps).0 == m && MatchAt(s, i, seps).1 == e
  {
  }

  /** An encoded match at `i`, followed by a stop, is the match found at `i`. */
  lemma MatchOfEncoded(s: string, i: nat, m: Match, seps: seq<char>)
    requires GoodSeps(seps) && WellFormed(m, seps)
    requires TextAt(s, i, EncodeMatch(m, seps))
    requires StopsAt(s, i + |EncodeMatch(m, seps)|, seps)
    ensures i < |s| && IsDigit(s[i])
    ensures MatchAt(s, i, seps).0 == m && MatchAt(s, i, seps).1 == i + |EncodeMatch(m, seps)|
  {
    IdOfEncodedMatch(s, i, m, seps);
    IdAt(s, i, m.id);
    GroupsOfEncodedMatch(s, i, m, seps);
    MatchAtParts(s, i, seps, m, i + |EncodeMatch(m, seps)|);
  }

  /** The encoded matches occupying `s` from `i` to the end are exactly what the scan finds there. */
  lemma {:induction false} ScanOfEncodedAt(s: string, i: nat, ms: seq<Match>, seps: seq<char>)
    requires GoodSeps(seps)
    requires forall k :: 0 <= k < |ms| ==> WellFormed(ms[k], seps)
    requires TextAt(s, i, Encode(ms, seps)) && i + |Encode(ms, seps)| == |s|
    ensures ScanFrom(s, i, seps) == ms
    decreases |ms|
  {
    if |ms| == 1 {
      MatchOfEncoded(s, i, ms[0], seps);
      assert ScanFrom(s, i, seps) == [ms[0]] + ScanFrom(s, |s|, seps);
    } else if |ms| > 1 {
      var tok := EncodeMatch(ms[0], seps);
      var tail := Encode(ms[1..], seps);
      TextAtSplit(s, i, tok + ",", tail);
      TextAtSplit(s, i, tok, ",");
      var c := i + |tok|;
      assert s[c] == ',' by {
        assert (tok + ",")[|tok|] == ',';
      }
      assert StopsAt(s, c, seps);
      MatchOfEncoded(s, i, ms[0], seps);
      assert ScanFrom(s, i, seps) == [ms[0]] + ScanFrom(s, c, seps);
      assert ScanFrom(s, c, seps) == ScanFrom(s, c + 1, seps);
      ScanOfEncodedAt(s, c + 1, ms[1..], seps);
      assert [ms[0]] + ms[1..] == ms;
    }
  }

  /** Reading back an encoded parameter yields exactly the encoded matches, in order. */
  lemma ScanEncode(ms: seq<Match>, seps: seq<char>)
    requires GoodSeps(seps)
    requires forall k :: 0 <= k < |ms| ==> WellFormed(ms[k], seps)
    ensures Scan(Encode(ms, seps), seps) == ms
  {
    ScanOfEncodedAt(Encode(ms, seps), 0, ms, seps);
  }

  /** What an encoded parameter is made of: digits, commas and separators. */
  predicate EncodedChar(c: char, seps: seq<char>) {
    IsDigit(c) || c == ',' || c in seps
  }

  lemma {:induction false} GroupsTextChars(gs: seq<Option<string>>, seps: seq<char>)
    requires |gs| == |seps| && DigitGroups(gs)
    ensures forall k :: 0 <= k < |GroupsText(gs, seps)| ==> EncodedChar(GroupsText(gs, seps)[k], seps)
  {
    if |seps| > 0 {
      var t0 := GroupText(seps[0], gs[0]);
      var tr := GroupsText(gs[1..], seps[1..]);
      assert DigitGroups(gs[1..]) by {
        forall k | 0 <= k < |gs[1..]| && gs[1..][k].Some? ensures Digits(gs[1..][k].value) {
          assert gs[1..][k] == gs[k + 1];
        }
      }
      GroupsTextChars(gs[1..], seps[1..]);
      assert forall c :: c in seps[1..] ==> c in seps;
      assert forall k :: 0 <= k < |t0| ==> EncodedChar(t0[k], seps) by {
        if gs[0].Some? {
          assert forall k :: 0 < k < |t0| ==> t0[k] == gs[0].value[k - 1];
        }
      }
      assert forall k :: 0 <= k < |t0 + tr| ==> (t0 + tr)[k] == if k < |t0| then t0[k] else tr[k - |t0|];
    }
  }

  lemma EncodeMatchChars(m: Match, seps: seq<char>)
    requires WellFormed(m, seps)
    ensures forall k :: 0 <= k < |EncodeMatch(m, seps)| ==> EncodedChar(EncodeMatch(m, seps)[k], seps)
  {
    GroupsTextChars(m.groups, seps);
    var g := GroupsText(m.groups, seps);
    assert forall k :: 0 <= k < |m.id + g| ==> (m.id + g)[k] == if k < |m.id| then m.id[k] else g[k - |m.id|];
  }

  /** An encoded parameter holds only digits, commas and the separators. */
  lemma {:induction false} EncodeChars(ms: seq<Match>, seps: seq<char>)
    requires forall k :: 0 <= k < |ms| ==> WellFormed(ms[k], seps)
    ensures forall k :: 0 <= k < |Encode(ms, seps)| ==> EncodedChar(Encode(ms, seps)[k], seps)
  {
    if |ms| > 0 {
      EncodeMatchChars(ms[0], seps);
      if |ms| > 1 {
        var a := EncodeMatch(ms[0], seps) + ",";
        var b := Encode(ms[1..], seps);
        EncodeChars(ms[1..], seps);
        assert forall k :: 0 <= k < |a| ==> EncodedChar(a[k], seps);
        assert forall k :: 0 <= k < |a + b| ==> (a + b)[k] == if k < |a| then a[k] else b[k - |a|];
      }
    }
  }

  /** Two or more encoded matches are separated by a comma. */
  lemma EncodeHasComma(ms: seq<Match>, seps: seq<char>)
    requires |ms| >= 2 && forall k :: 0 <= k < |ms| ==> WellFormed(ms[k], seps)
    ensures ',' in Encode(ms, seps)
  {
    var a := EncodeMatch(ms[0], seps);
    assert (a + "," + Encode(ms[1..], seps))[|a|] == ',';
  }

  // ---------------------------------------------------------------------
  // The `trim` before the scan never changes the matches.

  /** From `k` on there is no digit, so no match. */
  lemma {:induction false} ScanNoDigits(t: string, k: nat, seps: seq<char>)
    requires k <= |t|
    requires forall m :: k <= m < |t| ==> !IsDigit(t[m])
    ensures ScanFrom(t, k, seps) == []
    decreases |t| - k
  {
    if k < |t| {
      ScanNoDigits(t, k + 1, seps);
    }
  }

  /** A stretch without digits is skipped. */
  lemma {:induction false} ScanSkip(t: string, i: nat, o: nat, seps: seq<char>)
    requires i <= o <= |t|
    requires forall m :: i <= m < o ==> !IsDigit(t[m])
    ensures ScanFrom(t, i, seps) == ScanFrom(t, o, seps)
    decreases o - i
  {
    if i < o {
      ScanSkip(t, i + 1, o, seps);
    }
  }

  /** Inside a window `r` of `t` followed by a non-digit, digit runs end where they end in `r`. */
  lemma SpanWindow(t: string, o: nat, r: string, i: nat)
    requires TextAt(t, o, r) && i <= |r|
    requires o + |r| == |t| || !IsDigit(t[o + |r|])
    ensures SpanDigits(t, o + i) == o + SpanDigits(r, i)
  {
    var j := SpanDigits(r, i);
    forall k | o + i <= k < o + j ensures IsDigit(t[k]) {
      assert t[k] == r[k - o];
    }
    if j < |r| {
      assert t[o + j] == r[j];
    }
    SpanDigitsAt(t, o + i, o + j);
  }

  lemma SliceWindow(t: string, o: nat, r: string, a: nat, b: nat)
    requires TextAt(t, o, r) && a <= b <= |r|
    ensures t[o + a..o + b] == r[a..b]
  {
    assert forall k :: o + a <= k < o + b ==> t[k] == r[k - o];
  }

  /** Inside a window `r` of `t` followed by a stop, an optional group matches as it does in `r`. */
  lemma OptGroupWindow(t: string, o: nat, r: string, j: nat, sep: char)
    requires TextAt(t, o, r) && j <= |r|
    requires StopsAt(t, o + |r|, [sep])
    ensures OptGroup(t, o + j, sep) == Group(o + OptGroup(r, j, sep).end, OptGroup(r, j, sep).value)
  {
    if j + 1 < |r| {
      assert t[o + j] == r[j] && t[o + j + 1] == r[j + 1];
      if r[j] == sep && IsDigit(r[j + 1]) {
        var k := OptGroup(r, j, sep).end;
        SpanWindow(t, o, r, j + 1);
        SliceWindow(t, o, r, j + 1, k);
      }
    } else if j + 1 == |r| {
      assert t[o + j] == r[j];
    }
  }

  /** Inside a window `r` of `t` followed by a stop, the optional groups match as they do in `r`. */
  lemma {:induction false} GroupsWindow(t: string, o: nat, r: string, j: nat, seps: seq<char>)
    requires TextAt(t, o, r) && j <= |r|
    requires StopsAt(t, o + |r|, seps)
    ensures Groups(t, o + j, seps) == (o + Groups(r, j, seps).0, Groups(r, j, seps).1)
    decreases |seps|
  {
    if |seps| > 0 {
      var g := OptGroup(r, j, seps[0]);
      StopsTail(t, o + |r|, seps);
      OptGroupWindow(t, o, r, j, seps[0]);
      GroupsWindow(t, o, r, g.end, seps[1..]);
    }
  }

  /** A match starting inside a window followed by a stop is the match found at the same place in the window. */
  lemma MatchAtWindow(t: string, o: nat, r: string, i: nat, seps: seq<char>)
    requires TextAt(t, o, r) && i < |r| && IsDigit(r[i])
    requires StopsAt(t, o + |r|, seps)
    ensures o + i < |t| && IsDigit(t[o + i])
    ensures MatchAt(t, o + i, seps) == (MatchAt(r, i, seps).0, o + MatchAt(r, i, seps).1)
  {
    var j := SpanDigits(r, i);
    assert t[o + i] == r[i];
    SpanWindow(t, o, r, i);
    SliceWindow(t, o, r, i, j);
    GroupsWindow(t, o, r, j, seps);
  }

  /**
   * Scanning a window `r` of `t` finds what scanning `r` alone finds, when
   * after the window there is no digit and the first character is no separator.
   */
  lemma {:induction false} ScanWindow(t: string, o: nat, r: string, i: nat, seps: seq<char>)
    requires TextAt(t, o, r) && i <= |r|
    requires forall m :: o + |r| <= m < |t| ==> !IsDigit(t[m])
    requires StopsAt(t, o + |r|, seps)
    ensures ScanFrom(t, o + i, seps) == ScanFrom(r, i, seps)
    decreases |r| - i
  {
    if i == |r| {
      ScanNoDigits(t, o + |r|, seps);
    } else {
      assert t[o + i] == r[i];
      if IsDigit(r[i]) {
        MatchAtWindow(t, o, r, i, seps);
        ScanWindow(t, o, r, MatchAt(r, i, seps).1, seps);
      } else {
        ScanWindow(t, o, r, i + 1, seps);
      }
    }
  }

  /** Where the trimmed text sits: before it and after it there are only trim characters. */
  lemma TrimWindow(s: string, seps: seq<char>) returns (i: nat)
    requires forall k :: 0 <= k < |seps| ==> !IsTrimChar(seps[k])
    ensures TextAt(s, i, Trim(s))
    ensures forall m :: 0 <= m < i ==> !IsDigit(s[m])
    ensures forall m :: i + |Trim(s)| <= m < |s| ==> !IsDigit(s[m])
    ensures StopsAt(s, i + |Trim(s)|, seps)
  {
    var r := Trim(s);
    i := TrimStart(s);
    assert TrimmedSliceAt(r, s, i);
    forall k | 0 <= k < |r| ensures s[i + k] == r[k] {
      assert r[k] == s[i..i + |r|][k];
    }
    if i + |r| < |s| {
      assert IsTrimChar(s[i + |r|]);
    }
  }

  /** Trimming the parameter before the scan does not change the matches. */
  lemma ScanOfTrim(s: string, seps: seq<char>)
    requires forall k :: 0 <= k < |seps| ==> !IsTrimChar(seps[k])
    ensures Scan(Trim(s), seps) == Scan(s, seps)
  {
    var i := TrimWindow(s, seps);
    ScanSkip(s, 0, i, seps);
    ScanWindow(s, i, Trim(s), 0, seps);
  }
}
