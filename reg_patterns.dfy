/**
 * Hand-written matchers for the five registration-number patterns that
 * `extract_nafdac_number_ocr` scans every OCR line with (all compiled with
 * re.IGNORECASE), Python's `re.finditer` over one of them, and the
 * normalisation applied to each match.
 */
module RegPatterns {
  import opened Wrappers
  import opened PyStrings

  /** The pattern shapes, in the order they are tried. */
  datatype Pattern =
    | LetterCode              // [A-Z]\d{1,2}-\d{4,6}
    | DigitCode               // \d{2}-\d{4,6}
    | Labelled(word: string) // LABEL[:\s]*([A-Z0-9-]+)

  const Patterns: seq<Pattern> :=
    [LetterCode, DigitCode, Labelled("NAFDAC"), Labelled("REG"), Labelled("NRN")]

  /** One match object: its span and the text a candidate is taken from
      (group 1 when the pattern has a group, the whole match otherwise). */
  datatype Hit = Hit(start: nat, len: nat, group: string)

  /** `[A-Z0-9-]` under re.IGNORECASE. */
  predicate IsCodeChar(c: char) { IsLetter(c) || IsDigit(c) || c == '-' }

  /** `[:\s]`. */
  predicate IsSeparator(c: char) { c == ':' || IsSpace(c) }

  /** A character a normalised candidate may contain: `[A-Z0-9-]`. */
  predicate IsUpperCodeChar(c: char) { IsUpperLetter(c) || IsDigit(c) || c == '-' }

  function Min(a: nat, b: nat): nat { if a <= b then a else b }

  /** The characters of `g` are all code characters. */
  predicate AllCode(g: string) {
    forall k :: 0 <= k < |g| ==> IsCodeChar(g[k])
  }

  /** What every match satisfies: it starts at `i`, lies inside `s`, and its
      group is a non-empty run of code characters ending where the match ends. */
  predicate WellFormedAt(h: Hit, s: string, i: nat) {
    && h.start == i && 1 <= |h.group| <= h.len && i + h.len <= |s|
    && h.group == s[i + h.len - |h.group|..i + h.len]
    && AllCode(h.group)
  }

  /** The match, if any, of pattern `p` starting exactly at index `i` of `s`. */
  function MatchAt(p: Pattern, s: string, i: nat): (r: Option<Hit>)
    ensures r.Some? ==> WellFormedAt(r.value, s, i)
  {
    match p
    case LetterCode => MatchLetterCode(s, i)
    case DigitCode => MatchDigitCode(s, i)
    case Labelled(w) => MatchLabelled(w, s, i)
  }

  /** `[A-Z]\d{1,2}-\d{4,6}` at `i`. The greedy `\d{1,2}` takes two digits
      when there are two, and one digit could not then be followed by the
      hyphen; the greedy `\d{4,6}` takes up to six digits. */
  function MatchLetterCode(s: string, i: nat): (r: Option<Hit>)
    ensures r.Some? ==> WellFormedAt(r.value, s, i) && r.value.group == s[i..i + r.value.len]
  {
    if i < |s| && IsLetter(s[i]) then
      var k := Min(RunFrom(s, i + 1, IsDigit), 2);
      if 1 <= k && i + 1 + k < |s| && s[i + 1 + k] == '-' then
        var m := Min(RunFrom(s, i + 2 + k, IsDigit), 6);
        if 4 <= m then
          var h := Hit(i, 2 + k + m, s[i..i + 2 + k + m]);
          assert forall j :: i + 1 <= j < i + 1 + k ==> IsDigit(s[j]);
          assert forall j :: i + 2 + k <= j < i + 2 + k + m ==> IsDigit(s[j]);
          assert forall j :: i <= j < i + 2 + k + m ==> IsCodeChar(s[j]);
          assert forall j :: 0 <= j < |h.group| ==> h.group[j] == s[i + j];
          Some(h)
        else None
      else None
    else None
  }

  /** `\d{2}-\d{4,6}` at `i`. */
  function MatchDigitCode(s: string, i: nat): (r: Option<Hit>)
    ensures r.Some? ==> WellFormedAt(r.value, s, i) && r.value.group == s[i..i + r.value.len]
  {
    if 2 <= RunFrom(s, i, IsDigit) && i + 2 < |s| && s[i + 2] == '-' then
      var m := Min(RunFrom(s, i + 3, IsDigit), 6);
      if 4 <= m then
        var h := Hit(i, 3 + m, s[i..i + 3 + m]);
        assert forall j :: 0 <= j < |h.group| ==> h.group[j] == s[i + j];
        Some(h)
      else None
    else None
  }

  /** `WORD[:\s]*([A-Z0-9-]+)` at `i`, ignoring case. Both runs are greedy;
      the two classes are disjoint, so giving back a separator never helps. */
  function MatchLabelled(w: string, s: string, i: nat): (r: Option<Hit>)
    ensures r.Some? ==> WellFormedAt(r.value, s, i)
  {
    if i + |w| <= |s| && EqualsIgnoreCase(s[i..i + |w|], w) then
      var sep := RunFrom(s, i + |w|, IsSeparator);
      var g := RunFrom(s, i + |w| + sep, IsCodeChar);
      if 1 <= g then
        var h := Hit(i, |w| + sep + g, s[i + |w| + sep..i + |w| + sep + g]);
        assert forall j :: 0 <= j < g ==> h.group[j] == s[i + |w| + sep + j];
        Some(h)
      else None
    else None
  }

  /** A matcher reports, for each start position, the match beginning there. */
  ghost predicate Advancing(m: nat -> Option<Hit>) {
    forall i :: m(i).Some? ==> m(i).value.start == i && 1 <= m(i).value.len
  }

  /** The scan that `re.finditer` performs over a text of length `n`: try the
      leftmost position, report a match and resume where it ended, or move on
      by one. */
  function Scan(m: nat -> Option<Hit>, n: nat, from: nat): (hits: seq<Hit>)
    requires Advancing(m)
    ensures forall k :: 0 <= k < |hits| ==> from <= hits[k].start && m(hits[k].start) == Some(hits[k])
    ensures forall k :: 0 <= k < |hits| - 1 ==> hits[k].start + hits[k].len <= hits[k + 1].start
    decreases n - from
  {
    if from >= n then []
    else
      match m(from)
      case Some(h) => [h] + Scan(m, n, from + h.len)
      case None => Scan(m, n, from + 1)
  }

  /** Position `j` lies inside the span of match `h`. */
  predicate Covers(h: Hit, j: nat) { h.start <= j < h.start + h.len }

  /** Position `j` lies inside one of the matches `hits`. */
  predicate Covered(hits: seq<Hit>, j: nat) {
    exists k :: 0 <= k < |hits| && Covers(hits[k], j)
  }

  /** The scan misses no match: every position before `n` at which the matcher
      reports a match is the start of a reported match or lies inside one. */
  lemma {:induction false} ScanComplete(m: nat -> Option<Hit>, n: nat, from: nat, j: nat)
    requires Advancing(m)
    requires from <= j < n && m(j).Some?
    ensures Covered(Scan(m, n, from), j)
    decreases n - from
  {
    if m(from).Some? {
      var h := m(from).value;
      assert h.start == from;
      ScanStep(m, n, from);
      if j >= from + h.len {
        ScanComplete(m, n, from + h.len, j);
      }
      CoveredCons(h, Scan(m, n, from + h.len), j);
    } else {
      ScanStep(m, n, from);
      ScanComplete(m, n, from + 1, j);
    }
  }

  /** One step of the scan, at a position before the end. */
  lemma ScanStep(m: nat -> Option<Hit>, n: nat, from: nat)
    requires Advancing(m) && from < n
    ensures m(from).Some? ==> Scan(m, n, from) == [m(from).value] + Scan(m, n, from + m(from).value.len)
    ensures m(from).None? ==> Scan(m, n, from) == Scan(m, n, from + 1)
  {
  }

  lemma CoveredCons(h: Hit, rest: seq<Hit>, j: nat)
    requires Covers(h, j) || Covered(rest, j)
    ensures Covered([h] + rest, j)
  {
    if !Covers(h, j) {
      var k :| 0 <= k < |rest| && Covers(rest[k], j);
      assert ([h] + rest)[k + 1] == rest[k];
    } else {
      assert ([h] + rest)[0] == h;
    }
  }

  /** `re.finditer(p, s, re.IGNORECASE)`: all matches of `p` in `s`, left to
      right, none overlapping. */
  function FindIter(p: Pattern, s: string): seq<Hit> {
    Scan((i: nat) => MatchAt(p, s, i), |s|, 0)
  }

  /** Each reported match is a match of `p` at its start, and the matches
      come left to right without overlapping. */
  lemma FindIterSound(p: Pattern, s: string)
    ensures var hits := FindIter(p, s);
      && (forall k :: 0 <= k < |hits| ==> MatchAt(p, s, hits[k].start) == Some(hits[k]))
      && (forall k :: 0 <= k < |hits| - 1 ==> hits[k].start + hits[k].len <= hits[k + 1].start)
  {
    var m := (i: nat) => MatchAt(p, s, i);
    assert FindIter(p, s) == Scan(m, |s|, 0);
  }

  /** finditer misses no match of `p` in `s`. */
  lemma FindIterComplete(p: Pattern, s: string, j: nat)
    requires MatchAt(p, s, j).Some?
    ensures Covered(FindIter(p, s), j)
  {
    var m := (i: nat) => MatchAt(p, s, i);
    assert m(j).Some? && j < |s|;
    assert FindIter(p, s) == Scan(m, |s|, 0);
    ScanComplete(m, |s|, 0, j);
  }

  /** `g` is a letter, `k` digits, a hyphen and four to six digits. */
  predicate LetterCodeWith(g: string, k: nat) {
    && k + 6 <= |g| <= k + 8 && IsLetter(g[0])
    && (forall j :: 1 <= j <= k ==> IsDigit(g[j])) && g[k + 1] == '-'
    && (forall j :: k + 2 <= j < |g| ==> IsDigit(g[j]))
  }

  /** The texts `[A-Z]\d{1,2}-\d{4,6}` matches as a whole. */
  predicate IsLetterCode(g: string) {
    LetterCodeWith(g, 1) || LetterCodeWith(g, 2)
  }

  /** The texts `\d{2}-\d{4,6}` matches as a whole. */
  predicate IsDigitCode(g: string) {
    7 <= |g| <= 9 && IsDigit(g[0]) && IsDigit(g[1]) && g[2] == '-'
    && forall j :: 3 <= j < |g| ==> IsDigit(g[j])
  }

  /** A LetterCode match is a letter, one or two digits, a hyphen directly
      after them and four to six digits; nothing else is taken in. */
  lemma LetterCodeSound(s: string, i: nat)
    requires MatchAt(LetterCode, s, i).Some?
    ensures IsLetterCode(MatchAt(LetterCode, s, i).value.group)
  {
    var g := MatchAt(LetterCode, s, i).value.group;
    var k := Min(RunFrom(s, i + 1, IsDigit), 2);
    assert forall j :: 0 <= j < |g| ==> g[j] == s[i + j];
    assert LetterCodeWith(g, k);
  }

  /** Conversely, a whole string of that shape is one LetterCode match. */
  lemma LetterCodeComplete(g: string)
    requires IsLetterCode(g)
    ensures MatchLetterCode(g, 0) == Some(Hit(0, |g|, g))
  {
    var k := if LetterCodeWith(g, 1) then 1 else 2;
    assert LetterCodeWith(g, k);
    RunExact(g, 1, k + 1, IsDigit);
    RunExact(g, k + 2, |g|, IsDigit);
    assert g[0..2 + k + (|g| - k - 2)] == g;
  }

  /** A DigitCode match is two digits, a hyphen and four to six digits. */
  lemma DigitCodeSound(s: string, i: nat)
    requires MatchAt(DigitCode, s, i).Some?
    ensures IsDigitCode(MatchAt(DigitCode, s, i).value.group)
  {
    var g := MatchAt(DigitCode, s, i).value.group;
    assert forall j :: 0 <= j < |g| ==> g[j] == s[i + j];
  }

  /** Conversely, a whole string of that shape is one DigitCode match. */
  lemma DigitCodeComplete(g: string)
    requires IsDigitCode(g)
    ensures MatchDigitCode(g, 0) == Some(Hit(0, |g|, g))
  {
    RunExact(g, 0, 2, IsDigit);
    RunExact(g, 3, |g|, IsDigit);
    assert 2 <= RunFrom(g, 0, IsDigit);
    assert g[0..3 + (|g| - 3)] == g;
  }

  /** A labelled match begins with the label, ignoring case; only `[:\s]`
      lies between the label and the group; and the group is the longest
      run of code characters there. */
  lemma LabelledSound(w: string, s: string, i: nat)
    requires MatchAt(Labelled(w), s, i).Some?
    ensures var h := MatchAt(Labelled(w), s, i).value;
      var j := i + h.len - |h.group|;
      && i + |w| <= j && EqualsIgnoreCase(s[i..i + |w|], w)
      && (forall k :: i + |w| <= k < j ==> IsSeparator(s[k]))
      && (i + h.len < |s| ==> !IsCodeChar(s[i + h.len]))
  {
  }

  /** Conversely, the label, then separators, then a code character make a
      labelled match whose group starts at that code character. */
  lemma LabelledComplete(w: string, s: string, i: nat, j: nat)
    requires i + |w| <= j < |s| && EqualsIgnoreCase(s[i..i + |w|], w)
    requires forall k :: i + |w| <= k < j ==> IsSeparator(s[k])
    requires IsCodeChar(s[j])
    ensures MatchAt(Labelled(w), s, i).Some?
    ensures var h := MatchAt(Labelled(w), s, i).value; i + h.len - |h.group| == j
  {
    assert !IsSeparator(s[j]);
    RunExact(s, i + |w|, j, IsSeparator);
  }

  /** A run of `p`-characters from `i` that stops at `j` has length `j - i`. */
  lemma {:induction false} RunExact(s: string, i: nat, j: nat, p: char -> bool)
    requires i <= j <= |s|
    requires forall k :: i <= k < j ==> p(s[k])
    requires j < |s| ==> !p(s[j])
    ensures RunFrom(s, i, p) == j - i
    decreases j - i
  {
    if i < j {
      RunExact(s, i + 1, j, p);
    }
  }

  /** `s` begins with `w`, ignoring case. */
  predicate StartsWithIgnoreCase(s: string, w: string) {
    |w| <= |s| && EqualsIgnoreCase(s[..|w|], w)
  }

  /** `re.sub(r'^(NAFDAC|REG|NRN)[:\s]*', '', s, flags=re.IGNORECASE)`:
      remove one leading label and the separators after it. */
  function StripLabel(s: string): string {
    if StartsWithIgnoreCase(s, "NAFDAC") then DropSeparators(s[6..])
    else if StartsWithIgnoreCase(s, "REG") then DropSeparators(s[3..])
    else if StartsWithIgnoreCase(s, "NRN") then DropSeparators(s[3..])
    else s
  }

  function DropSeparators(s: string): string {
    s[RunFrom(s, 0, IsSeparator)..]
  }

  /** The candidate text made from a match's group:
      `.strip().upper()`, then one leading label removed. */
  function Normalize(group: string): string {
    StripLabel(Upper(Strip(group, IsSpace)))
  }

  /** Every character of `t` is an upper-case code character. */
  predicate AllUpperCode(t: string) {
    forall k :: 0 <= k < |t| ==> IsUpperCodeChar(t[k])
  }

  /** A normalised group is upper case: letters, digits and hyphens only. */
  lemma NormalizeUpper(group: string)
    requires AllCode(group)
    ensures AllUpperCode(Normalize(group))
  {
    StripNothing(group, IsSpace);
    var u := Upper(group);
    assert AllUpperCode(u);
    NoSeparators(u);
  }

  /** A string of upper-case code characters has no separator to drop, so
      exactly the label itself is removed. */
  lemma NoSeparators(u: string)
    requires AllUpperCode(u)
    ensures StripLabel(u) ==
      if StartsWithIgnoreCase(u, "NAFDAC") then u[6..]
      else if StartsWithIgnoreCase(u, "REG") || StartsWithIgnoreCase(u, "NRN") then u[3..]
      else u
    ensures AllUpperCode(StripLabel(u))
  {
    if StartsWithIgnoreCase(u, "NAFDAC") {
      UpperCodeSuffix(u, 6);
    } else if StartsWithIgnoreCase(u, "REG") || StartsWithIgnoreCase(u, "NRN") {
      UpperCodeSuffix(u, 3);
    }
  }

  /** A suffix of upper-case code text is upper-case code text, and no
      separator is dropped from its front. */
  lemma UpperCodeSuffix(u: string, d: nat)
    requires AllUpperCode(u) && d <= |u|
    ensures AllUpperCode(u[d..]) && DropSeparators(u[d..]) == u[d..]
  {
    var t := u[d..];
    assert forall k :: 0 <= k < |t| ==> t[k] == u[d + k];
    if |t| > 0 {
      assert !IsSeparator(t[0]);
    }
    assert t[0..] == t;
  }

  /** Only one label is removed: whatever follows a leading `REG` is kept
      as it is, even a second label. */
  lemma {:induction false} OneLabelOnly(t: string)
    requires AllUpperCode(t)
    ensures Normalize("REG" + t) == t
  {
    var g := "REG" + t;
    RegPrefixed(t);
    UpperCodeUnchanged(g);
    NoSeparators(g);
  }

  /** `REG` followed by upper-case code text is upper-case code text that
      starts with `REG`, not with `NAFDAC`, and has `t` after the label. */
  lemma RegPrefixed(t: string)
    requires AllUpperCode(t)
    ensures var g := "REG" + t;
      AllUpperCode(g) && StartsWithIgnoreCase(g, "REG") && !StartsWithIgnoreCase(g, "NAFDAC") && g[3..] == t
  {
    var g := "REG" + t;
    assert forall k :: 3 <= k < |g| ==> g[k] == t[k - 3];
    assert g[..3] == "REG";
    assert LowerChar(g[1]) != LowerChar('A');
  }

  /** Upper-case code text passes `strip()` and `upper()` unchanged. */
  lemma UpperCodeUnchanged(u: string)
    requires AllUpperCode(u)
    ensures Strip(u, IsSpace) == u && Upper(u) == u
  {
    forall k | 0 <= k < |u| ensures !IsSpace(u[k]) && UpperChar(u[k]) == u[k] {
      assert IsUpperCodeChar(u[k]);
    }
    StripNothing(u, IsSpace);
  }

  /** A repeated label survives: the group `REG` + `REG` + upper-case code
      text (`REGREG1`, say) becomes a candidate that still begins with
      `REG`. */
  lemma RepeatedLabelSurvives(code: string)
    requires AllUpperCode(code)
    ensures Normalize("REG" + ("REG" + code)) == "REG" + code
  {
    RegPrefixed(code);
    OneLabelOnly("REG" + code);
  }
}
