/**
 * The pieces of Python's `str` behaviour that the handlers rely on:
 * `isspace`, `strip`, `upper`, `split(sep)[k]` and `sep.join`.
 */
module PyStrings {

  /** `str.isspace()` for one character; `\s` in a `re` str pattern and the
      argument-less `strip()` use the same set. */
  predicate IsSpace(c: char) {
    || ('\t' <= c <= '\r')
    || ('\U{1C}' <= c <= ' ')
    || c == '\U{85}' || c == '\U{A0}' || c == '\U{1680}'
    || ('\U{2000}' <= c <= '\U{200A}')
    || c == '\U{2028}' || c == '\U{2029}' || c == '\U{202F}' || c == '\U{205F}'
    || c == '\U{3000}'
  }

  predicate IsDigit(c: char) { '0' <= c <= '9' }

  predicate IsUpperLetter(c: char) { 'A' <= c <= 'Z' }

  predicate IsLetter(c: char) { IsUpperLetter(c) || 'a' <= c <= 'z' }

  function UpperChar(c: char): (u: char)
    ensures LowerChar(u) == LowerChar(c)
    ensures IsLetter(c) ==> IsUpperLetter(u)
    ensures !IsLetter(c) ==> u == c
  {
    if 'a' <= c <= 'z' then (c as int - 32) as char else c
  }

  function LowerChar(c: char): char {
    if 'A' <= c <= 'Z' then (c as int + 32) as char else c
  }

  /** `s.upper()` on ASCII letters; every other character is kept. Each
      letter becomes the upper-case letter equal to it ignoring case. */
  function Upper(s: string): (r: string)
    ensures |r| == |s|
    ensures forall k :: 0 <= k < |s| ==>
      && LowerChar(r[k]) == LowerChar(s[k])
      && (IsLetter(s[k]) ==> IsUpperLetter(r[k]))
      && (!IsLetter(s[k]) ==> r[k] == s[k])
  {
    seq(|s|, k requires 0 <= k < |s| => UpperChar(s[k]))
  }

  /** Case-insensitive equality of two strings (ASCII letters). */
  predicate EqualsIgnoreCase(a: string, b: string) {
    |a| == |b| && forall k :: 0 <= k < |a| ==> LowerChar(a[k]) == LowerChar(b[k])
  }

  /** The length of the longest run of `p`-characters starting at index `i`. */
  function RunFrom(s: string, i: nat, p: char -> bool): (n: nat)
    ensures i <= |s| ==> i + n <= |s|
    ensures i >= |s| ==> n == 0
    ensures forall k :: i <= k < i + n ==> p(s[k])
    ensures i + n < |s| ==> !p(s[i + n])
    decreases |s| - i
  {
    if i >= |s| || !p(s[i]) then 0 else 1 + RunFrom(s, i + 1, p)
  }

  /** The length of the longest run of `p`-characters at the end of `s`. */
  function TrailRun(s: string, p: char -> bool): (n: nat)
    ensures n <= |s|
    ensures forall k :: |s| - n <= k < |s| ==> p(s[k])
    ensures n < |s| ==> !p(s[|s| - 1 - n])
  {
    if s == [] || !p(s[|s| - 1]) then 0 else 1 + TrailRun(s[..|s| - 1], p)
  }

  /** `s.strip(chars)`: drop the `p`-characters at both ends. */
  function Strip(s: string, p: char -> bool): string {
    var t := s[RunFrom(s, 0, p)..];
    t[..|t| - TrailRun(t, p)]
  }

  /** Strip keeps one contiguous slice of `s`, removes only `p`-characters,
      and leaves neither end on a `p`-character. */
  lemma StripSlice(s: string, p: char -> bool)
    ensures var r := Strip(s, p);
      exists i, j :: 0 <= i <= j <= |s| && r == s[i..j]
        && (forall k :: 0 <= k < i ==> p(s[k]))
        && (forall k :: j <= k < |s| ==> p(s[k]))
        && (r != [] ==> !p(r[0]) && !p(r[|r| - 1]))
  {
    var i := RunFrom(s, 0, p);
    var t := s[i..];
    var j := i + |t| - TrailRun(t, p);
    assert Strip(s, p) == s[i..j];
    assert forall k :: j <= k < |s| ==> s[k] == t[k - i];
  }

  /** Stripping with no `p`-character at either end changes nothing. */
  lemma StripNothing(s: string, p: char -> bool)
    requires forall k :: 0 <= k < |s| ==> !p(s[k])
    ensures Strip(s, p) == s
  {
    assert RunFrom(s, 0, p) == 0;
  }

  /** The index of the first `c` in `s`. */
  function IndexOf(s: string, c: char): (i: nat)
    requires c in s
    ensures i < |s| && s[i] == c && c !in s[..i]
  {
    if s[0] == c then 0 else 1 + IndexOf(s[1..], c)
  }

  /** `s.split(c)[0]`: the text before the first `c`, or all of `s`. */
  function BeforeFirst(s: string, c: char): (r: string)
    ensures c !in r
    ensures r <= s
    ensures |r| < |s| ==> s[|r|] == c
  {
    if s == [] || s[0] == c then [] else [s[0]] + BeforeFirst(s[1..], c)
  }

  /** The text before the first `c` of `a + [c] + b` is `a` when `a` holds
      no `c`. */
  lemma {:induction false} BeforeFirstOf(a: string, c: char, b: string)
    requires c !in a
    ensures BeforeFirst(a + [c] + b, c) == a
  {
    if a != [] {
      assert (a + [c] + b)[1..] == a[1..] + [c] + b;
      BeforeFirstOf(a[1..], c, b);
    }
  }

  /** `s.split(c)[1]` when `c` occurs in `s`: the text between the first and
      the second `c` (or the end). */
  function SecondField(s: string, c: char): string
    requires c in s
  {
    BeforeFirst(s[IndexOf(s, c) + 1..], c)
  }

  /** `sep.join(parts)`. */
  function Join(parts: seq<string>, sep: string): string {
    if |parts| == 0 then ""
    else if |parts| == 1 then parts[0]
    else parts[0] + sep + Join(parts[1..], sep)
  }

  /** Joining one more part appends the separator and that part. */
  lemma {:induction false} JoinSnoc(parts: seq<string>, p: string, sep: string)
    requires parts != []
    ensures Join(parts + [p], sep) == Join(parts, sep) + sep + p
    decreases |parts|
  {
    if |parts| == 1 {
      assert (parts + [p])[1..] == [p];
    } else {
      assert (parts + [p])[1..] == parts[1..] + [p];
      JoinSnoc(parts[1..], p, sep);
    }
  }

  /** A joined text is as long as its parts plus one separator between each
      two of them. */
  lemma {:induction false} JoinLength(parts: seq<string>, sep: string)
    requires parts != []
    ensures |Join(parts, sep)| == TotalLength(parts) + (|parts| - 1) * |sep|
  {
    if |parts| > 1 {
      JoinLength(parts[1..], sep);
    }
  }

  function TotalLength(parts: seq<string>): nat {
    if parts == [] then 0 else |parts[0]| + TotalLength(parts[1..])
  }
}
