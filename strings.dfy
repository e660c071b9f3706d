/**
 * The .NET string operations the generator relies on, with ordinal
 * (character-by-character) comparison, plus decimal rendering of
 * unsigned integers (`uint.ToString()`).
 */
module Strings {

  /** Whether `s` begins with `prefix`, compared character by character. */
  predicate StartsWith(s: string, prefix: string) {
    |prefix| <= |s| && s[..|prefix|] == prefix
  }

  /** Whether `s` ends with `suffix`, compared character by character. */
  predicate EndsWith(s: string, suffix: string) {
    |suffix| <= |s| && s[|s| - |suffix|..] == suffix
  }

  /** `pattern` occurs in `s` starting at index `i`. */
  predicate OccursAt(s: string, pattern: string, i: nat) {
    i + |pattern| <= |s| && s[i..i + |pattern|] == pattern
  }

  predicate Contains(s: string, pattern: string) {
    exists i: nat | i <= |s| :: OccursAt(s, pattern, i)
  }

  /** `s` without its leading dot, when it has one. */
  function DropLeadingDot(s: string): string {
    if StartsWith(s, ".") then s[1..] else s
  }

  /** `s` with a leading dot, added unless it already has one. */
  function WithLeadingDot(s: string): (r: string)
    ensures |r| > 0 && r[0] == '.'
    ensures StartsWith(s, ".") ==> r == s
    ensures !StartsWith(s, ".") ==> r == "." + s
  {
    if StartsWith(s, ".") then s else "." + s
  }

  /**
   * `s.Replace(pattern, replacement)`: every non-overlapping occurrence of
   * `pattern`, scanning left to right, is replaced.
   */
  function ReplaceAll(s: string, pattern: string, replacement: string): (r: string)
    requires |pattern| > 0
    ensures replacement == pattern ==> r == s
    ensures |replacement| == |pattern| ==> |r| == |s|
    decreases |s|
  {
    if StartsWith(s, pattern) then
      replacement + ReplaceAll(s[|pattern|..], pattern, replacement)
    else if s == [] then
      []
    else
      [s[0]] + ReplaceAll(s[1..], pattern, replacement)
  }

  /** Replacing a pattern that does not occur leaves the string as it is. */
  lemma {:induction false} ReplaceAllWithoutOccurrence(s: string, pattern: string, replacement: string)
    requires |pattern| > 0
    requires !Contains(s, pattern)
    ensures ReplaceAll(s, pattern, replacement) == s
    decreases |s|
  {
    if s != [] {
      assert !OccursAt(s, pattern, 0);
      if |pattern| <= |s| {
        assert s[..|pattern|] == s[0..0 + |pattern|];
      }
      assert !StartsWith(s, pattern);
      forall i: nat | i <= |s[1..]| && OccursAt(s[1..], pattern, i) ensures OccursAt(s, pattern, i + 1) {
        assert s[1..][i..i + |pattern|] == s[i + 1..i + 1 + |pattern|];
      }
      ReplaceAllWithoutOccurrence(s[1..], pattern, replacement);
    }
  }

  /** An occurrence at the front is replaced and the scan resumes after it. */
  lemma ReplaceAllAtFront(pattern: string, rest: string, replacement: string)
    requires |pattern| > 0
    ensures ReplaceAll(pattern + rest, pattern, replacement) == replacement + ReplaceAll(rest, pattern, replacement)
  {
    assert (pattern + rest)[..|pattern|] == pattern;
    assert (pattern + rest)[|pattern|..] == rest;
  }

  /** A character where the pattern does not start is copied as it is. */
  lemma ReplaceAllSkip(c: char, rest: string, pattern: string, replacement: string)
    requires |pattern| > 0 && !StartsWith([c] + rest, pattern)
    ensures ReplaceAll([c] + rest, pattern, replacement) == [c] + ReplaceAll(rest, pattern, replacement)
  {
    assert ([c] + rest)[1..] == rest;
  }

  lemma StartsWithAfterCommonPrefix(a: string, b: string, c: string)
    ensures StartsWith(a + b, a + c) <==> StartsWith(b, c)
  {
    if |c| <= |b| {
      assert (a + b)[..|a + c|] == a + b[..|c|];
      if (a + b)[..|a + c|] == a + c {
        assert b[..|c|] == (a + b[..|c|])[|a|..] == (a + c)[|a|..] == c;
      }
    }
  }

  /** A suffix without `sep` cannot reach back across a `sep`. */
  lemma EndsWithAfterSeparator(a: string, sep: char, b: string, suffix: string)
    requires sep !in suffix
    ensures EndsWith(a + [sep] + b, suffix) <==> EndsWith(b, suffix)
  {
    var s := a + [sep] + b;
    if |suffix| <= |b| {
      assert s[|s| - |suffix|..] == b[|b| - |suffix|..];
    } else if |suffix| <= |s| {
      var k := |suffix| - |b| - 1;
      assert s[|s| - |suffix|..][k] == sep;
    }
  }

  /** `parts` joined with `sep` between consecutive parts. */
  function Join(parts: seq<string>, sep: string): string {
    if |parts| == 0 then ""
    else if |parts| == 1 then parts[0]
    else parts[0] + sep + Join(parts[1..], sep)
  }

  // ---------------------------------------------------------------- casing

  /** `char.ToUpper` restricted to ASCII letters. */
  function AsciiUpper(c: char): char {
    if 'a' <= c <= 'z' then (c as int - 32) as char else c
  }

  /** `char.ToLower` restricted to ASCII letters. */
  function AsciiLower(c: char): char {
    if 'A' <= c <= 'Z' then (c as int + 32) as char else c
  }

  // ------------------------------------------------------- decimal numbers

  predicate IsDigit(c: char) {
    '0' <= c <= '9'
  }

  predicate AllDigits(s: string) {
    forall i :: 0 <= i < |s| ==> IsDigit(s[i])
  }

  function DigitChar(d: nat): (c: char)
    requires d < 10
    ensures IsDigit(c) && c as int - '0' as int == d
  {
    ('0' as int + d) as char
  }

  /** `n.ToString()` for an unsigned integer: decimal digits, no sign, no leading zero. */
  function NatToDecimal(n: nat): (r: string)
    ensures |r| > 0 && AllDigits(r)
    ensures |r| > 1 ==> r[0] != '0'
    decreases n
  {
    if n < 10 then [DigitChar(n)] else NatToDecimal(n / 10) + [DigitChar(n % 10)]
  }

  /** The number a string of decimal digits denotes. */
  function DecimalValue(s: string): nat
    requires AllDigits(s)
  {
    if s == [] then 0 else DecimalValue(s[..|s| - 1]) * 10 + (s[|s| - 1] as int - '0' as int)
  }

  /** The decimal rendering reads back as the number rendered. */
  lemma {:induction false} DecimalRoundTrip(n: nat)
    ensures DecimalValue(NatToDecimal(n)) == n
    decreases n
  {
    var r := NatToDecimal(n);
    if n >= 10 {
      DecimalRoundTrip(n / 10);
      assert r[..|r| - 1] == NatToDecimal(n / 10);
    }
  }

  lemma DecimalExamples()
    ensures NatToDecimal(10) == "10" && NatToDecimal(18) == "18" && NatToDecimal(16) == "16"
  {
    assert NatToDecimal(1) == "1";
  }
}
