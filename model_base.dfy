/**
 * The casing helpers every template model inherits from `ModelBase`:
 * `ToUpperCamel` and `ToSmallCamel` change the case of the first character
 * and keep the rest.  Case mapping is restricted to ASCII letters.
 */
module ModelBase {
  import opened Strings

  predicate IsAsciiLowerLetter(c: char) {
    'a' <= c <= 'z'
  }

  predicate IsAsciiUpperLetter(c: char) {
    'A' <= c <= 'Z'
  }

  /** `ToUpperCamel(val)`: the first character upper-cased; the empty string as it is. */
  function ToUpperCamel(val: string): (r: string)
    ensures |r| == |val|
    ensures forall k :: 1 <= k < |val| ==> r[k] == val[k]
    ensures val != [] ==> !IsAsciiLowerLetter(r[0]) && (IsAsciiLowerLetter(val[0]) || r[0] == val[0])
  {
    if val != [] then [AsciiUpper(val[0])] + val[1..] else val
  }

  /** `ToSmallCamel(val)`: the first character lower-cased; the empty string as it is. */
  function ToSmallCamel(val: string): (r: string)
    ensures |r| == |val|
    ensures forall k :: 1 <= k < |val| ==> r[k] == val[k]
    ensures val != [] ==> !IsAsciiUpperLetter(r[0]) && (IsAsciiUpperLetter(val[0]) || r[0] == val[0])
  {
    if val != [] then [AsciiLower(val[0])] + val[1..] else val
  }

  /** Upper-casing and lower-casing an ASCII letter undo each other. */
  lemma CaseRoundTrip(c: char)
    ensures IsAsciiLowerLetter(c) ==> AsciiLower(AsciiUpper(c)) == c && IsAsciiUpperLetter(AsciiUpper(c))
    ensures IsAsciiUpperLetter(c) ==> AsciiUpper(AsciiLower(c)) == c && IsAsciiLowerLetter(AsciiLower(c))
  {
  }

  lemma ToUpperCamelIdempotent(val: string)
    ensures ToUpperCamel(ToUpperCamel(val)) == ToUpperCamel(val)
  {
  }

  lemma ToSmallCamelIdempotent(val: string)
    ensures ToSmallCamel(ToSmallCamel(val)) == ToSmallCamel(val)
  {
  }

  /**
   * Only the first character matters to the other helper: lower-casing an
   * upper-cased name is lower-casing the name, and vice versa.
   */
  lemma CamelAbsorbs(val: string)
    ensures ToSmallCamel(ToUpperCamel(val)) == ToSmallCamel(val)
    ensures ToUpperCamel(ToSmallCamel(val)) == ToUpperCamel(val)
  {
    if val != [] {
      CaseRoundTrip(val[0]);
    }
  }

  /** A name that starts with a lower-case letter survives `ToUpperCamel` then `ToSmallCamel`. */
  lemma CamelRoundTrip(val: string)
    requires val != [] && IsAsciiLowerLetter(val[0])
    ensures ToSmallCamel(ToUpperCamel(val)) == val
  {
    CaseRoundTrip(val[0]);
    assert [val[0]] + val[1..] == val;
  }

  lemma CamelExamples()
    ensures ToUpperCamel("fooBar") == "FooBar"
    ensures ToSmallCamel("FooBar") == "fooBar"
    ensures ToUpperCamel("_x") == "_x"
    ensures ToUpperCamel("") == ""
  {
    assert "fooBar"[1..] == "ooBar";
    assert "FooBar"[1..] == "ooBar";
    assert "_x"[1..] == "x";
  }
}
