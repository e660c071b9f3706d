/**
 * The re-indentation step of `GenerateCode`: when a nested type or enum
 * is generated at depth `ident > 0`, the rendered text is read back line by
 * line with a `StringReader` and every line is written again behind
 * `ident` copies of a four-space indent, followed by `Environment.NewLine`
 * (fixed as "\n" here).
 */
module Reindent {

  const NewLine: string := "\n"
  const IndentUnit: string := "    "

  predicate IsLineBreak(c: char) {
    c == '\r' || c == '\n'
  }

  /** The number of characters before the first line break of `s`. */
  function LineLength(s: string): (n: nat)
    ensures n <= |s|
    ensures forall k :: 0 <= k < n ==> !IsLineBreak(s[k])
    ensures n < |s| ==> IsLineBreak(s[n])
  {
    if s == [] || IsLineBreak(s[0]) then 0 else 1 + LineLength(s[1..])
  }

  /** The length of the line terminator at `n`; `\r\n` is one terminator. */
  function TerminatorLength(s: string, n: nat): nat
    requires n <= |s|
  {
    if n == |s| then 0
    else if s[n] == '\r' && n + 1 < |s| && s[n + 1] == '\n' then 2
    else 1
  }

  /**
   * The lines `StringReader.ReadLine` yields while `Peek() > 0`: reading
   * stops at the end of the text or before a line that begins with NUL.
   */
  function ReaderLines(s: string): (r: seq<string>)
    ensures |r| <= |s|
    decreases |s|
  {
    if s == [] || s[0] == '\0' then []
    else
      var n := LineLength(s);
      [s[..n]] + ReaderLines(s[n + TerminatorLength(s, n)..])
  }

  /** `ident` times the four-space indent. */
  function IndentPrefix(ident: nat): (r: string)
    ensures |r| == 4 * ident
    ensures forall k :: 0 <= k < |r| ==> r[k] == ' '
  {
    if ident == 0 then "" else IndentPrefix(ident - 1) + IndentUnit
  }

  /** Each line behind `prefix` and followed by a newline. */
  function IndentLines(lines: seq<string>, prefix: string): string {
    if lines == [] then "" else prefix + lines[0] + NewLine + IndentLines(lines[1..], prefix)
  }

  /** What the re-indent loop of `GenerateCode` builds from the rendered text. */
  function IndentedText(s: string, ident: nat): string {
    IndentLines(ReaderLines(s), IndentPrefix(ident))
  }

  /** Concatenation regrouped; a proof aid that keeps the loop proof of `GenerateCode` small. */
  lemma Regroup(a: string, b: string, c: string, d: string, e: string)
    ensures a + (b + c + d + e) == (a + b) + c + d + e
  {
  }

  /** One step of the loop at `pos`: the first line read there, then the text after its terminator. */
  lemma IndentFirstLine(s: string, pos: nat, prefix: string)
    requires pos < |s| && s[pos] != '\0'
    ensures var rest := s[pos..];
            var n := LineLength(rest);
            var next := pos + n + TerminatorLength(rest, n);
            && pos < next <= |s|
            && IndentLines(ReaderLines(rest), prefix) ==
                 prefix + rest[..n] + NewLine + IndentLines(ReaderLines(s[next..]), prefix)
  {
    var rest := s[pos..];
    var n := LineLength(rest);
    assert rest[n + TerminatorLength(rest, n)..] == s[pos + n + TerminatorLength(rest, n)..];
  }

  /**
   * `GenerateCode` after rendering: the text itself when `ident <= 0`, the
   * re-indented text otherwise.
   */
  method GenerateCode(rendered: string, ident: int) returns (result: string)
    ensures ident <= 0 ==> result == rendered
    ensures ident > 0 ==> result == IndentedText(rendered, ident)
  {
    if ident > 0 {
      var pos := 0;
      var final := "";
      while pos < |rendered| && rendered[pos] != '\0'
        invariant pos <= |rendered|
        invariant final + IndentLines(ReaderLines(rendered[pos..]), IndentPrefix(ident)) == IndentedText(rendered, ident)
        decreases |rendered| - pos
      {
        ghost var before := final;
        final := AppendIndent(final, ident);
        var rest := rendered[pos..];
        var n := LineLength(rest);
        var line := rest[..n];
        var next := pos + n + TerminatorLength(rest, n);
        IndentFirstLine(rendered, pos, IndentPrefix(ident));
        ghost var later := IndentLines(ReaderLines(rendered[next..]), IndentPrefix(ident));
        Regroup(before, IndentPrefix(ident), line, NewLine, later);
        final := final + line + NewLine;
        pos := next;
      }
      assert ReaderLines(rendered[pos..]) == [];
      result := final;
    } else {
      result := rendered;
    }
  }

  /** The inner loop of the re-indent step: `ident` indents appended to `text`. */
  method AppendIndent(text: string, ident: nat) returns (r: string)
    ensures r == text + IndentPrefix(ident)
  {
    r := text;
    for i := 0 to ident
      invariant r == text + IndentPrefix(i)
    {
      r := r + IndentUnit;
    }
  }

  /** A newline after a final unterminated line adds no line. */
  lemma {:induction false} TrailingNewlineAddsNoLine(s: string)
    requires |s| > 0 && s[|s| - 1] != '\n'
    ensures ReaderLines(s + "\n") == ReaderLines(s)
    decreases |s|
  {
    if s[0] != '\0' {
      var n := LineLength(s);
      if n == |s| {
        WholeLineGainsNoLine(s);
      } else if s[n] == '\r' && n + 1 == |s| {
        CarriageReturnAtEnd(s);
      } else {
        var t := FirstLineKept(s);
        var rest := s[n + t..];
        TrailingNewlineAddsNoLine(rest);
        assert ReaderLines(s + "\n") == [s[..n]] + ReaderLines(rest + "\n") == [s[..n]] + ReaderLines(rest);
      }
    } else {
      NulStartReadsNothing(s, "\n");
      NulStartReadsNothing(s, "");
      assert s + "" == s;
    }
  }

  /** Reading stops at once before a NUL, whatever follows. */
  lemma NulStartReadsNothing(s: string, t: string)
    requires |s| > 0 && s[0] == '\0'
    ensures ReaderLines(s + t) == []
  {
    assert (s + t)[0] == '\0';
  }

  /** A text with no line break, ended by a newline, is still read as one line. */
  lemma WholeLineGainsNoLine(s: string)
    requires |s| > 0 && s[0] != '\0' && LineLength(s) == |s|
    ensures ReaderLines(s + "\n") == ReaderLines(s) == [s]
  {
    var s' := s + "\n";
    var n := |s|;
    LineLengthOfExtension(s, "\n");
    assert LineLength("\n") == 0;
    assert s'[0] == s[0] && LineLength(s') == n;
    assert s'[..n] == s && TerminatorLength(s', n) == 1 && s'[n + 1..] == [];
    assert ReaderLines(s') == [s] + ReaderLines([]);
    assert TerminatorLength(s, n) == 0 && s[..n] == s && s[n..] == [];
  }

  /** A final `\r` and the `\r\n` a newline makes of it end the same single line. */
  lemma CarriageReturnAtEnd(s: string)
    requires |s| > 0 && s[0] != '\0' && LineLength(s) + 1 == |s| && s[|s| - 1] == '\r'
    ensures ReaderLines(s + "\n") == ReaderLines(s)
  {
    var s' := s + "\n";
    var n := LineLength(s);
    LineLengthOfExtension(s, "\n");
    assert s'[0] == s[0] && s'[..n] == s[..n];
    assert TerminatorLength(s', n) == 2 && s'[n + 2..] == [];
    assert TerminatorLength(s, n) == 1 && s[n + 1..] == [];
  }

  /**
   * When the first line ends before the last character, a trailing newline
   * leaves that line and its terminator alone; the returned terminator length
   * `t` leaves a non-empty rest that does not end in a newline.
   */
  lemma FirstLineKept(s: string) returns (t: nat)
    requires |s| > 0 && s[0] != '\0' && s[|s| - 1] != '\n'
    requires LineLength(s) < |s| && !(s[LineLength(s)] == '\r' && LineLength(s) + 1 == |s|)
    ensures var n := LineLength(s);
            && t == TerminatorLength(s, n) && n + t < |s|
            && ReaderLines(s) == [s[..n]] + ReaderLines(s[n + t..])
            && ReaderLines(s + "\n") == [s[..n]] + ReaderLines(s[n + t..] + "\n")
  {
    var s' := s + "\n";
    var n := LineLength(s);
    t := TerminatorLength(s, n);
    LineLengthOfExtension(s, "\n");
    assert s'[0] == s[0] && s'[..n] == s[..n];
    assert TerminatorLength(s', n) == t && n + t <= |s|;
    DropOfAppend(s, "\n", n + t);
  }

  lemma DropOfAppend(a: string, b: string, i: nat)
    requires i <= |a|
    ensures (a + b)[i..] == a[i..] + b
  {
  }

  /** Text after the first line break does not move that line break. */
  lemma {:induction false} LineLengthOfExtension(s: string, t: string)
    ensures LineLength(s) < |s| ==> LineLength(s + t) == LineLength(s)
    ensures LineLength(s) == |s| ==> LineLength(s + t) == |s| + LineLength(t)
  {
    if s != [] && !IsLineBreak(s[0]) {
      assert (s + t)[1..] == s[1..] + t;
      LineLengthOfExtension(s[1..], t);
    } else if s == [] {
      assert s + t == t;
    }
  }

  /** `reindent("a\nb\n", 2)` and `reindent("a\nb", 2)` both give the two lines indented by eight spaces. */
  lemma ReindentExample()
    ensures IndentedText("a\nb\n", 2) == "        a\n        b\n"
    ensures IndentedText("a\nb", 2) == "        a\n        b\n"
  {
    ExampleLines();
    TrailingNewlineAddsNoLine("a\nb");
    ReindentStringFacts();
    assert IndentPrefix(2) == "        ";
    TwoLines("a", "b", "        ");
  }

  lemma TwoLines(x: string, y: string, prefix: string)
    ensures IndentLines([x, y], prefix) == prefix + x + NewLine + (prefix + y + NewLine)
  {
    assert [x, y][1..] == [y];
    assert [y][1..] == [];
    var last := prefix + y + NewLine;
    assert IndentLines([y], prefix) == last + "" == last;
  }

  /**
   * The string facts the re-indent example relies on, stated apart from it
   * so that its proof does not unfold `ReaderLines` on literals.
   */
  lemma ReindentStringFacts()
    ensures "a\nb" + "\n" == "a\nb\n"
    ensures "        " + "a" + "\n" + ("        " + "b" + "\n") == "        a\n        b\n"
  {
  }

  lemma ExampleLines()
    ensures ReaderLines("a\nb") == ["a", "b"]
  {
    assert LineLength("b") == 1 by { assert LineLength("b"[1..]) == 0; }
    assert LineLength("a\nb") == 1 by { assert "a\nb"[1..] == "\nb"; }
    assert TerminatorLength("a\nb", 1) == 1;
    assert "a\nb"[2..] == "b" && "a\nb"[..1] == "a";
    assert ReaderLines("b") == ["b"] by {
      assert TerminatorLength("b", 1) == 0;
      assert "b"[1..] == [] && "b"[..1] == "b";
    }
  }

  /** A line without line breaks, ended by "\n", is read back as that line. */
  lemma ReadBackLine(x: string, rest: string)
    requires forall k :: 0 <= k < |x| ==> !IsLineBreak(x[k])
    requires x == [] || x[0] != '\0'
    ensures ReaderLines(x + NewLine + rest) == [x] + ReaderLines(rest)
  {
    var s := x + NewLine + rest;
    LineLengthOfExtension(x, NewLine + rest);
    assert x + NewLine + rest == x + (NewLine + rest);
    assert LineLength(NewLine + rest) == 0;
    assert s[..|x|] == x;
    assert s[|x| + 1..] == rest;
  }

  /** No line read contains a line break. */
  lemma {:induction false} ReaderLinesHaveNoBreaks(s: string)
    ensures forall i, k :: 0 <= i < |ReaderLines(s)| && 0 <= k < |ReaderLines(s)[i]| ==> !IsLineBreak(ReaderLines(s)[i][k])
    decreases |s|
  {
    if s != [] && s[0] != '\0' {
      var n := LineLength(s);
      ReaderLinesHaveNoBreaks(s[n + TerminatorLength(s, n)..]);
    }
  }

  /** Reading indented text back yields the lines with their indent. */
  lemma {:induction false} ReadBackIndented(lines: seq<string>, prefix: string)
    requires prefix != [] && prefix[0] != '\0'
    requires forall k :: 0 <= k < |prefix| ==> !IsLineBreak(prefix[k])
    requires forall i, k :: 0 <= i < |lines| && 0 <= k < |lines[i]| ==> !IsLineBreak(lines[i][k])
    ensures ReaderLines(IndentLines(lines, prefix)) == seq(|lines|, i requires 0 <= i < |lines| => prefix + lines[i])
  {
    if lines != [] {
      ReadBackIndented(lines[1..], prefix);
      var x := prefix + lines[0];
      assert prefix + lines[0] + NewLine + IndentLines(lines[1..], prefix) == x + NewLine + IndentLines(lines[1..], prefix);
      ReadBackLine(x, IndentLines(lines[1..], prefix));
    }
  }

  lemma IndentPrefixAdds(a: nat, b: nat)
    ensures IndentPrefix(b) + IndentPrefix(a) == IndentPrefix(a + b)
  {
  }

  lemma {:induction false} IndentLinesOfIndented(lines: seq<string>, a: nat, b: nat)
    ensures IndentLines(seq(|lines|, i requires 0 <= i < |lines| => IndentPrefix(a) + lines[i]), IndentPrefix(b))
            == IndentLines(lines, IndentPrefix(a + b))
  {
    var indented := seq(|lines|, i requires 0 <= i < |lines| => IndentPrefix(a) + lines[i]);
    if lines != [] {
      IndentPrefixAdds(a, b);
      assert indented[1..] == seq(|lines[1..]|, i requires 0 <= i < |lines[1..]| => IndentPrefix(a) + lines[1..][i]);
      IndentLinesOfIndented(lines[1..], a, b);
    }
  }

  /**
   * Embedding already indented output one level deeper composes: indenting
   * by `a` and then by `b` is indenting by `a + b`.
   */
  lemma IndentationComposes(s: string, a: nat, b: nat)
    requires a > 0 && b > 0
    ensures IndentedText(IndentedText(s, a), b) == IndentedText(s, a + b)
  {
    ReaderLinesHaveNoBreaks(s);
    ReadBackIndented(ReaderLines(s), IndentPrefix(a));
    IndentLinesOfIndented(ReaderLines(s), a, b);
  }
}
