/** The string operations of Go's standard library that the patch engine relies
    on: splitting into lines, joining, and trimming. A string is a sequence of
    Unicode characters. */
module Text {

  predicate HasPrefix(s: string, prefix: string) {
    prefix <= s
  }

  predicate HasAnyPrefix(s: string, prefixes: seq<string>) {
    exists k :: 0 <= k < |prefixes| && HasPrefix(s, prefixes[k])
  }

  /** True of a line: it holds no line break. */
  predicate OneLine(s: string) {
    '\n' !in s
  }

  predicate AllOneLine(lines: seq<string>) {
    forall k :: 0 <= k < |lines| ==> OneLine(lines[k])
  }

  function Join(lines: seq<string>): string {
    if |lines| == 0 then ""
    else if |lines| == 1 then lines[0]
    else lines[0] + "\n" + Join(lines[1..])
  }

  /** The pieces between line breaks; the contract leaves only one answer (see SplitJoin). */
  function Split(text: string): (lines: seq<string>)
    ensures |lines| >= 1
    ensures AllOneLine(lines)
    ensures Join(lines) == text
  {
    if text == "" then [""]
    else
      var rest := Split(text[1..]);
      if text[0] == '\n' then
        assert ([""] + rest)[1..] == rest;
        [""] + rest
      else
        var lines := [[text[0]] + rest[0]] + rest[1..];
        assert lines[1..] == rest[1..];
        lines
  }

  lemma {:induction false} SplitLine(line: string)
    requires OneLine(line)
    ensures Split(line) == [line]
  {
    if line != "" {
      SplitLine(line[1..]);
    }
  }

  lemma {:induction false} SplitAtBreak(line: string, rest: string)
    requires OneLine(line)
    ensures Split(line + "\n" + rest) == [line] + Split(rest)
  {
    var text := line + "\n" + rest;
    if line == "" {
      assert text[1..] == rest;
    } else {
      assert text[1..] == line[1..] + "\n" + rest;
      SplitAtBreak(line[1..], rest);
      assert line == [line[0]] + line[1..];
      assert ([line[1..]] + Split(rest))[1..] == Split(rest);
    }
  }

  /** Splitting undoes joining, so joined text determines its lines. */
  lemma {:induction false} SplitJoin(lines: seq<string>)
    requires |lines| >= 1 && AllOneLine(lines)
    ensures Split(Join(lines)) == lines
  {
    if |lines| == 1 {
      SplitLine(lines[0]);
    } else {
      SplitAtBreak(lines[0], Join(lines[1..]));
      SplitJoin(lines[1..]);
      assert lines == [lines[0]] + lines[1..];
    }
  }

  /** Go's unicode.IsSpace. */
  predicate IsSpace(c: char) {
    var n := c as int;
    || 0x09 <= n <= 0x0D || n == 0x20 || n == 0x85 || n == 0xA0 || n == 0x1680
    || 0x2000 <= n <= 0x200A || n == 0x2028 || n == 0x2029 || n == 0x202F || n == 0x205F || n == 0x3000
  }

  /** The cut set " \t". */
  predicate IsBlank(c: char) {
    c == ' ' || c == '\t'
  }

  function TrimRight(s: string, cut: char -> bool): (r: string)
    ensures r <= s
    ensures r != "" ==> !cut(r[|r| - 1])
    ensures forall i :: |r| <= i < |s| ==> cut(s[i])
  {
    if s != "" && cut(s[|s| - 1]) then TrimRight(s[..|s| - 1], cut) else s
  }

  function TrimLeft(s: string, cut: char -> bool): (r: string)
    ensures |r| <= |s| && r == s[|s| - |r|..]
    ensures r != "" ==> !cut(r[0])
    ensures forall i :: 0 <= i < |s| - |r| ==> cut(s[i])
  {
    if s != "" && cut(s[0]) then TrimLeft(s[1..], cut) else s
  }

  function TrimSpace(s: string): string {
    TrimLeft(TrimRight(s, IsSpace), IsSpace)
  }

  predicate AllSpace(s: string) {
    forall i :: 0 <= i < |s| ==> IsSpace(s[i])
  }

  lemma RightCut(s: string) returns (after: string)
    ensures
      var r := TrimRight(s, IsSpace);
      s == r + after && AllSpace(after) && (r != "" ==> !IsSpace(r[|r| - 1]))
  {
    var r := TrimRight(s, IsSpace);
    after := s[|r|..];
    hide TrimRight, IsSpace;
  }

  lemma LeftCut(s: string) returns (before: string)
    ensures
      var r := TrimLeft(s, IsSpace);
      s == before + r && AllSpace(before) && (r != "" ==> !IsSpace(r[0]))
  {
    var r := TrimLeft(s, IsSpace);
    before := s[..|s| - |r|];
    hide TrimLeft, IsSpace;
  }

  /** White space is cut off on both sides, and nothing else. */
  lemma TrimSpaceMeans(s: string) returns (before: string, after: string)
    ensures s == before + TrimSpace(s) + after && AllSpace(before) && AllSpace(after)
    ensures
      var r := TrimSpace(s);
      r != "" ==> !IsSpace(r[0]) && !IsSpace(r[|r| - 1])
  {
    hide TrimLeft, TrimRight, IsSpace, AllSpace;
    after := RightCut(s);
    before := LeftCut(TrimRight(s, IsSpace));
  }

  /** Text that neither starts nor ends with white space is left alone. */
  lemma TrimSpaceTight(s: string)
    requires s != "" && !IsSpace(s[0]) && !IsSpace(s[|s| - 1])
    ensures TrimSpace(s) == s
  {
    assert TrimRight(s, IsSpace) == s;
  }

  /** The contract of TrimRight leaves one answer. */
  lemma {:induction false} TrimRightUnique(s: string, r: string, cut: char -> bool)
    requires r <= s && (r != "" ==> !cut(r[|r| - 1])) && forall i :: |r| <= i < |s| ==> cut(s[i])
    ensures TrimRight(s, cut) == r
  {
    if |r| < |s| {
      TrimRightUnique(s[..|s| - 1], r, cut);
    }
  }

  /** Trimming blanks on the right first does not change the fully trimmed text. */
  lemma TrimSpaceAbsorbsBlanks(s: string)
    ensures TrimSpace(TrimRight(s, IsBlank)) == TrimSpace(s)
  {
    hide TrimRight;
    var b := TrimRight(s, IsBlank);
    var r := TrimRight(b, IsSpace);
    forall i | |r| <= i < |s|
      ensures IsSpace(s[i])
    {
      if i < |b| {
        assert b[i] == s[i];
      }
    }
    TrimRightUnique(s, r, IsSpace);
  }
}
