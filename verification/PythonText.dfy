/** White space of a text, as Python's strings and patterns know it. */
module PythonText {

  predicate IsSpace(c: char) {
    || c == ' ' || '\t' <= c <= '\r' || '\U{1C}' <= c <= '\U{1F}' || c == '\U{85}' || c == '\U{A0}' || c == '\U{1680}'
    || '\U{2000}' <= c <= '\U{200A}' || c == '\U{2028}' || c == '\U{2029}' || c == '\U{202F}' || c == '\U{205F}' || c == '\U{3000}'
  }

  /** The text without the white space it starts with. */
  function Skip(s: string): (rest: string)
    ensures |rest| <= |s|
  {
    if s != "" && IsSpace(s[0]) then Skip(s[1..]) else s
  }

  /** The text without the white space it ends with. */
  function SkipEnd(s: string): string {
    if s != "" && IsSpace(s[|s| - 1]) then SkipEnd(s[..|s| - 1]) else s
  }

  predicate IsBlank(s: string) {
    forall i :: 0 <= i < |s| ==> IsSpace(s[i])
  }

  // ---- Lines ----

  /** The characters a text is split into lines at. */
  predicate IsBreak(c: char) {
    '\n' <= c <= '\r' || '\U{1C}' <= c <= '\U{1E}' || c == '\U{85}' || c == '\U{2028}' || c == '\U{2029}'
  }

  function ToBreak(s: string): (n: nat)
    ensures n <= |s| && (n < |s| ==> IsBreak(s[n]))
  {
    if s == "" || IsBreak(s[0]) then 0 else 1 + ToBreak(s[1..])
  }

  /** A text's lines; a carriage return and a line feed are one break. */
  function SplitLines(text: string): seq<string>
    decreases |text|
  {
    if text == "" then []
    else
      var n := ToBreak(text);
      if n == |text| then [text]
      else [text[..n]] + SplitLines(text[n + if n + 1 < |text| && text[n] == '\r' && text[n + 1] == '\n' then 2 else 1..])
  }

  function JoinLines(lines: seq<string>): string {
    if lines == [] then "" else lines[0] + ("\n" + JoinLines(lines[1..]))
  }

  predicate HasBreak(s: string) {
    exists i :: 0 <= i < |s| && IsBreak(s[i])
  }

  predicate NoBreaks(lines: seq<string>) {
    forall line :: line in lines ==> !HasBreak(line)
  }

  lemma {:induction false} ToBreakOf(line: string, rest: string)
    requires !HasBreak(line)
    ensures ToBreak(line + ("\n" + rest)) == |line|
  {
    if line == "" {
      assert line + ("\n" + rest) == "\n" + rest;
    } else {
      assert !IsBreak(line[0]) && forall i :: 0 <= i < |line[1..]| ==> line[1..][i] == line[i + 1];
      ToBreakOf(line[1..], rest);
      assert (line + ("\n" + rest))[1..] == line[1..] + ("\n" + rest);
    }
  }

  lemma SplitFirst(line: string, rest: string)
    requires !HasBreak(line)
    ensures SplitLines(line + ("\n" + rest)) == [line] + SplitLines(rest)
  {
    ToBreakOf(line, rest);
    hide ToBreak, HasBreak, IsBreak;
    var text := line + ("\n" + rest);
    assert text[|line|] == '\n' && text[|line| + 1..] == rest;
    assert text[..|line|] == line;
  }

  /** Lines without a break in them are split as they were joined. */
  lemma {:induction false} SplitJoined(lines: seq<string>)
    requires NoBreaks(lines)
    ensures SplitLines(JoinLines(lines)) == lines
  {
    if lines != [] {
      assert lines[0] in lines && forall l :: l in lines[1..] ==> l in lines;
      hide HasBreak, SplitLines;
      SplitFirst(lines[0], JoinLines(lines[1..]));
      SplitJoined(lines[1..]);
      assert lines == [lines[0]] + lines[1..];
    }
  }
}
