/** What a translation file is read back as: its own entries, unless a key or text looks like an entry itself. */
module LegacyRoundTrip {
  import opened LegacyFile
  import opened LegacyText
  import opened PythonText
  import opened Wrappers

  /** The characters of a mark. */
  lemma MarkChars(name: string)
    requires IsName(name)
    ensures forall c :: c in Mark(name) ==> c == '$' || c == '[' || 'A' <= c <= 'Z' || c == '_'
    ensures Mark(name)[0] == '$'
  {
  }

  lemma {:induction false} NoDollar(s: string, mark: string)
    requires mark != "" && mark[0] !in s
    ensures Count(s, mark) == 0
  {
    if s != "" {
      assert mark[0] != s[0];
      NoDollar(s[1..], mark);
    }
  }

  lemma {:induction false} TooShort(s: string, mark: string)
    requires |s| < |mark|
    ensures Count(s, mark) == 0
  {
    if s != "" {
      TooShort(s[1..], mark);
    }
  }

  /** A piece of the header and the character after it are read past. */
  lemma ReadPiece(p: string, c: char, rest: string, name: string)
    requires IsName(name) && (p == Dollar(name) || '$' !in p) && c !in Mark(name)
    ensures Read(p + ([c] + rest), name) == Reading(Read(rest, name).entries, p + ([c] + Read(rest, name).rest))
    ensures Count(p + ([c] + rest), Mark(name)) == Count(rest, Mark(name))
  {
    MarkChars(name);
    if p == Dollar(name) {
      TooShort(p, Mark(name));
    } else {
      NoDollar(p, Mark(name));
    }
    ReadPast(p, c, rest, name);
    CountCut(p, c, rest, Mark(name));
  }

  lemma ReadOn(c: char, rest: string, name: string)
    requires c != '$'
    ensures Read([c] + rest, name) == Reading(Read(rest, name).entries, [c] + Read(rest, name).rest)
    ensures Count([c] + rest, Mark(name)) == Count(rest, Mark(name))
  {
    assert ([c] + rest)[0] == c && ([c] + rest)[1..] == rest && Mark(name)[0] == '$';
    hide Literal, AfterParts, Skip;
  }

  /** Text without a dollar sign is read past. */
  lemma {:induction false} ReadWithoutDollar(p: string, rest: string, name: string)
    requires '$' !in p
    ensures Read(p + rest, name) == Reading(Read(rest, name).entries, p + Read(rest, name).rest)
    ensures Count(p + rest, Mark(name)) == Count(rest, Mark(name))
  {
    hide *;
    if p == "" {
      assert p + rest == rest && p + Read(rest, name).rest == Read(rest, name).rest;
    } else {
      assert p + rest == [p[0]] + (p[1..] + rest) && p[0] in p;
      ReadOn(p[0], p[1..] + rest, name);
      ReadWithoutDollar(p[1..], rest, name);
      assert [p[0]] + (p[1..] + Read(rest, name).rest) == p + Read(rest, name).rest;
    }
  }

  lemma ReadDollar(c: char, rest: string, name: string)
    requires IsName(name) && (c == ';' || c == ' ')
    ensures Read(Dollar(name) + ([c] + rest), name) == Reading(Read(rest, name).entries, Dollar(name) + ([c] + Read(rest, name).rest))
    ensures Count(Dollar(name) + ([c] + rest), Mark(name)) == Count(rest, Mark(name))
  {
    MarkChars(name);
    hide *;
    ReadPiece(Dollar(name), c, rest, name);
  }

  /** The array's declaration as it is written. */
  function ArrayLine(name: string, rest: string): string {
    Dollar(name) + (" " + ("=" + (" " + ("array(" + (")" + (";" + ("\n" + rest)))))))
  }

  function GlobalLine(name: string, rest: string): string {
    "global" + (" " + (Dollar(name) + (";" + ("\n" + rest))))
  }

  lemma HeaderIs(name: string, rest: string)
    ensures Header(name, rest) == "<?php" + ("\n" + ("\n" + GlobalLine(name, ArrayLine(name, rest))))
  {
    hide Dollar;
  }

  lemma ReadArrayLine(name: string, rest: string)
    requires IsName(name)
    ensures Read(ArrayLine(name, rest), name) == Reading(Read(rest, name).entries, ArrayLine(name, Read(rest, name).rest))
    ensures Count(ArrayLine(name, rest), Mark(name)) == Count(rest, Mark(name))
  {
    hide Read, Count, Mark, Dollar;
    var d := ")" + (";" + ("\n" + rest));
    ReadWithoutDollar("\n", rest, name);
    ReadWithoutDollar(";", "\n" + rest, name);
    ReadWithoutDollar(")", ";" + ("\n" + rest), name);
    ReadWithoutDollar("array(", d, name);
    ReadWithoutDollar(" ", "array(" + d, name);
    ReadWithoutDollar("=", " " + ("array(" + d), name);
    ReadDollar(' ', "=" + (" " + ("array(" + d)), name);
  }

  lemma ReadGlobalLine(name: string, rest: string)
    requires IsName(name)
    ensures Read(GlobalLine(name, rest), name) == Reading(Read(rest, name).entries, GlobalLine(name, Read(rest, name).rest))
    ensures Count(GlobalLine(name, rest), Mark(name)) == Count(rest, Mark(name))
  {
    hide Read, Count, Mark, Dollar;
    ReadWithoutDollar("\n", rest, name);
    ReadDollar(';', "\n" + rest, name);
    ReadWithoutDollar(" ", Dollar(name) + (";" + ("\n" + rest)), name);
    ReadWithoutDollar("global", " " + (Dollar(name) + (";" + ("\n" + rest))), name);
  }

  /** The header holds no entry and no mark. */
  lemma ReadHeader(name: string, rest: string)
    requires IsName(name)
    ensures Read(Header(name, rest), name) == Reading(Read(rest, name).entries, Header(name, Read(rest, name).rest))
    ensures Count(Header(name, rest), Mark(name)) == Count(rest, Mark(name))
  {
    hide *;
    var a, end := ArrayLine(name, rest), Read(rest, name).rest;
    HeaderIs(name, rest);
    HeaderIs(name, end);
    ReadArrayLine(name, rest);
    ReadGlobalLine(name, a);
    ReadWithoutDollar("\n", GlobalLine(name, a), name);
    ReadWithoutDollar("\n", "\n" + GlobalLine(name, a), name);
    ReadWithoutDollar("<?php", "\n" + ("\n" + GlobalLine(name, a)), name);
  }

  // ---- What is left of a file without its entries ----

  lemma SpaceStartsNone(s: string, name: string)
    requires s != "" && IsSpace(s[0])
    ensures AfterDeclaration(s, name).None? && AfterComment(s).None?
  {
  }

  lemma {:induction false} BlankStays(s: string, name: string)
    requires IsBlank(s)
    ensures WithoutDeclarations(s, name) == s && WithoutComments(s) == s && Skip(s) == ""
  {
    if s != "" {
      assert IsSpace(s[0]) && IsBlank(s[1..]);
      hide AfterDeclaration, AfterComment, IsSpace, IsBlank;
      SpaceStartsNone(s, name);
      BlankStays(s[1..], name);
    }
  }

  lemma BlankBoth(a: string, b: string)
    requires IsBlank(a) && IsBlank(b)
    ensures IsBlank(a + b)
  {
    hide IsSpace;
  }

  lemma NoPrefix(p: string, s: string)
    requires p != "" && s != "" && p[0] != s[0]
    ensures !(p <= s)
  {
  }

  lemma SpaceStays(c: char, rest: string, name: string)
    requires IsSpace(c)
    ensures WithoutDeclarations([c] + rest, name) == [c] + WithoutDeclarations(rest, name)
  {
    var s := [c] + rest;
    assert s[1..] == rest;
    NoPrefix("global", s);
    NoPrefix("<?php", s);
    NoPrefix("?>", s);
    NoPrefix(Dollar(name), s);
  }

  lemma OpeningGoes(rest: string, name: string)
    ensures WithoutDeclarations("<?php" + rest, name) == WithoutDeclarations(rest, name)
  {
    assert ("<?php" + rest)[5..] == rest;
  }

  lemma GlobalGoes(rest: string, name: string)
    requires IsName(name)
    ensures WithoutDeclarations("global" + (" " + (Dollar(name) + (";" + rest))), name) == WithoutDeclarations(rest, name)
  {
    var b := ";" + rest;
    var a := Dollar(name) + b;
    AfterOf("global", " " + a);
    SkipOne(a);
    SkipStops(Dollar(name), b);
    AfterOf(Dollar(name), b);
    SkipStops(";", rest);
    AfterOf(";", rest);
    assert (" " + a)[0] == ' ' && [Dollar(name), ";"][1..] == [";"];
    assert AfterParts(a, [Dollar(name), ";"]) == Some(rest);
    NoPrefix("<?php", "global" + (" " + a));
    NoPrefix("?>", "global" + (" " + a));
    hide Dollar, After, Skip;
  }

  lemma ArrayGoes(rest: string, name: string)
    requires IsName(name)
    ensures WithoutDeclarations(Dollar(name) + (" " + ("=" + (" " + ("array(" + (")" + (";" + rest)))))), name) ==
            WithoutDeclarations(rest, name)
  {
    var e := ";" + rest;
    var d := ")" + e;
    var c := "array(" + d;
    var b := "=" + (" " + c);
    var all := Dollar(name) + (" " + b);
    AfterOf(Dollar(name), " " + b);
    SkipOne(b);
    SkipStops("=", " " + c);
    AfterOf("=", " " + c);
    SkipOne(c);
    SkipStops("array(", d);
    AfterOf("array(", d);
    SkipStops(")", e);
    AfterOf(")", e);
    SkipStops(";", rest);
    AfterOf(";", rest);
    NoPrefix("<?php", all);
    NoPrefix("?>", all);
    NoPrefix("global", all);
    assert After(all, "global").None?;
    hide Dollar, After, Skip;
  }

  /** Of the header nothing but line ends are left. */
  lemma HeaderGoes(rest: string, name: string)
    requires IsName(name)
    ensures WithoutDeclarations(Header(name, rest), name) == "\n\n\n\n" + WithoutDeclarations(rest, name)
  {
    var c := Dollar(name) + (" " + ("=" + (" " + ("array(" + (")" + (";" + ("\n" + rest)))))));
    var b := "global" + (" " + (Dollar(name) + (";" + ("\n" + c))));
    assert Header(name, rest) == "<?php" + ("\n" + ("\n" + b));
    SpaceStays('\n', rest, name);
    ArrayGoes("\n" + rest, name);
    SpaceStays('\n', c, name);
    GlobalGoes("\n" + c, name);
    SpaceStays('\n', b, name);
    SpaceStays('\n', "\n" + b, name);
    OpeningGoes("\n" + ("\n" + b), name);
    hide WithoutDeclarations, Dollar, Header;
  }

  // ---- The round trip ----

  /** How often keys and texts hold what starts an entry. */
  function Marks(es: Entries, name: string): nat {
    if es == [] then 0 else Count(es[0].key, Mark(name)) + Count(es[0].text, Mark(name)) + Marks(es[1..], name)
  }

  lemma CountLine(e: Entry, name: string, rest: string)
    requires IsName(name)
    ensures Count(Line(e, name, rest), Mark(name)) ==
            1 + Count(e.key, Mark(name)) + Count(e.text, Mark(name)) + Count(rest, Mark(name))
  {
    var mark := Mark(name);
    MarkChars(name);
    var end := ";" + ("\n" + rest);
    var c := "'" + (Escaped(e.text) + ("'" + end));
    var b := "]" + (" " + ("=" + (" " + c)));
    var a := "'" + (Escaped(e.key) + ("'" + b));
    assert Line(e, name, rest) == mark + a && (mark + a)[|mark|..] == a;
    CountEscaped(e.key, mark);
    CountEscaped(e.text, mark);
    CountCut("", QUOTE, Escaped(e.key) + ("'" + b), mark);
    CountCut(Escaped(e.key), QUOTE, b, mark);
    NoDollar("]", mark);
    CountCut("]", ' ', "=" + (" " + c), mark);
    NoDollar("=", mark);
    CountCut("=", ' ', c, mark);
    CountCut("", QUOTE, Escaped(e.text) + ("'" + end), mark);
    CountCut(Escaped(e.text), QUOTE, end, mark);
    NoDollar(";", mark);
    CountCut(";", '\n', rest, mark);
    assert Count(mark + a, mark) == 1 + Count(a, mark);
    hide Escaped, Mark, Line;
    assert "" + ([QUOTE] + (Escaped(e.key) + ("'" + b))) == a && "" + ([QUOTE] + (Escaped(e.text) + ("'" + end))) == c;
  }

  function LineEnds(n: nat): (s: string)
    ensures IsBlank(s)
  {
    if n == 0 then "" else "\n" + LineEnds(n - 1)
  }

  lemma {:induction false} CountLines(es: Entries, name: string)
    requires IsName(name)
    ensures Count(Lines(es, name), Mark(name)) == |es| + Marks(es, name)
  {
    if es != [] {
      CountLines(es[1..], name);
      CountLine(es[0], name, Lines(es[1..], name));
      hide Count, Line, Mark;
    }
  }

  lemma {:induction false} ReadLines(es: Entries, name: string)
    requires IsName(name)
    ensures Read(Lines(es, name), name) == Reading(es, LineEnds(|es|))
  {
    if es != [] {
      var e, rest := es[0], Lines(es[1..], name);
      assert Lines(es, name) == Line(e, name, rest) && LineEnds(|es|) == "\n" + LineEnds(|es| - 1);
      MarkChars(name);
      assert '\n' !in Mark(name) && "" + (['\n'] + rest) == "\n" + rest && es == [e] + es[1..];
      NoDollar("", Mark(name));
      hide *;
      ReadLines(es[1..], name);
      EntryOfLine(e, name, rest);
      ReadPast("", '\n', rest, name);
      ReadEntry(Line(e, name, rest), name, e, "\n" + rest);
      assert "" + (['\n'] + LineEnds(|es| - 1)) == "\n" + LineEnds(|es| - 1);
    }
  }

  lemma ReadEntry(s: string, name: string, e: Entry, rest: string)
    requires EntryAt(s, name) == Some((e, rest))
    ensures Read(s, name) == Reading([e] + Read(rest, name).entries, Read(rest, name).rest)
  {
    hide EntryAt;
  }

  lemma {:induction false} PutNew(es: Entries, key: string, text: string)
    requires !HasKey(es, key)
    ensures Put(es, key, text) == es + [Entry(key, text)]
  {
    if es != [] {
      assert es[0] in es;
      assert forall e :: e in es[1..] ==> e in es;
      PutNew(es[1..], key, text);
    }
  }

  lemma {:induction false} NoKeyTwiceStart(es: Entries)
    requires NoKeyTwice(es) && es != []
    ensures NoKeyTwice(es[..|es| - 1]) && !HasKey(es[..|es| - 1], es[|es| - 1].key)
  {
    if |es| > 1 {
      NoKeyTwiceStart(es[1..]);
      assert es[..|es| - 1][1..] == es[1..][..|es| - 2];
      assert es[|es| - 1] in es[1..];
      assert forall e :: e in es[1..][..|es| - 2] ==> e in es[1..];
    }
  }

  lemma {:induction false} CollectedAgain(es: Entries)
    requires NoKeyTwice(es)
    ensures Collected(es) == es
  {
    if es != [] {
      var front := es[..|es| - 1];
      NoKeyTwiceStart(es);
      CollectedAgain(front);
      PutNew(front, es[|es| - 1].key, es[|es| - 1].text);
      assert es == front + [es[|es| - 1]];
    }
  }

  predicate Contains(s: string, mark: string) {
    exists i :: 0 <= i <= |s| && StartsWith(s[i..], mark)
  }

  /** Nothing is counted exactly when a text does not contain the mark. */
  lemma {:induction false} CountNone(s: string, mark: string)
    requires mark != ""
    ensures Count(s, mark) == 0 <==> !Contains(s, mark)
    decreases |s|
  {
    if s == "" {
    } else if StartsWith(s, mark) {
      assert s[0..] == s;
    } else {
      CountNone(s[1..], mark);
      if Contains(s, mark) {
        var i :| 0 <= i <= |s| && StartsWith(s[i..], mark);
        assert s[0..] == s && s[i..] == s[1..][i - 1..];
      }
      if Contains(s[1..], mark) {
        var i :| 0 <= i <= |s[1..]| && StartsWith(s[1..][i..], mark);
        assert s[i + 1..] == s[1..][i..];
      }
    }
  }

  /** Neither the key nor the text holds what starts an entry. */
  predicate MarkFree(e: Entry, name: string) {
    !Contains(e.key, Mark(name)) && !Contains(e.text, Mark(name))
  }

  lemma {:induction false} MarksNone(es: Entries, name: string)
    ensures Marks(es, name) == 0 <==> forall e :: e in es ==> MarkFree(e, name)
  {
    if es != [] {
      MarksNone(es[1..], name);
      CountNone(es[0].key, Mark(name));
      CountNone(es[0].text, Mark(name));
      assert forall e :: e in es <==> e == es[0] || e in es[1..];
      assert es[0] in es;
      hide Count, Contains, Mark;
    }
  }

  lemma ParsedOf(text: string, name: string, es: seq<Entry>, rest: string)
    requires Read(text, name) == Reading(es, rest)
    ensures Parsed(text, name) ==
            if Skip(WithoutComments(WithoutDeclarations(rest, name))) == "" && Count(text, Mark(name)) == |es|
            then Some(Collected(es)) else None
  {
    hide Read, Skip, WithoutComments, WithoutDeclarations, Count, Mark, Collected;
  }

  lemma FourEnds(es: Entries, name: string)
    ensures IsBlank("\n\n\n\n") && FileText(es, name) == Header(name, Lines(es, name))
  {
    hide Header, Lines;
  }

  /** A file is read back as what was written, in the same order, exactly when no key and no text holds what starts an
      entry; with one that does it is refused. */
  lemma RoundTrip(es: Entries, name: string)
    requires IsName(name) && NoKeyTwice(es)
    ensures Parsed(FileText(es, name), name) == if forall e :: e in es ==> MarkFree(e, name) then Some(es) else None
    ensures Marks(es, name) == 0 <==> forall e :: e in es ==> MarkFree(e, name)
  {
    hide *;
    var lines := Lines(es, name);
    FourEnds(es, name);
    ReadHeader(name, lines);
    ReadLines(es, name);
    CountLines(es, name);
    HeaderGoes(LineEnds(|es|), name);
    BlankStays(LineEnds(|es|), name);
    BlankBoth("\n\n\n\n", LineEnds(|es|));
    BlankStays("\n\n\n\n" + LineEnds(|es|), name);
    CollectedAgain(es);
    MarksNone(es, name);
    ParsedOf(FileText(es, name), name, es, Header(name, LineEnds(|es|)));
  }
}
