/** PHP translation files: how an entry is quoted and written, and how a file is read back. */
module LegacyText {
  import opened Sequences
  import opened Wrappers

  // ---- Quoting ----

  function ReplaceChar(s: string, c: char, to: string): string {
    if s == "" then "" else (if s[0] == c then to else [s[0]]) + ReplaceChar(s[1..], c, to)
  }

  const BACKSLASH := '\\'
  const QUOTE := '\''

  /** The body of a single-quoted PHP string: backslashes are doubled first, then quotes escaped. */
  function Escaped(s: string): string {
    ReplaceChar(ReplaceChar(s, BACKSLASH, [BACKSLASH, BACKSLASH]), QUOTE, [BACKSLASH, QUOTE])
  }

  function Unescaped(s: string): string {
    if s == "" then ""
    else if |s| > 1 && s[0] == BACKSLASH && (s[1] == BACKSLASH || s[1] == QUOTE) then [s[1]] + Unescaped(s[2..])
    else [s[0]] + Unescaped(s[1..])
  }

  lemma {:induction false} ReplaceConcat(a: string, b: string, c: char, to: string)
    ensures ReplaceChar(a + b, c, to) == ReplaceChar(a, c, to) + ReplaceChar(b, c, to)
  {
    if a == "" {
      assert a + b == b;
    } else {
      assert (a + b)[1..] == a[1..] + b;
      ReplaceConcat(a[1..], b, c, to);
    }
  }

  /** Escaping works character by character. */
  lemma EscapedNext(s: string)
    requires s != ""
    ensures Escaped(s) ==
            (if s[0] == BACKSLASH || s[0] == QUOTE then [BACKSLASH, s[0]] else [s[0]]) + Escaped(s[1..])
  {
    var first, rest := if s[0] == BACKSLASH then [BACKSLASH, BACKSLASH] else [s[0]], ReplaceChar(s[1..], BACKSLASH, [BACKSLASH, BACKSLASH]);
    ReplaceConcat(first, rest, QUOTE, [BACKSLASH, QUOTE]);
    if s[0] == BACKSLASH {
      assert first[1..] == [BACKSLASH] && [BACKSLASH][1..] == "";
      assert ReplaceChar([BACKSLASH], QUOTE, [BACKSLASH, QUOTE]) == [BACKSLASH];
    } else {
      assert first[1..] == "";
    }
  }

  /** Reading an escaped text gives the text. */
  lemma {:induction false} UnescapedEscaped(s: string)
    ensures Unescaped(Escaped(s)) == s
  {
    if s != "" {
      var e, rest := Escaped(s), Escaped(s[1..]);
      EscapedNext(s);
      UnescapedEscaped(s[1..]);
      hide Escaped;
      if s[0] == BACKSLASH || s[0] == QUOTE {
        assert e[0] == BACKSLASH && e[1] == s[0] && e[2..] == rest;
      } else {
        assert e[0] == s[0] && e[1..] == rest;
      }
    }
  }

  /** Where a single-quoted body ends: at the first quote no backslash stands before. */
  function BodyEnd(s: string): (end: Option<nat>)
    ensures end.Some? ==> end.value < |s| && s[end.value] == QUOTE
  {
    if s == "" then None
    else if s[0] == QUOTE then Some(0)
    else
      var step := if s[0] == BACKSLASH then 2 else 1;
      if |s| < step then None
      else
        match BodyEnd(s[step..])
        case None => None
        case Some(end) => Some(end + step)
  }

  lemma BodyNext(c: char, tail: string)
    ensures c == BACKSLASH || c == QUOTE ==>
              BodyEnd([BACKSLASH, c] + tail) == match BodyEnd(tail) case None => None case Some(end) => Some(end + 2)
    ensures c != BACKSLASH && c != QUOTE ==>
              BodyEnd([c] + tail) == match BodyEnd(tail) case None => None case Some(end) => Some(end + 1)
  {
    assert ([BACKSLASH, c] + tail)[2..] == tail && ([c] + tail)[1..] == tail;
  }

  lemma BodyHere(rest: string)
    ensures BodyEnd(Escaped("") + ([QUOTE] + rest)) == Some(0) && Escaped("") == ""
  {
    assert "" + ([QUOTE] + rest) == [QUOTE] + rest;
  }

  lemma {:induction false} BodyEndOf(s: string, rest: string)
    ensures BodyEnd(Escaped(s) + ([QUOTE] + rest)) == Some(|Escaped(s)|)
  {
    hide *;
    if s == "" {
      BodyHere(rest);
    } else {
      EscapedNext(s);
      BodyEndOf(s[1..], rest);
      BodyNext(s[0], Escaped(s[1..]) + ([QUOTE] + rest));
      Associative(if s[0] == BACKSLASH || s[0] == QUOTE then [BACKSLASH, s[0]] else [s[0]], Escaped(s[1..]), [QUOTE] + rest);
    }
  }

  // ---- Any single-quoted text, as PHP has it ----

  /** A character of a quoted text that stands for itself, or any character behind a backslash. */
  datatype Glyph = Char(c: char) | Escape(c: char)

  predicate GlyphOk(g: Glyph) {
    g.Char? ==> g.c != BACKSLASH && g.c != QUOTE
  }

  function GlyphText(g: Glyph): string {
    if g.Char? then [g.c] else [BACKSLASH, g.c]
  }

  /** A backslash counts only before a backslash or a quote. */
  function GlyphMeaning(g: Glyph): string {
    if g.Escape? && g.c !in {BACKSLASH, QUOTE} then [BACKSLASH, g.c] else [g.c]
  }

  function TextOfGlyphs(gs: seq<Glyph>): string {
    if gs == [] then "" else GlyphText(gs[0]) + TextOfGlyphs(gs[1..])
  }

  function MeaningOfGlyphs(gs: seq<Glyph>): string {
    if gs == [] then "" else GlyphMeaning(gs[0]) + MeaningOfGlyphs(gs[1..])
  }

  lemma GlyphsFirst(gs: seq<Glyph>)
    ensures gs == [] ==> TextOfGlyphs(gs) == "" && MeaningOfGlyphs(gs) == ""
    ensures gs != [] ==>
              && TextOfGlyphs(gs) == GlyphText(gs[0]) + TextOfGlyphs(gs[1..])
              && MeaningOfGlyphs(gs) == GlyphMeaning(gs[0]) + MeaningOfGlyphs(gs[1..])
  {
  }

  lemma GlyphNext(g: Glyph, tail: string)
    requires GlyphOk(g)
    ensures BodyEnd(GlyphText(g) + tail) == match BodyEnd(tail) case None => None case Some(end) => Some(end + |GlyphText(g)|)
    ensures Unescaped(GlyphText(g) + tail) == GlyphMeaning(g) + Unescaped(tail)
  {
    var s := GlyphText(g) + tail;
    assert s[|GlyphText(g)|..] == tail && s[0] == GlyphText(g)[0] && (g.Escape? ==> s[1] == g.c && s[1..] == [g.c] + tail);
    if g.Escape? && g.c !in {BACKSLASH, QUOTE} {
      assert s[1..][0] == g.c && s[1..][1..] == tail;
      assert Unescaped(s[1..]) == [g.c] + Unescaped(tail);
    }
  }

  /** A quoted text ends at its own quote, and is read as what its characters stand for. */
  lemma {:induction false} QuotedIsRead(gs: seq<Glyph>, rest: string)
    requires forall g :: g in gs ==> GlyphOk(g)
    ensures BodyEnd(TextOfGlyphs(gs) + ([QUOTE] + rest)) == Some(|TextOfGlyphs(gs)|)
    ensures Unescaped(TextOfGlyphs(gs)) == MeaningOfGlyphs(gs)
  {
    hide *;
    GlyphsFirst(gs);
    if gs == [] {
      BodyHere(rest);
      UnescapedEscaped("");
    } else {
      assert gs[0] in gs;
      QuotedIsRead(gs[1..], rest);
      GlyphNext(gs[0], TextOfGlyphs(gs[1..]) + ([QUOTE] + rest));
      GlyphNext(gs[0], TextOfGlyphs(gs[1..]));
      Associative(GlyphText(gs[0]), TextOfGlyphs(gs[1..]), [QUOTE] + rest);
    }
  }

  /** Whatever is read up to a quote is such a text. */
  lemma {:induction false} ReadIsQuoted(s: string) returns (gs: seq<Glyph>)
    requires BodyEnd(s).Some?
    ensures (forall g :: g in gs ==> GlyphOk(g)) && TextOfGlyphs(gs) == s[..BodyEnd(s).value]
  {
    if s[0] == QUOTE {
      gs := [];
    } else {
      var g := if s[0] == BACKSLASH then Escape(s[1]) else Char(s[0]);
      var step := |GlyphText(g)|;
      var rest := ReadIsQuoted(s[step..]);
      gs := [g] + rest;
      assert s[..step] == GlyphText(g) && gs[1..] == rest;
      assert s[..BodyEnd(s).value] == s[..step] + s[step..][..BodyEnd(s[step..]).value];
    }
  }

  // ---- Occurrences of a mark ----

  predicate StartsWith(s: string, p: string) {
    p <= s
  }

  /** How often a mark occurs, one occurrence behind another. */
  function Count(s: string, mark: string): nat
    requires mark != ""
  {
    if s == "" then 0
    else if StartsWith(s, mark) then 1 + Count(s[|mark|..], mark)
    else Count(s[1..], mark)
  }

  /** A character the mark does not have separates the occurrences. */
  lemma {:induction false} CountCut(a: string, c: char, b: string, mark: string)
    requires mark != "" && c !in mark
    ensures Count(a + ([c] + b), mark) == Count(a, mark) + Count(b, mark)
    decreases |a|
  {
    var all := a + ([c] + b);
    if a == "" {
      assert all[0] == c && all[1..] == b;
      assert !StartsWith(all, mark);
    } else {
      assert all[1..] == a[1..] + ([c] + b) && all[|a|] == c;
      if StartsWith(a, mark) {
        assert all[|mark|..] == a[|mark|..] + ([c] + b);
        assert StartsWith(all, mark);
        CountCut(a[|mark|..], c, b, mark);
      } else {
        CountCut(a[1..], c, b, mark);
      }
    }
  }

  /** Escaping neither adds nor hides a mark without backslash or quote. */
  lemma {:induction false} StartsEscaped(s: string, mark: string)
    requires BACKSLASH !in mark && QUOTE !in mark
    ensures StartsWith(Escaped(s), mark) == StartsWith(s, mark)
    ensures StartsWith(s, mark) ==> Escaped(s)[|mark|..] == Escaped(s[|mark|..])
  {
    if mark != "" && s != "" {
      EscapedNext(s);
      StartsEscaped(s[1..], mark[1..]);
      hide Escaped;
      if s[0] == mark[0] {
        assert Escaped(s)[1..] == Escaped(s[1..]);
        assert StartsWith(s, mark) == StartsWith(s[1..], mark[1..]);
        assert StartsWith(Escaped(s), mark) == StartsWith(Escaped(s[1..]), mark[1..]);
        assert StartsWith(s, mark) ==> s[1..][|mark[1..]|..] == s[|mark|..];
      }
    }
  }

  lemma {:induction false} CountEscaped(s: string, mark: string)
    requires mark != "" && BACKSLASH !in mark && QUOTE !in mark
    ensures Count(Escaped(s), mark) == Count(s, mark)
    decreases |s|
  {
    if s != "" {
      EscapedNext(s);
      StartsEscaped(s, mark);
      var e := Escaped(s);
      if StartsWith(s, mark) {
        CountEscaped(s[|mark|..], mark);
      } else {
        CountEscaped(s[1..], mark);
        hide Escaped;
        if s[0] == BACKSLASH || s[0] == QUOTE {
          var rest := e[1..];
          assert rest[0] == s[0] && rest[1..] == Escaped(s[1..]) && !StartsWith(rest, mark);
        } else {
          assert e[1..] == Escaped(s[1..]);
        }
      }
    }
  }
}
