/** What else a translation file may hold: comments, tags and declarations between its entries, but no other code. */
module LegacyContents {
  import opened LegacyFile
  import opened LegacyRoundTrip
  import opened LegacyText
  import opened PythonText
  import opened Wrappers

  /** A piece of a file. Code stands for everything that is none of the others; a space ends it. */
  datatype Piece =
    | Given(entry: Entry)
    | Blank(c: char)
    | LineComment(text: string)
    | BlockComment(body: string)
    | Opening
    | Closing
    | Global
    | LongArray
    | ShortArray
    | Code(text: string, c: char)

  /** A piece's text before what follows. */
  function TextOf(p: Piece, name: string, rest: string): string {
    match p
    case Given(e) => Line(e, name, rest)
    case Blank(c) => [c] + rest
    case LineComment(text) => text + (['\n'] + rest)
    case BlockComment(body) => "/*" + (body + ("*/" + rest))
    case Opening => "<?php" + rest
    case Closing => "?>" + rest
    case Global => "global" + (" " + (Dollar(name) + (";" + rest)))
    case LongArray => Dollar(name) + (" " + ("=" + (" " + ("array(" + (")" + (";" + rest))))))
    case ShortArray => Dollar(name) + (" " + ("=" + (" " + ("[" + ("]" + (";" + rest))))))
    case Code(text, c) => text + ([c] + rest)
  }

  function DeclarationWords(name: string): set<string> {
    {"<?php", "?>", "global", Dollar(name)}
  }

  const COMMENT_WORDS := {"//", "#", "/*"}

  predicate HoldsNone(text: string, words: set<string>) {
    forall w :: w in words ==> !Contains(text, w)
  }

  /** Text in which nothing is an entry, a tag, a declaration or a comment. */
  predicate Plain(text: string, name: string) {
    HoldsNone(text, DeclarationWords(name)) && HoldsNone(text, COMMENT_WORDS)
  }

  predicate PieceOk(p: Piece, name: string) {
    match p
    case Blank(c) => IsSpace(c)
    case LineComment(text) => ("//" <= text || "#" <= text) && '\n' !in text && HoldsNone(text, DeclarationWords(name))
    case BlockComment(body) => HoldsNone(body, DeclarationWords(name)) && !Contains(body, "*/")
    case Code(text, c) => IsSpace(c) && !IsBlank(text) && Plain(text, name)
    case _ => true
  }

  predicate PiecesOk(ps: seq<Piece>, name: string) {
    forall p :: p in ps ==> PieceOk(p, name)
  }

  /** The pieces one behind another, and the text behind the last. */
  function FileOf(ps: seq<Piece>, name: string, tail: string): string {
    if ps == [] then tail else TextOf(ps[0], name, FileOf(ps[1..], name, tail))
  }

  function EntriesOf(ps: seq<Piece>): seq<Entry> {
    if ps == [] then [] else (if ps[0].Given? then [ps[0].entry] else []) + EntriesOf(ps[1..])
  }

  /** Of an entry's line its end is left. */
  function WithoutEntries(ps: seq<Piece>): seq<Piece> {
    if ps == [] then [] else [if ps[0].Given? then Blank('\n') else ps[0]] + WithoutEntries(ps[1..])
  }

  predicate IsDeclaration(p: Piece) {
    p.Opening? || p.Closing? || p.Global? || p.LongArray? || p.ShortArray?
  }

  function Undeclared(ps: seq<Piece>): seq<Piece> {
    if ps == [] then [] else (if IsDeclaration(ps[0]) then [] else [ps[0]]) + Undeclared(ps[1..])
  }

  /** Of a line comment the end of its line is left. */
  function Uncommented(ps: seq<Piece>): seq<Piece> {
    if ps == [] then []
    else
      (if ps[0].LineComment? then [Blank('\n')] else if ps[0].BlockComment? then [] else [ps[0]]) + Uncommented(ps[1..])
  }

  // ---- Words that do not occur ----

  lemma ContainsBoth(s: string, w: string)
    requires s != ""
    ensures StartsWith(s, w) || Contains(s[1..], w) ==> Contains(s, w)
  {
    assert s[0..] == s;
    if Contains(s[1..], w) {
      var i :| 0 <= i <= |s[1..]| && StartsWith(s[1..][i..], w);
      assert s[i + 1..] == s[1..][i..];
    }
  }

  lemma NoneInRest(s: string, words: set<string>)
    requires s != "" && HoldsNone(s, words)
    ensures HoldsNone(s[1..], words) && forall w :: w in words ==> !StartsWith(s, w)
  {
    forall w | w in words
      ensures !StartsWith(s, w) && !Contains(s[1..], w)
    {
      ContainsBoth(s, w);
    }
  }

  predicate NotIn(c: char, words: set<string>) {
    forall w :: w in words ==> w != "" && c !in w
  }

  lemma NoneHere(p: string, c: char, rest: string, words: set<string>)
    requires HoldsNone(p, words) && NotIn(c, words)
    ensures forall w :: w in words ==> !StartsWith(p + ([c] + rest), w)
    ensures HoldsNone("", words)
  {
    forall w | w in words
      ensures !StartsWith(p + ([c] + rest), w)
    {
      NoWordHere(p, c, rest, w);
    }
  }

  /** A word that is not in a text does not start in it, when the character behind the text is not in the word. */
  lemma NoWordHere(p: string, c: char, rest: string, w: string)
    requires w != "" && c !in w && !Contains(p, w)
    ensures !StartsWith(p + ([c] + rest), w)
  {
    CountNone(p, w);
    NotAtStart(p, c, rest, w);
  }

  lemma MarkHasDollar(p: string, name: string)
    ensures Contains(p, Mark(name)) ==> Contains(p, Dollar(name))
  {
    assert Dollar(name) == Mark(name)[..|name| + 1];
    assert forall i :: 0 <= i <= |p| && StartsWith(p[i..], Mark(name)) ==> StartsWith(p[i..], Dollar(name));
  }

  lemma NoMark(p: string, name: string)
    requires !Contains(p, Dollar(name))
    ensures Count(p, Mark(name)) == 0
  {
    MarkHasDollar(p, name);
    CountNone(p, Mark(name));
  }

  lemma SpaceIsNoWord(c: char, name: string)
    requires IsName(name) && (IsSpace(c) || c == '/' || c == '*')
    ensures c !in Mark(name) && NotIn(c, DeclarationWords(name))
    ensures IsSpace(c) ==> NotIn(c, COMMENT_WORDS)
  {
  }

  // ---- Reading the entries ----

  lemma ReadPlain(p: string, c: char, rest: string, name: string)
    requires IsName(name) && HoldsNone(p, DeclarationWords(name)) && (IsSpace(c) || c == '*')
    ensures Read(p + ([c] + rest), name) == Reading(Read(rest, name).entries, p + ([c] + Read(rest, name).rest))
    ensures Count(p + ([c] + rest), Mark(name)) == Count(rest, Mark(name))
  {
    assert Dollar(name) in DeclarationWords(name);
    hide *;
    NoMark(p, name);
    SpaceIsNoWord(c, name);
    ReadPast(p, c, rest, name);
    CountCut(p, c, rest, Mark(name));
  }

  /** A piece that is no entry is read past. */
  predicate PastRead(p: Piece, rest: string, name: string) {
    && Read(TextOf(p, name, rest), name) == Reading(Read(rest, name).entries, TextOf(p, name, Read(rest, name).rest))
    && Count(TextOf(p, name, rest), Mark(name)) == Count(rest, Mark(name))
  }

  lemma PastBlockComment(body: string, rest: string, name: string)
    requires Read("/*" + (body + ("*/" + rest)), name) ==
             Reading(Read(rest, name).entries, "/*" + (body + ("*/" + Read(rest, name).rest)))
    requires Count("/*" + (body + ("*/" + rest)), Mark(name)) == Count(rest, Mark(name))
    ensures PastRead(BlockComment(body), rest, name)
  {
    hide Read, Count, Mark;
  }

  lemma StarThen(rest: string)
    ensures "*/" + rest == ['*'] + ("/" + rest)
  {
  }

  lemma ReadBlockComment(body: string, rest: string, name: string)
    requires IsName(name) && HoldsNone(body, DeclarationWords(name))
    ensures PastRead(BlockComment(body), rest, name)
  {
    hide *;
    StarThen(rest);
    StarThen(Read(rest, name).rest);
    ReadWithoutDollar("/", rest, name);
    ReadPlain(body, '*', "/" + rest, name);
    ReadWithoutDollar("/*", body + ("*/" + rest), name);
    PastBlockComment(body, rest, name);
  }

  lemma ReadGlobal(rest: string, name: string)
    requires IsName(name)
    ensures PastRead(Global, rest, name)
  {
    var end := Read(rest, name).rest;
    MarkChars(name);
    hide Read, Count, Dollar, Mark;
    ReadPiece(Dollar(name), ';', rest, name);
    ReadPiece("global", ' ', Dollar(name) + (";" + rest), name);
  }

  lemma ReadArray(p: Piece, rest: string, name: string)
    requires IsName(name) && (p.LongArray? || p.ShortArray?)
    ensures PastRead(p, rest, name)
  {
    var parts := if p.LongArray? then "array(" + (")" + (";" + rest)) else "[" + ("]" + (";" + rest));
    MarkChars(name);
    hide Read, Count, Dollar, Mark;
    ReadWithoutDollar(";", rest, name);
    ReadWithoutDollar(if p.LongArray? then ")" else "]", ";" + rest, name);
    ReadWithoutDollar(if p.LongArray? then "array(" else "[", (if p.LongArray? then ")" else "]") + (";" + rest), name);
    ReadWithoutDollar(" ", parts, name);
    ReadWithoutDollar("=", " " + parts, name);
    ReadPiece(Dollar(name), ' ', "=" + (" " + parts), name);
  }

  lemma ReadsPast(p: Piece, rest: string, name: string)
    requires IsName(name) && PieceOk(p, name) && !p.Given?
    ensures PastRead(p, rest, name)
  {
    hide Read, Count, HoldsNone, Dollar, IsSpace, IsName, Contains, DeclarationWords, IsBlank;
    match p
    case Blank(c) =>
      NoSpaceIsDollar(c);
      ReadWithoutDollar([c], rest, name);
    case LineComment(text) =>
      LineEndIsSpace();
      ReadPlain(text, '\n', rest, name);
    case BlockComment(body) => ReadBlockComment(body, rest, name);
    case Opening => ReadWithoutDollar("<?php", rest, name);
    case Closing => ReadWithoutDollar("?>", rest, name);
    case Global => ReadGlobal(rest, name);
    case LongArray => ReadArray(p, rest, name);
    case ShortArray => ReadArray(p, rest, name);
    case Code(text, c) => ReadPlain(text, c, rest, name);
  }

  lemma NoSpaceIsDollar(c: char)
    requires IsSpace(c)
    ensures c != '$'
  {
  }

  lemma LineEndIsSpace()
    ensures IsSpace('\n')
  {
  }

  /** Text without words is read past to its end. */
  lemma {:induction false} ReadTail(tail: string, name: string)
    requires !Contains(tail, Dollar(name))
    ensures Read(tail, name) == Reading([], tail) && Count(tail, Mark(name)) == 0
  {
    NoMark(tail, name);
    if tail != "" {
      ContainsBoth(tail, Dollar(name));
      ReadTail(tail[1..], name);
      assert tail == [tail[0]] + tail[1..];
    }
    hide Literal, AfterParts, Skip, Contains;
  }

  /** The entries are read, and everything else is left as it stands. */
  lemma {:induction false} ReadsPieces(ps: seq<Piece>, name: string, tail: string)
    requires IsName(name) && PiecesOk(ps, name) && Plain(tail, name)
    ensures Read(FileOf(ps, name, tail), name) == Reading(EntriesOf(ps), FileOf(WithoutEntries(ps), name, tail))
    ensures Count(FileOf(ps, name, tail), Mark(name)) == |EntriesOf(ps)| + Marks(EntriesOf(ps), name)
  {
    if ps == [] {
      assert Dollar(name) in DeclarationWords(name);
      ReadTail(tail, name);
    } else {
      var p, rest := ps[0], FileOf(ps[1..], name, tail);
      assert p in ps && forall q :: q in ps[1..] ==> q in ps;
      hide Read, Count, TextOf, Mark, Contains, HoldsNone, PieceOk, Plain;
      ReadsPieces(ps[1..], name, tail);
      MarksFirst(p, ps[1..], name);
      if p.Given? {
        ReadsEntry(p.entry, rest, name);
      } else {
        ReadsPast(p, rest, name);
      }
    }
  }

  lemma MarksFirst(p: Piece, rest: seq<Piece>, name: string)
    ensures |EntriesOf([p] + rest)| == |EntriesOf(rest)| + (if p.Given? then 1 else 0)
    ensures Marks(EntriesOf([p] + rest), name) ==
            Marks(EntriesOf(rest), name) + if p.Given? then Count(p.entry.key, Mark(name)) + Count(p.entry.text, Mark(name)) else 0
  {
    assert ([p] + rest)[0] == p && ([p] + rest)[1..] == rest;
    assert EntriesOf([p] + rest) == (if p.Given? then [p.entry] else []) + EntriesOf(rest);
    if p.Given? {
      assert EntriesOf([p] + rest)[0] == p.entry && EntriesOf([p] + rest)[1..] == EntriesOf(rest);
    } else {
      assert EntriesOf([p] + rest) == EntriesOf(rest);
    }
    hide Count, Mark, EntriesOf;
  }

  lemma ReadsEntry(e: Entry, rest: string, name: string)
    requires IsName(name)
    ensures Read(Line(e, name, rest), name) == Reading([e] + Read(rest, name).entries, TextOf(Blank('\n'), name, Read(rest, name).rest))
    ensures Count(Line(e, name, rest), Mark(name)) ==
            1 + Count(e.key, Mark(name)) + Count(e.text, Mark(name)) + Count(rest, Mark(name))
  {
    hide Read, Count, Mark, Line;
    EntryOfLine(e, name, rest);
    ReadEntry(Line(e, name, rest), name, e, "\n" + rest);
    ReadWithoutDollar("\n", rest, name);
    CountLine(e, name, rest);
  }

  // ---- Entries and declarations with any white space ----

  lemma {:induction false} SkipSpaces(w: string, rest: string)
    requires IsBlank(w) && rest != "" && !IsSpace(rest[0])
    ensures Skip(w + rest) == rest
  {
    if w == "" {
      assert w + rest == rest;
    } else {
      assert IsSpace(w[0]) && (w + rest)[0] == w[0] && (w + rest)[1..] == w[1..] + rest;
      SkipSpaces(w[1..], rest);
    }
  }

  lemma SkipTo(w: string, p: string, rest: string)
    requires IsBlank(w) && p != "" && !IsSpace(p[0])
    ensures Skip(w + (p + rest)) == p + rest
  {
    assert (p + rest)[0] == p[0];
    SkipSpaces(w, p + rest);
  }

  lemma NoSpaces()
    ensures !IsSpace('\'') && !IsSpace(']') && !IsSpace('=') && !IsSpace(';') && !IsSpace('$') && !IsSpace('a') && !IsSpace(')')
            && !IsSpace('[')
  {
  }

  lemma LiteralIs(x: string, rest: string)
    requires BodyEnd(x + ([QUOTE] + rest)) == Some(|x|)
    ensures Literal("'" + (x + ("'" + rest))) == Some((Unescaped(x), rest))
  {
    hide Unescaped, BodyEnd;
    var body := x + ([QUOTE] + rest);
    var all := "'" + (x + ("'" + rest));
    assert all[0] == QUOTE && all[1..] == body;
    assert body[..|x|] == x && body[|x| + 1..] == rest;
  }

  lemma LiteralOfGlyphs(gs: seq<Glyph>, rest: string)
    requires forall g :: g in gs ==> GlyphOk(g)
    ensures Literal("'" + (TextOfGlyphs(gs) + ("'" + rest))) == Some((MeaningOfGlyphs(gs), rest))
  {
    hide *;
    QuotedIsRead(gs, rest);
    LiteralIs(TextOfGlyphs(gs), rest);
  }

  /** The white space inside an entry, from left to right. */
  datatype Spacing = Spacing(a: string, b: string, c: string, d: string, e: string)

  predicate SpacingOk(w: Spacing) {
    IsBlank(w.a) && IsBlank(w.b) && IsBlank(w.c) && IsBlank(w.d) && IsBlank(w.e)
  }

  lemma KeyParts(b: string, c: string, rest: string)
    requires IsBlank(b) && IsBlank(c)
    ensures AfterParts(Skip(b + ("]" + (c + ("=" + rest)))), ["]", "="]) == Some(rest)
  {
    NoSpaces();
    SkipTo(b, "]", c + ("=" + rest));
    AfterOf("]", c + ("=" + rest));
    SkipTo(c, "=", rest);
    AfterOf("=", rest);
    hide Skip, After, IsBlank;
  }

  lemma EndPart(e: string, rest: string)
    requires IsBlank(e)
    ensures AfterParts(Skip(e + (";" + rest)), [";"]) == Some(rest)
  {
    NoSpaces();
    SkipTo(e, ";", rest);
    AfterOf(";", rest);
    hide Skip, After, IsBlank;
  }

  lemma SkipToLiteral(w: string, gs: seq<Glyph>, rest: string)
    requires IsBlank(w) && forall g :: g in gs ==> GlyphOk(g)
    ensures Literal(Skip(w + ("'" + (TextOfGlyphs(gs) + ("'" + rest))))) == Some((MeaningOfGlyphs(gs), rest))
  {
    NoSpaces();
    SkipTo(w, "'", TextOfGlyphs(gs) + ("'" + rest));
    LiteralOfGlyphs(gs, rest);
    hide Skip, IsBlank, Literal;
  }

  /** An entry is read with any white space between its parts, and any quoted key and text. */
  lemma EntryForms(name: string, w: Spacing, key: seq<Glyph>, text: seq<Glyph>, rest: string)
    requires SpacingOk(w) && (forall g :: g in key ==> GlyphOk(g)) && forall g :: g in text ==> GlyphOk(g)
    ensures var end := w.e + (";" + rest);
            var after := w.b + ("]" + (w.c + ("=" + (w.d + ("'" + (TextOfGlyphs(text) + ("'" + end)))))));
            EntryAt(Mark(name) + (w.a + ("'" + (TextOfGlyphs(key) + ("'" + after)))), name) ==
            Some((Entry(MeaningOfGlyphs(key), MeaningOfGlyphs(text)), rest))
  {
    var end := w.e + (";" + rest);
    var value := w.d + ("'" + (TextOfGlyphs(text) + ("'" + end)));
    var after := w.b + ("]" + (w.c + ("=" + value)));
    var a := w.a + ("'" + (TextOfGlyphs(key) + ("'" + after)));
    AfterOf(Mark(name), a);
    SkipToLiteral(w.a, key, after);
    KeyParts(w.b, w.c, value);
    SkipToLiteral(w.d, text, end);
    EndPart(w.e, rest);
    hide Literal, Skip, AfterParts, After, Mark, TextOfGlyphs, MeaningOfGlyphs, IsBlank;
  }

  lemma DollarStarts(name: string)
    ensures Dollar(name) != "" && Dollar(name)[0] == '$'
  {
  }

  /** A global statement, with the white space it needs and any other, is a declaration. */
  lemma GlobalForms(name: string, a: string, b: string, rest: string)
    requires IsBlank(a) && a != "" && IsBlank(b)
    ensures AfterDeclaration("global" + (a + (Dollar(name) + (b + (";" + rest)))), name) == Some(rest)
  {
    var tail := Dollar(name) + (b + (";" + rest));
    var s := "global" + (a + tail);
    NoSpaces();
    DollarStarts(name);
    AfterOf("global", a + tail);
    SkipTo(a, Dollar(name), b + (";" + rest));
    AfterOf(Dollar(name), b + (";" + rest));
    EndPart(b, rest);
    NoPrefix("<?php", s);
    NoPrefix("?>", s);
    assert (a + tail)[0] == a[0] && IsSpace(a[0]) && [Dollar(name), ";"][1..] == [";"];
    hide Skip, After, Dollar, IsBlank, IsSpace;
    assert AfterParts(tail, [Dollar(name), ";"]) == AfterParts(Skip(b + (";" + rest)), [";"]);
  }

  // ---- Removing the declarations ----

  /** Where none of the words starts, no declaration does. */
  lemma NoDeclarationHere(s: string, name: string)
    requires s != "" && forall w :: w in DeclarationWords(name) ==> !StartsWith(s, w)
    ensures WithoutDeclarations(s, name) == [s[0]] + WithoutDeclarations(s[1..], name)
  {
    assert {"<?php", "?>", "global", Dollar(name)} == DeclarationWords(name);
    assert !StartsWith(s, "<?php") && !StartsWith(s, "?>") && !StartsWith(s, "global") && !StartsWith(s, Dollar(name));
    hide AfterParts, Skip;
  }

  lemma {:induction false} DeclarationsPast(p: string, c: char, rest: string, name: string)
    requires IsName(name) && HoldsNone(p, DeclarationWords(name)) && (IsSpace(c) || c == '/' || c == '*')
    ensures WithoutDeclarations(p + ([c] + rest), name) == p + ([c] + WithoutDeclarations(rest, name))
  {
    hide *;
    var s := p + ([c] + rest);
    SpaceIsNoWord(c, name);
    NoneHere(p, c, rest, DeclarationWords(name));
    NoDeclarationHere(s, name);
    if p == "" {
      assert s[0] == c && s[1..] == rest;
    } else {
      NoneInRest(p, DeclarationWords(name));
      assert s[0] == p[0] && s[1..] == p[1..] + ([c] + rest);
      DeclarationsPast(p[1..], c, rest, name);
      assert [p[0]] + (p[1..] + ([c] + WithoutDeclarations(rest, name))) == p + ([c] + WithoutDeclarations(rest, name));
    }
  }

  lemma NothingStays(name: string)
    ensures WithoutDeclarations("", name) == "" && WithoutComments("") == ""
  {
  }

  lemma {:induction false} DeclarationsTail(tail: string, name: string)
    requires HoldsNone(tail, DeclarationWords(name))
    ensures WithoutDeclarations(tail, name) == tail
  {
    hide *;
    NothingStays(name);
    if tail != "" {
      NoneInRest(tail, DeclarationWords(name));
      NoDeclarationHere(tail, name);
      DeclarationsTail(tail[1..], name);
      assert tail == [tail[0]] + tail[1..];
    }
  }

  lemma ClosingGoes(rest: string, name: string)
    ensures WithoutDeclarations("?>" + rest, name) == WithoutDeclarations(rest, name)
  {
    assert ("?>" + rest)[2..] == rest;
    NoPrefix("<?php", "?>" + rest);
  }

  lemma ShortArrayGoes(rest: string, name: string)
    requires IsName(name)
    ensures WithoutDeclarations(TextOf(ShortArray, name, rest), name) == WithoutDeclarations(rest, name)
  {
    var e := ";" + rest;
    var d := "]" + e;
    var c := "[" + d;
    var b := "=" + (" " + c);
    var all := Dollar(name) + (" " + b);
    AfterOf(Dollar(name), " " + b);
    SkipOne(b);
    SkipStops("=", " " + c);
    AfterOf("=", " " + c);
    SkipOne(c);
    SkipStops("[", d);
    NoPrefix("array(", c);
    AfterOf("[", d);
    SkipStops("]", e);
    AfterOf("]", e);
    SkipStops(";", rest);
    AfterOf(";", rest);
    NoPrefix("<?php", all);
    NoPrefix("?>", all);
    NoPrefix("global", all);
    assert After(all, "global").None? && After(c, "array(").None?;
    hide Dollar, After, Skip;
  }

  lemma BlockCommentStays(body: string, rest: string, name: string)
    requires IsName(name) && HoldsNone(body, DeclarationWords(name))
    ensures WithoutDeclarations("/*" + (body + ("*/" + rest)), name) == "/*" + (body + ("*/" + WithoutDeclarations(rest, name)))
  {
    var end := WithoutDeclarations(rest, name);
    assert HoldsNone("", DeclarationWords(name));
    assert "*/" + rest == ['*'] + ("/" + rest) && "*/" + end == ['*'] + ("/" + end);
    assert "" + (['/'] + rest) == "/" + rest && "" + (['/'] + end) == "/" + end;
    var b, after := body + ("*/" + rest), body + ("*/" + end);
    assert "" + (['/'] + ("*" + b)) == "/*" + b && "" + (['/'] + ("*" + after)) == "/*" + after;
    assert "" + (['*'] + b) == "*" + b && "" + (['*'] + after) == "*" + after;
    hide *;
    DeclarationsPast("", '/', rest, name);
    DeclarationsPast(body, '*', "/" + rest, name);
    DeclarationsPast("", '*', b, name);
    DeclarationsPast("", '/', "*" + b, name);
  }

  lemma DeclarationGone(p: Piece, rest: string, name: string)
    requires IsName(name) && PieceOk(p, name) && !p.Given?
    ensures WithoutDeclarations(TextOf(p, name, rest), name) ==
            if IsDeclaration(p) then WithoutDeclarations(rest, name) else TextOf(p, name, WithoutDeclarations(rest, name))
  {
    hide WithoutDeclarations, HoldsNone, Dollar, IsSpace, IsName, Contains, DeclarationWords, IsBlank;
    match p
    case Blank(c) => SpaceStays(c, rest, name);
    case LineComment(text) =>
      LineEndIsSpace();
      DeclarationsPast(text, '\n', rest, name);
    case BlockComment(body) => BlockCommentStays(body, rest, name);
    case Opening => OpeningGoes(rest, name);
    case Closing => ClosingGoes(rest, name);
    case Global => GlobalGoes(rest, name);
    case LongArray => ArrayGoes(rest, name);
    case ShortArray => ShortArrayGoes(rest, name);
    case Code(text, c) => DeclarationsPast(text, c, rest, name);
  }

  lemma {:induction false} UndeclaredOk(ps: seq<Piece>, name: string)
    requires PiecesOk(ps, name) && NoEntries(ps)
    ensures PiecesOk(Undeclared(ps), name) && NoEntries(Undeclared(ps)) && NoDeclarations(Undeclared(ps))
  {
    hide PieceOk, IsDeclaration;
    if ps != [] {
      UndeclaredOk(ps[1..], name);
    }
  }

  lemma {:induction false} DeclarationsGone(ps: seq<Piece>, name: string, tail: string)
    requires IsName(name) && PiecesOk(ps, name) && HoldsNone(tail, DeclarationWords(name)) && NoEntries(ps)
    ensures WithoutDeclarations(FileOf(ps, name, tail), name) == FileOf(Undeclared(ps), name, tail)
  {
    if ps == [] {
      DeclarationsTail(tail, name);
    } else {
      var p, rest := ps[0], ps[1..];
      assert ps == [p] + rest && p in ps && forall q :: q in rest ==> q in ps;
      assert Undeclared(ps) == if IsDeclaration(p) then Undeclared(rest) else [p] + Undeclared(rest);
      hide *;
      OkFirst(p, rest, name);
      DeclarationsGone(rest, name, tail);
      DeclarationGone(p, FileOf(rest, name, tail), name);
      FileOfFirst(p, rest, name, tail);
      FileOfFirst(p, Undeclared(rest), name, tail);
    }
  }

  lemma OkFirst(p: Piece, rest: seq<Piece>, name: string)
    requires PiecesOk([p] + rest, name) && NoEntries([p] + rest)
    ensures PieceOk(p, name) && !p.Given? && PiecesOk(rest, name) && NoEntries(rest)
    ensures NoDeclarations([p] + rest) ==> !IsDeclaration(p) && NoDeclarations(rest)
  {
    hide PieceOk, IsDeclaration;
    assert p in [p] + rest && forall q :: q in rest ==> q in [p] + rest;
  }

  lemma FileOfFirst(p: Piece, rest: seq<Piece>, name: string, tail: string)
    ensures FileOf([p] + rest, name, tail) == TextOf(p, name, FileOf(rest, name, tail))
  {
    assert ([p] + rest)[1..] == rest;
    hide TextOf;
  }

  lemma BlankText(c: char, name: string, rest: string)
    ensures TextOf(Blank(c), name, rest) == [c] + rest
  {
  }

  lemma LineEndOk(name: string)
    ensures PieceOk(Blank('\n'), name)
  {
  }

  predicate NoEntries(ps: seq<Piece>) {
    forall p :: p in ps ==> !p.Given?
  }

  predicate NoDeclarations(ps: seq<Piece>) {
    forall p :: p in ps ==> !IsDeclaration(p)
  }

  predicate NoComments(ps: seq<Piece>) {
    forall p :: p in ps ==> !p.LineComment? && !p.BlockComment?
  }

  // ---- Removing the comments ----

  lemma NoCommentHere(s: string)
    requires s != "" && forall w :: w in COMMENT_WORDS ==> !StartsWith(s, w)
    ensures WithoutComments(s) == [s[0]] + WithoutComments(s[1..])
  {
    assert !StartsWith(s, "//") && !StartsWith(s, "#") && !StartsWith(s, "/*");
  }

  lemma {:induction false} CommentsPast(p: string, c: char, rest: string)
    requires HoldsNone(p, COMMENT_WORDS) && NotIn(c, COMMENT_WORDS)
    ensures WithoutComments(p + ([c] + rest)) == p + ([c] + WithoutComments(rest))
  {
    hide *;
    var s := p + ([c] + rest);
    NoneHere(p, c, rest, COMMENT_WORDS);
    NoCommentHere(s);
    if p == "" {
      assert s[0] == c && s[1..] == rest;
    } else {
      NoneInRest(p, COMMENT_WORDS);
      assert s[0] == p[0] && s[1..] == p[1..] + ([c] + rest);
      CommentsPast(p[1..], c, rest);
      assert [p[0]] + (p[1..] + ([c] + WithoutComments(rest))) == p + ([c] + WithoutComments(rest));
    }
  }

  /** A space stays where it is. */
  lemma SpaceStaysThen(c: char, rest: string)
    requires IsSpace(c)
    ensures WithoutComments([c] + rest) == [c] + WithoutComments(rest)
  {
    assert IsName("A") && HoldsNone("", COMMENT_WORDS);
    SpaceIsNoWord(c, "A");
    hide *;
    CommentsPast("", c, rest);
    assert "" + ([c] + rest) == [c] + rest && "" + ([c] + WithoutComments(rest)) == [c] + WithoutComments(rest);
  }

  lemma {:induction false} CommentsTail(tail: string)
    requires HoldsNone(tail, COMMENT_WORDS)
    ensures WithoutComments(tail) == tail
  {
    hide *;
    NothingStays("");
    if tail != "" {
      NoneInRest(tail, COMMENT_WORDS);
      NoCommentHere(tail);
      CommentsTail(tail[1..]);
      assert tail == [tail[0]] + tail[1..];
    }
  }

  lemma {:induction false} LineEndOf(q: string, rest: string)
    requires '\n' !in q
    ensures LineEnd(q + (['\n'] + rest)) == ['\n'] + rest
  {
    if q == "" {
      assert q + (['\n'] + rest) == ['\n'] + rest;
    } else {
      assert (q + (['\n'] + rest))[1..] == q[1..] + (['\n'] + rest) && q[0] in q;
      LineEndOf(q[1..], rest);
    }
  }

  lemma LineCommentGoes(text: string, rest: string)
    requires ("//" <= text || "#" <= text) && '\n' !in text
    ensures WithoutComments(text + (['\n'] + rest)) == ['\n'] + WithoutComments(rest)
  {
    var s, n := text + (['\n'] + rest), if "//" <= text then 2 else 1;
    assert s[n..] == text[n..] + (['\n'] + rest);
    LineEndOf(text[n..], rest);
    assert AfterComment(s) == Some(['\n'] + rest);
    LineEndIsSpace();
    SpaceStaysThen('\n', rest);
    hide AfterComment, LineEnd;
  }

  lemma {:induction false} CommentEndOf(body: string, rest: string)
    requires !Contains(body, "*/")
    ensures CommentEnd(body + ("*/" + rest)) == Some(rest)
  {
    var s := body + ("*/" + rest);
    if body == "" {
      assert s == "*/" + rest && s[2..] == rest;
    } else {
      ContainsBoth(body, "*/");
      assert s[1..] == body[1..] + ("*/" + rest);
      CommentEndOf(body[1..], rest);
      assert s[0] == body[0] && s[1] == if |body| > 1 then body[1] else '*';
    }
  }

  lemma BlockCommentGoes(body: string, rest: string)
    requires !Contains(body, "*/")
    ensures WithoutComments("/*" + (body + ("*/" + rest))) == WithoutComments(rest)
  {
    var s := "/*" + (body + ("*/" + rest));
    assert s[2..] == body + ("*/" + rest) && s[0] == '/' && s[1] == '*';
    CommentEndOf(body, rest);
    hide CommentEnd, Contains;
  }

  lemma SpaceIsNoComment(c: char)
    requires IsSpace(c)
    ensures NotIn(c, COMMENT_WORDS)
  {
    assert IsName("A");
    SpaceIsNoWord(c, "A");
  }

  lemma CommentGone(p: Piece, rest: string, name: string)
    requires PieceOk(p, name) && !p.Given? && !IsDeclaration(p)
    ensures WithoutComments(TextOf(p, name, rest)) ==
            match p
            case LineComment(_) => ['\n'] + WithoutComments(rest)
            case BlockComment(_) => WithoutComments(rest)
            case _ => TextOf(p, name, WithoutComments(rest))
  {
    hide WithoutComments, HoldsNone, IsSpace, Contains, DeclarationWords, IsBlank;
    match p
    case Blank(c) => SpaceStaysThen(c, rest);
    case LineComment(text) => LineCommentGoes(text, rest);
    case BlockComment(body) => BlockCommentGoes(body, rest);
    case Code(text, c) =>
      SpaceIsNoComment(c);
      CommentsPast(text, c, rest);
  }

  lemma {:induction false} UncommentedOk(ps: seq<Piece>, name: string)
    requires PiecesOk(ps, name) && NoEntries(ps) && NoDeclarations(ps)
    ensures PiecesOk(Uncommented(ps), name) && forall p :: p in Uncommented(ps) ==> p.Blank? || p.Code?
  {
    LineEndOk(name);
    hide PieceOk;
    if ps != [] {
      assert ps[0] in ps && forall q :: q in ps[1..] ==> q in ps;
      UncommentedOk(ps[1..], name);
    }
  }

  lemma {:induction false} CommentsGone(ps: seq<Piece>, name: string, tail: string)
    requires PiecesOk(ps, name) && HoldsNone(tail, COMMENT_WORDS) && NoEntries(ps) && NoDeclarations(ps)
    ensures WithoutComments(FileOf(ps, name, tail)) == FileOf(Uncommented(ps), name, tail)
  {
    if ps == [] {
      CommentsTail(tail);
    } else {
      var p, rest := ps[0], ps[1..];
      assert ps == [p] + rest;
      assert Uncommented(ps) ==
             match p
             case LineComment(_) => [Blank('\n')] + Uncommented(rest)
             case BlockComment(_) => Uncommented(rest)
             case _ => [p] + Uncommented(rest);
      hide *;
      OkFirst(p, rest, name);
      CommentsGone(rest, name, tail);
      CommentGone(p, FileOf(rest, name, tail), name);
      FileOfFirst(p, rest, name, tail);
      FileOfFirst(p, Uncommented(rest), name, tail);
      FileOfFirst(Blank('\n'), Uncommented(rest), name, tail);
      BlankText('\n', name, FileOf(Uncommented(rest), name, tail));
    }
  }

  // ---- What is left ----

  lemma {:induction false} SkipIsBlank(s: string)
    ensures Skip(s) == "" <==> IsBlank(s)
  {
    if s != "" && IsSpace(s[0]) {
      SkipIsBlank(s[1..]);
      assert IsBlank(s) <==> IsBlank(s[1..]) by {
        assert forall i :: 0 < i < |s| ==> s[i] == s[1..][i - 1];
        assert forall i :: 0 <= i < |s[1..]| ==> s[1..][i] == s[i + 1];
      }
    }
  }

  lemma BlankConcat(a: string, b: string)
    ensures IsBlank(a + b) <==> IsBlank(a) && IsBlank(b)
  {
    hide IsSpace;
    assert forall i :: 0 <= i < |a| ==> (a + b)[i] == a[i];
    assert forall i :: 0 <= i < |b| ==> (a + b)[|a| + i] == b[i];
  }

  predicate NoCode(ps: seq<Piece>) {
    forall p :: p in ps ==> !p.Code?
  }

  lemma {:induction false} LeftIsBlank(ps: seq<Piece>, name: string, tail: string)
    requires PiecesOk(ps, name) && forall p :: p in ps ==> p.Blank? || p.Code?
    ensures IsBlank(FileOf(ps, name, tail)) <==> NoCode(ps) && IsBlank(tail)
  {
    if ps != [] {
      var p, rest := ps[0], FileOf(ps[1..], name, tail);
      assert p in ps && PieceOk(p, name) && forall q :: q in ps <==> q == p || q in ps[1..];
      LeftIsBlank(ps[1..], name, tail);
      match p
      case Blank(c) => BlankConcat([c], rest);
      case Code(text, c) => BlankConcat(text, [c] + rest);
    }
    hide Plain, IsSpace;
  }

  lemma LeftFirst(p: Piece, rest: seq<Piece>)
    requires !p.Given?
    ensures NoCode(Uncommented(Undeclared([p] + rest))) <==> !p.Code? && NoCode(Uncommented(Undeclared(rest)))
  {
    var kept := Undeclared(rest);
    var left := Uncommented(kept);
    assert ([p] + rest)[1..] == rest;
    if !IsDeclaration(p) {
      assert Undeclared([p] + rest) == [p] + kept && ([p] + kept)[1..] == kept;
      assert Uncommented([p] + kept) ==
             match p
             case LineComment(_) => [Blank('\n')] + left
             case BlockComment(_) => left
             case _ => [p] + left;
      hide Uncommented, Undeclared;
      NoCodeFirst(p, left);
      NoCodeFirst(Blank('\n'), left);
    } else {
      assert Undeclared([p] + rest) == kept;
    }
  }

  lemma NoCodeFirst(p: Piece, rest: seq<Piece>)
    ensures NoCode([p] + rest) <==> !p.Code? && NoCode(rest)
  {
    assert p in [p] + rest && forall q :: q in rest ==> q in [p] + rest;
  }

  lemma {:induction false} CodeStays(ps: seq<Piece>)
    ensures NoCode(Uncommented(Undeclared(WithoutEntries(ps)))) <==> NoCode(ps)
  {
    if ps != [] {
      var first := if ps[0].Given? then Blank('\n') else ps[0];
      var rest := WithoutEntries(ps[1..]);
      assert forall p :: p in ps <==> p == ps[0] || p in ps[1..];
      CodeStays(ps[1..]);
      LeftFirst(first, rest);
      hide Uncommented, Undeclared;
      assert WithoutEntries(ps) == [first] + rest;
    }
  }

  lemma {:induction false} WithoutEntriesOk(ps: seq<Piece>, name: string)
    requires PiecesOk(ps, name)
    ensures PiecesOk(WithoutEntries(ps), name) && NoEntries(WithoutEntries(ps))
  {
    if ps != [] {
      assert ps[0] in ps && forall q :: q in ps[1..] ==> q in ps;
      WithoutEntriesOk(ps[1..], name);
      LineEndIsSpace();
    }
    hide Plain, HoldsNone, IsSpace;
  }

  /** A file is read as its entries exactly when it holds no other code, and no mark in a key or text: comments, tags,
      declarations and white space between them do not matter, anything else refuses the whole file. */
  lemma ParsedPieces(ps: seq<Piece>, name: string, tail: string)
    requires IsName(name) && PiecesOk(ps, name) && Plain(tail, name)
    ensures Parsed(FileOf(ps, name, tail), name) ==
            if NoCode(ps) && IsBlank(tail) && (forall e :: e in EntriesOf(ps) ==> MarkFree(e, name))
            then Some(Collected(EntriesOf(ps))) else None
  {
    hide Read, FileOf, Count, Mark, Marks, MarkFree, PiecesOk, WithoutDeclarations, WithoutComments, Skip, IsBlank, Collected,
      HoldsNone, EntriesOf, NoCode, NoEntries, NoDeclarations, IsName;
    var rest := WithoutEntries(ps);
    ReadsPieces(ps, name, tail);
    WithoutEntriesOk(ps, name);
    DeclarationsGone(rest, name, tail);
    UndeclaredOk(rest, name);
    CommentsGone(Undeclared(rest), name, tail);
    UncommentedOk(Undeclared(rest), name);
    LeftIsBlank(Uncommented(Undeclared(rest)), name, tail);
    SkipIsBlank(FileOf(Uncommented(Undeclared(rest)), name, tail));
    CodeStays(ps);
    MarksNone(EntriesOf(ps), name);
  }

  // ---- A file as it is written, and what is added to it ----

  /** The pieces a written file is made of. */
  function PiecesOf(es: Entries): seq<Piece> {
    HeadOf(LinesOf(es))
  }

  function HeadOf(lines: seq<Piece>): seq<Piece> {
    [Opening] + ([Blank('\n')] + ([Blank('\n')] + ([Global] + ([Blank('\n')] + ([LongArray] + ([Blank('\n')] + lines))))))
  }

  function LinesOf(es: Entries): seq<Piece> {
    if es == [] then [] else [Given(es[0])] + LinesOf(es[1..])
  }

  lemma LineThen(e: Entry, name: string, a: string, b: string)
    ensures Line(e, name, a) + b == Line(e, name, a + b)
  {
    hide Escaped, Mark;
  }

  lemma {:induction false} LinesOfAre(es: Entries, name: string, tail: string)
    ensures FileOf(LinesOf(es), name, tail) == Lines(es, name) + tail
    ensures EntriesOf(LinesOf(es)) == es && PiecesOk(LinesOf(es), name) && NoCode(LinesOf(es))
  {
    hide Line;
    if es == [] {
      assert "" + tail == tail;
    } else {
      LinesOfAre(es[1..], name, tail);
      LineThen(es[0], name, Lines(es[1..], name), tail);
      var rest := LinesOf(es[1..]);
      assert ([Given(es[0])] + rest)[1..] == rest && es == [es[0]] + es[1..];
    }
  }

  lemma HeaderThen(name: string, a: string, b: string)
    ensures Header(name, a) + b == Header(name, a + b)
  {
    hide Dollar;
  }

  lemma HeadText(lines: seq<Piece>, name: string, tail: string)
    ensures FileOf(HeadOf(lines), name, tail) == Header(name, FileOf(lines, name, tail))
  {
    var a := [LongArray] + ([Blank('\n')] + lines);
    var b := [Blank('\n')] + ([Global] + ([Blank('\n')] + a));
    FileOfFirst(Opening, [Blank('\n')] + b, name, tail);
    FileOfFirst(Blank('\n'), b, name, tail);
    FileOfFirst(Blank('\n'), [Global] + ([Blank('\n')] + a), name, tail);
    FileOfFirst(Global, [Blank('\n')] + a, name, tail);
    FileOfFirst(Blank('\n'), a, name, tail);
    FileOfFirst(LongArray, [Blank('\n')] + lines, name, tail);
    FileOfFirst(Blank('\n'), lines, name, tail);
    hide FileOf, Dollar;
  }

  lemma HeadEntries(lines: seq<Piece>)
    ensures EntriesOf(HeadOf(lines)) == EntriesOf(lines)
  {
    var a := [LongArray] + ([Blank('\n')] + lines);
    var b := [Blank('\n')] + ([Global] + ([Blank('\n')] + a));
    EntriesFirst(Opening, [Blank('\n')] + b);
    EntriesFirst(Blank('\n'), b);
    EntriesFirst(Blank('\n'), [Global] + ([Blank('\n')] + a));
    EntriesFirst(Global, [Blank('\n')] + a);
    EntriesFirst(Blank('\n'), a);
    EntriesFirst(LongArray, [Blank('\n')] + lines);
    EntriesFirst(Blank('\n'), lines);
    hide EntriesOf;
  }

  lemma HeadOk(lines: seq<Piece>, name: string)
    requires PiecesOk(lines, name) && NoCode(lines)
    ensures PiecesOk(HeadOf(lines), name) && NoCode(HeadOf(lines))
  {
    LineEndOk(name);
  }

  lemma PiecesOfAre(es: Entries, name: string, tail: string)
    ensures FileOf(PiecesOf(es), name, tail) == FileText(es, name) + tail
    ensures EntriesOf(PiecesOf(es)) == es && PiecesOk(PiecesOf(es), name) && NoCode(PiecesOf(es))
  {
    LinesOfAre(es, name, tail);
    HeaderThen(name, Lines(es, name), tail);
    HeadText(LinesOf(es), name, tail);
    HeadEntries(LinesOf(es));
    HeadOk(LinesOf(es), name);
    hide FileOf, EntriesOf, Lines, Header, LinesOf, HeadOf, PiecesOk, NoCode;
  }

  lemma EntriesFirst(p: Piece, rest: seq<Piece>)
    ensures EntriesOf([p] + rest) == (if p.Given? then [p.entry] else []) + EntriesOf(rest)
  {
    assert ([p] + rest)[1..] == rest;
  }

  /** Code added behind the last line of a written file refuses it; white space does not. */
  lemma AddedBehind(es: Entries, name: string, tail: string)
    requires IsName(name) && NoKeyTwice(es) && (forall e :: e in es ==> MarkFree(e, name)) && Plain(tail, name)
    ensures Parsed(FileText(es, name) + tail, name) == if IsBlank(tail) then Some(es) else None
  {
    hide *;
    PiecesOfAre(es, name, tail);
    ParsedPieces(PiecesOf(es), name, tail);
    CollectedAgain(es);
  }
}
