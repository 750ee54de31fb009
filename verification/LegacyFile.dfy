/** A legacy translation file: written from its entries, and read back only when it holds nothing else. */
module LegacyFile {
  import opened LegacyText
  import opened PythonText
  import opened Wrappers

  datatype Entry = Entry(key: string, text: string)

  /** A dictionary, in the order its keys were first set. */
  type Entries = seq<Entry>

  function Put(es: Entries, key: string, text: string): Entries {
    if es == [] then [Entry(key, text)]
    else if es[0].key == key then [Entry(key, text)] + es[1..]
    else [es[0]] + Put(es[1..], key, text)
  }

  predicate HasKey(es: Entries, key: string) {
    exists e :: e in es && e.key == key
  }

  predicate NoKeyTwice(es: Entries) {
    es == [] || (!HasKey(es[1..], es[0].key) && NoKeyTwice(es[1..]))
  }

  // ---- Reading ----

  function After(s: string, p: string): (rest: Option<string>)
    ensures rest.Some? ==> |rest.value| == |s| - |p|
  {
    if p <= s then Some(s[|p|..]) else None
  }

  /** What follows these parts, white space between them. */
  function AfterParts(s: string, parts: seq<string>): (rest: Option<string>)
    ensures rest.Some? ==> |rest.value| <= |s|
    decreases |parts|
  {
    if parts == [] then Some(s)
    else
      match After(s, parts[0])
      case None => None
      case Some(rest) => if |parts| == 1 then Some(rest) else AfterParts(Skip(rest), parts[1..])
  }

  /** A single-quoted literal's text, and what follows it. */
  function Literal(s: string): (r: Option<(string, string)>)
    ensures r.Some? ==> |r.value.1| < |s|
  {
    if s == "" || s[0] != QUOTE then None
    else
      match BodyEnd(s[1..])
      case None => None
      case Some(end) => Some((Unescaped(s[1..][..end]), s[1..][end + 1..]))
  }

  function Dollar(name: string): string {
    "$" + name
  }

  function Mark(name: string): (mark: string)
    ensures mark != ""
  {
    "$" + name + "["
  }

  /** The entry a text starts with, and what follows it. */
  function EntryAt(s: string, name: string): (r: Option<(Entry, string)>)
    ensures r.Some? ==> |r.value.1| < |s|
  {
    match After(s, Mark(name))
    case None => None
    case Some(a) =>
      match Literal(Skip(a))
      case None => None
      case Some(key) =>
        match AfterParts(Skip(key.1), ["]", "="])
        case None => None
        case Some(b) =>
          match Literal(Skip(b))
          case None => None
          case Some(text) =>
            match AfterParts(Skip(text.1), [";"])
            case None => None
            case Some(rest) => Some((Entry(key.0, text.0), rest))
  }

  /** The entries matched in a text, one behind another, and the text without them. */
  datatype Reading = Reading(entries: seq<Entry>, rest: string)

  function Read(s: string, name: string): Reading
    decreases |s|
  {
    if s == "" then Reading([], "")
    else
      match EntryAt(s, name)
      case Some(found) =>
        var more := Read(found.1, name);
        Reading([found.0] + more.entries, more.rest)
      case None =>
        var more := Read(s[1..], name);
        Reading(more.entries, [s[0]] + more.rest)
  }

  /** What follows a tag of PHP, or a declaration of the array, a text starts with. */
  function AfterDeclaration(s: string, name: string): (rest: Option<string>)
    ensures rest.Some? ==> |rest.value| < |s|
  {
    var global := After(s, "global");
    if "<?php" <= s then Some(s[5..])
    else if "?>" <= s then Some(s[2..])
    else if global.Some? && global.value != "" && IsSpace(global.value[0]) && AfterParts(Skip(global.value), [Dollar(name), ";"]).Some? then
      AfterParts(Skip(global.value), [Dollar(name), ";"])
    else
      match After(s, Dollar(name))
      case None => None
      case Some(a) =>
        var long := AfterParts(Skip(a), ["=", "array(", ")", ";"]);
        if long.Some? then long else AfterParts(Skip(a), ["=", "[", "]", ";"])
  }

  function WithoutDeclarations(s: string, name: string): string
    decreases |s|
  {
    if s == "" then ""
    else
      match AfterDeclaration(s, name)
      case Some(rest) => WithoutDeclarations(rest, name)
      case None => [s[0]] + WithoutDeclarations(s[1..], name)
  }

  function LineEnd(s: string): (rest: string)
    ensures |rest| <= |s|
  {
    if s == "" || s[0] == '\n' then s else LineEnd(s[1..])
  }

  function CommentEnd(s: string): (rest: Option<string>)
    ensures rest.Some? ==> |rest.value| <= |s|
  {
    if "*/" <= s then Some(s[2..]) else if s == "" then None else CommentEnd(s[1..])
  }

  function AfterComment(s: string): (rest: Option<string>)
    ensures rest.Some? ==> |rest.value| < |s|
  {
    if "//" <= s then Some(LineEnd(s[2..]))
    else if "#" <= s then Some(LineEnd(s[1..]))
    else if "/*" <= s then CommentEnd(s[2..])
    else None
  }

  function WithoutComments(s: string): string
    decreases |s|
  {
    if s == "" then ""
    else
      match AfterComment(s)
      case Some(rest) => WithoutComments(rest)
      case None => [s[0]] + WithoutComments(s[1..])
  }

  function Collected(es: seq<Entry>): Entries {
    if es == [] then [] else Put(Collected(es[..|es| - 1]), es[|es| - 1].key, es[|es| - 1].text)
  }

  /** The entries of a file that has nothing but entries. */
  function Parsed(text: string, name: string): Option<Entries> {
    var reading := Read(text, name);
    var left := WithoutComments(WithoutDeclarations(reading.rest, name));
    if Skip(left) == "" && Count(text, Mark(name)) == |reading.entries| then Some(Collected(reading.entries)) else None
  }

  method ParseLegacy(text: string, name: string) returns (entries: Option<Entries>)
    ensures entries == Parsed(text, name)
  {
    var reading := Read(text, name);
    var found: Entries := [];
    for i := 0 to |reading.entries|
      invariant found == Collected(reading.entries[..i])
    {
      assert reading.entries[..i + 1][..i] == reading.entries[..i];
      found := Put(found, reading.entries[i].key, reading.entries[i].text);
    }
    assert reading.entries[..|reading.entries|] == reading.entries;
    var left := WithoutComments(WithoutDeclarations(reading.rest, name));
    return if Skip(left) == "" && Count(text, Mark(name)) == |reading.entries| then Some(found) else None;
  }

  // ---- Writing ----

  /** An entry's line, before what follows. */
  function Line(e: Entry, name: string, rest: string): string {
    Mark(name) + ("'" + (Escaped(e.key) + ("'" + ("]" + (" " + ("=" + (" " + ("'" + (Escaped(e.text) + ("'" + (";" + ("\n" + rest))))))))))))
  }

  function Lines(es: Entries, name: string): string {
    if es == [] then "" else Line(es[0], name, Lines(es[1..], name))
  }

  /** What a file starts with, before its lines. */
  function Header(name: string, rest: string): string {
    "<?php" + ("\n" + ("\n" + ("global" + (" " + (Dollar(name) + (";" + ("\n" +
    (Dollar(name) + (" " + ("=" + (" " + ("array(" + (")" + (";" + ("\n" + rest)))))))))))))))
  }

  function FileText(es: Entries, name: string): string {
    Header(name, Lines(es, name))
  }

  /** The names the arrays have. */
  predicate IsName(name: string) {
    name != "" && forall c :: c in name ==> 'A' <= c <= 'Z' || c == '_'
  }

  lemma AfterOf(p: string, rest: string)
    ensures After(p + rest, p) == Some(rest)
  {
  }

  lemma LiteralOf(s: string, rest: string)
    ensures Literal("'" + (Escaped(s) + ("'" + rest))) == Some((s, rest))
  {
    var all, body := "'" + (Escaped(s) + ("'" + rest)), Escaped(s) + ([QUOTE] + rest);
    BodyEndOf(s, rest);
    UnescapedEscaped(s);
    hide Escaped, Unescaped;
    assert "'" == [QUOTE] && all[1..] == body;
    assert body[..|Escaped(s)|] == Escaped(s) && body[|Escaped(s)| + 1..] == rest;
  }

  /** Skipping white space stops at a character that is none. */
  lemma SkipStops(p: string, rest: string)
    requires p != "" && !IsSpace(p[0])
    ensures Skip(p + rest) == p + rest
  {
    assert (p + rest)[0] == p[0];
  }

  lemma SkipOne(rest: string)
    ensures Skip(" " + rest) == Skip(rest)
  {
    assert (" " + rest)[1..] == rest;
  }

  /** A line is read as its entry. */
  lemma EntryOfLine(e: Entry, name: string, rest: string)
    ensures EntryAt(Line(e, name, rest), name) == Some((e, "\n" + rest))
  {
    var d := ";" + ("\n" + rest);
    var c := "'" + (Escaped(e.text) + ("'" + d));
    var b := "]" + (" " + ("=" + (" " + c)));
    var a := "'" + (Escaped(e.key) + ("'" + b));
    assert Line(e, name, rest) == Mark(name) + a;
    AfterOf(Mark(name), a);
    SkipStops("'", Escaped(e.key) + ("'" + b));
    LiteralOf(e.key, b);
    SkipStops("]", " " + ("=" + (" " + c)));
    EqualsOf(c);
    SkipOne(c);
    SkipStops("'", Escaped(e.text) + ("'" + d));
    LiteralOf(e.text, d);
    SkipStops(";", "\n" + rest);
    AfterOf(";", "\n" + rest);
    hide Literal, Escaped, Mark, After, Skip;
  }

  lemma EqualsOf(c: string)
    ensures AfterParts("]" + (" " + ("=" + (" " + c))), ["]", "="]) == Some(" " + c)
  {
    AfterOf("]", " " + ("=" + (" " + c)));
    SkipOne("=" + (" " + c));
    SkipStops("=", " " + c);
    AfterOf("=", " " + c);
    hide After, Skip;
  }

  /** Where the mark does not start, no entry does. */
  lemma ReadStep(s: string, name: string)
    requires s != "" && !StartsWith(s, Mark(name))
    ensures Read(s, name) == Reading(Read(s[1..], name).entries, [s[0]] + Read(s[1..], name).rest)
  {
    hide Literal, Skip, AfterParts, Mark;
  }

  /** No entry starts before a character the mark does not have, when the mark does not occur up to it. */
  lemma {:induction false} ReadPast(p: string, c: char, rest: string, name: string)
    requires c !in Mark(name) && Count(p, Mark(name)) == 0
    ensures Read(p + ([c] + rest), name) == Reading(Read(rest, name).entries, p + ([c] + Read(rest, name).rest))
  {
    hide *;
    var all := p + ([c] + rest);
    NotAtStart(p, c, rest, Mark(name));
    ReadStep(all, name);
    if p == "" {
      assert all[1..] == rest && all[0] == c;
      assert "" + ([c] + Read(rest, name).rest) == [c] + Read(rest, name).rest;
    } else {
      assert all[1..] == p[1..] + ([c] + rest) && all[0] == p[0];
      ReadPast(p[1..], c, rest, name);
      assert [p[0]] + (p[1..] + ([c] + Read(rest, name).rest)) == p + ([c] + Read(rest, name).rest);
    }
  }

  lemma NotAtStart(p: string, c: char, rest: string, mark: string)
    requires mark != "" && c !in mark && Count(p, mark) == 0
    ensures !StartsWith(p + ([c] + rest), mark)
    ensures p != "" ==> Count(p[1..], mark) == 0
  {
    assert (p + ([c] + rest))[|p|] == c;
  }
}
