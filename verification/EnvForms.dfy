/** The other forms a line of an env file can have: exported, indented, commented, quoted over several lines. */
module EnvForms {
  import opened EnvFile
  import opened PythonText
  import opened Sequences
  import opened Wrappers

  // ---- Keys ----

  predicate AllTabs(s: string) {
    forall i :: 0 <= i < |s| ==> s[i] == ' ' || s[i] == '\t'
  }

  lemma {:induction false} SkipAllTabs(s: string, rest: string)
    requires AllTabs(s) && (rest != "" ==> rest[0] != ' ' && rest[0] != '\t')
    ensures SkipTabs(s + rest) == rest
  {
    if s == "" {
      assert s + rest == rest;
    } else {
      assert (s + rest)[1..] == s[1..] + rest && (s + rest)[0] == s[0];
      SkipAllTabs(s[1..], rest);
    }
  }

  predicate StartsValue(raw: string) {
    raw != "" ==> raw[0] != ' ' && raw[0] != '\t'
  }

  /** Tabs and spaces around the equals sign, or a colon for it, do not matter. */
  lemma AssignmentForms(key: Key, before: string, sign: char, after: string, raw: string)
    requires IsKey(key) && AllTabs(before) && AllTabs(after) && (sign == '=' || sign == ':') && StartsValue(raw)
    ensures Assignment(key + (before + ([sign] + (after + raw)))) == Some((key, raw))
  {
    var tail := [sign] + (after + raw);
    var line := key + (before + tail);
    NameLengthOf(key, before + tail);
    assert line[|key|..] == before + tail && line[..|key|] == key && tail[1..] == after + raw;
    SkipAllTabs(before, tail);
    SkipAllTabs(after, raw);
    hide NameLength, SkipTabs;
  }

  /** With export and a space in front it is the same entry. */
  lemma ExportedForms(key: Key, between: string, before: string, sign: char, after: string, raw: string)
    requires IsKey(key) && AllTabs(before) && AllTabs(after) && (sign == '=' || sign == ':') && StartsValue(raw)
    requires AllTabs(between) && between != ""
    ensures Entry("export" + (between + (key + (before + ([sign] + (after + raw)))))) == Some((key, raw))
  {
    var rest := key + (before + ([sign] + (after + raw)));
    var line := "export" + (between + rest);
    assert line[6..] == between + rest && line[6] == between[0] && "export" < line;
    assert IsLetter(key[0]) && rest[0] == key[0];
    SkipAllTabs(between, rest);
    AssignmentForms(key, before, sign, after, raw);
    hide Assignment, SkipTabs;
  }

  // ---- Unquoted values ----

  lemma {:induction false} BeforeCommentOf(value: string, c: char, rest: string)
    requires AllPlain(value) && IsSpace(c) && rest != "" && rest[0] == '#'
    ensures BeforeComment(value + ([c] + rest)) == value
  {
    var s := value + ([c] + rest);
    if value == "" {
      assert s[0] == c && s[1] == '#';
    } else {
      assert IsPlain(value[0]) && s[0] == value[0] && s[1..] == value[1..] + ([c] + rest);
      BeforeCommentOf(value[1..], c, rest);
    }
  }

  /** A comment behind a plain value is left out. */
  lemma CommentLeftOut(value: string, c: char, rest: string)
    requires AllPlain(value) && value != "" && IsSpace(c) && rest != "" && rest[0] == '#'
    ensures Unquoted(value + ([c] + rest)) == value
  {
    assert IsPlain(value[0]) && (value + ([c] + rest))[0] == value[0];
    BeforeCommentOf(value, c, rest);
    NoComment(value);
    hide BeforeComment, Skip, SkipEnd;
  }

  // ---- Quoted values ----

  /** A piece of a double-quoted text: a character that stands for itself, or one behind a backslash. */
  datatype Piece = Char(c: char) | Escape(c: char)

  predicate PieceOk(p: Piece) {
    p.Char? ==> p.c != '\\' && p.c != '"'
  }

  const CONTROLS := map['n' := '\n', 't' := '\t', 'r' := '\r']

  function PieceText(p: Piece): string {
    if p.Char? then [p.c] else ['\\', p.c]
  }

  /** What a piece stands for. */
  function PieceMeaning(p: Piece): char {
    if p.Escape? && p.c in CONTROLS then CONTROLS[p.c] else p.c
  }

  function Body(ps: seq<Piece>): string {
    if ps == [] then "" else PieceText(ps[0]) + Body(ps[1..])
  }

  function Meaning(ps: seq<Piece>): string {
    if ps == [] then "" else [PieceMeaning(ps[0])] + Meaning(ps[1..])
  }

  lemma ClosingNext(p: Piece, tail: string)
    requires PieceOk(p)
    ensures Closing(PieceText(p) + tail, '"') ==
            match Closing(tail, '"') case None => None case Some(at) => Some(at + |PieceText(p)|)
    ensures Unescaped(PieceText(p) + tail) == [PieceMeaning(p)] + Unescaped(tail)
  {
    var s := PieceText(p) + tail;
    assert s[|PieceText(p)|..] == tail && s[0] == PieceText(p)[0] && (p.Escape? ==> s[1] == p.c);
  }

  lemma ClosingHere(rest: string)
    ensures Closing("" + ("\"" + rest), '"') == Some(0) && Unescaped("") == ""
  {
    assert ("" + ("\"" + rest))[0] == '"';
  }

  /** A double-quoted text ends at its own quote, and is read as what its pieces stand for. */
  lemma {:induction false} DoubleQuoted(ps: seq<Piece>, rest: string)
    requires forall p :: p in ps ==> PieceOk(p)
    ensures Closing(Body(ps) + ("\"" + rest), '"') == Some(|Body(ps)|) && Unescaped(Body(ps)) == Meaning(ps)
  {
    BodyFirst(ps);
    hide *;
    if ps == [] {
      ClosingHere(rest);
    } else {
      assert ps[0] in ps;
      DoubleQuoted(ps[1..], rest);
      ClosingNext(ps[0], Body(ps[1..]) + ("\"" + rest));
      ClosingNext(ps[0], Body(ps[1..]));
      Associative(PieceText(ps[0]), Body(ps[1..]), "\"" + rest);
    }
  }

  lemma BodyFirst(ps: seq<Piece>)
    ensures ps == [] ==> Body(ps) == "" && Meaning(ps) == ""
    ensures ps != [] ==> Body(ps) == PieceText(ps[0]) + Body(ps[1..]) && Meaning(ps) == [PieceMeaning(ps[0])] + Meaning(ps[1..])
  {
  }

  lemma DoubleQuotedSets(key: Key, ps: seq<Piece>, rest: string)
    requires IsKey(key) && forall p :: p in ps ==> PieceOk(p)
    ensures Set(key + ("=" + ("\"" + (Body(ps) + ("\"" + rest))))) == Some((key, Meaning(ps)))
  {
    var raw := "\"" + (Body(ps) + ("\"" + rest));
    EntryOf(key, raw);
    DoubleQuoted(ps, rest);
    assert raw[0] == '"' && raw[1..] == Body(ps) + ("\"" + rest) && raw[1..][..|Body(ps)|] == Body(ps);
    assert SkipTabs(raw) == raw;
    hide Entry, IsIgnored, Skip, SkipTabs, Closing, Unescaped, Body, Meaning;
  }

  /** The lines of a text, one below the other. */
  function Below(first: string, more: seq<string>): string
    decreases |more|
  {
    if more == [] then first else Below(first + "\n" + more[0], more[1..])
  }

  lemma {:induction false} NotThere(s: string, c: char)
    requires c !in s
    ensures FindChar(s, c) == None
  {
    if s != "" {
      assert s[0] in s;
      NotThere(s[1..], c);
    }
  }

  lemma NotInBoth(a: string, b: string, c: char)
    requires c !in a && c !in b
    ensures c !in a + b
  {
  }

  /** A single-quoted value goes on over the next lines up to the one that holds the closing quote. */
  lemma {:induction false} QuotedOver(lines: seq<Line>, next: nat, body: string, more: seq<string>, last: string, rest: string)
    requires next + |more| < |lines| && lines[next..next + |more|] == more && lines[next + |more|] == last + ("'" + rest)
    requires '\'' !in body && '\'' !in last && forall line :: line in more ==> '\'' !in line
    ensures Quoted(lines, next, body, '\'') == Some((Below(body, more) + "\n" + last, next + |more| + 1))
    decreases |more|
  {
    NotThere(body, '\'');
    NotInBoth(body, "\n", '\'');
    if more == [] {
      var whole := body + "\n" + lines[next];
      assert whole == (body + "\n" + last) + (['\''] + rest);
      NotInBoth(body + "\n", last, '\'');
      FindOnly(body + "\n" + last, '\'', rest);
      assert whole[..|body + "\n" + last|] == body + "\n" + last;
      assert Closing(whole, '\'') == Some(|body + "\n" + last|);
      assert Closing(body, '\'') == None;
      hide FindChar;
    } else {
      assert lines[next..next + |more|][0] == lines[next] == more[0] && more[0] in more;
      assert lines[next + 1..next + 1 + |more[1..]|] == lines[next..next + |more|][1..];
      NotInBoth(body + "\n", more[0], '\'');
      QuotedOver(lines, next + 1, body + "\n" + more[0], more[1..], last, rest);
      assert Closing(body, '\'') == None;
      hide FindChar;
    }
  }

  /** Such an entry sets its key to all the lines of the value. */
  lemma MultiLineSets(key: Key, first: string, more: seq<string>, last: string, rest: string)
    requires IsKey(key) && '\'' !in first && '\'' !in last && forall line :: line in more ==> '\'' !in line
    ensures var lines := [key + ("=" + ("'" + first))] + more + [last + ("'" + rest)];
            Parsed(lines, 0, map[]) == Ok(map[key := Below(first, more) + "\n" + last])
  {
    var raw := "'" + first;
    var line := key + ("=" + raw);
    var lines := [line] + more + [last + ("'" + rest)];
    EntryOf(key, raw);
    assert SkipTabs(raw) == raw && raw[0] == '\'' && raw[1..] == first;
    assert lines[1..1 + |more|] == more && lines[0] == line;
    QuotedOver(lines, 1, first, more, last, rest);
    hide Entry, IsIgnored, Skip, SkipTabs, Quoted, Below;
    assert Parsed(lines, |lines|, map[key := Below(first, more) + "\n" + last]) == Ok(map[key := Below(first, more) + "\n" + last]);
  }

  /** A value is refused exactly when it holds a single quote or a line break. */
  lemma RefusedValues(key: Key, value: string)
    ensures LineFor(key, value).None? <==> '\'' in value || '\n' in value
  {
    if AllPlain(value) {
      forall c | c in value
        ensures IsPlain(c) && c != '\'' && c != '\n'
      {
        var i :| 0 <= i < |value| && value[i] == c;
      }
    }
  }
}
