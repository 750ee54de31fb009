/** One value set in an env file: what the file holds and says afterwards. */
module EnvValues {
  import opened EnvFile
  import opened EnvWrite
  import opened PythonText
  import opened Wrappers

  // ---- What lines say ----

  lemma {:induction false} ReadConcat(a: seq<Line>, b: seq<Line>)
    ensures Read(a + b) == Read(a) + Read(b)
  {
    if b == [] {
      assert a + b == a;
    } else {
      assert (a + b)[..|a + b| - 1] == a + b[..|b| - 1];
      ReadConcat(a, b[..|b| - 1]);
      hide Set;
    }
  }

  lemma {:induction false} ReadNonBlank(lines: seq<Line>)
    ensures Read(NonBlank(lines)) == Read(lines)
  {
    if lines != [] {
      var before, last := lines[..|lines| - 1], lines[|lines| - 1];
      ReadNonBlank(before);
      if IsBlank(last) {
        assert Set(last).None?;
        assert NonBlank(before) + [] == NonBlank(before);
      } else {
        assert (NonBlank(before) + [last])[..|NonBlank(before)|] == NonBlank(before);
      }
      hide Set, IsBlank;
    }
  }

  lemma ReadOne(line: Line)
    ensures Read([line]) == match Set(line) case None => map[] case Some((key, value)) => map[key := value]
  {
    assert [line][..0] == [];
    hide Set;
  }

  lemma HeaderSetsNothing(section: Section)
    ensures Set(Header(section)).None? && IsIgnored(Header(section))
  {
    var header := Header(section);
    assert header[0] == '#' && Skip(header) == header;
  }

  lemma ReadBetween(x: seq<Line>, lines: seq<Line>, y: seq<Line>)
    ensures Read(x + lines + y) == Read(x) + Read(lines) + Read(y) && Read(x + y) == Read(x) + Read(y)
  {
    ReadConcat(x, y);
    ReadConcat(x + lines, y);
    ReadConcat(x, lines);
    hide Read;
  }

  /** The last line that sets the key. */
  function LastSetter(lines: seq<Line>, key: Key): (r: Option<Line>)
    ensures r.Some? ==> r.value in lines && Set(r.value).Some? && Set(r.value).value.0 == key
  {
    if lines == [] then None
    else
      var last := lines[|lines| - 1];
      if Set(last).Some? && Set(last).value.0 == key then Some(last) else LastSetter(lines[..|lines| - 1], key)
  }

  /** The last line that sets the key decides what is read. */
  lemma {:induction false} LastSetterReads(lines: seq<Line>, key: Key)
    ensures key in Read(lines) <==> LastSetter(lines, key).Some?
    ensures LastSetter(lines, key).Some? ==> Read(lines)[key] == Set(LastSetter(lines, key).value).value.1
  {
    if lines != [] {
      LastSetterReads(lines[..|lines| - 1], key);
      hide Set;
    }
  }

  lemma {:induction false} LastSetterConcat(a: seq<Line>, b: seq<Line>, key: Key)
    ensures LastSetter(a + b, key) == if LastSetter(b, key).Some? then LastSetter(b, key) else LastSetter(a, key)
  {
    if b == [] {
      assert a + b == a;
    } else {
      assert (a + b)[..|a + b| - 1] == a + b[..|b| - 1];
      LastSetterConcat(a, b[..|b| - 1], key);
      hide Set;
    }
  }

  lemma {:induction false} LastSetterNonBlank(lines: seq<Line>, key: Key)
    ensures LastSetter(NonBlank(lines), key) == LastSetter(lines, key)
  {
    if lines != [] {
      var before, last := lines[..|lines| - 1], lines[|lines| - 1];
      LastSetterNonBlank(before, key);
      if IsBlank(last) {
        assert Set(last).None?;
        assert NonBlank(before) + [] == NonBlank(before);
      } else {
        assert (NonBlank(before) + [last])[..|NonBlank(before)|] == NonBlank(before);
      }
      hide Set, IsBlank;
    }
  }

  /** No setter among some lines, none among fewer. */
  lemma {:induction false} NoSetter(lines: seq<Line>, key: Key)
    ensures LastSetter(lines, key).None? <==> forall line :: line in lines ==> !(Set(line).Some? && Set(line).value.0 == key)
  {
    if lines != [] {
      NoSetter(lines[..|lines| - 1], key);
      assert forall l :: l in lines <==> l in lines[..|lines| - 1] || l == lines[|lines| - 1];
      hide Set;
    }
  }

  // ---- Replacing ----

  predicate IsOf(line: Line, key: Key) {
    key + "=" <= line
  }

  function Replaced(lines: seq<Line>, key: Key, line: Line): seq<Line> {
    if lines == [] then []
    else Replaced(lines[..|lines| - 1], key, line) + [if IsOf(lines[|lines| - 1], key) then line else lines[|lines| - 1]]
  }

  predicate Has(lines: seq<Line>, key: Key) {
    exists line :: line in lines && IsOf(line, key)
  }

  /** A line of a key sets that key. */
  lemma OfSets(line: Line, key: Key)
    requires IsKey(key) && IsOf(line, key) && IsSingle(line)
    ensures !IsIgnored(line) && Set(line).Some? && Set(line).value.0 == key
  {
    var raw := line[|key| + 1..];
    assert line == key + ("=" + raw);
    EntryOf(key, raw);
    hide Entry, Unquoted, Closing, Unescaped, IsQuote;
  }

  /** Every line of a file read line by line. */
  predicate AllSingle(lines: seq<Line>) {
    forall line :: line in lines ==> IsSingle(line)
  }

  lemma ReadLast(a: seq<Line>, line: Line)
    ensures Read(a + [line]) == match Set(line) case None => Read(a) case Some((key, value)) => Read(a)[key := value]
  {
    assert (a + [line])[..|a|] == a;
    hide Set;
  }

  lemma AllSingleStart(lines: seq<Line>)
    requires AllSingle(lines) && lines != []
    ensures AllSingle(lines[..|lines| - 1]) && IsSingle(lines[|lines| - 1])
  {
    hide IsSingle;
    assert forall l :: l in lines <==> l in lines[..|lines| - 1] || l == lines[|lines| - 1];
  }

  lemma LastSetterLast(a: seq<Line>, line: Line, key: Key)
    ensures LastSetter(a + [line], key) == if Set(line).Some? && Set(line).value.0 == key then Some(line) else LastSetter(a, key)
  {
    assert (a + [line])[..|a|] == a;
    hide Set;
  }

  lemma ReplacedLast(a: seq<Line>, last: Line, key: Key, line: Line)
    ensures Replaced(a + [last], key, line) == Replaced(a, key, line) + [if IsOf(last, key) then line else last]
  {
    assert (a + [last])[..|a|] == a;
    hide IsOf;
  }

  /** What the last line that sets a key says of it once the key's lines are replaced. */
  function WordOf(last: Option<Line>, key: Key, value: string): Option<string>
    requires last.Some? ==> Set(last.value).Some?
  {
    match last
    case None => None
    case Some(line) => Some(if IsOf(line, key) then value else Set(line).value.1)
  }

  function Worded(values: Values, key: Key, word: Option<string>): Values {
    if word.None? then values else values[key := word.value]
  }

  lemma WordedOver(values: Values, key: Key, word: Option<string>, other: Key, text: string, value: string)
    ensures other != key ==> Worded(values, key, word)[other := text] == Worded(values[other := text], key, word)
    ensures Worded(values, key, word)[key := value] == Worded(values[key := text], key, Some(value))
  {
  }

  /** Replacing a key's lines changes what the key reads and nothing else: to the new value, unless the last line that sets
      the key is written otherwise and keeps the last word. */
  lemma {:induction false} ReplacedReads(lines: seq<Line>, key: Key, value: string, line: Line)
    requires IsKey(key) && AllSingle(lines) && Set(line) == Some((key, value))
    ensures Read(Replaced(lines, key, line)) == Worded(Read(lines), key, WordOf(LastSetter(lines, key), key, value))
  {
    if lines != [] {
      var before, last := lines[..|lines| - 1], lines[|lines| - 1];
      hide Set, IsSingle, IsOf, IsKey, AllSingle, Read, Replaced, LastSetter, Worded;
      assert lines == before + [last];
      AllSingleStart(lines);
      ReplacedReads(before, key, value, line);
      ReplacedLast(before, last, key, line);
      LastSetterLast(before, last, key);
      ReadLast(before, last);
      var word := WordOf(LastSetter(before, key), key, value);
      if IsOf(last, key) {
        OfSets(last, key);
        ReadLast(Replaced(before, key, line), line);
        WordedOver(Read(before), key, word, key, Set(last).value.1, value);
      } else {
        ReadLast(Replaced(before, key, line), last);
        if Set(last).Some? {
          WordedOver(Read(before), key, word, Set(last).value.0, Set(last).value.1, Set(last).value.1);
        }
      }
    }
  }

  lemma {:induction false} ReplacedHolds(lines: seq<Line>, key: Key, line: Line, l: Line)
    ensures l in Replaced(lines, key, line) <==> (l in lines && !IsOf(l, key)) || (l == line && Has(lines, key))
  {
    if lines != [] {
      var before, last := lines[..|lines| - 1], lines[|lines| - 1];
      ReplacedHolds(before, key, line, l);
      assert l in lines <==> l in before || l == last;
      assert Has(lines, key) <==> Has(before, key) || IsOf(last, key) by {
        assert forall k :: k in lines <==> k in before || k == last;
      }
      hide IsOf, Has;
    }
  }

  lemma {:induction false} ReplacedSame(lines: seq<Line>, key: Key, line: Line)
    requires forall l :: l in lines && IsOf(l, key) ==> l == line
    ensures Replaced(lines, key, line) == lines
  {
    if lines != [] {
      assert lines[|lines| - 1] in lines;
      ReplacedSame(lines[..|lines| - 1], key, line);
      hide IsOf;
    }
  }

  /** A file that has a line of the key says something about it. */
  lemma HasSets(lines: seq<Line>, key: Key)
    requires IsKey(key) && AllSingle(lines) && Has(lines, key)
    ensures LastSetter(lines, key).Some?
  {
    var line :| line in lines && IsOf(line, key);
    OfSets(line, key);
    NoSetter(lines, key);
    hide Set, IsSingle, IsOf, IsKey;
  }

  // ---- Inserting ----

  lemma BlockReads(layout: Layout, lines: seq<Line>, key: Key, value: string, line: Line)
    requires Set(line) == Some((key, value))
    ensures Read(Block(layout, lines, key, line)) == map[key := value]
    ensures forall other :: LastSetter(Block(layout, lines, key, line), other).Some? <==> other == key
  {
    var block := Block(layout, lines, key, line);
    ReadOne(line);
    if block != [line] {
      var header := Header(layout[SectionOf(layout, key).value]);
      HeaderSetsNothing(layout[SectionOf(layout, key).value]);
      ReadOne(header);
      ReadConcat([header], [line]);
      assert [header] + [line] == block;
    }
    hide Set, Header, Block;
    assert Read(block) == map[key := value];
    forall other
      ensures LastSetter(block, other).Some? <==> other == key
    {
      LastSetterReads(block, other);
    }
  }

  lemma AroundReads(lines: seq<Line>, at: nat, block: seq<Line>, after: seq<Line>)
    requires Around(lines, at, block, after)
    ensures Read(after) == Read(lines[..at]) + Read(block) + Read(lines[at..])
    ensures Read(lines) == Read(lines[..at]) + Read(lines[at..])
  {
    assert lines[..at] + lines[at..] == lines;
    ReadNonBlank(after);
    ReadNonBlank(lines[..at]);
    ReadNonBlank(lines[at..]);
    ReadBetween(NonBlank(lines[..at]), block, NonBlank(lines[at..]));
    ReadConcat(lines[..at], lines[at..]);
    hide Read, NonBlank;
  }

  /** Inserting a key's line changes what the key reads and nothing else: to the new value, unless a line below it sets the
      key too. */
  lemma InsertedReads(layout: Layout, lines: seq<Line>, key: Key, value: string, line: Line)
    requires Set(line) == Some((key, value)) && !IsBlank(line)
    ensures Read(Put(layout, lines, key, line)) ==
            Read(lines)[key := match LastSetter(lines[Point(layout, lines, key)..], key)
                               case None => value
                               case Some(last) => Set(last).value.1]
  {
    hide *;
    var at := Point(layout, lines, key);
    PutIsAround(layout, lines, key, line);
    BlockReads(layout, lines, key, value, line);
    AroundReads(lines, at, Block(layout, lines, key, line), Put(layout, lines, key, line));
    LastSetterReads(lines[at..], key);
    PutBetween(Read(lines[..at]), Read(lines[at..]), key, value);
  }

  lemma PutBetween(a: Values, b: Values, key: Key, value: string)
    ensures a + map[key := value] + b == (a + b)[key := if key in b then b[key] else value]
  {
  }

  // ---- What is in a file after an insertion ----

  lemma {:induction false} NonBlankHolds(lines: seq<Line>)
    ensures forall l :: l in NonBlank(lines) <==> l in lines && !IsBlank(l)
  {
    if lines != [] {
      NonBlankHolds(lines[..|lines| - 1]);
      assert forall l :: l in lines <==> l in lines[..|lines| - 1] || l == lines[|lines| - 1];
      hide IsBlank;
    }
  }

  /** Nothing comes in but the line, a header and blank lines. */
  lemma PutAdds(layout: Layout, lines: seq<Line>, key: Key, line: Line)
    ensures forall l :: l in Put(layout, lines, key, line) ==> l in lines || l == line || l == "" || IsHeader(layout, l)
  {
    hide PutLast, PutSection, PutAt, FirstLater, PlaceIn, IsHeader;
    var section := SectionOf(layout, key);
    if section.None? {
      LastAdds(layout, lines, line);
    } else {
      var at := IndexOf(lines, Header(layout[section.value]));
      if at.None? {
        SectionAdds(layout, section.value, lines, line);
      } else {
        AtAdds(lines, PlaceIn(layout, lines, key, at.value + 1), line);
      }
    }
  }

  lemma LastAdds(layout: Layout, lines: seq<Line>, line: Line)
    ensures forall l :: l in PutLast(layout, lines, line) ==> l in lines || l == line || l == ""
  {
    WithoutEndKeeps(lines);
    hide WithoutEnd, NonBlank, BlockStart, IsHeader;
  }

  lemma SectionAdds(layout: Layout, index: nat, lines: seq<Line>, line: Line)
    requires index < |layout|
    ensures forall l :: l in PutSection(layout, index, lines, line) ==> l in lines || l == line || l == "" || IsHeader(layout, l)
  {
    var at, header := FirstLater(layout, index, lines), Header(layout[index]);
    var kept := WithoutEnd(lines[..at]);
    assert IsHeader(layout, header) by {
      assert layout[index] in layout;
    }
    WithoutEndKeeps(lines[..at]);
    assert PutSection(layout, index, lines, line) ==
           kept + AddBlank(kept != []) + [header, line] + AddBlank(at < |lines|) + lines[at..];
    BlankAdds(kept != []);
    BlankAdds(at < |lines|);
    hide *;
    assert forall l :: l in kept ==> l in lines[..at];
    assert forall l :: l in lines[..at] || l in lines[at..] ==> l in lines;
  }

  lemma BlankAdds(separate: bool)
    ensures forall l :: l in AddBlank(separate) ==> l == ""
  {
  }

  lemma AtAdds(lines: seq<Line>, at: nat, line: Line)
    requires at <= |lines|
    ensures forall l :: l in PutAt(lines, at, line) ==> l in lines || l == line
  {
  }

  lemma AroundHolds(lines: seq<Line>, at: nat, block: seq<Line>, after: seq<Line>)
    requires Around(lines, at, block, after)
    ensures forall l :: l in block ==> l in after
    ensures forall l :: l in lines && !IsBlank(l) ==> l in after
  {
    NonBlankHolds(after);
    NonBlankHolds(lines[..at]);
    NonBlankHolds(lines[at..]);
    hide NonBlank, IsBlank;
    assert lines == lines[..at] + lines[at..];
    forall l | l in block || (l in lines && !IsBlank(l))
      ensures l in after
    {
      assert l in block || l in lines[..at] || l in lines[at..];
      assert l in NonBlank(after);
    }
  }

  lemma PutHolds(layout: Layout, lines: seq<Line>, key: Key, line: Line)
    requires !IsBlank(line)
    ensures line in Put(layout, lines, key, line)
    ensures forall l :: l in lines && !IsBlank(l) ==> l in Put(layout, lines, key, line)
  {
    assert line in Block(layout, lines, key, line);
    hide *;
    PutIsAround(layout, lines, key, line);
    AroundHolds(lines, Point(layout, lines, key), Block(layout, lines, key, line), Put(layout, lines, key, line));
  }

  lemma BlankIgnored()
    ensures forall l: Line :: IsBlank(l) ==> IsIgnored(l)
  {
  }

  lemma HeaderIgnored(layout: Layout)
    ensures forall l: Line :: IsHeader(layout, l) ==> IsIgnored(l) && Set(l).None?
  {
    forall l: Line | IsHeader(layout, l)
      ensures IsIgnored(l) && Set(l).None?
    {
      var section :| section in layout && l == Header(section);
      HeaderSetsNothing(section);
    }
  }

  /** A line starts with one key only. */
  lemma OneKey(line: Line, a: Key, b: Key)
    requires IsKey(a) && IsKey(b) && IsOf(line, a) && IsOf(line, b)
    ensures a == b
  {
    assert (a + "=")[|a|] == '=' && (b + "=")[|b|] == '=';
    assert line[|a|] == '=' && line[|b|] == '=';
    assert a == line[..|a|] && b == line[..|b|];
  }

  lemma IgnoredIsOfNone(line: Line, key: Key)
    requires IsKey(key) && IsOf(line, key)
    ensures !IsIgnored(line)
  {
    var raw := line[|key| + 1..];
    assert line == key + ("=" + raw);
    EntryOf(key, raw);
    hide IsIgnored, IsKey;
  }

  // ---- One value set ----

  datatype Pair = Pair(key: Key, value: string)

  /** The file with a key's lines replaced, or a line for it put in: the file is then split into lines anew. */
  function SetLine(layout: Layout, lines: seq<Line>, key: Key, line: Line): seq<Line> {
    if Has(lines, key) then Replaced(lines, key, line) else Put(layout, SplitLines(JoinLines(lines)), key, line)
  }

  /** The lines that come to have a say about a key: all of them where it has lines to replace, otherwise those below the
      place its line is put at. */
  function Decisive(layout: Layout, lines: seq<Line>, key: Key): seq<Line> {
    if Has(lines, key) then lines else lines[Point(layout, lines, key)..]
  }

  /** The value is taken: the last of those lines that sets the key, if there is one, is replaced or says the same. */
  predicate Taken(layout: Layout, lines: seq<Line>, pair: Pair) {
    match LastSetter(Decisive(layout, lines, pair.key), pair.key)
    case None => true
    case Some(last) => IsOf(last, pair.key) || Set(last).value.1 == pair.value
  }

  /** What the key reads after its value is set. */
  function Effect(layout: Layout, lines: seq<Line>, pair: Pair): string {
    match LastSetter(Decisive(layout, lines, pair.key), pair.key)
    case None => pair.value
    case Some(last) => if IsOf(last, pair.key) then pair.value else Set(last).value.1
  }

  /** A key without lines of its own to replace has none below any place. */
  lemma NoneIsOf(lines: seq<Line>, at: nat, key: Key)
    requires at <= |lines| && !Has(lines, key)
    ensures var last := LastSetter(lines[at..], key); last.Some? ==> !IsOf(last.value, key)
  {
    hide IsOf, LastSetter;
    assert forall l :: l in lines[at..] ==> l in lines;
  }

  /** Setting a value makes the parser read it, and nothing else anew, exactly when it is taken. */
  lemma SetReads(layout: Layout, lines: seq<Line>, pair: Pair, line: Line)
    requires IsKey(pair.key) && LineFor(pair.key, pair.value) == Some(line) && AllSingle(lines) && NoBreaks(lines)
    ensures var after := Read(SetLine(layout, lines, pair.key, line));
            && after == Read(lines)[pair.key := Effect(layout, lines, pair)]
            && (after == Read(lines)[pair.key := pair.value] <==> Taken(layout, lines, pair))
  {
    LineSets(pair.key, pair.value);
    BlankIgnored();
    SplitJoined(lines);
    hide Set, IsSingle, IsOf, IsKey, LineFor, Put, Point, Replaced, Read, AllSingle, IsIgnored, LastSetter, SplitLines, NoBreaks;
    if Has(lines, pair.key) {
      HasSets(lines, pair.key);
      ReplacedReads(lines, pair.key, pair.value, line);
    } else {
      NoneIsOf(lines, Point(layout, lines, pair.key), pair.key);
      InsertedReads(layout, lines, pair.key, pair.value, line);
    }
    var after := Read(SetLine(layout, lines, pair.key, line));
    assert after[pair.key] == Effect(layout, lines, pair);
    assert Read(lines)[pair.key := pair.value][pair.key] == pair.value;
  }

  /** What is in a file after one value is set: the new line, and of the others all but the key's own and blank ones. */
  lemma SetHolds(layout: Layout, lines: seq<Line>, pair: Pair, line: Line)
    requires IsKey(pair.key) && LineFor(pair.key, pair.value) == Some(line) && NoBreaks(lines)
    ensures var after := SetLine(layout, lines, pair.key, line);
            && line in after
            && (forall l :: l in after ==> (l in lines && !IsOf(l, pair.key)) || l == line || l == "" || IsHeader(layout, l))
            && (forall l :: l in lines && !IsBlank(l) && !IsOf(l, pair.key) ==> l in after)
  {
    LineSets(pair.key, pair.value);
    BlankIgnored();
    SplitJoined(lines);
    hide Set, IsOf, IsKey, LineFor, Put, Replaced, IsIgnored, IsBlank, SplitLines, NoBreaks, IsHeader;
    if Has(lines, pair.key) {
      forall l
        ensures l in Replaced(lines, pair.key, line) <==> (l in lines && !IsOf(l, pair.key)) || (l == line && Has(lines, pair.key))
      {
        ReplacedHolds(lines, pair.key, line, l);
      }
    } else {
      PutAdds(layout, lines, pair.key, line);
      PutHolds(layout, lines, pair.key, line);
    }
  }

  /** A value that is there already is set without a change. */
  lemma SetAgain(layout: Layout, lines: seq<Line>, pair: Pair, line: Line)
    requires LineFor(pair.key, pair.value) == Some(line) && IsKey(pair.key)
    requires line in lines && forall l :: l in lines && IsOf(l, pair.key) ==> l == line
    ensures SetLine(layout, lines, pair.key, line) == lines
  {
    LineSets(pair.key, pair.value);
    assert IsOf(line, pair.key);
    ReplacedSame(lines, pair.key, line);
    hide Set, IsOf, IsKey, LineFor, Replaced, IsIgnored;
  }

  /** The titles of the sections have no break in them. */
  predicate TitlesOk(layout: Layout) {
    forall section :: section in layout ==> !HasBreak(section.title)
  }

  lemma HeadersHaveNoBreak(layout: Layout)
    requires TitlesOk(layout)
    ensures forall l: Line :: IsHeader(layout, l) ==> !HasBreak(l)
  {
    forall l: Line | IsHeader(layout, l)
      ensures !HasBreak(l)
    {
      var section :| section in layout && l == Header(section);
      assert forall i :: 2 <= i < |l| ==> l[i] == section.title[i - 2];
      assert l[0] == '#' && l[1] == ' ';
    }
  }

  lemma LineHasNoBreak(key: Key, value: string)
    requires IsKey(key) && LineFor(key, value).Some? && !HasBreak(value)
    ensures !HasBreak(LineFor(key, value).value)
  {
    NoBreakIn(key, "=");
    NoBreakIn("'", value + "'");
    NoBreakIn(value, "'");
    NoBreakIn("=", value);
    NoBreakIn("=", "'" + (value + "'"));
    NoBreakIn(key, "=" + value);
    NoBreakIn(key, "=" + ("'" + (value + "'")));
    hide AllPlain;
    assert forall i :: 0 <= i < |key| ==> IsNameChar(key[i]) && !IsBreak(key[i]);
  }

  lemma NoBreakIn(a: string, b: string)
    ensures HasBreak(a + b) <==> HasBreak(a) || HasBreak(b)
  {
    var s := a + b;
    if HasBreak(a) {
      var i :| 0 <= i < |a| && IsBreak(a[i]);
      assert s[i] == a[i];
    }
    if HasBreak(b) {
      var i :| 0 <= i < |b| && IsBreak(b[i]);
      assert s[|a| + i] == b[i];
    }
    if HasBreak(s) {
      var i :| 0 <= i < |s| && IsBreak(s[i]);
      assert s[i] == if i < |a| then a[i] else b[i - |a|];
    }
  }

  /** A file read line by line stays one, and none of its lines gets a break in it. */
  lemma SetKeeps(layout: Layout, lines: seq<Line>, pair: Pair, line: Line)
    requires IsKey(pair.key) && LineFor(pair.key, pair.value) == Some(line) && !HasBreak(pair.value)
    requires TitlesOk(layout) && NoBreaks(lines)
    ensures NoBreaks(SetLine(layout, lines, pair.key, line))
    ensures AllSingle(lines) ==> AllSingle(SetLine(layout, lines, pair.key, line))
  {
    SetHolds(layout, lines, pair, line);
    LineSets(pair.key, pair.value);
    HeadersHaveNoBreak(layout);
    HeaderIgnored(layout);
    BlankIgnored();
    LineHasNoBreak(pair.key, pair.value);
    assert IsSingle(line) && !HasBreak("") && IsBlank("");
    assert forall l :: IsIgnored(l) ==> IsSingle(l);
    hide Set, IsOf, IsKey, LineFor, IsIgnored, IsSingle, IsBlank, HasBreak, IsHeader, SetLine;
  }

  method ReplaceLines(lines: seq<Line>, key: Key, line: Line) returns (after: seq<Line>)
    ensures after == Replaced(lines, key, line)
  {
    after := [];
    for i := 0 to |lines|
      invariant after == Replaced(lines[..i], key, line)
    {
      assert lines[..i + 1][..i] == lines[..i];
      after := after + [if IsOf(lines[i], key) then line else lines[i]];
    }
    assert lines[..|lines|] == lines;
  }

  method SetOne(layout: Layout, lines: seq<Line>, pair: Pair, line: Line) returns (after: seq<Line>)
    requires IsKey(pair.key) && LineFor(pair.key, pair.value) == Some(line)
    ensures after == SetLine(layout, lines, pair.key, line)
  {
    LineSets(pair.key, pair.value);
    if exists l :: l in lines && IsOf(l, pair.key) {
      after := ReplaceLines(lines, pair.key, line);
    } else {
      assert !IsBlank(line);
      after := Insert(layout, SplitLines(JoinLines(lines)), pair.key, line);
    }
  }

  // ---- A line that keeps the last word ----

  lemma ExportedSets(key: Key, value: string)
    requires IsKey(key) && AllPlain(value)
    ensures var line := "export " + (key + ("=" + value));
            Set(line) == Some((key, value)) && !IsOf(line, key) && !IsIgnored(line)
  {
    var rest := key + ("=" + value);
    var line := "export " + rest;
    AssignmentOf(key, value);
    PlainRaw(value);
    ExportedEntry(rest, key) by {
      assert rest[0] == key[0];
    }
    assert line[|key|] != '=' by {
      assert |key| < 6 ==> line[|key|] == "export"[|key|];
      assert |key| > 6 ==> line[|key|] == rest[|key| - 7];
    }
    hide Assignment, SkipTabs, Skip, AllPlain, Unquoted, IsQuote, IsKey, Entry, IsIgnored;
  }

  /** What stands behind export is read as an assignment. */
  lemma ExportedEntry(rest: string, key: Key)
    requires rest != "" && IsLetter(rest[0]) && Assignment(rest).Some?
    ensures var line := "export " + rest;
            Skip(line) == line && !IsIgnored(line) && Entry(line) == Assignment(rest)
  {
    var line := "export " + rest;
    assert line[..6] == "export" && line[6] == ' ' && line[6..] == " " + rest && (" " + rest)[1..] == rest;
    assert SkipTabs(line[6..]) == SkipTabs(rest) == rest;
    assert line[0] == 'e' && !IsSpace('e') && Skip(line) == line;
    hide Assignment;
  }

  lemma TwoLines(a: Line, b: Line, key: Key, line: Line)
    ensures Replaced([a, b], key, line) == [if IsOf(a, key) then line else a, if IsOf(b, key) then line else b]
    ensures Read([a, b]) == Read([a]) + Read([b])
    ensures Set(b).Some? && Set(b).value.0 == key ==> LastSetter([a, b], key) == Some(b)
    ensures Has([a, b], key) <==> IsOf(a, key) || IsOf(b, key)
  {
    assert [a] + [b] == [a, b] && [] + [a] == [a] && a in [a, b] && b in [a, b];
    hide Set, IsOf;
    ReplacedLast([a], b, key, line);
    ReplacedLast([], a, key, line);
    ReadConcat([a], [b]);
    LastSetterLast([a], b, key);
  }

  /** An exported line below keeps its value whatever the key is set to: it is no line of the key to replace. */
  lemma ExportedStays(layout: Layout, key: Key, first: string, second: string, value: string)
    requires IsKey(key) && AllPlain(first) && AllPlain(second) && AllPlain(value) && value != second
    ensures var lines := [key + ("=" + first), "export " + (key + ("=" + second))];
            var after := SetLine(layout, lines, key, key + ("=" + value));
            && after == [key + ("=" + value), "export " + (key + ("=" + second))]
            && Parsed(after, 0, map[]) == Ok(map[key := second]) && !Taken(layout, lines, Pair(key, value))
  {
    var plain, exported, line := key + ("=" + first), "export " + (key + ("=" + second)), key + ("=" + value);
    var lines, after := [plain, exported], [line, exported];
    Starts(key, first);
    assert IsOf(plain, key);
    hide Set, IsOf, IsKey, AllPlain, IsIgnored, Put, Point, Read, Replaced, LastSetter, Parsed, Has;
    PlainSets(key, first);
    PlainSets(key, value);
    ExportedSets(key, second);
    TwoLines(plain, exported, key, line);
    TwoLines(line, exported, key, line);
    ReadOne(line);
    ReadOne(exported);
    ReadNone();
    assert after[..0] == [];
    assert map[key := value] + map[key := second] == map[key := second];
    ParsedIsRead(after, 0);
  }

  lemma ReadNone()
    ensures Read([]) == map[]
  {
  }

  lemma ExportedStaysTwo(layout: Layout)
    ensures Parsed(SetLine(layout, ["A=1", "export A=2"], "A", "A=3"), 0, map[]) == Ok(map["A" := "2"])
    ensures !Taken(layout, ["A=1", "export A=2"], Pair("A", "3"))
  {
    assert "A=1" == "A" + ("=" + "1") && "A=3" == "A" + ("=" + "3") && "export A=2" == "export " + ("A" + ("=" + "2"));
    ExportedStays(layout, "A", "1", "2", "3");
  }
}
