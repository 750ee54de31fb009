/** Values set in an env file: replaced where they are, inserted under their section where they are not. */
module EnvWrite {
  import opened EnvFile
  import opened PythonText
  import opened Wrappers

  /** A section of env files: its title and its keys, listed as they follow each other in a file. */
  datatype Section = Section(title: string, keys: seq<Key>)

  type Layout = seq<Section>

  function Header(section: Section): Line {
    "# " + section.title
  }

  function IndexOf(keys: seq<string>, key: string): (at: Option<nat>)
    ensures at.Some? ==> at.value < |keys| && keys[at.value] == key
    ensures at.None? <==> key !in keys
  {
    if keys == [] then None
    else if keys[0] == key then Some(0)
    else
      match IndexOf(keys[1..], key)
      case None => None
      case Some(at) => Some(at + 1)
  }

  function SectionOf(layout: Layout, key: Key): (at: Option<nat>)
    ensures at.Some? ==> at.value < |layout| && key in layout[at.value].keys
  {
    if layout == [] then None
    else if key in layout[0].keys then Some(0)
    else
      match SectionOf(layout[1..], key)
      case None => None
      case Some(at) => Some(at + 1)
  }

  /** The key a line names, also when it is commented out. */
  function KeyIn(line: Line): Option<Key> {
    var s := SkipMarks(line);
    var n := NameLength(s);
    if n > 0 && IsLetter(s[0]) && n < |s| && s[n] == '=' then Some(s[..n]) else None
  }

  function SkipMarks(line: Line): string {
    if line != "" && (line[0] == '#' || line[0] == ' ') then SkipMarks(line[1..]) else line
  }

  /** Whether a line's key comes before a key in their section's order; a key without a place in it comes first. */
  predicate ComesBefore(layout: Layout, line: Line, key: Key) {
    match KeyIn(line)
    case None => false
    case Some(other) => Place(layout, other) < Place(layout, key)
  }

  function Place(layout: Layout, key: Key): int {
    match SectionOf(layout, key)
    case None => -1
    case Some(at) => IndexOf(layout[at].keys, key).value
  }

  // ---- What an insertion keeps ----

  function NonBlank(lines: seq<Line>): seq<Line> {
    if lines == [] then []
    else
      var last := lines[|lines| - 1];
      NonBlank(lines[..|lines| - 1]) + if IsBlank(last) then [] else [last]
  }

  lemma {:induction false} NonBlankConcat(a: seq<Line>, b: seq<Line>)
    ensures NonBlank(a + b) == NonBlank(a) + NonBlank(b)
  {
    if b == [] {
      assert a + b == a;
    } else {
      assert (a + b)[..|a + b| - 1] == a + b[..|b| - 1];
      NonBlankConcat(a, b[..|b| - 1]);
      hide IsBlank;
    }
  }

  /** The lines that are not blank, with some added between two of them, and nothing else. */
  ghost predicate Added(before: seq<Line>, after: seq<Line>, lines: seq<Line>) {
    exists x, y :: NonBlank(before) == x + y && NonBlank(after) == x + lines + y
  }

  /** What an insertion at a place leaves: the lines above it, those inserted and the lines below, apart from blank ones. */
  ghost predicate Around(lines: seq<Line>, at: nat, block: seq<Line>, after: seq<Line>) {
    at <= |lines| && NonBlank(after) == NonBlank(lines[..at]) + block + NonBlank(lines[at..])
  }

  lemma AroundIsAdded(lines: seq<Line>, at: nat, block: seq<Line>, after: seq<Line>)
    requires Around(lines, at, block, after)
    ensures Added(lines, after, block)
  {
    assert lines[..at] + lines[at..] == lines;
    NonBlankConcat(lines[..at], lines[at..]);
    hide NonBlank;
  }

  lemma PutAround(lines: seq<Line>, at: nat, above: seq<Line>, blank: seq<Line>, block: seq<Line>, more: seq<Line>)
    requires at <= |lines| && NonBlank(above) == NonBlank(lines[..at])
    requires NonBlank(blank) == [] && NonBlank(more) == [] && NonBlank(block) == block
    ensures Around(lines, at, block, above + blank + block + more + lines[at..])
  {
    hide NonBlank;
    var x, y, z := NonBlank(above), block, NonBlank(lines[at..]);
    NonBlankConcat(above, blank);
    NonBlankConcat(above + blank, block);
    NonBlankConcat(above + blank + block, more);
    NonBlankConcat(above + blank + block + more, lines[at..]);
    Squeezed(x, y, z);
  }

  lemma Squeezed<T>(x: seq<T>, y: seq<T>, z: seq<T>)
    ensures x + [] + y + [] + z == x + y + z
  {
  }

  /** Without the blank lines at the end. */
  function WithoutEnd(lines: seq<Line>): seq<Line> {
    if lines != [] && IsBlank(lines[|lines| - 1]) then WithoutEnd(lines[..|lines| - 1]) else lines
  }

  lemma {:induction false} WithoutEndKeeps(lines: seq<Line>)
    ensures WithoutEnd(lines) <= lines && NonBlank(WithoutEnd(lines)) == NonBlank(lines)
  {
    if lines != [] && IsBlank(lines[|lines| - 1]) {
      WithoutEndKeeps(lines[..|lines| - 1]);
      assert NonBlank(lines) == NonBlank(lines[..|lines| - 1]) + [];
    }
  }

  method DropBlank(lines: seq<Line>) returns (kept: seq<Line>)
    ensures kept == WithoutEnd(lines) && kept <= lines && (kept != [] ==> !IsBlank(kept[|kept| - 1]))
    ensures forall i :: |kept| <= i < |lines| ==> IsBlank(lines[i])
  {
    kept := lines;
    while kept != [] && IsBlank(kept[|kept| - 1])
      invariant WithoutEnd(kept) == WithoutEnd(lines) && kept <= lines
      invariant forall i :: |kept| <= i < |lines| ==> IsBlank(lines[i])
    {
      kept := kept[..|kept| - 1];
    }
  }

  function AddBlank(separate: bool): seq<Line> {
    if separate then [""] else []
  }

  lemma BlankIsNone(separate: bool)
    ensures NonBlank(AddBlank(separate)) == []
  {
    assert separate ==> [""][..0] == [] && NonBlank([""]) == NonBlank([]) + [];
  }

  lemma OneIsItself(line: Line)
    requires !IsBlank(line)
    ensures NonBlank([line]) == [line]
  {
    assert [line][..0] == [];
  }

  // ---- A key without a section ----

  /** Where the block of lines that ends here starts. */
  function BlockStart(lines: seq<Line>, end: nat): (start: nat)
    requires end <= |lines|
    ensures start <= end
  {
    if end == 0 || IsBlank(lines[end - 1]) then end else BlockStart(lines, end - 1)
  }

  predicate IsHeader(layout: Layout, line: Line) {
    exists section :: section in layout && line == Header(section)
  }

  function PutLast(layout: Layout, lines: seq<Line>, line: Line): seq<Line> {
    var kept := WithoutEnd(lines);
    var start := BlockStart(kept, |kept|);
    kept + AddBlank(start < |kept| && IsHeader(layout, kept[start])) + [line]
  }

  lemma LastAround(layout: Layout, lines: seq<Line>, line: Line)
    requires !IsBlank(line)
    ensures Around(lines, |lines|, [line], PutLast(layout, lines, line))
  {
    var kept := WithoutEnd(lines);
    var start := BlockStart(kept, |kept|);
    var separate := start < |kept| && IsHeader(layout, kept[start]);
    WithoutEndKeeps(lines);
    LastPutAround(lines, kept, separate, line);
    hide Around, NonBlank, WithoutEnd, BlockStart, AddBlank, IsHeader, IsBlank;
  }

  lemma LastPutAround(lines: seq<Line>, kept: seq<Line>, separate: bool, line: Line)
    requires NonBlank(kept) == NonBlank(lines) && !IsBlank(line)
    ensures Around(lines, |lines|, [line], kept + AddBlank(separate) + [line])
  {
    hide *;
    assert lines[..|lines|] == lines && lines[|lines|..] == [];
    BlankIsNone(separate);
    OneIsItself(line);
    NothingIsNone();
    PutAround(lines, |lines|, kept, AddBlank(separate), [line], []);
    assert kept + AddBlank(separate) + [line] + [] + [] == kept + AddBlank(separate) + [line];
  }

  lemma NothingIsNone()
    ensures NonBlank([]) == []
  {
  }

  /** The lines up to the last that is not blank, and where the last stretch of lines without a blank one starts. */
  ghost predicate IsLastBlock(lines: seq<Line>, kept: seq<Line>, block: nat) {
    && kept <= lines && (kept != [] ==> !IsBlank(kept[|kept| - 1])) && (forall i :: |kept| <= i < |lines| ==> IsBlank(lines[i]))
    && block <= |kept| && (forall i :: block <= i < |kept| ==> !IsBlank(kept[i])) && (block > 0 ==> IsBlank(kept[block - 1]))
  }

  /** Where the last stretch of lines without a blank one starts. */
  method LastBlock(kept: seq<Line>) returns (block: nat)
    ensures block == BlockStart(kept, |kept|) && block <= |kept|
    ensures (forall i :: block <= i < |kept| ==> !IsBlank(kept[i])) && (block > 0 ==> IsBlank(kept[block - 1]))
  {
    block := |kept|;
    while block > 0 && !IsBlank(kept[block - 1])
      invariant 0 <= block <= |kept| && BlockStart(kept, |kept|) == BlockStart(kept, block)
      invariant forall i :: block <= i < |kept| ==> !IsBlank(kept[i])
    {
      block := block - 1;
    }
  }

  /** A key without a section goes last, apart from a block that starts with a section's header. */
  method InsertLast(layout: Layout, lines: seq<Line>, line: Line) returns (after: seq<Line>, ghost before: seq<Line>, ghost start: nat)
    requires !IsBlank(line)
    ensures after == PutLast(layout, lines, line)
    ensures Added(lines, after, [line]) && after[|after| - 1..] == [line]
    ensures IsLastBlock(lines, before, start)
    ensures after == before + (if start < |before| && IsHeader(layout, before[start]) then [""] else []) + [line]
  {
    var kept := DropBlank(lines);
    var block := LastBlock(kept);
    before, start := kept, block;
    hide Added, Around, NonBlank, Header, WithoutEnd, BlockStart, IsBlank;
    var separate := block < |kept| && exists section :: section in layout && kept[block] == Header(section);
    after := kept + AddBlank(separate) + [line];
    WithoutEndKeeps(lines);
    LastAround(layout, lines, line);
    AroundIsAdded(lines, |lines|, [line], after);
  }

  // ---- A section that is not there ----

  /** The header of a section after this one. */
  predicate IsLater(layout: Layout, index: nat, line: Line) {
    exists i :: index < i < |layout| && line == Header(layout[i])
  }

  /** Where the first header of a later section is; the end when there is none. */
  function FirstLater(layout: Layout, index: nat, lines: seq<Line>): (at: nat)
    ensures at <= |lines|
  {
    if lines == [] || IsLater(layout, index, lines[0]) then 0 else 1 + FirstLater(layout, index, lines[1..])
  }

  lemma {:induction false} FirstLaterIs(layout: Layout, index: nat, lines: seq<Line>, at: nat)
    requires at <= |lines| && (at < |lines| ==> IsLater(layout, index, lines[at]))
    requires forall p :: 0 <= p < at ==> !IsLater(layout, index, lines[p])
    ensures at == FirstLater(layout, index, lines)
  {
    if at > 0 {
      assert forall p :: 0 <= p < at - 1 ==> lines[1..][p] == lines[p + 1];
      FirstLaterIs(layout, index, lines[1..], at - 1);
    }
  }

  method FindLater(layout: Layout, index: nat, lines: seq<Line>) returns (at: nat)
    ensures at <= |lines| && (at < |lines| ==> IsLater(layout, index, lines[at]))
    ensures forall p :: 0 <= p < at ==> !IsLater(layout, index, lines[p])
    ensures at == FirstLater(layout, index, lines)
  {
    at := |lines|;
    for i := index + 1 to Most(|layout|, index + 1)
      invariant at <= |lines| && (at < |lines| ==> IsLater(layout, index, lines[at]))
      invariant forall p, j :: 0 <= p < at && index < j < i && j < |layout| ==> lines[p] != Header(layout[j])
    {
      var position := IndexOf(lines, Header(layout[i]));
      if position.Some? && position.value < at {
        at := position.value;
      }
      IndexIsFirst(lines, Header(layout[i]));
    }
    FirstLaterIs(layout, index, lines, at);
  }

  function Most(a: nat, b: nat): nat {
    if a >= b then a else b
  }

  lemma {:induction false} IndexIsFirst(lines: seq<string>, line: string)
    ensures var at := IndexOf(lines, line);
            forall p :: 0 <= p < |lines| && (at.Some? ==> p < at.value) ==> lines[p] != line
  {
    if lines != [] && lines[0] != line {
      IndexIsFirst(lines[1..], line);
      var at := IndexOf(lines, line);
      forall p | 0 <= p < |lines| && (at.Some? ==> p < at.value)
        ensures lines[p] != line
      {
        assert p > 0 ==> lines[p] == lines[1..][p - 1];
      }
    }
  }

  lemma BlockIs(section: Section, line: Line)
    requires !IsBlank(line)
    ensures NonBlank([Header(section), line]) == [Header(section), line]
  {
    var header := Header(section);
    assert !IsSpace(header[0]) && !IsBlank(header);
    assert [header, line][..1] == [header] && [header][..0] == [];
    assert NonBlank([header]) == [header];
  }

  function PutSection(layout: Layout, index: nat, lines: seq<Line>, line: Line): seq<Line>
    requires index < |layout|
  {
    var at := FirstLater(layout, index, lines);
    var kept := WithoutEnd(lines[..at]);
    kept + AddBlank(kept != []) + [Header(layout[index]), line] + AddBlank(at < |lines|) + lines[at..]
  }

  lemma SectionAround(layout: Layout, index: nat, lines: seq<Line>, line: Line)
    requires index < |layout| && !IsBlank(line)
    ensures Around(lines, FirstLater(layout, index, lines), [Header(layout[index]), line], PutSection(layout, index, lines, line))
  {
    var at := FirstLater(layout, index, lines);
    var kept := WithoutEnd(lines[..at]);
    WithoutEndKeeps(lines[..at]);
    BlankIsNone(kept != []);
    BlankIsNone(at < |lines|);
    BlockIs(layout[index], line);
    PutAround(lines, at, kept, AddBlank(kept != []), [Header(layout[index]), line], AddBlank(at < |lines|));
    hide Around, NonBlank, AddBlank, FirstLater, WithoutEnd, Header;
  }

  /** A key whose section the file has not: the section is created before the first later one, blank lines around it. */
  method InsertSection(layout: Layout, index: nat, lines: seq<Line>, line: Line)
      returns (after: seq<Line>, ghost at: nat, ghost before: seq<Line>)
    requires index < |layout| && !IsBlank(line)
    ensures after == PutSection(layout, index, lines, line) && at == FirstLater(layout, index, lines)
    ensures Added(lines, after, [Header(layout[index]), line])
    ensures at <= |lines| && (at < |lines| ==> IsLater(layout, index, lines[at]))
    ensures forall p :: 0 <= p < at ==> !IsLater(layout, index, lines[p])
    ensures before <= lines[..at] && NonBlank(before) == NonBlank(lines[..at])
    ensures before != [] ==> !IsBlank(before[|before| - 1])
    ensures after == before + (if before == [] then [] else [""]) + ["# " + layout[index].title, line]
                     + (if at == |lines| then [] else [""]) + lines[at..]
  {
    var position := FindLater(layout, index, lines);
    var kept := DropBlank(lines[..position]);
    at, before := position, kept;
    after := kept + AddBlank(kept != []) + [Header(layout[index]), line] + AddBlank(position < |lines|) + lines[position..];
    WithoutEndKeeps(lines[..position]);
    SectionAround(layout, index, lines, line);
    AroundIsAdded(lines, position, [Header(layout[index]), line], after);
    hide Added, Around, NonBlank, AddBlank, IsLater, FirstLater, WithoutEnd;
  }

  // ---- A section that is there ----

  /** A line of the section's own description, right under its header. */
  predicate IsDescription(line: Line) {
    line != "" && line[0] == '#' && KeyIn(line).None?
  }

  function DescriptionEnd(lines: seq<Line>, from: nat): (end: nat)
    requires from <= |lines|
    ensures from <= end <= |lines|
    decreases |lines| - from
  {
    if from < |lines| && IsDescription(lines[from]) then DescriptionEnd(lines, from + 1) else from
  }

  function BlockEnd(lines: seq<Line>, from: nat): (end: nat)
    requires from <= |lines|
    ensures from <= end <= |lines|
    decreases |lines| - from
  {
    if from < |lines| && !IsBlank(lines[from]) then BlockEnd(lines, from + 1) else from
  }

  /** Behind the last line of a stretch whose key comes before this one; the stretch's start when there is none. */
  function BehindLast(layout: Layout, lines: seq<Line>, key: Key, from: nat, end: nat): (at: nat)
    requires from <= end <= |lines|
    ensures from <= at <= end
  {
    if end == from then from
    else if ComesBefore(layout, lines[end - 1], key) then end else BehindLast(layout, lines, key, from, end - 1)
  }

  /** Where a key goes in its section, which starts here. */
  function PlaceIn(layout: Layout, lines: seq<Line>, key: Key, start: nat): (at: nat)
    requires start <= |lines|
    ensures start <= at <= |lines|
  {
    var from := DescriptionEnd(lines, start);
    BehindLast(layout, lines, key, from, BlockEnd(lines, from))
  }

  function PutAt(lines: seq<Line>, at: nat, line: Line): seq<Line>
    requires at <= |lines|
  {
    lines[..at] + [line] + lines[at..]
  }

  lemma PutAtAround(lines: seq<Line>, at: nat, line: Line)
    requires at <= |lines| && !IsBlank(line)
    ensures Around(lines, at, [line], PutAt(lines, at, line))
  {
    OneIsItself(line);
    NothingIsNone();
    hide NonBlank, IsBlank;
    PutAround(lines, at, lines[..at], [], [line], []);
    assert lines[..at] + [] + [line] + [] + lines[at..] == PutAt(lines, at, line);
  }

  /** A key whose section is there: after the keys of the section that come before it, which ends at a blank line. */
  method InsertInSection(layout: Layout, start: nat, lines: seq<Line>, key: Key, line: Line)
      returns (after: seq<Line>, ghost at: nat, ghost end: nat)
    requires start <= |lines| && !IsBlank(line)
    ensures at == PlaceIn(layout, lines, key, start) && after == PutAt(lines, at, line)
    ensures Added(lines, after, [line]) && forall l :: l in after ==> l in lines || l == line
    ensures start <= at <= end <= |lines| && after == lines[..at] + [line] + lines[at..]
    ensures forall p :: at <= p < end ==> !IsBlank(lines[p]) && !ComesBefore(layout, lines[p], key)
    ensures end < |lines| ==> IsBlank(lines[end])
    ensures at > start ==> ComesBefore(layout, lines[at - 1], key) || IsDescription(lines[at - 1])
    ensures at < |lines| && at == start ==> !IsDescription(lines[at])
  {
    hide ComesBefore, IsDescription, IsBlank, Added, Around, NonBlank;
    var place := start;
    while place < |lines| && IsDescription(lines[place])
      invariant start <= place <= |lines| && DescriptionEnd(lines, start) == DescriptionEnd(lines, place)
      invariant place > start ==> IsDescription(lines[place - 1])
    {
      place := place + 1;
    }
    var position := place;
    ghost var from := place;
    while position < |lines| && !IsBlank(lines[position])
      invariant start <= from <= place <= position <= |lines|
      invariant BlockEnd(lines, from) == BlockEnd(lines, position) && place == BehindLast(layout, lines, key, from, position)
      invariant place > start ==> ComesBefore(layout, lines[place - 1], key) || IsDescription(lines[place - 1])
      invariant forall p :: place <= p < position ==> !IsBlank(lines[p]) && !ComesBefore(layout, lines[p], key)
      invariant place < |lines| && place == start ==> !IsDescription(lines[place])
    {
      if ComesBefore(layout, lines[position], key) {
        place := position + 1;
      }
      position := position + 1;
    }
    at, end := place, position;
    after := lines[..place] + [line] + lines[place..];
    PutAtAround(lines, place, line);
    AroundIsAdded(lines, place, [line], after);
  }

  // ---- Any key ----

  /** Where in a file a new key's line is put. */
  function Point(layout: Layout, lines: seq<Line>, key: Key): (at: nat)
    ensures at <= |lines|
  {
    match SectionOf(layout, key)
    case None => |lines|
    case Some(index) =>
      match IndexOf(lines, Header(layout[index]))
      case None => FirstLater(layout, index, lines)
      case Some(at) => PlaceIn(layout, lines, key, at + 1)
  }

  /** The line, and its section's header where the file has none. */
  function Block(layout: Layout, lines: seq<Line>, key: Key, line: Line): seq<Line> {
    match SectionOf(layout, key)
    case None => [line]
    case Some(index) => if IndexOf(lines, Header(layout[index])).None? then [Header(layout[index]), line] else [line]
  }

  /** The file with a new key's line. */
  function Put(layout: Layout, lines: seq<Line>, key: Key, line: Line): seq<Line> {
    match SectionOf(layout, key)
    case None => PutLast(layout, lines, line)
    case Some(index) =>
      match IndexOf(lines, Header(layout[index]))
      case None => PutSection(layout, index, lines, line)
      case Some(at) => PutAt(lines, PlaceIn(layout, lines, key, at + 1), line)
  }

  lemma PutIsAround(layout: Layout, lines: seq<Line>, key: Key, line: Line)
    requires !IsBlank(line)
    ensures Around(lines, Point(layout, lines, key), Block(layout, lines, key, line), Put(layout, lines, key, line))
  {
    hide Around, PutLast, PutSection, PutAt, FirstLater, PlaceIn, IsBlank;
    var section := SectionOf(layout, key);
    if section.None? {
      LastAround(layout, lines, line);
    } else {
      var at := IndexOf(lines, Header(layout[section.value]));
      if at.None? {
        SectionAround(layout, section.value, lines, line);
      } else {
        PutAtAround(lines, PlaceIn(layout, lines, key, at.value + 1), line);
      }
    }
  }

  /** The lines that are not blank, with the key's line added, and perhaps its section's header before it. */
  ghost predicate Inserted(layout: Layout, lines: seq<Line>, line: Line, after: seq<Line>) {
    || Added(lines, after, [line])
    || exists section :: section in layout && Added(lines, after, [Header(section), line])
  }

  /** An insertion keeps every line that is not blank, in order. */
  method Insert(layout: Layout, lines: seq<Line>, key: Key, line: Line) returns (after: seq<Line>)
    requires !IsBlank(line)
    ensures after == Put(layout, lines, key, line)
    ensures Around(lines, Point(layout, lines, key), Block(layout, lines, key, line), after)
    ensures Inserted(layout, lines, line, after)
  {
    hide Around, Added, PutLast, PutSection, PutAt, FirstLater, PlaceIn, IsBlank, IsLater, NonBlank;
    PutIsAround(layout, lines, key, line);
    var index := SectionOf(layout, key);
    if index.None? {
      ghost var before, start;
      after, before, start := InsertLast(layout, lines, line);
      return;
    }
    var at := IndexOf(lines, Header(layout[index.value]));
    ghost var place, more := 0, 0;
    if at.None? {
      ghost var before: seq<Line> := [];
      after, place, before := InsertSection(layout, index.value, lines, line);
    } else {
      after, place, more := InsertInSection(layout, at.value + 1, lines, key, line);
    }
  }
}
