/** What insertions do to the order of an env file: its sections' headers, and the keys of a section. */
module EnvOrder {
  import opened EnvFile
  import opened EnvWrite
  import opened PythonText
  import opened Wrappers

  // ---- The keys of a section ----

  /** A line's place among the keys of a section: -1 for a key no section lists, -2 for a line without a key. */
  function LinePlace(layout: Layout, line: Line): int {
    match KeyIn(line)
    case None => -2
    case Some(key) => Place(layout, key)
  }

  /** The listed keys of these lines follow each other as they are listed. */
  predicate KeysInOrder(layout: Layout, lines: seq<Line>) {
    forall p, q :: 0 <= p < q < |lines| && 0 <= LinePlace(layout, lines[p]) && 0 <= LinePlace(layout, lines[q]) ==>
                     LinePlace(layout, lines[p]) <= LinePlace(layout, lines[q])
  }

  /** A key no section lists stands below a key that comes behind the new one. */
  predicate Strays(layout: Layout, lines: seq<Line>, place: int) {
    exists p, q :: 0 <= p < q < |lines| && LinePlace(layout, lines[p]) > place && LinePlace(layout, lines[q]) == -1
  }

  lemma {:induction false} BehindLastIs(layout: Layout, lines: seq<Line>, key: Key, from: nat, end: nat)
    requires from <= end <= |lines|
    ensures var at := BehindLast(layout, lines, key, from, end);
            && (at > from ==> ComesBefore(layout, lines[at - 1], key))
            && forall p :: at <= p < end ==> !ComesBefore(layout, lines[p], key)
    decreases end - from
  {
    hide ComesBefore;
    if from < end && !ComesBefore(layout, lines[end - 1], key) {
      BehindLastIs(layout, lines, key, from, end - 1);
    }
  }

  lemma ComesBeforeIs(layout: Layout, line: Line, key: Key)
    ensures ComesBefore(layout, line, key) <==> -1 <= LinePlace(layout, line) < Place(layout, key)
  {
  }

  /** A section's lines with one put between them. */
  lemma OrderWith(layout: Layout, above: seq<Line>, line: Line, below: seq<Line>)
    requires KeysInOrder(layout, above + below) && LinePlace(layout, line) >= 0
    requires forall l :: l in below && LinePlace(layout, l) >= 0 ==> LinePlace(layout, line) <= LinePlace(layout, l)
    ensures KeysInOrder(layout, above + [line] + below) <==> forall l :: l in above ==> LinePlace(layout, l) <= LinePlace(layout, line)
  {
    hide LinePlace;
    var before, after, n := above + below, above + [line] + below, |above|;
    assert forall p :: 0 <= p < n ==> after[p] == before[p] == above[p];
    assert after[n] == line;
    assert forall p :: n < p < |after| ==> after[p] == before[p - 1] == below[p - n - 1];
    if forall l :: l in above ==> LinePlace(layout, l) <= LinePlace(layout, line) {
      forall p, q | 0 <= p < q < |after| && 0 <= LinePlace(layout, after[p]) && 0 <= LinePlace(layout, after[q])
        ensures LinePlace(layout, after[p]) <= LinePlace(layout, after[q])
      {
        if p == n {
          assert after[q] in below;
        } else if q == n {
          assert after[p] in above;
        } else {
          var i, j := if p < n then p else p - 1, if q < n then q else q - 1;
          assert before[i] == after[p] && before[j] == after[q] && i < j;
        }
      }
    } else {
      var l :| l in above && LinePlace(layout, l) > LinePlace(layout, line);
      var p :| 0 <= p < n && above[p] == l;
      assert after[p] == l && after[n] == line;
    }
  }

  lemma AllAbove(layout: Layout, block: seq<Line>, at: nat, place: nat)
    requires KeysInOrder(layout, block) && at <= |block|
    requires at > 0 ==> -1 <= LinePlace(layout, block[at - 1]) < place
    requires forall p :: at <= p < |block| ==> !(-1 <= LinePlace(layout, block[p]) < place)
    ensures (forall p :: 0 <= p < at ==> LinePlace(layout, block[p]) <= place) <==> !Strays(layout, block, place)
  {
    hide LinePlace;
    if p :| 0 <= p < at && LinePlace(layout, block[p]) > place {
      var q := at - 1;
      assert p < q && LinePlace(layout, block[q]) == -1;
    }
  }

  /** A place between the keys that come before the new one and those that do not. */
  ghost predicate IsCut(layout: Layout, above: seq<Line>, below: seq<Line>, place: nat) {
    && (above != [] ==> -1 <= LinePlace(layout, above[|above| - 1]) < place)
    && forall l :: l in below ==> !(-1 <= LinePlace(layout, l) < place)
  }

  lemma AboveCut(layout: Layout, above: seq<Line>, below: seq<Line>, place: nat)
    requires KeysInOrder(layout, above + below) && IsCut(layout, above, below, place)
    ensures (forall l :: l in above ==> LinePlace(layout, l) <= place) <==> !Strays(layout, above + below, place)
  {
    hide LinePlace, KeysInOrder, Strays;
    var block, n := above + below, |above|;
    assert forall p :: 0 <= p < n ==> block[p] == above[p] && block[p] in above;
    assert forall p :: n <= p < |block| ==> block[p] == below[p - n] && block[p] in below;
    AllAbove(layout, block, n, place);
  }

  /** The lines of a section between its description and its blank line, cut where a new key goes. */
  lemma SectionOrder(layout: Layout, above: seq<Line>, below: seq<Line>, line: Line)
    requires KeysInOrder(layout, above + below) && LinePlace(layout, line) >= 0
    requires IsCut(layout, above, below, LinePlace(layout, line))
    ensures KeysInOrder(layout, above + [line] + below) <==> !Strays(layout, above + below, LinePlace(layout, line))
  {
    AboveCut(layout, above, below, LinePlace(layout, line));
    hide KeysInOrder, Strays, LinePlace;
    OrderWith(layout, above, line, below);
  }

  lemma PlaceOfLine(layout: Layout, key: Key, line: Line)
    requires KeyIn(line) == Some(key) && SectionOf(layout, key).Some?
    ensures LinePlace(layout, line) == Place(layout, key) >= 0
  {
  }

  lemma PlaceCuts(layout: Layout, lines: seq<Line>, key: Key, from: nat, end: nat)
    requires from <= end <= |lines| && Place(layout, key) >= 0
    ensures var at := BehindLast(layout, lines, key, from, end);
            IsCut(layout, lines[from..at], lines[at..end], Place(layout, key))
  {
    BehindLastIs(layout, lines, key, from, end);
    forall p | from <= p < end
      ensures ComesBefore(layout, lines[p], key) <==> -1 <= LinePlace(layout, lines[p]) < Place(layout, key)
    {
      ComesBeforeIs(layout, lines[p], key);
    }
    hide BehindLast, ComesBefore, LinePlace, Place;
  }

  /** The lines of a section, and the same lines with one more at a place between them. */
  function SectionWith(lines: seq<Line>, from: nat, at: nat, end: nat, line: Line): seq<Line>
    requires from <= at <= end <= |lines|
  {
    lines[from..at] + [line] + lines[at..end]
  }

  lemma Middle<T>(x: seq<T>, m: seq<T>, y: seq<T>)
    ensures (x + m + y)[|x|..|x| + |m|] == m
  {
  }

  /** That is what an insertion makes of them. */
  lemma CutOut(lines: seq<Line>, from: nat, at: nat, end: nat, line: Line)
    requires from <= at <= end <= |lines|
    ensures |PutAt(lines, at, line)| == |lines| + 1
    ensures PutAt(lines, at, line)[from..end + 1] == SectionWith(lines, from, at, end, line)
  {
    var x, y := lines[..from], lines[end..];
    assert lines[..at] == x + lines[from..at] && lines[at..] == lines[at..end] + y;
    var m := SectionWith(lines, from, at, end, line);
    assert PutAt(lines, at, line) == x + m + y;
    Middle(x, m, y);
  }

  lemma SectionKeepsKeys(layout: Layout, lines: seq<Line>, key: Key, from: nat, end: nat, line: Line)
    requires from <= end <= |lines| && KeyIn(line) == Some(key) && SectionOf(layout, key).Some?
    requires KeysInOrder(layout, lines[from..end])
    ensures var at := BehindLast(layout, lines, key, from, end);
            KeysInOrder(layout, SectionWith(lines, from, at, end, line)) <==> !Strays(layout, lines[from..end], Place(layout, key))
  {
    var at := BehindLast(layout, lines, key, from, end);
    PlaceOfLine(layout, key, line);
    PlaceCuts(layout, lines, key, from, end);
    assert lines[from..at] + lines[at..end] == lines[from..end];
    hide KeysInOrder, Strays, BehindLast, LinePlace, Place, IsCut;
    SectionOrder(layout, lines[from..at], lines[at..end], line);
  }

  /** A new key keeps its section in order exactly when no key that is listed nowhere stands below one that comes behind
      the new key: the new key goes below all such keys. */
  lemma InsertKeepsOrder(layout: Layout, lines: seq<Line>, start: nat, key: Key, line: Line)
    requires start <= |lines| && KeyIn(line) == Some(key) && SectionOf(layout, key).Some?
    requires var from := DescriptionEnd(lines, start); KeysInOrder(layout, lines[from..BlockEnd(lines, from)])
    ensures var from, at := DescriptionEnd(lines, start), PlaceIn(layout, lines, key, start);
            var end := BlockEnd(lines, from);
            && from <= at <= end <= |lines| && |PutAt(lines, at, line)| == |lines| + 1
            && PutAt(lines, at, line)[from..end + 1] == SectionWith(lines, from, at, end, line)
            && (KeysInOrder(layout, SectionWith(lines, from, at, end, line)) <==>
                !Strays(layout, lines[from..end], Place(layout, key)))
  {
    var from := DescriptionEnd(lines, start);
    var end := BlockEnd(lines, from);
    SectionKeepsKeys(layout, lines, key, from, end, line);
    CutOut(lines, from, BehindLast(layout, lines, key, from, end), end, line);
    hide KeysInOrder, Strays, DescriptionEnd, BlockEnd, BehindLast, SectionWith, PutAt, KeyIn, Place;
  }

  lemma {:induction false} BlockEndIs(lines: seq<Line>, from: nat, end: nat)
    requires from <= end <= |lines| && (end < |lines| ==> IsBlank(lines[end]))
    requires forall p :: from <= p < end ==> !IsBlank(lines[p])
    ensures BlockEnd(lines, from) == end
    decreases end - from
  {
    hide IsBlank;
    if from < end {
      BlockEndIs(lines, from + 1, end);
    }
  }

  /** For instance, the two-line section in which a key that comes first goes last. */
  lemma StrayPutsLast()
    ensures var layout, lines := [Section("S", ["A", "B"])], ["# S", "B=1", "X=2"];
            && KeysInOrder(layout, lines[1..]) && Put(layout, lines, "A", "A=3") == lines + ["A=3"]
            && !KeysInOrder(layout, (lines + ["A=3"])[1..])
  {
    var layout, lines := [Section("S", ["A", "B"])], ["# S", "B=1", "X=2"];
    KeysOfLines();
    Places();
    assert LinePlace(layout, "B=1") == 1 && LinePlace(layout, "X=2") == -1 && LinePlace(layout, "A=3") == 0;
    StrayIsLast(layout, lines);
    hide LinePlace, Put;
    var after := (lines + ["A=3"])[1..];
    assert after[0] == "B=1" && after[2] == "A=3" && lines[1..][0] == "B=1" && lines[1..][1] == "X=2";
  }

  lemma KeysOfLines()
    ensures KeyIn("A=3") == Some("A") && KeyIn("B=1") == Some("B") && KeyIn("X=2") == Some("X")
  {
    hide *;
    KeysAre();
    KeyOfLine("A", "3");
    KeyOfLine("B", "1");
    KeyOfLine("X", "2");
    assert "A" + ("=" + "3") == "A=3" && "B" + ("=" + "1") == "B=1" && "X" + ("=" + "2") == "X=2";
  }

  lemma KeysAre()
    ensures IsKey("A") && IsKey("B") && IsKey("X")
  {
  }

  lemma StrayIsLast(layout: Layout, lines: seq<Line>)
    requires layout == [Section("S", ["A", "B"])] && lines == ["# S", "B=1", "X=2"]
    requires LinePlace(layout, "X=2") == -1 && Place(layout, "A") == 0
    ensures Put(layout, lines, "A", "A=3") == lines + ["A=3"]
  {
    ComesBeforeIs(layout, "X=2", "A");
    hide LinePlace, ComesBefore, Place;
    assert "A" == ["A", "B"][0] && "A" in layout[0].keys;
    assert Header(layout[0]) == "# S" == lines[0];
    assert SectionOf(layout, "A") == Some(0) && IndexOf(lines, "# S") == Some(0);
    assert lines[1] == "B=1" && lines[2] == "X=2";
    assert !IsDescription(lines[1]);
    assert !IsBlank(lines[1]) && !IsBlank(lines[2]) by {
      assert !IsSpace(lines[1][0]) && !IsSpace(lines[2][0]);
    }
    BlockEndIs(lines, 1, 3);
    assert BehindLast(layout, lines, "A", 1, 3) == 3;
    hide BlockEnd, BehindLast;
    assert lines[..3] == lines && lines[3..] == [];
    assert PlaceIn(layout, lines, "A", 1) == 3;
  }

  lemma Places()
    ensures var layout := [Section("S", ["A", "B"])];
            Place(layout, "A") == 0 && Place(layout, "B") == 1 && Place(layout, "X") == -1
  {
    var keys := ["A", "B"];
    var layout := [Section("S", keys)];
    assert keys[0] == "A" && keys[1] == "B" && keys[1..] == ["B"] && ["B"][0] == "B";
    assert "A"[0] == 'A' && "B"[0] == 'B' && "X"[0] == 'X';
    assert "A" != "B" && "X" != "A" && "X" != "B" && "X" !in keys;
    assert layout[1..] == [] && layout[0].keys == keys;
  }

  lemma KeyOfLine(key: Key, value: string)
    requires IsKey(key)
    ensures KeyIn(key + ("=" + value)) == Some(key)
  {
    var line := key + ("=" + value);
    NameLengthOf(key, "=" + value);
    assert IsLetter(key[0]) && line[0] == key[0] && line[|key|] == '=' && line[..|key|] == key;
    assert SkipMarks(line) == line;
    hide NameLength;
  }

  // ---- The sections of a file ----

  /** Sections' headers follow each other as the sections are listed. */
  ghost predicate HeadersInOrder(layout: Layout, lines: seq<Line>) {
    forall p, q, i, j :: 0 <= p < q < |lines| && IsHeaderOf(layout, lines[p], i) && IsHeaderOf(layout, lines[q], j) ==> i <= j
  }

  predicate IsHeaderOf(layout: Layout, line: Line, i: int) {
    0 <= i < |layout| && line == Header(layout[i])
  }

  ghost predicate NoHeaders(layout: Layout, lines: seq<Line>) {
    forall p, i :: 0 <= p < |lines| ==> !IsHeaderOf(layout, lines[p], i)
  }

  /** No header of the first lines belongs behind one of the others. */
  ghost predicate Before(layout: Layout, above: seq<Line>, below: seq<Line>) {
    forall p, q, i, j :: 0 <= p < |above| && 0 <= q < |below| && IsHeaderOf(layout, above[p], i) && IsHeaderOf(layout, below[q], j) ==> i <= j
  }

  lemma HeadersConcat(layout: Layout, a: seq<Line>, b: seq<Line>)
    ensures HeadersInOrder(layout, a + b) <==> HeadersInOrder(layout, a) && HeadersInOrder(layout, b) && Before(layout, a, b)
  {
    hide IsHeaderOf;
    var all := a + b;
    assert forall p :: 0 <= p < |a| ==> all[p] == a[p];
    assert forall p :: 0 <= p < |b| ==> all[|a| + p] == b[p];
    if HeadersInOrder(layout, a) && HeadersInOrder(layout, b) && Before(layout, a, b) {
      forall p, q, i, j | 0 <= p < q < |all| && IsHeaderOf(layout, all[p], i) && IsHeaderOf(layout, all[q], j)
        ensures i <= j
      {
        assert p >= |a| ==> all[p] == b[p - |a|];
        assert q >= |a| ==> all[q] == b[q - |a|];
      }
    }
  }

  predicate TitlesDiffer(layout: Layout) {
    forall i, j :: 0 <= i < j < |layout| ==> Header(layout[i]) != Header(layout[j])
  }

  /** A section created keeps the sections in order. */
  lemma SectionKeepsOrder(layout: Layout, index: nat, lines: seq<Line>, line: Line)
    requires index < |layout| && TitlesDiffer(layout) && HeadersInOrder(layout, lines) && NoHeaders(layout, [line])
    ensures HeadersInOrder(layout, PutSection(layout, index, lines, line))
  {
    var at := FirstLater(layout, index, lines);
    var kept, header, rest := WithoutEnd(lines[..at]), Header(layout[index]), lines[at..];
    var x, y := AddBlank(kept != []), AddBlank(at < |lines|);
    FirstLaterFinds(layout, index, lines);
    WithoutEndKeeps(lines[..at]);
    Pieces(layout, index, lines, at, kept);
    assert NoHeaders(layout, x) && NoHeaders(layout, y);
    assert IsHeaderOf(layout, header, index) && forall i :: IsHeaderOf(layout, header, i) ==> i == index;
    hide FirstLater, WithoutEnd, IsHeaderOf, AddBlank, Header;
    HeadersConcat(layout, kept, x);
    HeadersConcat(layout, kept + x, [header, line]);
    HeadersConcat(layout, kept + x + [header, line], y);
    HeadersConcat(layout, kept + x + [header, line] + y, rest);
    MiddleInOrder(layout, index, kept, x, header, line, y, rest);
  }

  /** Nothing kept above belongs behind the section, nothing below before it. */
  ghost predicate UpTo(layout: Layout, index: nat, lines: seq<Line>) {
    forall p, i :: 0 <= p < |lines| && IsHeaderOf(layout, lines[p], i) ==> i <= index
  }

  ghost predicate BeginsAt(layout: Layout, index: nat, lines: seq<Line>) {
    forall p, i :: 0 <= p < |lines| && IsHeaderOf(layout, lines[p], i) ==> index <= i
  }

  lemma {:induction false} FirstLaterFinds(layout: Layout, index: nat, lines: seq<Line>)
    ensures var at := FirstLater(layout, index, lines);
            && (at < |lines| ==> IsLater(layout, index, lines[at]))
            && forall p :: 0 <= p < at ==> !IsLater(layout, index, lines[p])
  {
    hide IsLater;
    if lines != [] && !IsLater(layout, index, lines[0]) {
      FirstLaterFinds(layout, index, lines[1..]);
    }
  }

  lemma Pieces(layout: Layout, index: nat, lines: seq<Line>, at: nat, kept: seq<Line>)
    requires index < |layout| && TitlesDiffer(layout) && HeadersInOrder(layout, lines) && at <= |lines| && kept <= lines[..at]
    requires (at < |lines| ==> IsLater(layout, index, lines[at])) && forall p :: 0 <= p < at ==> !IsLater(layout, index, lines[p])
    ensures HeadersInOrder(layout, kept) && HeadersInOrder(layout, lines[at..]) && Before(layout, kept, lines[at..])
    ensures UpTo(layout, index, kept) && BeginsAt(layout, index, lines[at..])
  {
    assert forall p :: 0 <= p < |kept| ==> kept[p] == lines[..at][p] == lines[p];
    assert forall p :: 0 <= p < |lines[at..]| ==> lines[at..][p] == lines[at + p];
    forall p, i | 0 <= p < |kept| && IsHeaderOf(layout, kept[p], i)
      ensures i <= index
    {
      assert !IsLater(layout, index, lines[p]);
    }
    forall p, i | 0 <= p < |lines[at..]| && IsHeaderOf(layout, lines[at..][p], i)
      ensures index <= i
    {
      var j :| index < j < |layout| && lines[at] == Header(layout[j]);
      assert IsHeaderOf(layout, lines[at], j);
      assert lines[at..][p] == lines[at + p];
      assert p == 0 ==> i == j;
      assert p > 0 ==> j <= i;
    }
  }

  lemma MiddleInOrder(layout: Layout, index: nat, kept: seq<Line>, x: seq<Line>, header: Line, line: Line, y: seq<Line>, rest: seq<Line>)
    requires HeadersInOrder(layout, kept) && HeadersInOrder(layout, rest) && Before(layout, kept, rest)
    requires UpTo(layout, index, kept) && BeginsAt(layout, index, rest)
    requires NoHeaders(layout, x) && NoHeaders(layout, y) && NoHeaders(layout, [line])
    requires forall i :: IsHeaderOf(layout, header, i) ==> i == index
    ensures HeadersInOrder(layout, x) && Before(layout, kept, x)
    ensures HeadersInOrder(layout, [header, line]) && Before(layout, kept + x, [header, line])
    ensures HeadersInOrder(layout, y) && Before(layout, kept + x + [header, line], y)
    ensures Before(layout, kept + x + [header, line] + y, rest)
  {
    hide IsHeaderOf;
    assert [line][0] == line;
    assert forall i :: !IsHeaderOf(layout, line, i);
    var a, b := kept + x, kept + x + [header, line];
    assert forall p :: 0 <= p < |a| ==> a[p] == if p < |kept| then kept[p] else x[p - |kept|];
    assert UpTo(layout, index, a);
    assert forall p :: 0 <= p < |b| ==> b[p] == if p < |a| then a[p] else [header, line][p - |a|];
    assert UpTo(layout, index, b);
    var c := b + y;
    assert forall p :: 0 <= p < |c| ==> c[p] == if p < |b| then b[p] else y[p - |b|];
    assert UpTo(layout, index, c);
  }
}
