/** Several values set in an env file, one after another: what the parser reads then, and that doing it again changes
    nothing. */
module EnvSettings {
  import opened EnvFile
  import opened EnvWrite
  import opened EnvValues
  import opened PythonText
  import opened Wrappers

  /** Different keys. */
  predicate PairsOk(values: seq<Pair>) {
    && (forall pair :: pair in values ==> IsKey(pair.key))
    && forall i, j :: 0 <= i < j < |values| ==> values[i].key != values[j].key
  }

  predicate Writable(values: seq<Pair>) {
    forall pair :: pair in values ==> LineFor(pair.key, pair.value).Some?
  }

  /** No line of the file, no title and no value has a line break in it. */
  predicate Tidy(layout: Layout, lines: seq<Line>, values: seq<Pair>) {
    TitlesOk(layout) && NoBreaks(lines) && forall pair :: pair in values ==> !HasBreak(pair.value)
  }

  function LineOf(pair: Pair): Line {
    match LineFor(pair.key, pair.value)
    case Some(line) => line
    case None => ""
  }

  function Front(values: seq<Pair>): seq<Pair>
    requires values != []
  {
    values[..|values| - 1]
  }

  function Latest(values: seq<Pair>): Pair
    requires values != []
  {
    values[|values| - 1]
  }

  /** The file with all the values set. */
  function SetAll(layout: Layout, lines: seq<Line>, values: seq<Pair>): seq<Line> {
    if values == [] then lines
    else SetLine(layout, SetAll(layout, lines, Front(values)), Latest(values).key, LineOf(Latest(values)))
  }

  /** The old values, with the new ones over them. */
  function Over(before: Values, values: seq<Pair>): Values {
    if values == [] then before else Over(before, Front(values))[Latest(values).key := Latest(values).value]
  }

  /** Each value is taken in the file it is set in. */
  predicate AllTaken(layout: Layout, lines: seq<Line>, values: seq<Pair>) {
    values == [] || (AllTaken(layout, lines, Front(values)) && Taken(layout, SetAll(layout, lines, Front(values)), Latest(values)))
  }

  /** What each key reads after its value is set. */
  function Effective(layout: Layout, lines: seq<Line>, values: seq<Pair>): seq<Pair> {
    if values == [] then []
    else
      var front := SetAll(layout, lines, Front(values));
      Effective(layout, lines, Front(values)) + [Pair(Latest(values).key, Effect(layout, front, Latest(values)))]
  }

  lemma {:induction false} OtherKeys(layout: Layout, lines: seq<Line>, values: seq<Pair>, key: Key)
    requires forall pair :: pair in values ==> pair.key != key
    ensures forall pair :: pair in Effective(layout, lines, values) ==> pair.key != key
  {
    if values != [] {
      assert Latest(values) in values && forall pair :: pair in Front(values) ==> pair in values;
      hide SetAll, Effect;
      OtherKeys(layout, lines, Front(values), key);
    }
  }

  // ---- What stays true from one value to the next ----

  lemma FrontOk(layout: Layout, lines: seq<Line>, values: seq<Pair>)
    requires values != [] && PairsOk(values) && Writable(values) && Tidy(layout, lines, values)
    ensures PairsOk(Front(values)) && Writable(Front(values)) && Tidy(layout, lines, Front(values))
    ensures var last := Latest(values);
            && IsKey(last.key) && LineFor(last.key, last.value) == Some(LineOf(last)) && !HasBreak(last.value)
            && forall pair :: pair in Front(values) ==> pair.key != last.key
  {
    hide IsKey, LineFor, HasBreak;
    assert Latest(values) in values && forall pair :: pair in Front(values) ==> pair in values;
  }

  lemma {:induction false} SetAllKeeps(layout: Layout, lines: seq<Line>, values: seq<Pair>)
    requires PairsOk(values) && Writable(values) && Tidy(layout, lines, values)
    ensures NoBreaks(SetAll(layout, lines, values))
    ensures AllSingle(lines) ==> AllSingle(SetAll(layout, lines, values))
  {
    if values != [] {
      FrontOk(layout, lines, values);
      hide PairsOk, Writable, Tidy, IsKey, LineFor, SetLine, NoBreaks, AllSingle, HasBreak;
      SetAllKeeps(layout, lines, Front(values));
      TidyTitles(layout, lines, values);
      SetKeeps(layout, SetAll(layout, lines, Front(values)), Latest(values), LineOf(Latest(values)));
    }
  }

  lemma TidyTitles(layout: Layout, lines: seq<Line>, values: seq<Pair>)
    requires Tidy(layout, lines, values)
    ensures TitlesOk(layout) && NoBreaks(lines)
  {
  }

  /** Each key reads what setting its value came to. */
  lemma {:induction false} SetAllReads(layout: Layout, lines: seq<Line>, values: seq<Pair>)
    requires PairsOk(values) && Writable(values) && Tidy(layout, lines, values) && AllSingle(lines)
    ensures Read(SetAll(layout, lines, values)) == Over(Read(lines), Effective(layout, lines, values))
  {
    if values != [] {
      FrontOk(layout, lines, values);
      hide PairsOk, Writable, Tidy, IsKey, LineFor, SetLine, NoBreaks, AllSingle, HasBreak, Read, Effect, Taken;
      var front, last := Front(values), Latest(values);
      SetAllReads(layout, lines, front);
      SetAllKeeps(layout, lines, front);
      SetReads(layout, SetAll(layout, lines, front), last, LineOf(last));
      var effective := Effective(layout, lines, values);
      assert Front(effective) == Effective(layout, lines, front);
    }
  }

  lemma {:induction false} OverOther(before: Values, values: seq<Pair>, key: Key)
    requires forall pair :: pair in values ==> pair.key != key
    ensures key in Over(before, values) <==> key in before
    ensures key in before ==> Over(before, values)[key] == before[key]
  {
    if values != [] {
      assert Latest(values) in values && forall pair :: pair in Front(values) ==> pair in values;
      OverOther(before, Front(values), key);
    }
  }

  /** Another value for one more key, and nothing else: the values over it are the same exactly when all are. */
  lemma OverBoth(before: Values, a: seq<Pair>, b: seq<Pair>, key: Key, x: string, y: string)
    requires forall pair: Pair :: pair in a + b ==> pair.key != key
    ensures Over(before, a)[key := x] == Over(before, b)[key := y] <==> Over(before, a) == Over(before, b) && x == y
  {
    assert forall pair :: pair in a || pair in b ==> pair in a + b;
    OverOther(before, a, key);
    OverOther(before, b, key);
    hide Over;
    var m, n := Over(before, a), Over(before, b);
    if m[key := x] == n[key := y] {
      assert m[key := x][key] == x && n[key := y][key] == y;
      forall k
        ensures k in m <==> k in n
        ensures k in m ==> m[k] == n[k]
      {
        assert k != key ==> (k in m <==> k in m[key := x]) && (k in n <==> k in n[key := y]);
        assert k != key && k in m ==> m[key := x][k] == m[k] && n[key := y][k] == n[k];
      }
    }
  }

  /** The parser reads the new values over the old ones exactly when each of them is taken. */
  lemma {:induction false} AllReadIff(layout: Layout, lines: seq<Line>, values: seq<Pair>)
    requires PairsOk(values) && Writable(values) && Tidy(layout, lines, values) && AllSingle(lines)
    ensures Over(Read(lines), Effective(layout, lines, values)) == Over(Read(lines), values) <==> AllTaken(layout, lines, values)
  {
    if values != [] {
      FrontOk(layout, lines, values);
      hide PairsOk, Writable, Tidy, IsKey, LineFor, SetLine, AllSingle, HasBreak, Read;
      var front, last := Front(values), Latest(values);
      AllReadIff(layout, lines, front);
      OtherKeys(layout, lines, front, last.key);
      var effective, effects := Effective(layout, lines, values), Effective(layout, lines, front);
      assert Front(effective) == effects;
      OverBoth(Read(lines), effects, front, last.key, Latest(effective).value, last.value);
      EffectIsTaken(layout, SetAll(layout, lines, front), last);
    }
  }

  lemma EffectIsTaken(layout: Layout, lines: seq<Line>, pair: Pair)
    ensures Effect(layout, lines, pair) == pair.value <==> Taken(layout, lines, pair)
  {
    hide IsOf, Set, LastSetter, Decisive;
  }

  // ---- When the file itself tells ----

  /** Every line that sets the key is written as setup writes it, without space before the key or around the sign. */
  predicate Plainly(lines: seq<Line>, key: Key) {
    forall line :: line in lines && Set(line).Some? && Set(line).value.0 == key ==> IsOf(line, key)
  }

  /** The key has a line to replace, or none at all. */
  predicate Settled(lines: seq<Line>, key: Key) {
    Has(lines, key) || LastSetter(lines, key).None?
  }

  lemma {:induction false} ReplacedKeepsOthers(lines: seq<Line>, key: Key, line: Line, other: Key)
    requires IsKey(key) && AllSingle(lines) && key != other && Set(line).Some? && Set(line).value.0 == key
    ensures LastSetter(Replaced(lines, key, line), other) == LastSetter(lines, other)
  {
    if lines != [] {
      var before, last := lines[..|lines| - 1], lines[|lines| - 1];
      assert lines == before + [last];
      AllSingleStart(lines);
      ReplacedKeepsOthers(before, key, line, other);
      if IsOf(last, key) {
        OfSets(last, key);
      }
      hide *;
      ReplacedLast(before, last, key, line);
      LastSetterLast(before, last, other);
      LastSetterLast(Replaced(before, key, line), line, other);
      LastSetterLast(Replaced(before, key, line), last, other);
    }
  }

  lemma PutKeepsOthers(layout: Layout, lines: seq<Line>, key: Key, line: Line, other: Key)
    requires key != other && !IsBlank(line) && Set(line).Some? && Set(line).value.0 == key
    ensures LastSetter(Put(layout, lines, key, line), other) == LastSetter(lines, other)
  {
    hide *;
    var at := Point(layout, lines, key);
    var block, after := Block(layout, lines, key, line), Put(layout, lines, key, line);
    PutIsAround(layout, lines, key, line);
    BlockReads(layout, lines, key, Set(line).value.1, line);
    AroundSetter(lines, at, block, after, other);
  }

  lemma AroundSetter(lines: seq<Line>, at: nat, block: seq<Line>, after: seq<Line>, key: Key)
    requires Around(lines, at, block, after) && LastSetter(block, key).None?
    ensures LastSetter(after, key) == LastSetter(lines, key)
  {
    hide NonBlank, LastSetter;
    assert lines[..at] + lines[at..] == lines;
    var x, y := NonBlank(lines[..at]), NonBlank(lines[at..]);
    LastSetterNonBlank(after, key);
    LastSetterNonBlank(lines[..at], key);
    LastSetterNonBlank(lines[at..], key);
    LastSetterConcat(lines[..at], lines[at..], key);
    LastSetterConcat(x + block, y, key);
    LastSetterConcat(x, block, key);
  }

  /** Setting one key leaves what decides about another as it was. */
  lemma OthersStay(layout: Layout, lines: seq<Line>, pair: Pair, line: Line, other: Key)
    requires IsKey(pair.key) && LineFor(pair.key, pair.value) == Some(line) && AllSingle(lines) && NoBreaks(lines)
    requires IsKey(other) && pair.key != other
    ensures LastSetter(SetLine(layout, lines, pair.key, line), other) == LastSetter(lines, other)
    ensures Has(SetLine(layout, lines, pair.key, line), other) <==> Has(lines, other)
  {
    LineSets(pair.key, pair.value);
    SplitJoined(lines);
    BlankIgnored();
    hide Set, IsOf, IsKey, LineFor, Put, Replaced, AllSingle, IsIgnored, LastSetter, SplitLines, NoBreaks, IsBlank, Has;
    if Has(lines, pair.key) {
      ReplacedKeepsOthers(lines, pair.key, line, other);
    } else {
      PutKeepsOthers(layout, lines, pair.key, line, other);
    }
    OthersHave(layout, lines, pair, line, other);
  }

  lemma OthersHave(layout: Layout, lines: seq<Line>, pair: Pair, line: Line, other: Key)
    requires IsKey(pair.key) && LineFor(pair.key, pair.value) == Some(line) && NoBreaks(lines)
    requires IsKey(other) && pair.key != other
    ensures Has(SetLine(layout, lines, pair.key, line), other) <==> Has(lines, other)
  {
    var after := SetLine(layout, lines, pair.key, line);
    SetHolds(layout, lines, pair, line);
    LineSets(pair.key, pair.value);
    HeaderIgnored(layout);
    BlankIgnored();
    assert IsOf(line, pair.key) && IsBlank("");
    hide Set, IsOf, IsKey, LineFor, SetLine, IsIgnored, NoBreaks, IsBlank, IsHeader;
    forall l | IsOf(l, other)
      ensures !IsIgnored(l) && !IsOf(l, pair.key)
    {
      IgnoredIsOfNone(l, other);
      if IsOf(l, pair.key) {
        OneKey(l, pair.key, other);
      }
    }
  }

  /** Whether a settled key's value is taken does not change before it is set. */
  lemma {:induction false} TakenFromStart(layout: Layout, lines: seq<Line>, values: seq<Pair>, pair: Pair)
    requires PairsOk(values) && Writable(values) && Tidy(layout, lines, values) && AllSingle(lines)
    requires IsKey(pair.key) && (forall p :: p in values ==> p.key != pair.key) && Settled(lines, pair.key)
    ensures var after := SetAll(layout, lines, values);
            && LastSetter(after, pair.key) == LastSetter(lines, pair.key) && (Has(after, pair.key) <==> Has(lines, pair.key))
            && (Taken(layout, after, pair) <==> Taken(layout, lines, pair))
  {
    if values != [] {
      FrontOk(layout, lines, values);
      assert Latest(values) in values && forall p :: p in Front(values) ==> p in values;
      hide *;
      var front, last := Front(values), Latest(values);
      TakenFromStart(layout, lines, front, pair);
      SetAllKeeps(layout, lines, front);
      OthersStay(layout, SetAll(layout, lines, front), last, LineOf(last), pair.key);
      SetAllLast(layout, lines, values);
    }
    TakenWhen(layout, lines, pair);
    TakenWhen(layout, SetAll(layout, lines, values), pair);
    hide *;
  }

  lemma SetAllLast(layout: Layout, lines: seq<Line>, values: seq<Pair>)
    requires values != []
    ensures SetAll(layout, lines, values) ==
            SetLine(layout, SetAll(layout, lines, Front(values)), Latest(values).key, LineOf(Latest(values)))
  {
    hide SetLine;
  }

  /** A settled key's value is taken unless the last line that sets the key is no line to replace and says otherwise. */
  lemma TakenWhen(layout: Layout, lines: seq<Line>, pair: Pair)
    requires Settled(lines, pair.key)
    ensures Taken(layout, lines, pair) <==>
            var last := LastSetter(lines, pair.key);
            last.None? || IsOf(last.value, pair.key) || Set(last.value).value.1 == pair.value
  {
    hide IsOf, Set, Has, LastSetter, Point;
    if !Has(lines, pair.key) {
      var at := Point(layout, lines, pair.key);
      NoSetter(lines, pair.key);
      NoSetter(lines[at..], pair.key);
      assert forall l :: l in lines[at..] ==> l in lines;
    }
  }

  /** When each key has a line to replace or none at all, the file before tells whether the values are taken. */
  lemma {:induction false} AllTakenFromStart(layout: Layout, lines: seq<Line>, values: seq<Pair>)
    requires PairsOk(values) && Writable(values) && Tidy(layout, lines, values) && AllSingle(lines)
    requires forall pair :: pair in values ==> Settled(lines, pair.key)
    ensures AllTaken(layout, lines, values) <==> forall pair :: pair in values ==> Taken(layout, lines, pair)
  {
    if values != [] {
      FrontOk(layout, lines, values);
      var front, last := Front(values), Latest(values);
      assert last in values && forall p :: p in values <==> p in front || p == last;
      hide PairsOk, Writable, Tidy, IsKey, LineFor, SetAll, AllSingle, HasBreak, Taken, Settled;
      AllTakenFromStart(layout, lines, front);
      TakenFromStart(layout, lines, front, last);
    }
  }

  // ---- Where the file before does not tell ----

  const SHOP: Layout := [Section("S", ["A"])]
  const SHOP_LINES: seq<Line> := ["junk=1", "# S", "export A=2"]

  lemma ShopLines()
    ensures !IsBlank("junk=1") && !IsBlank("# S") && !IsBlank("export A=2") && !IsBlank("Z=9")
    ensures forall line :: line in SHOP_LINES + ["Z=9"] ==> !IsOf(line, "A")
    ensures forall line :: line in SHOP_LINES ==> !IsOf(line, "Z")
    ensures !HasBreak("junk=1") && !HasBreak("# S") && !HasBreak("export A=2") && !HasBreak("Z=9")
  {
    assert "junk=1"[0] == 'j' && "# S"[0] == '#' && "export A=2"[0] == 'e' && "Z=9"[0] == 'Z';
  }

  lemma ShopKeys()
    ensures KeyIn("export A=2") == None && KeyIn("Z=9") == Some("Z")
    ensures !IsDescription("export A=2") && SectionOf(SHOP, "Z") == None && SectionOf(SHOP, "A") == Some(0)
    ensures Place(SHOP, "Z") == -1 && Place(SHOP, "A") == 0 && Header(SHOP[0]) == "# S"
  {
    assert SHOP[1..] == [];
    NameLengthOf("export", " A=2");
    assert "export" + " A=2" == "export A=2";
    NameLengthOf("Z", "=9");
    assert "Z" + "=9" == "Z=9" && "Z=9"[..1] == "Z";
  }

  lemma ShopHeader(lines: seq<Line>)
    requires |lines| >= 2 && lines[0] == "junk=1" && lines[1] == "# S"
    ensures IndexOf(lines, "# S") == Some(1)
  {
    assert lines[1..][0] == "# S" && "junk=1"[0] == 'j' && "# S"[0] == '#';
    assert IndexOf(lines[1..], "# S") == Some(0);
  }

  /** Behind three lines that start with no header a line is put without a blank one. */
  lemma PutBehindThree(layout: Layout, a: Line, b: Line, c: Line, line: Line)
    requires !IsBlank(a) && !IsBlank(b) && !IsBlank(c) && !IsHeader(layout, a)
    ensures PutLast(layout, [a, b, c], line) == [a, b, c] + [line]
  {
    hide IsBlank, IsHeader;
    var lines := [a, b, c];
    assert BlockStart(lines, 3) == BlockStart(lines, 2) == BlockStart(lines, 1) == BlockStart(lines, 0) == 0;
    assert lines + [] + [line] == lines + [line];
  }

  lemma ShopNoHeader()
    ensures !IsHeader(SHOP, "junk=1") && SectionOf(SHOP, "Z") == None
  {
    ShopKeys();
    hide Header;
    assert "junk=1"[0] != "# S"[0];
  }

  /** Z has no section: its line goes right behind the last one, as the block starts with no header. */
  lemma ShopZ()
    ensures SetLine(SHOP, SHOP_LINES, "Z", "Z=9") == SHOP_LINES + ["Z=9"]
  {
    ShopLines();
    ShopNoHeader();
    hide IsBlank, IsOf, HasBreak, SplitLines, IsHeader, SectionOf, PutLast, JoinLines;
    SplitJoined(SHOP_LINES);
    PutBehindThree(SHOP, "junk=1", "# S", "export A=2", "Z=9");
  }

  lemma ShopPoints()
    ensures Point(SHOP, SHOP_LINES, "A") == 2 && Point(SHOP, SHOP_LINES + ["Z=9"], "A") == 4
  {
    ShopLines();
    ShopKeys();
    hide IsBlank, IsOf, HasBreak, Header, KeyIn, IsDescription, SectionOf, EnvWrite.Place, IndexOf;
    var lines, more := SHOP_LINES, SHOP_LINES + ["Z=9"];
    ShopHeader(lines);
    ShopHeader(more);
    assert more[2] == "export A=2" && more[3] == "Z=9";
    assert BlockEnd(lines, 2) == BlockEnd(lines, 3) == 3;
    assert BlockEnd(more, 2) == BlockEnd(more, 3) == BlockEnd(more, 4) == 4;
  }

  lemma ShopSets()
    ensures Set("export A=2") == Some(("A", "2"))
  {
    hide Set, IsOf, IsIgnored;
    assert "export " + ("A" + ("=" + "2")) == "export A=2";
    ExportedSets("A", "2");
  }

  lemma ShopSetter()
    ensures LastSetter(SHOP_LINES[2..], "A") == LastSetter(SHOP_LINES, "A") == Some("export A=2")
    ensures Set("export A=2") == Some(("A", "2"))
  {
    assert SHOP_LINES == ["junk=1", "# S", "export A=2"];
    hide *;
    ShopSets();
    LastOfThree("junk=1", "# S", "export A=2", "A");
  }

  lemma LastOfThree(a: Line, b: Line, c: Line, key: Key)
    requires Set(c).Some? && Set(c).value.0 == key
    ensures LastSetter([a, b, c], key) == LastSetter([a, b, c][2..], key) == Some(c)
  {
    hide *;
    assert [a, b, c][2..] == [] + [c] && [a, b, c] == [a, b] + [c];
    LastSetterLast([], c, key);
    LastSetterLast([a, b], c, key);
  }

  lemma NotTakenNow()
    ensures !Settled(SHOP_LINES, "A") && !Taken(SHOP, SHOP_LINES, Pair("A", "3"))
  {
    ShopHasNoA();
    ShopPoints();
    ShopSetter();
    hide Set, IsOf, Point, LastSetter, Has;
  }

  lemma ShopHasNoA()
    ensures !Has(SHOP_LINES, "A") && !Has(SHOP_LINES + ["Z=9"], "A") && !IsOf("export A=2", "A")
  {
    ShopLines();
    hide IsOf, IsBlank, HasBreak;
    assert "export A=2" in SHOP_LINES + ["Z=9"];
    assert forall line :: line in SHOP_LINES ==> line in SHOP_LINES + ["Z=9"];
  }

  lemma TakenThen()
    ensures Taken(SHOP, SHOP_LINES + ["Z=9"], Pair("A", "3"))
  {
    ShopHasNoA();
    ShopPoints();
    assert (SHOP_LINES + ["Z=9"])[4..] == [];
    hide Set, IsOf, Point, Has;
  }

  lemma AllTakenTwo(layout: Layout, lines: seq<Line>, p: Pair, q: Pair)
    ensures AllTaken(layout, lines, [p, q]) <==>
            Taken(layout, lines, p) && Taken(layout, SetLine(layout, lines, p.key, LineOf(p)), q)
  {
    assert Front([p, q]) == [p] && Front([p]) == [];
    hide Taken, SetLine, LineOf;
    assert SetAll(layout, lines, []) == lines;
    assert SetAll(layout, lines, [p]) == SetLine(layout, lines, p.key, LineOf(p));
    assert AllTaken(layout, lines, [p]) <==> Taken(layout, lines, p);
  }

  lemma ZLine()
    ensures LineOf(Pair("Z", "9")) == "Z=9"
  {
    assert "Z" + ("=" + "9") == "Z=9";
  }

  /** The reserve is needed: A is set by an exported line alone, so its line is put above that one and not taken. Once Z is
      set its line stands last in A's section, A's is put behind it, and is taken. */
  lemma TakenLater()
    ensures !Settled(SHOP_LINES, "A") && !Taken(SHOP, SHOP_LINES, Pair("A", "3"))
    ensures AllTaken(SHOP, SHOP_LINES, [Pair("Z", "9"), Pair("A", "3")])
  {
    hide *;
    NotTakenNow();
    ShopZ();
    ZLine();
    ZTaken();
    TakenThen();
    AllTakenTwo(SHOP, SHOP_LINES, Pair("Z", "9"), Pair("A", "3"));
  }

  lemma ZTaken()
    ensures Taken(SHOP, SHOP_LINES, Pair("Z", "9"))
  {
    ShopLines();
    ShopKeys();
    assert SHOP_LINES[3..] == [];
    hide IsOf, IsBlank, HasBreak, Header, KeyIn, IsDescription, Set;
  }

  /** Keys whose lines are all plain are settled, and their values are taken. */
  lemma PlainlyTaken(layout: Layout, lines: seq<Line>, pair: Pair)
    requires Plainly(lines, pair.key)
    ensures Settled(lines, pair.key) && Taken(layout, lines, pair)
  {
    var last := LastSetter(lines, pair.key);
    if last.Some? {
      assert IsOf(last.value, pair.key) && Has(lines, pair.key);
    }
    hide IsOf, Set, LastSetter;
    TakenWhen(layout, lines, pair);
  }

  // ---- Setting them ----

  /** The file holds a value as setup writes it, and no other line of its key. */
  predicate Holds(lines: seq<Line>, pair: Pair) {
    && LineFor(pair.key, pair.value).Some?
    && LineOf(pair) in lines
    && forall line :: line in lines && IsOf(line, pair.key) ==> line == LineOf(pair)
  }

  predicate Written(lines: seq<Line>, values: seq<Pair>) {
    forall pair :: pair in values ==> Holds(lines, pair)
  }

  /** A value that is written stays written while another is set. */
  lemma WrittenStays(layout: Layout, lines: seq<Line>, pair: Pair, line: Line, other: Pair)
    requires IsKey(pair.key) && LineFor(pair.key, pair.value) == Some(line) && NoBreaks(lines)
    requires IsKey(other.key) && (other.key != pair.key ==> Holds(lines, other)) && (other.key == pair.key ==> other == pair)
    ensures Holds(SetLine(layout, lines, pair.key, line), other)
  {
    SetHolds(layout, lines, pair, line);
    LineSets(pair.key, pair.value);
    HeaderIgnored(layout);
    BlankIgnored();
    assert IsOf(line, pair.key) && IsBlank("");
    if other.key != pair.key {
      var text := LineOf(other);
      LineSets(other.key, other.value);
      assert IsOf(text, other.key);
      if IsOf(text, pair.key) {
        OneKey(text, pair.key, other.key);
      }
      if IsOf(line, other.key) {
        OneKey(line, pair.key, other.key);
      }
    }
    forall l | IsOf(l, other.key)
      ensures !IsIgnored(l)
    {
      IgnoredIsOfNone(l, other.key);
    }
    hide Set, IsOf, IsKey, LineFor, SetLine, IsIgnored, IsBlank, IsHeader, NoBreaks;
  }

  lemma {:induction false} AllWritten(layout: Layout, lines: seq<Line>, values: seq<Pair>)
    requires PairsOk(values) && Writable(values) && Tidy(layout, lines, values)
    ensures Written(SetAll(layout, lines, values), values)
  {
    if values != [] {
      FrontOk(layout, lines, values);
      var front, last := Front(values), Latest(values);
      assert forall p :: p in values <==> p in front || p == last;
      assert forall p :: p in values ==> IsKey(p.key);
      hide PairsOk, Writable, Tidy, IsKey, LineFor, SetLine, HasBreak, Holds, NoBreaks, LineOf;
      AllWritten(layout, lines, front);
      SetAllKeeps(layout, lines, front);
      forall pair | pair in values
        ensures Holds(SetAll(layout, lines, values), pair)
      {
        WrittenStays(layout, SetAll(layout, lines, front), last, LineOf(last), pair);
      }
    }
  }

  lemma {:induction false} SetAllAgain(layout: Layout, lines: seq<Line>, values: seq<Pair>)
    requires (forall pair :: pair in values ==> IsKey(pair.key)) && Written(lines, values)
    ensures SetAll(layout, lines, values) == lines
  {
    if values != [] {
      var front, last := Front(values), Latest(values);
      assert last in values && forall p :: p in front ==> p in values;
      assert Holds(lines, last);
      hide IsKey, LineFor, SetLine;
      SetAllAgain(layout, lines, front);
      SetAgain(layout, lines, last, LineOf(last));
    }
  }

  /** The file is read line by line, and every line that sets one of the keys is written plainly. */
  ghost predicate Ready(lines: seq<Line>, values: seq<Pair>) {
    AllSingle(lines) && forall pair :: pair in values ==> Plainly(lines, pair.key)
  }

  lemma ReadyTaken(layout: Layout, lines: seq<Line>, values: seq<Pair>)
    requires PairsOk(values) && Writable(values) && Tidy(layout, lines, values) && Ready(lines, values)
    ensures AllTaken(layout, lines, values)
  {
    hide PairsOk, Writable, Tidy, AllSingle, Plainly, Settled, Taken;
    forall pair | pair in values
      ensures Settled(lines, pair.key) && Taken(layout, lines, pair)
    {
      PlainlyTaken(layout, lines, pair);
    }
    AllTakenFromStart(layout, lines, values);
  }

  /** What a parser reads in the text of the lines. */
  function Reads(lines: seq<Line>): Result<Values, nat> {
    Parsed(SplitLines(JoinLines(lines)), 0, map[])
  }

  lemma ReadsLines(lines: seq<Line>)
    requires AllSingle(lines) && NoBreaks(lines)
    ensures Reads(lines) == Ok(Read(lines))
  {
    SplitJoined(lines);
    assert lines[..0] == [] && Read([]) == map[];
    hide IsSingle, SplitLines, HasBreak, Parsed, Read;
    ParsedIsRead(lines, 0);
  }

  lemma SetAllNext(layout: Layout, lines: seq<Line>, values: seq<Pair>, i: nat)
    requires i < |values|
    ensures SetAll(layout, lines, values[..i + 1]) ==
            SetLine(layout, SetAll(layout, lines, values[..i]), values[i].key, LineOf(values[i]))
  {
    assert Front(values[..i + 1]) == values[..i];
    hide SetLine;
  }

  /** What the parser reads in the text that was written. */
  lemma WrittenReads(layout: Layout, lines: seq<Line>, values: seq<Pair>)
    requires PairsOk(values) && Writable(values) && Tidy(layout, lines, values) && AllSingle(lines)
    ensures Reads(lines) == Ok(Read(lines))
    ensures Reads(SetAll(layout, lines, values)) == Ok(Over(Read(lines), Effective(layout, lines, values)))
    ensures Reads(SetAll(layout, lines, values)) == Ok(Over(Read(lines), values)) <==> AllTaken(layout, lines, values)
  {
    hide *;
    TidyTitles(layout, lines, values);
    ReadsLines(lines);
    SetAllKeeps(layout, lines, values);
    SetAllReads(layout, lines, values);
    ReadsLines(SetAll(layout, lines, values));
    AllReadIff(layout, lines, values);
  }

  /** The values set in a file one after another, or the first that cannot be written. In the text that comes out the
      parser reads the old values with the new ones over them exactly when each is taken, as all are whose keys are written
      plainly; and setting values that are written already changes nothing. */
  method SetEnvValues(layout: Layout, lines: seq<Line>, values: seq<Pair>) returns (r: Result<seq<Line>, Key>)
    requires PairsOk(values)
    ensures r.Ok? <==> Writable(values)
    ensures r.Err? ==> exists i :: 0 <= i < |values| && values[i].key == r.error && Writable(values[..i]) && !Writable([values[i]])
    ensures r.Ok? ==> r.value == SetAll(layout, lines, values)
    ensures r.Ok? && Tidy(layout, lines, values) ==> Written(r.value, values)
    ensures r.Ok? && Tidy(layout, lines, values) && AllSingle(lines) ==>
              && Reads(lines) == Ok(Read(lines))
              && (Reads(r.value) == Ok(Over(Read(lines), values)) <==> AllTaken(layout, lines, values))
    ensures r.Ok? && Tidy(layout, lines, values) && Ready(lines, values) ==> Reads(r.value) == Ok(Over(Read(lines), values))
    ensures r.Ok? && Written(lines, values) ==> r.value == lines
  {
    hide IsKey, LineFor, SetLine, Holds, Tidy, AllSingle, Reads, Read, Over, AllTaken;
    var after := lines;
    for i := 0 to |values|
      invariant Writable(values[..i]) && after == SetAll(layout, lines, values[..i])
    {
      var pair := values[i];
      assert pair in values;
      var line := LineFor(pair.key, pair.value);
      if line.None? {
        assert !Writable([pair]) by {
          assert pair in [pair];
        }
        return Err(pair.key);
      }
      SetAllNext(layout, lines, values, i);
      after := SetOne(layout, after, pair, line.value);
    }
    assert values[..|values|] == values;
    if Tidy(layout, lines, values) {
      AllWritten(layout, lines, values);
      if AllSingle(lines) {
        WrittenReads(layout, lines, values);
        if Ready(lines, values) {
          ReadyTaken(layout, lines, values);
        }
      }
    }
    if Written(lines, values) {
      SetAllAgain(layout, lines, values);
    }
    return Ok(after);
  }
}
