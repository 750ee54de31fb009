/** A dump copied without the data of some of its tables. */
module DumpFilter {
  import opened DumpScan
  import opened Wrappers

  datatype Filter = Filter(main: Option<Name>, patterns: Patterns, skip: Name -> bool)

  datatype Progress = Progress(sink: seq<Line>, skipped: set<Name>, skipping: bool, schema: Option<Name>)

  function NextSchema(filter: Filter, schema: Option<Name>, line: Line): Option<Name> {
    if filter.main.Some? && filter.patterns.used(line).Some? then filter.patterns.used(line) else schema
  }

  /** The skipped table a line starts a data statement of. */
  function SkippedBy(filter: Filter, schema: Option<Name>, line: Line): Option<Name> {
    match filter.patterns.inserted(line)
    case None => None
    case Some(name) =>
      var table := Qualified(schema, filter.main, name);
      if filter.skip(table) then Some(table) else None
  }

  function Filtered(filter: Filter, p: Progress, line: Line): Progress {
    if p.skipping then p.(skipping := !Ends(line))
    else
      var schema := NextSchema(filter, p.schema, line);
      match SkippedBy(filter, schema, line)
      case Some(table) => Progress(p.sink, p.skipped + {table}, !Ends(line), schema)
      case None => Progress(p.sink + [line], p.skipped, false, schema)
  }

  function FilteredAll(filter: Filter, p: Progress, lines: seq<Line>): Progress {
    if lines == [] then p else Filtered(filter, FilteredAll(filter, p, lines[..|lines| - 1]), lines[|lines| - 1])
  }

  lemma {:induction false} FilteredConcat(filter: Filter, p: Progress, a: seq<Line>, b: seq<Line>)
    ensures FilteredAll(filter, p, a + b) == FilteredAll(filter, FilteredAll(filter, p, a), b)
  {
    if b == [] {
      assert a + b == a;
    } else {
      assert (a + b)[..|a + b| - 1] == a + b[..|b| - 1];
      FilteredConcat(filter, p, a, b[..|b| - 1]);
    }
  }

  lemma FilteredNext(filter: Filter, p: Progress, lines: seq<Line>, i: nat)
    requires i < |lines|
    ensures FilteredAll(filter, p, lines[..i + 1]) == Filtered(filter, FilteredAll(filter, p, lines[..i]), lines[i])
  {
    assert lines[..i + 1][..i] == lines[..i];
  }

  method FilterDump(filter: Filter, source: seq<Line>) returns (sink: seq<Line>, skipped: set<Name>)
    ensures var p := FilteredAll(filter, Progress([], {}, false, filter.main), source);
            sink == p.sink && skipped == p.skipped
  {
    var skipping, schema := false, filter.main;
    sink, skipped := [], {};
    for i := 0 to |source|
      invariant FilteredAll(filter, Progress([], {}, false, filter.main), source[..i]) == Progress(sink, skipped, skipping, schema)
    {
      FilteredNext(filter, Progress([], {}, false, filter.main), source, i);
      var line := source[i];
      if skipping {
        skipping := !Ends(line);
        continue;
      }
      if filter.main.Some? {
        var used := filter.patterns.used(line);
        if used.Some? {
          schema := used;
        }
      }
      var inserted := filter.patterns.inserted(line);
      if inserted.Some? {
        var table := Qualified(schema, filter.main, inserted.value);
        if filter.skip(table) {
          skipped, skipping := skipped + {table}, !Ends(line);
          continue;
        }
      }
      sink := sink + [line];
    }
    assert source[..|source|] == source;
  }

  // ---- A dump as statements ----

  /** A data statement, the definition of a table, or any other line. */
  datatype Unit = Data(lines: seq<Line>) | Definition(lines: seq<Line>) | Other(line: Line)

  predicate IsStatement(lines: seq<Line>) {
    lines != [] && Ends(lines[|lines| - 1]) && forall i :: 0 <= i < |lines| - 1 ==> !Ends(lines[i])
  }

  /** Only a statement's last line ends it, and only the lines that should start a statement or switch the schema. */
  predicate UnitOk(patterns: Patterns, u: Unit) {
    match u
    case Data(lines) =>
      && IsStatement(lines) && patterns.inserted(lines[0]).Some?
      && (forall i :: 0 <= i < |lines| ==> patterns.used(lines[i]).None? && patterns.created(lines[i]).None?)
      && (forall i :: 1 <= i < |lines| ==> patterns.inserted(lines[i]).None?)
    case Definition(lines) =>
      && IsStatement(lines) && patterns.created(lines[0]).Some?
      && (forall i :: 0 <= i < |lines| ==> patterns.used(lines[i]).None? && patterns.inserted(lines[i]).None?)
    case Other(line) => patterns.inserted(line).None? && patterns.created(line).None?
  }

  predicate WellFormed(patterns: Patterns, dump: seq<Unit>) {
    forall u :: u in dump ==> UnitOk(patterns, u)
  }

  function UnitLines(u: Unit): seq<Line> {
    if u.Other? then [u.line] else u.lines
  }

  function DumpLines(dump: seq<Unit>): seq<Line> {
    if dump == [] then [] else DumpLines(dump[..|dump| - 1]) + UnitLines(dump[|dump| - 1])
  }

  /** The schema in use after these statements. */
  function SchemaAfter(filter: Filter, dump: seq<Unit>): Option<Name> {
    if dump == [] then filter.main
    else
      var before, u := SchemaAfter(filter, dump[..|dump| - 1]), dump[|dump| - 1];
      if u.Other? then NextSchema(filter, before, u.line) else before
  }

  /** The skipped table whose data a statement holds. */
  function DataOf(filter: Filter, schema: Option<Name>, u: Unit): Option<Name> {
    if u.Data? && u.lines != [] then SkippedBy(filter, schema, u.lines[0]) else None
  }

  function Kept(filter: Filter, dump: seq<Unit>): seq<Unit> {
    if dump == [] then []
    else
      var before, u := dump[..|dump| - 1], dump[|dump| - 1];
      Kept(filter, before) + if DataOf(filter, SchemaAfter(filter, before), u).Some? then [] else [u]
  }

  function Skipped(filter: Filter, dump: seq<Unit>): set<Name> {
    if dump == [] then {}
    else
      var before := dump[..|dump| - 1];
      Skipped(filter, before) +
      match DataOf(filter, SchemaAfter(filter, before), dump[|dump| - 1])
      case None => {}
      case Some(table) => {table}
  }

  lemma {:induction false} KeptLines(filter: Filter, p: Progress, lines: seq<Line>)
    requires !p.skipping
    requires forall i :: 0 <= i < |lines| ==> filter.patterns.used(lines[i]).None? && SkippedBy(filter, p.schema, lines[i]).None?
    ensures FilteredAll(filter, p, lines) == p.(sink := p.sink + lines)
  {
    if lines != [] {
      KeptLines(filter, p, lines[..|lines| - 1]);
      assert p.sink + lines == p.sink + lines[..|lines| - 1] + [lines[|lines| - 1]];
    }
  }

  lemma {:induction false} SkippedLines(filter: Filter, p: Progress, lines: seq<Line>, table: Name)
    requires !p.skipping && lines != [] && filter.patterns.used(lines[0]).None? && SkippedBy(filter, p.schema, lines[0]) == Some(table)
    requires forall i :: 0 <= i < |lines| - 1 ==> !Ends(lines[i])
    ensures FilteredAll(filter, p, lines) == p.(skipped := p.skipped + {table}, skipping := !Ends(lines[|lines| - 1]))
  {
    if |lines| > 1 {
      SkippedLines(filter, p, lines[..|lines| - 1], table);
    } else {
      assert lines[..0] == [];
    }
  }

  lemma UnitFiltered(filter: Filter, p: Progress, u: Unit)
    requires !p.skipping && UnitOk(filter.patterns, u)
    ensures FilteredAll(filter, p, UnitLines(u)) ==
            match DataOf(filter, p.schema, u)
            case Some(table) => p.(skipped := p.skipped + {table})
            case None =>
              p.(sink := p.sink + UnitLines(u), schema := if u.Other? then NextSchema(filter, p.schema, u.line) else p.schema)
  {
    match u
    case Other(line) => FilteredNext(filter, p, [line], 0);
    case Definition(lines) => KeptLines(filter, p, lines);
    case Data(lines) =>
      match SkippedBy(filter, p.schema, lines[0])
      case Some(table) => SkippedLines(filter, p, lines, table);
      case None => KeptLines(filter, p, lines);
  }

  /** Filtering a well-formed dump drops exactly the whole data statements of skipped tables. */
  lemma {:induction false} FilterDropsStatements(filter: Filter, dump: seq<Unit>)
    requires WellFormed(filter.patterns, dump)
    ensures FilteredAll(filter, Progress([], {}, false, filter.main), DumpLines(dump)) ==
            Progress(DumpLines(Kept(filter, dump)), Skipped(filter, dump), false, SchemaAfter(filter, dump))
  {
    if dump != [] {
      var before, u := dump[..|dump| - 1], dump[|dump| - 1];
      FilterDropsStatements(filter, before);
      FilteredConcat(filter, Progress([], {}, false, filter.main), DumpLines(before), UnitLines(u));
      UnitFiltered(filter, Progress(DumpLines(Kept(filter, before)), Skipped(filter, before), false, SchemaAfter(filter, before)), u);
      assert (Kept(filter, before) + [u])[..|Kept(filter, before)|] == Kept(filter, before);
      assert Kept(filter, before) + [] == Kept(filter, before);
    }
  }

  // ---- What a scan finds in the filtered dump ----

  lemma {:induction false} DataReadsNothing(scan: Scan, r: Reading, lines: seq<Line>)
    requires r.current.None?
    requires forall i :: 0 <= i < |lines| ==> scan.patterns.used(lines[i]).None? && scan.patterns.created(lines[i]).None?
    ensures Read(scan, r, lines) == r
  {
    if lines != [] {
      DataReadsNothing(scan, r, lines[..|lines| - 1]);
    }
  }

  /** After its last line a definition is closed. */
  lemma {:induction false} DefinitionCloses(scan: Scan, r: Reading, lines: seq<Line>)
    requires r.current.None? && forall i :: 0 <= i < |lines| ==> scan.patterns.used(lines[i]).None?
    ensures var after := Read(scan, r, lines);
            after.schema == r.schema && (after.current.Some? ==> lines != [] && !Ends(lines[|lines| - 1]))
            && (r.schema != scan.main && !scan.qualified ==> after == r)
  {
    if lines != [] {
      var before := lines[..|lines| - 1];
      DefinitionCloses(scan, r, before);
    }
  }

  lemma UnitReads(scan: Scan, r: Reading, u: Unit)
    requires r.current.None? && UnitOk(scan.patterns, u)
    ensures Read(scan, r, UnitLines(u)).current.None? && (u.Data? ==> Read(scan, r, UnitLines(u)) == r)
  {
    match u
    case Data(lines) => DataReadsNothing(scan, r, lines);
    case Definition(lines) => DefinitionCloses(scan, r, lines);
    case Other(line) => ReadNext(scan, r, [line], 0);
  }

  /** Between the statements of a well-formed dump no definition is open. */
  lemma {:induction false} NothingOpen(scan: Scan, dump: seq<Unit>)
    requires WellFormed(scan.patterns, dump)
    ensures Read(scan, Start(scan), DumpLines(dump)).current.None?
  {
    if dump != [] {
      var before, u := dump[..|dump| - 1], dump[|dump| - 1];
      assert u in dump;
      NothingOpen(scan, before);
      UnitReads(scan, Read(scan, Start(scan), DumpLines(before)), u);
      ReadConcat(scan, Start(scan), DumpLines(before), UnitLines(u));
    }
  }

  /** Reading what is kept of the dump is reading the dump. */
  lemma {:induction false} KeptReads(filter: Filter, scan: Scan, dump: seq<Unit>)
    requires scan.patterns == filter.patterns && WellFormed(scan.patterns, dump)
    ensures Read(scan, Start(scan), DumpLines(Kept(filter, dump))) == Read(scan, Start(scan), DumpLines(dump))
  {
    if dump != [] {
      var before, u := dump[..|dump| - 1], dump[|dump| - 1];
      var kept := Kept(filter, before);
      assert u in dump;
      KeptReads(filter, scan, before);
      NothingOpen(scan, before);
      UnitReads(scan, Read(scan, Start(scan), DumpLines(before)), u);
      ReadConcat(scan, Start(scan), DumpLines(before), UnitLines(u));
      ReadConcat(scan, Start(scan), DumpLines(kept), UnitLines(u));
      assert kept + [] == kept && (kept + [u])[..|kept|] == kept;
      hide Read, ReadLine, UnitOk, WellFormed;
    }
  }

  // ---- The same, on the bytes ----

  predicate IsLine(line: Line) {
    line != [] && NEWLINE !in line[..|line| - 1]
  }

  predicate AllEnded(lines: seq<Line>) {
    forall i :: 0 <= i < |lines| ==> IsEnded(lines[i])
  }

  /** Lines as a file holds them: each ended by its newline, but perhaps the last. */
  predicate IsFile(lines: seq<Line>) {
    lines == [] || (AllEnded(lines[..|lines| - 1]) && IsLine(lines[|lines| - 1]))
  }

  lemma FileStart(a: seq<Line>, b: seq<Line>)
    requires IsFile(a + b) && b != []
    ensures AllEnded(a) && IsFile(b)
  {
    var front := (a + b)[..|a + b| - 1];
    assert forall i :: 0 <= i < |a| ==> a[i] == front[i];
    assert forall i :: 0 <= i < |b| - 1 ==> b[i] == front[|a| + i];
  }

  lemma EndedBoth(a: seq<Line>, b: seq<Line>)
    ensures AllEnded(a + b) <==> AllEnded(a) && AllEnded(b)
  {
    assert forall i :: 0 <= i < |a| ==> a[i] == (a + b)[i];
    assert forall i :: 0 <= i < |b| ==> b[i] == (a + b)[|a| + i];
  }

  lemma FileConcat(a: seq<Line>, b: seq<Line>)
    requires AllEnded(a) && IsFile(b)
    ensures IsFile(a + b)
  {
    if b == [] {
      assert a + b == a;
    } else {
      assert (a + b)[..|a + b| - 1] == a + b[..|b| - 1];
    }
  }

  lemma {:induction false} LineAppended(data: Bytes, line: Line)
    requires Pending(data) == [] && IsLine(line)
    ensures LinesOf(data + line) == Ended(data) + [line]
    ensures IsEnded(line) ==> Pending(data + line) == [] && Ended(data + line) == Ended(data) + [line]
  {
    var front, last := line[..|line| - 1], line[|line| - 1];
    LinesInPieces(data, line);
    NothingEnded(front);
    assert [] + line == line == front + [last];
    assert line[..|line| - 1] == front;
  }

  lemma {:induction false} FileLines(lines: seq<Line>)
    requires IsFile(lines)
    ensures LinesOf(Joined(lines)) == lines
    ensures AllEnded(lines) ==> Ended(Joined(lines)) == lines && Pending(Joined(lines)) == []
  {
    if lines != [] {
      FileLines(lines[..|lines| - 1]);
      assert lines == lines[..|lines| - 1] + [lines[|lines| - 1]];
      LineAppended(Joined(lines[..|lines| - 1]), lines[|lines| - 1]);
    }
  }

  lemma {:induction false} KeptEnded(filter: Filter, dump: seq<Unit>)
    requires AllEnded(DumpLines(dump))
    ensures AllEnded(DumpLines(Kept(filter, dump)))
  {
    if dump != [] {
      var before, u := dump[..|dump| - 1], dump[|dump| - 1];
      var kept := Kept(filter, before);
      EndedBoth(DumpLines(before), UnitLines(u));
      EndedBoth(DumpLines(kept), UnitLines(u));
      KeptEnded(filter, before);
      assert kept + [] == kept && (kept + [u])[..|kept|] == kept;
      hide AllEnded;
    }
  }

  lemma KeptIsFile(filter: Filter, dump: seq<Unit>)
    requires IsFile(DumpLines(dump)) && forall u :: u in dump ==> UnitLines(u) != []
    ensures IsFile(DumpLines(Kept(filter, dump)))
  {
    if dump != [] {
      var before, u := dump[..|dump| - 1], dump[|dump| - 1];
      var kept := Kept(filter, before);
      assert u in dump;
      FileStart(DumpLines(before), UnitLines(u));
      KeptEnded(filter, before);
      FileConcat(DumpLines(kept), []);
      FileConcat(DumpLines(kept), UnitLines(u));
      assert kept + [] == kept && (kept + [u])[..|kept|] == kept && DumpLines(kept) + [] == DumpLines(kept);
    }
  }

  /** Scanning the filtered dump finds what scanning the dump finds: the same schemas, tables and columns. */
  lemma FilterKeepsStructure(filter: Filter, scan: Scan, dump: seq<Unit>)
    requires scan.patterns == filter.patterns && WellFormed(scan.patterns, dump) && IsFile(DumpLines(dump))
    ensures var sink := FilteredAll(filter, Progress([], {}, false, filter.main), DumpLines(dump)).sink;
            var found, filtered := Scanned(scan, Joined(DumpLines(dump))), Scanned(scan, Joined(sink));
            filtered.schemas == found.schemas && filtered.tables == found.tables
  {
    FilterDropsStatements(filter, dump);
    KeptReads(filter, scan, dump);
    KeptIsFile(filter, dump);
    FileLines(DumpLines(dump));
    FileLines(DumpLines(Kept(filter, dump)));
    hide *;
  }
}
