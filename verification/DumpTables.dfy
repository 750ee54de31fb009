/** What a scan finds in a dump, statement by statement: the schemas switched to, the tables defined and their columns. */
module DumpTables {
  import opened DumpFilter
  import opened DumpScan
  import opened Wrappers

  /** A well-formed dump in which only the first line of a definition creates a table. */
  predicate TablesOk(patterns: Patterns, dump: seq<Unit>) {
    && WellFormed(patterns, dump)
    && forall u :: u in dump && u.Definition? ==> forall k :: 1 <= k < |u.lines| ==> patterns.created(u.lines[k]).None?
  }

  // ---- A dump read as statements ----

  /** The schema the last of the first n statements that switches it switches to. */
  function LastUse(patterns: Patterns, dump: seq<Unit>, n: nat): Option<Name>
    requires n <= |dump|
  {
    if n == 0 then None
    else if dump[n - 1].Other? && patterns.used(dump[n - 1].line).Some? then patterns.used(dump[n - 1].line)
    else LastUse(patterns, dump, n - 1)
  }

  /** The schema a statement is in: only told apart when the main one is known. */
  function SchemaAt(main: Option<Name>, patterns: Patterns, dump: seq<Unit>, n: nat): Option<Name>
    requires n <= |dump|
  {
    if main.Some? && LastUse(patterns, dump, n).Some? then LastUse(patterns, dump, n) else main
  }

  /** A table's name: as it is in the main schema, behind its schema's name and a dot in another one. */
  function TableName(main: Option<Name>, schema: Option<Name>, table: Name): Name {
    if schema.None? || main == schema then table else schema.value + ['.'] + table
  }

  predicate Switches(patterns: Patterns, u: Unit, name: Name) {
    u.Other? && patterns.used(u.line) == Some(name)
  }

  /** The statement defines the table, in a schema that is read. */
  predicate Defines(scan: Scan, dump: seq<Unit>, i: nat, table: Name)
    requires i < |dump|
  {
    var u, schema := dump[i], SchemaAt(scan.main, scan.patterns, dump, i);
    && u.Definition? && u.lines != [] && scan.patterns.created(u.lines[0]).Some?
    && (scan.qualified || schema == scan.main)
    && table == TableName(scan.main, schema, scan.patterns.created(u.lines[0]).value.table)
  }

  /** It is the last of the first n statements that does. */
  ghost predicate DefinesLast(scan: Scan, dump: seq<Unit>, n: nat, i: nat, table: Name)
    requires n <= |dump|
  {
    i < n && Defines(scan, dump, i, table) && forall j :: i < j < n ==> !Defines(scan, dump, j, table)
  }

  /** A column of a definition: one on its first line, or the one another of its lines starts with. */
  ghost predicate HasColumn(patterns: Patterns, u: Unit, c: Bytes)
    requires u.Definition? && u.lines != [] && patterns.created(u.lines[0]).Some?
  {
    c in patterns.created(u.lines[0]).value.columns || exists k :: 1 <= k < |u.lines| && patterns.column(u.lines[k]) == Some(c)
  }

  ghost predicate HasColumns(patterns: Patterns, u: Unit, columns: set<Bytes>)
    requires u.Definition? && u.lines != [] && patterns.created(u.lines[0]).Some?
  {
    forall c :: c in columns <==> HasColumn(patterns, u, c)
  }

  ghost predicate SchemasAre(patterns: Patterns, dump: seq<Unit>, n: nat, schemas: set<Name>)
    requires n <= |dump|
  {
    forall name :: name in schemas <==> exists i :: 0 <= i < n && Switches(patterns, dump[i], name)
  }

  /** The tables are those defined, each with the columns of its last definition. */
  ghost predicate TablesAre(scan: Scan, dump: seq<Unit>, n: nat, tables: map<Name, set<Bytes>>)
    requires n <= |dump|
  {
    && (forall table :: table in tables <==> exists i :: 0 <= i < n && Defines(scan, dump, i, table))
    && (forall i, table :: 0 <= i < n && DefinesLast(scan, dump, n, i, table) ==>
          table in tables && HasColumns(scan.patterns, dump[i], tables[table]))
  }

  ghost predicate ReadTo(scan: Scan, dump: seq<Unit>, n: nat, r: Reading)
    requires n <= |dump|
  {
    && r.current.None? && r.schema == SchemaAt(scan.main, scan.patterns, dump, n)
    && SchemasAre(scan.patterns, dump, n, r.schemas) && TablesAre(scan, dump, n, r.tables)
  }

  // ---- One definition ----

  /** The columns the lines start with. */
  function Columns(patterns: Patterns, lines: seq<Line>): set<Bytes> {
    set k | 0 <= k < |lines| && patterns.column(lines[k]).Some? :: patterns.column(lines[k]).value
  }

  lemma ColumnsMore(patterns: Patterns, lines: seq<Line>, line: Line)
    ensures Columns(patterns, lines + [line]) ==
            Columns(patterns, lines) + match patterns.column(line) case None => {} case Some(c) => {c}
  {
    var all := lines + [line];
    assert forall k :: 0 <= k < |lines| ==> all[k] == lines[k];
    assert all[|lines|] == line;
  }

  predicate IsVisible(scan: Scan, schema: Option<Name>) {
    schema == scan.main || scan.qualified
  }

  /** The lines of one definition: the first alone creates its table, the last alone ends it. */
  predicate IsDefinition(patterns: Patterns, lines: seq<Line>) {
    && IsStatement(lines) && patterns.created(lines[0]).Some?
    && (forall k :: 0 <= k < |lines| ==> patterns.used(lines[k]).None?)
    && (forall k :: 1 <= k < |lines| ==> patterns.created(lines[k]).None?)
  }

  /** A table while it is being defined. */
  function Defining(r: Reading, table: Name, columns: set<Bytes>, done: bool): Reading {
    r.(tables := r.tables[table := columns], current := if done then None else Some(table))
  }

  lemma DefinitionFirst(scan: Scan, r: Reading, line: Line)
    requires scan.patterns.used(line).None? && scan.patterns.created(line).Some? && IsVisible(scan, r.schema)
    ensures var creation := scan.patterns.created(line).value;
            var table := TableName(scan.main, r.schema, creation.table);
            ReadLine(scan, r, line) == Defining(r, table, creation.columns + {}, Ends(line))
  {
    hide Ends;
    var columns := scan.patterns.created(line).value.columns;
    assert columns + {} == columns;
  }

  lemma DefinitionMore(scan: Scan, r: Reading, table: Name, columns: set<Bytes>, line: Line)
    requires scan.patterns.used(line).None? && scan.patterns.created(line).None? && IsVisible(scan, r.schema)
    ensures ReadLine(scan, Defining(r, table, columns, false), line) ==
            Defining(r, table, columns + match scan.patterns.column(line) case None => {} case Some(c) => {c}, Ends(line))
  {
    hide Ends;
    assert columns + {} == columns;
    var more := columns + match scan.patterns.column(line) case None => {} case Some(c) => {c};
    assert r.tables[table := columns][table := more] == r.tables[table := more];
  }

  /** The columns of a definition's first n lines. */
  function ColumnsTo(patterns: Patterns, lines: seq<Line>, n: nat): set<Bytes>
    requires 1 <= n <= |lines| && patterns.created(lines[0]).Some?
  {
    patterns.created(lines[0]).value.columns + Columns(patterns, lines[1..n])
  }

  lemma ColumnsNext(patterns: Patterns, lines: seq<Line>, n: nat)
    requires 1 <= n <= |lines| && patterns.created(lines[0]).Some?
    ensures ColumnsTo(patterns, lines, n) ==
            if n == 1 then patterns.created(lines[0]).value.columns + {}
            else ColumnsTo(patterns, lines, n - 1) + match patterns.column(lines[n - 1]) case None => {} case Some(c) => {c}
  {
    if n > 1 {
      assert lines[1..n] == lines[1..n - 1] + [lines[n - 1]];
      ColumnsMore(patterns, lines[1..n - 1], lines[n - 1]);
      hide Columns;
    }
  }

  lemma {:induction false} DefinitionStart(scan: Scan, r: Reading, lines: seq<Line>, n: nat)
    requires r.current.None? && IsVisible(scan, r.schema) && IsDefinition(scan.patterns, lines) && 1 <= n <= |lines|
    ensures Read(scan, r, lines[..n]) ==
            Defining(r, TableName(scan.main, r.schema, scan.patterns.created(lines[0]).value.table),
                     ColumnsTo(scan.patterns, lines, n), n == |lines|)
    decreases n
  {
    var creation, line := scan.patterns.created(lines[0]).value, lines[n - 1];
    var table := TableName(scan.main, r.schema, creation.table);
    assert Ends(line) <==> n == |lines|;
    assert scan.patterns.used(line).None? && (n > 1 ==> scan.patterns.created(line).None?);
    hide *;
    ReadNext(scan, r, lines, n - 1);
    ColumnsNext(scan.patterns, lines, n);
    if n == 1 {
      ReadNone(scan, r, lines);
      DefinitionFirst(scan, r, line);
    } else {
      DefinitionStart(scan, r, lines, n - 1);
      DefinitionMore(scan, r, table, ColumnsTo(scan.patterns, lines, n - 1), line);
    }
  }

  /** A definition gives its table the columns of its first line and those its other lines start with. */
  lemma DefinitionRead(scan: Scan, r: Reading, lines: seq<Line>)
    requires r.current.None? && IsVisible(scan, r.schema) && IsDefinition(scan.patterns, lines)
    ensures var creation := scan.patterns.created(lines[0]).value;
            Read(scan, r, lines) ==
            r.(tables := r.tables[TableName(scan.main, r.schema, creation.table) :=
                                  creation.columns + Columns(scan.patterns, lines[1..])])
  {
    DefinitionStart(scan, r, lines, |lines|);
    assert lines[..|lines|] == lines && lines[1..|lines|] == lines[1..];
  }

  lemma ColumnsOfDefinition(patterns: Patterns, u: Unit)
    requires u.Definition? && u.lines != [] && patterns.created(u.lines[0]).Some?
    ensures HasColumns(patterns, u, patterns.created(u.lines[0]).value.columns + Columns(patterns, u.lines[1..]))
  {
    var rest := u.lines[1..];
    forall c
      ensures c in Columns(patterns, rest) <==> exists k :: 1 <= k < |u.lines| && patterns.column(u.lines[k]) == Some(c)
    {
      if c in Columns(patterns, rest) {
        var k :| 0 <= k < |rest| && patterns.column(rest[k]) == Some(c);
        assert u.lines[k + 1] == rest[k];
      }
      if k :| 1 <= k < |u.lines| && patterns.column(u.lines[k]) == Some(c) {
        assert rest[k - 1] == u.lines[k];
      }
    }
  }

  // ---- One statement after another ----

  lemma SchemaNext(scan: Scan, dump: seq<Unit>, n: nat)
    requires n < |dump|
    ensures SchemaAt(scan.main, scan.patterns, dump, n + 1) ==
            if dump[n].Other? && scan.main.Some? && scan.patterns.used(dump[n].line).Some? then scan.patterns.used(dump[n].line)
            else SchemaAt(scan.main, scan.patterns, dump, n)
  {
  }

  lemma SchemasNext(patterns: Patterns, dump: seq<Unit>, n: nat, schemas: set<Name>)
    requires n < |dump| && SchemasAre(patterns, dump, n, schemas)
    ensures SchemasAre(patterns, dump, n + 1,
                       if dump[n].Other? && patterns.used(dump[n].line).Some? then schemas + {patterns.used(dump[n].line).value} else schemas)
  {
  }

  /** A statement that defines no table that is read changes no table. */
  lemma TablesStay(scan: Scan, dump: seq<Unit>, n: nat, tables: map<Name, set<Bytes>>)
    requires n < |dump| && TablesAre(scan, dump, n, tables) && forall table :: !Defines(scan, dump, n, table)
    ensures TablesAre(scan, dump, n + 1, tables)
  {
    hide Defines, HasColumns;
    forall i, table | 0 <= i < n + 1 && DefinesLast(scan, dump, n + 1, i, table)
      ensures DefinesLast(scan, dump, n, i, table)
    {
      assert i != n;
    }
  }

  lemma DefinesOne(scan: Scan, dump: seq<Unit>, n: nat, table: Name)
    requires n < |dump| && Defines(scan, dump, n, table)
    ensures forall other :: Defines(scan, dump, n, other) ==> other == table
  {
  }

  lemma LastOrBefore(scan: Scan, dump: seq<Unit>, n: nat, i: nat, table: Name)
    requires n < |dump| && i <= n && DefinesLast(scan, dump, n + 1, i, table)
    ensures i == n || (DefinesLast(scan, dump, n, i, table) && !Defines(scan, dump, n, table))
  {
    hide Defines;
  }

  lemma TablesNext(scan: Scan, dump: seq<Unit>, n: nat, tables: map<Name, set<Bytes>>, table: Name, columns: set<Bytes>)
    requires n < |dump| && TablesAre(scan, dump, n, tables) && Defines(scan, dump, n, table)
    requires HasColumns(scan.patterns, dump[n], columns)
    ensures TablesAre(scan, dump, n + 1, tables[table := columns])
  {
    DefinesOne(scan, dump, n, table);
    hide Defines, HasColumns, DefinesLast;
    var m := n + 1;
    forall i, other | 0 <= i < m && DefinesLast(scan, dump, m, i, other)
      ensures other in tables[table := columns] && HasColumns(scan.patterns, dump[i], tables[table := columns][other])
    {
      LastOrBefore(scan, dump, n, i, other);
      LastDefines(scan, dump, m, i, other);
    }
  }

  lemma LastDefines(scan: Scan, dump: seq<Unit>, n: nat, i: nat, table: Name)
    requires n <= |dump| && DefinesLast(scan, dump, n, i, table)
    ensures i < n && Defines(scan, dump, i, table)
  {
  }

  lemma OtherRead(scan: Scan, r: Reading, line: Line)
    requires r.current.None? && scan.patterns.created(line).None?
    ensures Read(scan, r, [line]) == Switched(scan, r, line)
  {
    ReadNext(scan, r, [line], 0);
    ReadNone(scan, r, [line]);
    assert [line][..1] == [line];
  }

  lemma HiddenRead(scan: Scan, r: Reading, lines: seq<Line>)
    requires r.current.None? && !IsVisible(scan, r.schema) && forall k :: 0 <= k < |lines| ==> scan.patterns.used(lines[k]).None?
    ensures Read(scan, r, lines) == r
  {
    DefinitionCloses(scan, r, lines);
  }

  lemma StatementRead(scan: Scan, dump: seq<Unit>, n: nat, r: Reading)
    requires n < |dump| && TablesOk(scan.patterns, dump) && ReadTo(scan, dump, n, r)
    ensures ReadTo(scan, dump, n + 1, Read(scan, r, UnitLines(dump[n])))
  {
    var u := dump[n];
    assert u in dump;
    SchemaNext(scan, dump, n);
    SchemasNext(scan.patterns, dump, n, r.schemas);
    hide Read, SchemasAre, TablesAre, SchemaAt, HasColumns, Columns, TableName;
    match u
    case Data(lines) =>
      DataReadsNothing(scan, r, lines);
      TablesStay(scan, dump, n, r.tables);
    case Other(line) =>
      OtherRead(scan, r, line);
      TablesStay(scan, dump, n, r.tables);
    case Definition(lines) =>
      if IsVisible(scan, r.schema) {
        var creation := scan.patterns.created(lines[0]).value;
        DefinitionRead(scan, r, lines);
        ColumnsOfDefinition(scan.patterns, u);
        TablesNext(scan, dump, n, r.tables, TableName(scan.main, r.schema, creation.table),
                   creation.columns + Columns(scan.patterns, lines[1..]));
      } else {
        HiddenRead(scan, r, lines);
        TablesStay(scan, dump, n, r.tables);
      }
  }

  lemma {:induction false} StatementsRead(scan: Scan, dump: seq<Unit>, n: nat)
    requires n <= |dump| && TablesOk(scan.patterns, dump)
    ensures ReadTo(scan, dump, n, Read(scan, Start(scan), DumpLines(dump[..n])))
  {
    if n == 0 {
      assert dump[..0] == [];
    } else {
      var before, u := dump[..n - 1], dump[n - 1];
      assert dump[..n][..n - 1] == before;
      assert DumpLines(dump[..n]) == DumpLines(before) + UnitLines(u);
      hide *;
      StatementsRead(scan, dump, n - 1);
      StatementRead(scan, dump, n - 1, Read(scan, Start(scan), DumpLines(before)));
      ReadConcat(scan, Start(scan), DumpLines(before), UnitLines(u));
    }
  }

  /** The scan of a well-formed dump finds the schemas it switches to, and the tables it defines in the schemas that are
      read, each with all the columns of its last definition. */
  lemma ScanFinds(scan: Scan, dump: seq<Unit>)
    requires TablesOk(scan.patterns, dump) && IsFile(DumpLines(dump))
    ensures var data := Joined(DumpLines(dump));
            var found := Scanned(scan, data);
            && found.size == |data| && SchemasAre(scan.patterns, dump, |dump|, found.schemas)
            && TablesAre(scan, dump, |dump|, found.tables)
  {
    StatementsRead(scan, dump, |dump|);
    FileLines(DumpLines(dump));
    assert dump[..|dump|] == dump;
    hide Read, SchemasAre, TablesAre, IsFile, TablesOk, LinesOf;
  }

  // ---- What the filter leaves out ----

  /** The statement holds data of the table. */
  predicate HoldsDataOf(filter: Filter, dump: seq<Unit>, i: nat, table: Name)
    requires i < |dump|
  {
    var u := dump[i];
    && u.Data? && u.lines != [] && filter.patterns.inserted(u.lines[0]).Some?
    && table == TableName(filter.main, SchemaAt(filter.main, filter.patterns, dump, i), filter.patterns.inserted(u.lines[0]).value)
  }

  lemma {:induction false} SchemaIs(filter: Filter, dump: seq<Unit>, n: nat)
    requires n <= |dump|
    ensures SchemaAfter(filter, dump[..n]) == SchemaAt(filter.main, filter.patterns, dump, n)
  {
    if n > 0 {
      SchemaIs(filter, dump, n - 1);
      assert dump[..n][..n - 1] == dump[..n - 1];
    }
  }

  /** The statements that hold no data of a table to skip. */
  ghost predicate LeftOut(filter: Filter, dump: seq<Unit>, i: nat)
    requires i < |dump|
  {
    exists table :: HoldsDataOf(filter, dump, i, table) && filter.skip(table)
  }

  lemma DataOfIs(filter: Filter, dump: seq<Unit>, i: nat)
    requires i < |dump|
    ensures var found := DataOf(filter, SchemaAfter(filter, dump[..i]), dump[i]);
            && (found.Some? <==> LeftOut(filter, dump, i))
            && forall table :: found == Some(table) <==> HoldsDataOf(filter, dump, i, table) && filter.skip(table)
  {
    SchemaIs(filter, dump, i);
    hide SchemaAt, SchemaAfter;
  }

  /** The tables skipped are those to skip that have data; everything kept is a statement without their data, in order. */
  lemma {:induction false} FilterLeavesOut(filter: Filter, dump: seq<Unit>, n: nat)
    requires n <= |dump|
    ensures forall table :: table in Skipped(filter, dump[..n]) <==>
                            exists i :: 0 <= i < n && HoldsDataOf(filter, dump, i, table) && filter.skip(table)
    ensures Kept(filter, dump[..n]) == Remaining(filter, dump, n)
  {
    if n > 0 {
      FilterLeavesOut(filter, dump, n - 1);
      assert dump[..n][..n - 1] == dump[..n - 1] && dump[..n][n - 1] == dump[n - 1];
      DataOfIs(filter, dump, n - 1);
      hide HoldsDataOf, DataOf, LeftOut;
    }
  }

  ghost function Remaining(filter: Filter, dump: seq<Unit>, n: nat): seq<Unit>
    requires n <= |dump|
  {
    if n == 0 then [] else Remaining(filter, dump, n - 1) + if LeftOut(filter, dump, n - 1) then [] else [dump[n - 1]]
  }
}
