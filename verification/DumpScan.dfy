/** A dump read as it streams by: its lines, and what they say about schemas, tables and columns. */
module DumpScan {
  import opened Sequences
  import opened Wrappers

  newtype Byte = b: int | 0 <= b < 256

  type Bytes = seq<Byte>
  type Line = Bytes
  type Name = string

  const NEWLINE: Byte := 10
  const SEMICOLON: Byte := 59

  // ---- Lines ----

  /** The lines ended in the data, each with its newline. */
  function Ended(data: Bytes): seq<Line> {
    if data == [] then []
    else
      var before, last := data[..|data| - 1], data[|data| - 1];
      if last == NEWLINE then Ended(before) + [Pending(before) + [last]] else Ended(before)
  }

  /** What follows the last newline. */
  function Pending(data: Bytes): Bytes {
    if data == [] then []
    else
      var before, last := data[..|data| - 1], data[|data| - 1];
      if last == NEWLINE then [] else Pending(before) + [last]
  }

  function Joined(lines: seq<Line>): Bytes {
    if lines == [] then [] else Joined(lines[..|lines| - 1]) + lines[|lines| - 1]
  }

  predicate IsEnded(line: Line) {
    line != [] && line[|line| - 1] == NEWLINE && NEWLINE !in line[..|line| - 1]
  }

  lemma EndedMore(before: Bytes, last: Byte)
    ensures Pending(before + [last]) == if last == NEWLINE then [] else Pending(before) + [last]
    ensures Ended(before + [last]) == if last == NEWLINE then Ended(before) + [Pending(before) + [last]] else Ended(before)
  {
    assert (before + [last])[..|before|] == before;
  }

  lemma JoinedMore(lines: seq<Line>, line: Line)
    ensures Joined(lines + [line]) == Joined(lines) + line
  {
    assert (lines + [line])[..|lines|] == lines;
  }

  lemma IsEndedWith(line: Bytes)
    requires NEWLINE !in line
    ensures IsEnded(line + [NEWLINE])
  {
    assert (line + [NEWLINE])[..|line|] == line;
  }

  /** The ended lines and the pending rest are the data, cut after every newline. */
  lemma {:induction false} LinesAreTheData(data: Bytes)
    ensures Joined(Ended(data)) + Pending(data) == data && NEWLINE !in Pending(data)
    ensures forall line :: line in Ended(data) ==> IsEnded(line)
  {
    if data == [] {
    } else {
      var before, last := data[..|data| - 1], data[|data| - 1];
      hide Joined, Ended, Pending;
      assert data == before + [last];
      LinesAreTheData(before);
      EndedMore(before, last);
      JoinedMore(Ended(before), Pending(before) + [last]);
      Associative(Joined(Ended(before)), Pending(before), [last]);
      IsEndedWith(Pending(before));
    }
  }

  lemma {:induction false} NothingEnded(data: Bytes)
    requires NEWLINE !in data
    ensures Ended(data) == [] && Pending(data) == data
  {
    if data != [] {
      NothingEnded(data[..|data| - 1]);
    }
  }

  lemma LastByte(a: Bytes, b: Bytes)
    requires b != []
    ensures a + b == (a + b[..|b| - 1]) + [b[|b| - 1]]
  {
  }

  lemma NoMoreBytes(a: Bytes)
    ensures Ended(a + []) == Ended(a) + Ended(Pending(a) + []) && Pending(a + []) == Pending(Pending(a) + [])
  {
    LinesAreTheData(a);
    NothingEnded(Pending(a));
    assert a + [] == a && Pending(a) + [] == Pending(a);
  }

  /** Data in two pieces: the second continues what the first left pending. */
  lemma {:induction false} LinesInPieces(a: Bytes, b: Bytes)
    ensures Ended(a + b) == Ended(a) + Ended(Pending(a) + b)
    ensures Pending(a + b) == Pending(Pending(a) + b)
  {
    hide *;
    if b == [] {
      NoMoreBytes(a);
    } else {
      var before, last := b[..|b| - 1], b[|b| - 1];
      LinesInPieces(a, before);
      LastByte(a, b);
      LastByte(Pending(a), b);
      EndedMore(a + before, last);
      EndedMore(Pending(a) + before, last);
      Associative(Ended(a), Ended(Pending(a) + before), [Pending(a + before) + [last]]);
    }
  }

  function IsSpace(b: Byte): bool {
    b == 32 || 9 <= b <= 13
  }

  /** Whether a line ends in a semicolon, white space aside. */
  predicate Ends(line: Line) {
    line != [] && (line[|line| - 1] == SEMICOLON || (IsSpace(line[|line| - 1]) && Ends(line[..|line| - 1])))
  }

  /** The last character that is not white space is the semicolon. */
  lemma {:induction false} EndsIs(line: Line)
    ensures Ends(line) <==>
            exists i :: 0 <= i < |line| && line[i] == SEMICOLON && forall j :: i < j < |line| ==> line[j] == 32 || 9 <= line[j] <= 13
  {
    if line != [] {
      var n := |line| - 1;
      EndsIs(line[..n]);
      assert forall i :: 0 <= i < n ==> line[..n][i] == line[i];
    }
  }

  // ---- Patterns ----

  datatype Creation = Creation(table: Name, columns: set<Bytes>)

  /** What the patterns find in a line: the schema a USE switches to, the table (and the columns on the same line) of a
      CREATE TABLE, the column a line of a definition starts with, the table an INSERT or REPLACE adds to. */
  datatype Patterns = Patterns(
    used: Line -> Option<Name>,
    created: Line -> Option<Creation>,
    column: Line -> Option<Bytes>,
    inserted: Line -> Option<Name>)

  function Qualified(schema: Option<Name>, main: Option<Name>, table: Name): Name {
    if schema != main && schema.Some? then schema.value + "." + table else table
  }

  // ---- What a reading finds ----

  datatype Reading = Reading(schemas: set<Name>, tables: map<Name, set<Bytes>>, current: Option<Name>, schema: Option<Name>)

  datatype Scan = Scan(main: Option<Name>, qualified: bool, patterns: Patterns)

  function Start(scan: Scan): Reading {
    Reading({}, map[], None, scan.main)
  }

  function Switched(scan: Scan, r: Reading, line: Line): Reading {
    match scan.patterns.used(line)
    case None => r
    case Some(used) => r.(schemas := r.schemas + {used}, schema := if scan.main.Some? then Some(used) else r.schema)
  }

  function Defined(scan: Scan, r: Reading, line: Line): Reading {
    match scan.patterns.created(line)
    case Some(creation) =>
      var table := Qualified(r.schema, scan.main, creation.table);
      r.(tables := r.tables[table := creation.columns], current := if Ends(line) then None else Some(table))
    case None =>
      if r.current.None? then r
      else
        var table, column := r.current.value, scan.patterns.column(line);
        r.(tables := if column.Some? && table in r.tables then r.tables[table := r.tables[table] + {column.value}] else r.tables,
           current := if Ends(line) then None else r.current)
  }

  function ReadLine(scan: Scan, r: Reading, line: Line): Reading {
    var r := Switched(scan, r, line);
    if r.schema != scan.main && !scan.qualified then r else Defined(scan, r, line)
  }

  function Read(scan: Scan, r: Reading, lines: seq<Line>): Reading {
    if lines == [] then r else ReadLine(scan, Read(scan, r, lines[..|lines| - 1]), lines[|lines| - 1])
  }

  lemma {:induction false} ReadConcat(scan: Scan, r: Reading, a: seq<Line>, b: seq<Line>)
    ensures Read(scan, r, a + b) == Read(scan, Read(scan, r, a), b)
  {
    if b == [] {
      assert a + b == a;
    } else {
      assert (a + b)[..|a + b| - 1] == a + b[..|b| - 1];
      ReadConcat(scan, r, a, b[..|b| - 1]);
    }
  }

  lemma ReadNext(scan: Scan, r: Reading, lines: seq<Line>, i: nat)
    requires i < |lines|
    ensures Read(scan, r, lines[..i + 1]) == ReadLine(scan, Read(scan, r, lines[..i]), lines[i])
  {
    assert lines[..i + 1][..i] == lines[..i];
  }

  lemma ReadNone(scan: Scan, r: Reading, lines: seq<Line>)
    ensures Read(scan, r, lines[..0]) == r && lines[..|lines|] == lines
  {
  }

  /** All the lines of a dump, an unended last one included. */
  function LinesOf(data: Bytes): seq<Line> {
    Ended(data) + if Pending(data) == [] then [] else [Pending(data)]
  }

  lemma LastLine(scan: Scan, data: Bytes)
    ensures var r := Read(scan, Start(scan), Ended(data));
            Read(scan, Start(scan), LinesOf(data)) == if Pending(data) == [] then r else ReadLine(scan, r, Pending(data))
  {
    var line := Pending(data);
    assert LinesOf(data) == Ended(data) + if line == [] then [] else [line];
    hide Read, Ended, Pending, Start, ReadLine, LinesOf;
    var r := Read(scan, Start(scan), Ended(data));
    if line == [] {
      assert Ended(data) + [] == Ended(data);
    } else {
      ReadConcat(scan, Start(scan), Ended(data), [line]);
      ReadNext(scan, r, [line], 0);
      ReadNone(scan, r, [line]);
    }
  }

  datatype Found = Found(size: nat, schemas: set<Name>, tables: map<Name, set<Bytes>>)

  function Scanned(scan: Scan, data: Bytes): Found {
    var r := Read(scan, Start(scan), LinesOf(data));
    Found(|data|, r.schemas, r.tables)
  }

  class DumpScanner {
    const scan: Scan
    var size: nat
    var pending: Bytes
    var schemas: set<Name>
    var tables: map<Name, set<Bytes>>
    var current: Option<Name>
    var schema: Option<Name>
    ghost var fed: Bytes

    constructor (scan: Scan)
      ensures this.scan == scan && Valid() && fed == []
    {
      this.scan := scan;
      size, pending, schemas := 0, [], {};
      tables, current, schema := map[], None, scan.main;
      fed := [];
    }

    function State(): Reading
      reads this
    {
      Reading(schemas, tables, current, schema)
    }

    /** What has been read so far is the lines ended so far. */
    ghost predicate Valid()
      reads this
    {
      size == |fed| && pending == Pending(fed) && State() == Read(scan, Start(scan), Ended(fed)) && Tracked()
    }

    /** A table still being defined is among the tables. */
    predicate Tracked()
      reads this
    {
      current.Some? ==> current.value in tables
    }

    method ReadOne(line: Line)
      requires Tracked()
      modifies this`schemas, this`tables, this`current, this`schema
      ensures Tracked() && State() == ReadLine(scan, old(State()), line)
    {
      var used := scan.patterns.used(line);
      if used.Some? {
        schemas := schemas + {used.value};
        if scan.main.Some? {
          schema := used;
        }
      }
      if schema != scan.main && !scan.qualified {
        return;
      }
      var creation := scan.patterns.created(line);
      if creation.Some? {
        var table := Qualified(schema, scan.main, creation.value.table);
        tables := tables[table := creation.value.columns];
        current := if Ends(line) then None else Some(table);
      } else if current.Some? {
        var column := scan.patterns.column(line);
        if column.Some? {
          tables := tables[current.value := tables[current.value] + {column.value}];
        }
        if Ends(line) {
          current := None;
        }
      }
    }

    method ReadAll(lines: seq<Line>)
      requires Tracked()
      modifies this`schemas, this`tables, this`current, this`schema
      ensures Tracked() && State() == Read(scan, old(State()), lines)
    {
      hide Read, ReadLine;
      ReadNone(scan, State(), lines);
      for i := 0 to |lines|
        invariant Tracked() && State() == Read(scan, old(State()), lines[..i])
      {
        ReadNext(scan, old(State()), lines, i);
        ReadOne(lines[i]);
      }
    }

    method Feed(data: Bytes)
      requires Valid()
      modifies this
      ensures Valid() && fed == old(fed) + data
    {
      hide Read, Ended, Pending, Start;
      LinesInPieces(fed, data);
      size := size + |data|;
      var lines := Ended(pending + data);
      pending := Pending(pending + data);
      ReadConcat(scan, Start(scan), Ended(fed), lines);
      ReadAll(lines);
      fed := fed + data;
    }

    /** However the dump was cut into pieces, the result is that of the whole. */
    method Result() returns (found: Found)
      requires Valid()
      modifies this`pending, this`schemas, this`tables, this`current, this`schema
      ensures found == Scanned(scan, fed)
    {
      hide Read, Ended, Pending, Start, ReadLine, LinesOf;
      LastLine(scan, fed);
      if pending != [] {
        ReadOne(pending);
        pending := [];
      }
      return Found(size, schemas, tables);
    }
  }
}
