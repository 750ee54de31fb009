/** The database side of a drafted migration: a schema, the guarded statements and what each does to it. */
module SchemaDdl {
  import opened NameSeqs
  import opened Sequences
  import opened Wrappers

  /** A line of a definition, or the table options, as SQL text. */
  datatype Sql = Sql(text: string)

  /** A table as SHOW CREATE TABLE gives it: its columns in order, its keys, the other lines and the options. */
  datatype Definition = Definition(names: seq<Name>, columns: map<Name, Sql>, keys: map<Name, Sql>,
                                   other: seq<Sql>, options: Sql)
  {
    /** Every column is listed once, and there is at least one. */
    predicate Valid() {
      names != [] && Distinct(names) && Elements(names) == columns.Keys
    }
  }

  type Table = d: Definition | d.Valid() witness Definition([Name("id")], map[Name("id") := Sql("")], map[], [], Sql(""))

  type Schema = map<Name, Table>

  datatype Place = First | After(column: Name)

  /** One guarded ALTER TABLE, or a TODO comment, which runs nothing. */
  datatype Alter =
    | AddColumn(name: Name, definition: Sql, place: Place)
    | ModifyColumn(name: Name, definition: Sql)
    | DropColumn(name: Name)
    | AddKey(name: Name, definition: Sql)
    | DropKey(name: Name)
    | Todo

  datatype Block =
    | CreateTable(table: Name, definition: Table)
    | Change(table: Name, alter: Alter)
    | DropTable(table: Name)

  function Add(t: Table, name: Name, definition: Sql, place: Place): (r: Table)
    requires name !in t.columns && (place.After? ==> place.column in t.columns)
  {
    if place.First? then
      ConsElements(name, t.names);
      t.(names := [name] + t.names, columns := t.columns[name := definition])
    else
      assert place.column in Elements(t.names);
      InsertElements(t.names, place.column, name);
      t.(names := InsertAfter(t.names, place.column, name), columns := t.columns[name := definition])
  }

  function Modify(t: Table, name: Name, definition: Sql): (r: Table)
    requires name in t.columns
  {
    assert t.columns[name := definition].Keys == t.columns.Keys;
    t.(columns := t.columns[name := definition])
  }

  function Drop(t: Table, name: Name): (r: Table)
    requires name in t.columns && |t.names| > 1
  {
    WithoutElements(t.names, name);
    DropLeaves(t.names, name);
    t.(names := Without(t.names, name), columns := t.columns - {name})
  }

  lemma DropLeaves(s: seq<Name>, name: Name)
    requires Distinct(s) && |s| > 1
    ensures Without(s, name) != []
  {
    assert s[0] != s[1] && s[0] in Elements(s) && s[1] in Elements(s);
    WithoutElements(s, name);
  }

  /** A guarded ALTER on an existing table; None is an error of the database server. */
  function ExecAlter(a: Alter, t: Table): Option<Table> {
    match a
    case AddColumn(name, definition, place) =>
      if name in t.columns then Some(t)
      else if place.After? && place.column !in t.columns then None
      else Some(Add(t, name, definition, place))
    case ModifyColumn(name, definition) =>
      if name in t.columns then Some(Modify(t, name, definition)) else Some(t)
    case DropColumn(name) =>
      if name !in t.columns then Some(t)
      else if |t.names| == 1 then None  // a table keeps at least one column
      else Some(Drop(t, name))
    case AddKey(name, definition) =>
      if name in t.keys then Some(t) else Some(t.(keys := t.keys[name := definition]))
    case DropKey(name) => Some(t.(keys := t.keys - {name}))
    case Todo => Some(t)
  }

  /** One statement. On a missing table an information_schema count is 0: an ADD runs and fails, the rest is skipped. */
  function Exec(b: Block, s: Schema): Option<Schema> {
    match b
    case CreateTable(table, definition) => Some(if table in s then s else s[table := definition])
    case DropTable(table) => Some(s - {table})
    case Change(table, a) =>
      if table in s then
        match ExecAlter(a, s[table])
        case None => None
        case Some(t) => Some(s[table := t])
      else if a.AddColumn? || a.AddKey? then None
      else Some(s)
  }

  /** A script stops at its first error. */
  function Run(blocks: seq<Block>, s: Schema): Option<Schema> {
    if blocks == [] then Some(s)
    else match Exec(blocks[0], s)
      case None => None
      case Some(next) => Run(blocks[1..], next)
  }

  function RunAlters(alters: seq<Alter>, t: Table): Option<Table> {
    if alters == [] then Some(t)
    else match ExecAlter(alters[0], t)
      case None => None
      case Some(next) => RunAlters(alters[1..], next)
  }

  function Changes(table: Name, alters: seq<Alter>): (blocks: seq<Block>)
    ensures |blocks| == |alters|
    ensures forall i :: 0 <= i < |blocks| ==> blocks[i] == Change(table, alters[i])
  {
    seq(|alters|, i requires 0 <= i < |alters| => Change(table, alters[i]))
  }

  lemma {:induction false} RunConcat(a: seq<Block>, b: seq<Block>, s: Schema)
    ensures Run(a + b, s) == match Run(a, s) case None => None case Some(m) => Run(b, m)
  {
    if a == [] {
      assert a + b == b;
    } else {
      assert (a + b)[1..] == a[1..] + b;
      match Exec(a[0], s)
      case None =>
      case Some(next) => RunConcat(a[1..], b, next);
    }
  }

  lemma {:induction false} RunAltersConcat(a: seq<Alter>, b: seq<Alter>, t: Table)
    ensures RunAlters(a + b, t) == match RunAlters(a, t) case None => None case Some(m) => RunAlters(b, m)
  {
    if a == [] {
      assert a + b == b;
    } else {
      assert (a + b)[1..] == a[1..] + b;
      match ExecAlter(a[0], t)
      case None =>
      case Some(next) => RunAltersConcat(a[1..], b, next);
    }
  }

  lemma RunThen(a: seq<Block>, b: seq<Block>, s: Schema, m: Schema)
    requires Run(a, s) == Some(m)
    ensures Run(a + b, s) == Run(b, m)
  {
    RunConcat(a, b, s);
  }

  lemma RunNone(blocks: seq<Block>, s: Schema)
    ensures Run(blocks[..0], s) == Some(s)
  {
  }

  lemma RunNext(blocks: seq<Block>, n: nat, s: Schema, m: Schema)
    requires n < |blocks| && Run(blocks[..n], s) == Some(m)
    ensures Run(blocks[..n + 1], s) == Exec(blocks[n], m)
  {
    assert blocks[..n + 1] == blocks[..n] + [blocks[n]];
    RunThen(blocks[..n], [blocks[n]], s, m);
    assert [blocks[n]][1..] == [];
  }

  lemma AltersThen(a: seq<Alter>, b: seq<Alter>, t: Table, m: Table)
    requires RunAlters(a, t) == Some(m)
    ensures RunAlters(a + b, t) == RunAlters(b, m)
  {
    RunAltersConcat(a, b, t);
  }

  /** A table's blocks change that table only, as its alters do. */
  lemma {:induction false} RunChanges(table: Name, alters: seq<Alter>, s: Schema)
    requires table in s
    ensures Run(Changes(table, alters), s) ==
            match RunAlters(alters, s[table]) case None => None case Some(t) => Some(s[table := t])
  {
    var blocks := Changes(table, alters);
    if alters == [] {
      assert s[table := s[table]] == s;
    } else {
      assert blocks[1..] == Changes(table, alters[1..]);
      match ExecAlter(alters[0], s[table])
      case None =>
      case Some(t) =>
        RunChanges(table, alters[1..], s[table := t]);
        match RunAlters(alters[1..], t)
        case None =>
        case Some(u) => assert s[table := t][table := u] == s[table := u];
    }
  }
}
