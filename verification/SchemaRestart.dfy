/** Why a script of guarded statements may stop anywhere and be run again from its start. */
module SchemaRestart {
  import opened Wrappers
  import opened NameSeqs
  import opened SchemaDdl

  datatype Item = Column(name: Name) | Key(name: Name) | Nothing

  function AlteredItem(a: Alter): Item {
    match a
    case AddColumn(n, _, _) => Column(n)
    case ModifyColumn(n, _) => Column(n)
    case DropColumn(n) => Column(n)
    case AddKey(n, _) => Key(n)
    case DropKey(n) => Key(n)
    case Todo => Nothing
  }

  /** Two statements about different tables, or about different columns and keys of one table. */
  predicate Apart(a: Block, b: Block) {
    || a.table != b.table
    || (a.Change? && b.Change? && (a.alter.Todo? || AlteredItem(a.alter) != AlteredItem(b.alter)))
  }

  predicate AllApart(blocks: seq<Block>) {
    forall i, j :: 0 <= i < j < |blocks| ==> Apart(blocks[i], blocks[j])
  }

  /** What the statement is for already holds. */
  predicate Done(b: Block, s: Schema) {
    match b
    case CreateTable(table, _) => table in s
    case DropTable(table) => table !in s
    case Change(table, a) =>
      match a
      case AddColumn(n, _, _) => table in s && n in s[table].columns
      case ModifyColumn(n, d) => table in s && n in s[table].columns ==> s[table].columns[n] == d
      case DropColumn(n) => table in s ==> n !in s[table].columns
      case AddKey(n, _) => table in s && n in s[table].keys
      case DropKey(n) => table in s ==> n !in s[table].keys
      case Todo => true
  }

  lemma ExecDone(b: Block, s: Schema)
    ensures Exec(b, s).Some? ==> Done(b, Exec(b, s).value)
  {
  }

  lemma DoneSkips(b: Block, s: Schema)
    requires Done(b, s)
    ensures Exec(b, s) == Some(s)
  {
    match b
    case CreateTable(_, _) =>
    case DropTable(table) => assert s - {table} == s;
    case Change(table, a) =>
      if table in s {
        var t := s[table];
        assert s[table := t] == s;
        match a
        case ModifyColumn(n, d) =>
          if n in t.columns {
            assert t.columns[n := d] == t.columns;
          }
        case DropKey(n) => assert t.keys - {n} == t.keys;
        case _ =>
      }
  }

  lemma DoneKept(b: Block, other: Block, s: Schema)
    requires Done(b, s) && Exec(other, s).Some? && Apart(b, other)
    ensures Done(b, Exec(other, s).value)
  {
  }

  lemma {:induction false} DoneKeptByRun(b: Block, blocks: seq<Block>, s: Schema)
    requires Done(b, s) && Run(blocks, s).Some?
    requires forall i :: 0 <= i < |blocks| ==> Apart(b, blocks[i])
    ensures Done(b, Run(blocks, s).value)
  {
    if blocks != [] {
      DoneKept(b, blocks[0], s);
      DoneKeptByRun(b, blocks[1..], Exec(blocks[0], s).value);
    }
  }

  /** After the first k blocks, each of them is done. */
  lemma {:induction false} PrefixDone(blocks: seq<Block>, s: Schema)
    requires AllApart(blocks) && Run(blocks, s).Some?
    ensures forall i :: 0 <= i < |blocks| ==> Done(blocks[i], Run(blocks, s).value)
  {
    if blocks != [] {
      var next := Exec(blocks[0], s).value;
      ExecDone(blocks[0], s);
      DoneKeptByRun(blocks[0], blocks[1..], next);
      PrefixDone(blocks[1..], next);
      forall i | 0 <= i < |blocks|
        ensures Done(blocks[i], Run(blocks, s).value)
      {
        if i > 0 {
          assert blocks[i] == blocks[1..][i - 1];
        }
      }
    }
  }

  lemma {:induction false} RunDone(blocks: seq<Block>, s: Schema)
    requires forall i :: 0 <= i < |blocks| ==> Done(blocks[i], s)
    ensures Run(blocks, s) == Some(s)
  {
    if blocks != [] {
      DoneSkips(blocks[0], s);
      RunDone(blocks[1..], s);
    }
  }

  lemma PrefixRuns(blocks: seq<Block>, k: nat, s: Schema)
    requires k <= |blocks| && Run(blocks, s).Some?
    ensures Run(blocks[..k], s).Some? && Run(blocks[k..], Run(blocks[..k], s).value) == Run(blocks, s)
  {
    assert blocks == blocks[..k] + blocks[k..];
    RunConcat(blocks[..k], blocks[k..], s);
  }

  /** Rerun from the start after the first k blocks: what was done is skipped, so j blocks get as far as the further of
      the two runs. */
  lemma {:induction false} Rerun(blocks: seq<Block>, k: nat, j: nat, s: Schema)
    requires AllApart(blocks) && Run(blocks, s).Some? && k <= |blocks| && j <= |blocks|
    ensures Run(blocks[..k], s).Some?
    ensures Run(blocks[..j], Run(blocks[..k], s).value) == Run(blocks[..Further(k, j)], s)
  {
    PrefixRuns(blocks, k, s);
    var at := Run(blocks[..k], s).value;
    PrefixDone(blocks[..k], s);
    if j <= k {
      forall i | 0 <= i < j
        ensures Done(blocks[..j][i], at)
      {
        assert blocks[..j][i] == blocks[..k][i];
      }
      RunDone(blocks[..j], at);
    } else {
      RunDone(blocks[..k], at);
      assert blocks[..j] == blocks[..k] + blocks[k..j];
      RunConcat(blocks[..k], blocks[k..j], at);
      RunConcat(blocks[..k], blocks[k..j], s);
    }
  }

  function Further(k: nat, j: nat): nat {
    if j < k then k else j
  }

  /** After a run of the first k statements, a run of the first j ends where the further of the two does. */
  ghost predicate RerunAt(blocks: seq<Block>, s: Schema, k: nat, j: nat)
    requires k <= |blocks| && j <= |blocks|
  {
    Run(blocks[..k], s).Some? && Run(blocks[..j], Run(blocks[..k], s).value) == Run(blocks[..Further(k, j)], s)
  }

  /** The script takes s to t, and stopping after any of its statements and starting again never gets less far, nor
      anywhere else. */
  ghost predicate Restarts(blocks: seq<Block>, s: Schema, t: Schema) {
    && Run(blocks, s) == Some(t)
    && forall k: nat, j: nat :: k <= |blocks| && j <= |blocks| ==> RerunAt(blocks, s, k, j)
  }

  lemma Restartable(blocks: seq<Block>, s: Schema, t: Schema)
    requires AllApart(blocks) && Run(blocks, s) == Some(t)
    ensures Restarts(blocks, s, t)
  {
    hide Run, AllApart;
    forall k: nat, j: nat | k <= |blocks| && j <= |blocks|
      ensures RerunAt(blocks, s, k, j)
    {
      Rerun(blocks, k, j, s);
    }
  }

  /** Run again after any stop, the script still ends in t; on t it changes nothing. */
  lemma RestartsEnds(blocks: seq<Block>, s: Schema, t: Schema, k: nat)
    requires Restarts(blocks, s, t) && k <= |blocks|
    ensures Run(blocks[..k], s).Some? && Run(blocks, Run(blocks[..k], s).value) == Some(t)
    ensures Run(blocks, t) == Some(t)
  {
    hide Run;
    var all := |blocks|;
    assert blocks[..all] == blocks;
    assert RerunAt(blocks, s, k, all) && RerunAt(blocks, s, all, all);
  }
}
