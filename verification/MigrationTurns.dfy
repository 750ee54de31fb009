/** Migrations and rollbacks in turn: what one of them does where the other was cut off inside a script. */
module MigrationTurns {
  import opened MigrationChain
  import opened MigrationRuns
  import opened NameSeqs
  import opened SchemaDdl
  import opened SchemaRestart
  import opened Sequences
  import opened Wrappers

  /** The database of the first i migrations, with nothing underway. */
  function At(c: Chain, i: nat): Database
    requires i < |c.states| && i <= |c.files|
  {
    Database(c.states[i], Identities(c.files[..i]))
  }

  /** Between two scripts a run may go either way: what migrations have reached is where a rollback starts, and what a
      rollback has left is where migrations go on. */
  lemma TurnPoint(c: Chain, i: nat, db: Database)
    requires ValidChain(c) && i <= |c.files|
    ensures Reached(c, i, 0, db) <==> db == At(c, i)
    ensures Undone(c, i, 0, db) <==> db == At(c, i)
  {
    if i < |c.files| {
      var m := c.files[i];
      assert Link(m, c.states[i], c.states[i + 1]);
      RunNone(m.forward, c.states[i][m.schema]);
      assert c.states[i][m.schema := c.states[i][m.schema]] == c.states[i];
    }
    if i > 0 {
      var m := c.files[i - 1];
      assert Link(m, c.states[i - 1], c.states[i]);
      RunNone(m.back.value, c.states[i][m.schema]);
      assert c.states[i][m.schema := c.states[i][m.schema]] == c.states[i];
    }
  }

  /** The database with another schema x. */
  function With(db: Database, x: Option<Name>, s: Schema): Database {
    db.(schemas := db.schemas[x := s])
  }

  lemma ScriptApart(blocks: seq<Block>, schema: Option<Name>, limit: nat, db: Database, x: Option<Name>, s: Schema)
    requires schema != x
    ensures Script(blocks, schema, limit, With(db, x, s)) ==
            (With(Script(blocks, schema, limit, db).0, x, s), Script(blocks, schema, limit, db).1)
  {
    hide RunTo;
    if schema in db.schemas {
      var t := RunTo(blocks, limit, db.schemas[schema]).0;
      assert db.schemas[x := s][schema := t] == db.schemas[schema := t][x := s];
    }
  }

  /** Migrations of other schemas run as they would have, whatever became of this one. */
  lemma {:induction false} ApplyApart(pending: seq<Migration>, limit: nat, db: Database, x: Option<Name>, s: Schema)
    requires forall m :: m in pending ==> m.schema != x
    ensures Apply(pending, limit, With(db, x, s)) == (With(Apply(pending, limit, db).0, x, s), Apply(pending, limit, db).1)
    decreases |pending|
  {
    if pending != [] {
      var m := pending[0];
      assert m in pending && forall p :: p in pending[1..] ==> p in pending;
      hide Script;
      ScriptApart(m.forward, m.schema, limit, db, x, s);
      var next := Script(m.forward, m.schema, limit, db).0;
      if limit > |m.forward| {
        ApplyApart(pending[1..], limit - |m.forward| - 1, next.(records := next.records + [m.identity]), x, s);
      }
    }
  }

  lemma {:induction false} UndoApart(plans: seq<Migration>, limit: nat, db: Database, x: Option<Name>, s: Schema)
    requires forall m :: m in plans ==> m.schema != x && m.back.Some?
    ensures Undo(plans, limit, With(db, x, s)) == (With(Undo(plans, limit, db).0, x, s), Undo(plans, limit, db).1)
    decreases |plans|
  {
    if plans != [] {
      var m := plans[0];
      assert m in plans && forall p :: p in plans[1..] ==> p in plans;
      hide Script, Without;
      ScriptApart(m.back.value, m.schema, limit, db, x, s);
      var next := Script(m.back.value, m.schema, limit, db).0;
      if limit > |m.back.value| {
        UndoApart(plans[1..], limit - |m.back.value| - 1, next.(records := Without(next.records, m.identity)), x, s);
      }
    }
  }

  /** A schema no later migration is of stays as it is to the end of the chain. */
  lemma {:induction false} StateApart(c: Chain, i: nat, j: nat, x: Option<Name>)
    requires ValidChain(c) && i <= j <= |c.files| && x in c.states[i]
    requires forall q :: i <= q < j ==> c.files[q].schema != x
    ensures x in c.states[j] && c.states[j][x] == c.states[i][x]
    decreases j - i
  {
    if i < j {
      assert Link(c.files[j - 1], c.states[j - 1], c.states[j]);
      hide Link, Distinct;
      StateApart(c, i, j - 1, x);
    }
  }

  /** A rollback was cut off inside the way back of migration i - 1, which is recorded still. Migrations run then leave its
      schema as it is: they do what they would do had it not been touched, and end in the last schemas exactly if what ran
      of the way back has changed nothing. (No later migration is of that schema; none at all is pending when i is the
      last one.) */
  lemma MigrateHalfUndone(c: Chain, i: nat, k: nat, limit: nat, db: Database)
    requires ValidChain(c) && Undone(c, i, k, db) && i > 0
    requires forall j :: i <= j < |c.files| ==> c.files[j].schema != c.files[i - 1].schema
    ensures var x := c.files[i - 1].schema;
            && x in db.schemas && x in c.states[i]
            && Migrate(c.files, limit, db) ==
               (With(Migrate(c.files, limit, At(c, i)).0, x, db.schemas[x]), Migrate(c.files, limit, At(c, i)).1)
            && (Migrate(c.files, limit, db).1 == Done ==>
                  && Migrate(c.files, limit, db).0.records == Identities(c.files)
                  && (Migrate(c.files, limit, db).0.schemas == c.states[|c.files|] <==> db.schemas[x] == c.states[i][x]))
    ensures i == |c.files| ==> Migrate(c.files, limit, db) == (db, Done)
  {
    var x, n := c.files[i - 1].schema, |c.files|;
    HalfUndoneIs(c, i, k, db);
    PendingOf(c, i, db.records);
    TurnPoint(c, i, At(c, i));
    StateApart(c, i, n, x);
    PendingApart(c, i, x);
    hide Run, Apply, Pending, Distinct, Undone, ValidChain, Underway;
    ApplyApart(c.files[i..], limit, At(c, i), x, db.schemas[x]);
    var j, q := MigrateEnds(c, i, 0, [limit], At(c, i));
    assert MigrateRuns(c.files, [limit], At(c, i)) == Migrate(c.files, limit, At(c, i));
    if i == n {
      assert c.files[n..] == [];
      ApplyNone(limit, db);
    }
    WithIs(c.states[n], x, db.schemas[x]);
  }

  lemma ApplyNone(limit: nat, db: Database)
    ensures Apply([], limit, db) == (db, Done)
  {
  }

  lemma WithIs(schemas: Schemas, x: Option<Name>, s: Schema)
    requires x in schemas
    ensures schemas[x := s] == schemas <==> s == schemas[x]
  {
    assert schemas[x := s][x] == s;
  }

  lemma PendingApart(c: Chain, i: nat, x: Option<Name>)
    requires i <= |c.files| && forall j :: i <= j < |c.files| ==> c.files[j].schema != x
    ensures forall m :: m in c.files[i..] ==> m.schema != x
  {
  }

  lemma HalfUndoneIs(c: Chain, i: nat, k: nat, db: Database)
    requires ValidChain(c) && Undone(c, i, k, db) && i > 0
    ensures var x := c.files[i - 1].schema;
            x in db.schemas && x in c.states[i] && db == With(At(c, i), x, db.schemas[x]) && db.records == At(c, i).records
  {
    assert Link(c.files[i - 1], c.states[i - 1], c.states[i]);
    hide Run, Distinct, Restarts;
  }

  lemma HalfAppliedIs(c: Chain, i: nat, k: nat, db: Database)
    requires ValidChain(c) && Reached(c, i, k, db) && i < |c.files|
    ensures var x := c.files[i].schema;
            x in db.schemas && x in c.states[i] && db == With(At(c, i), x, db.schemas[x]) && db.records == At(c, i).records
  {
    assert Link(c.files[i], c.states[i], c.states[i + 1]);
    hide Run, Distinct, Restarts;
  }

  lemma {:induction false} DownApart(files: seq<Migration>, i: nat, m: nat, x: Option<Name>)
    requires i <= |files| && forall q :: m <= q < i ==> files[q].schema != x
    ensures forall f :: f in Down(files, i, m) ==> f.schema != x
  {
    if i > m {
      DownApart(files, i - 1, m, x);
    }
  }

  /** A migration was cut off inside its script and is not recorded. A rollback of the ones before it leaves its schema as it
      is: it does what it would do had the script not begun, and ends in the schemas it goes back to exactly if what ran of
      the script has changed nothing. (None of those it takes back is of that schema.) */
  lemma RollbackHalfApplied(c: Chain, i: nat, k: nat, extent: Extent, m: nat, limit: nat, db: Database)
    requires ValidChain(c) && Reached(c, i, k, db) && i < |c.files| && m <= i
    requires match extent
             case DownTo(identity) => 0 < m && identity == c.files[m - 1].identity
             case Steps(count) => count >= 1 && m == if count <= i then i - count else 0
    requires forall q :: m <= q < i ==> c.files[q].schema != c.files[i].schema
    ensures var x := c.files[i].schema;
            && x in db.schemas && x in c.states[i]
            && Rollback(c.files, extent, limit, db) ==
               (With(Rollback(c.files, extent, limit, At(c, i)).0, x, db.schemas[x]), Rollback(c.files, extent, limit, At(c, i)).1)
            && (Rollback(c.files, extent, limit, db).1 == Done ==>
                  && Rollback(c.files, extent, limit, db).0.records == Identities(c.files[..m])
                  && (Rollback(c.files, extent, limit, db).0.schemas == c.states[m] <==> db.schemas[x] == c.states[i][x]))
  {
    var x := c.files[i].schema;
    HalfAppliedIs(c, i, k, db);
    TurnPoint(c, i, At(c, i));
    ChainLength(c);
    SameBack(c, i, m, x);
    hide *;
    TargetsDown(c, i, extent, m);
    PlansDown(c, i, m);
    DownApart(c.files, i, m, x);
    RollbackIs(c, i, extent, m, limit, db);
    RollbackIs(c, i, extent, m, limit, At(c, i));
    UndoApart(Down(c.files, i, m), limit, At(c, i), x, db.schemas[x]);
    var j, q := RollbackRun(c, i, 0, extent, m, limit, At(c, i));
    if j == m {
      TurnPoint(c, m, Rollback(c.files, extent, limit, At(c, i)).0);
    }
    WithIs(c.states[m], x, db.schemas[x]);
  }

  /** Going back, the schema stays as it is too. */
  lemma SameBack(c: Chain, i: nat, m: nat, x: Option<Name>)
    requires ValidChain(c) && m <= i <= |c.files| && x in c.states[i]
    requires forall q :: m <= q < i ==> c.files[q].schema != x
    ensures x in c.states[m] && c.states[m][x] == c.states[i][x]
    decreases i - m
  {
    if m < i {
      assert Link(c.files[i - 1], c.states[i - 1], c.states[i]);
      hide Link, Distinct;
      SameBack(c, i - 1, m, x);
    }
  }

  lemma RollbackIs(c: Chain, i: nat, extent: Extent, m: nat, limit: nat, db: Database)
    requires ValidChain(c) && m <= i <= |c.files| && db.records == Identities(c.files[..i])
    requires Targets(db.records, extent) == Some(Identities(Down(c.files, i, m)))
    requires Plans(c.files, Identities(Down(c.files, i, m))) == Some(Down(c.files, i, m))
    ensures forall f :: f in Down(c.files, i, m) ==> f.back.Some?
    ensures Rollback(c.files, extent, limit, db) == Undo(Down(c.files, i, m), limit, db)
  {
    PlansHaveBack(c.files, Identities(Down(c.files, i, m)));
    hide Undo, Plans, Targets, Down, ValidChain, Identities;
  }

  function Creates(identity: Name, table: Name, definition: Table): Migration {
    Migration(identity, None, [CreateTable(table, definition)], Some([DropTable(table)]), false, false)
  }

  /** For instance: the one migration creates a table. Its rollback is cut off behind the drop, before the record goes.
      Migrating then finds nothing pending, and the table is gone. */
  lemma HalfUndoneStays(identity: Name, table: Name, definition: Table, limit: nat)
    ensures var files := [Creates(identity, table, definition)];
            var there, gone := Database(map[None := map[table := definition]], [identity]), Database(map[None := map[]], [identity]);
            && Rollback(files, Steps(1), 1, there) == (gone, Failed) && Migrate(files, limit, gone) == (gone, Done)
  {
    var m := Creates(identity, table, definition);
    var files := [m];
    var there, gone := Database(map[None := map[table := definition]], [identity]), Database(map[None := map[]], [identity]);
    assert Newest([identity]) == [identity] && [identity][..1] == [identity] && [identity][1..] == [];
    assert Targets([identity], Steps(1)) == Some([identity]);
    assert Find(files, identity) == Some(m);
    assert Plans(files, []) == Some([]);
    assert [m] + [] == [m];
    assert Plans(files, [identity]) == Some([m] + []);
    assert map[table := definition] - {table} == map[];
    var s: Schema := map[table := definition];
    assert RunTo([], 0, map[]) == (map[], true);
    assert [DropTable(table)][1..] == [];
    assert RunTo([DropTable(table)], 1, s) == (map[], true);
    assert there.schemas[None := map[]] == gone.schemas;
    assert Script([DropTable(table)], None, 1, there) == (gone, true);
    assert files[1..] == [];
    assert Pending([], [identity]) == [];
    assert Pending(files, [identity]) == [];
  }
}
