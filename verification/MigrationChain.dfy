/** A chain of restartable migrations under runs that fail anywhere: where the database is after each run. */
module MigrationChain {
  import opened MigrationRuns
  import opened NameSeqs
  import opened SchemaDdl
  import SchemaMigration
  import opened SchemaRestart
  import opened Sequences
  import opened Wrappers

  type Schemas = map<Option<Name>, Schema>

  /** Migration i takes the schemas from states[i] to states[i + 1], in its own schema only, and back. */
  datatype Chain = Chain(files: seq<Migration>, states: seq<Schemas>)

  ghost predicate Link(m: Migration, before: Schemas, after: Schemas) {
    && m.schema in before && m.schema in after && after == before[m.schema := after[m.schema]]
    && !m.forwardTodo && Restarts(m.forward, before[m.schema], after[m.schema])
    && !m.backTodo && m.back.Some? && Restarts(m.back.value, after[m.schema], before[m.schema])
  }

  function Identities(files: seq<Migration>): (names: seq<Name>)
    ensures |names| == |files| && forall i :: 0 <= i < |names| ==> names[i] == files[i].identity
  {
    seq(|files|, i requires 0 <= i < |files| => files[i].identity)
  }

  ghost predicate ValidChain(c: Chain) {
    && |c.states| == |c.files| + 1
    && Distinct(Identities(c.files))
    && forall i :: 0 <= i < |c.files| ==> Link(c.files[i], c.states[i], c.states[i + 1])
  }

  /** The drafted migration of one schema's change is a link, if nothing was left to a person and no column moved. */
  lemma DraftIsLink(before: Schemas, after: Schemas, x: Option<Name>, identity: Name, o: SchemaMigration.Orders, back: SchemaMigration.Orders)
    requires x in before && x in after && after == before[x := after[x]]
    requires SchemaMigration.ValidOrders(o, before[x], after[x]) && SchemaMigration.ValidOrders(back, after[x], before[x])
    requires SchemaMigration.Complete(before[x], after[x])
    ensures Link(Migration(identity, x, SchemaMigration.Draft(before[x], after[x], o),
                           Some(SchemaMigration.Draft(after[x], before[x], back)), false, false), before, after)
  {
    hide SchemaMigration.Draft, SchemaMigration.ValidOrders, SchemaMigration.Complete;
    SchemaMigration.DraftRestartable(before[x], after[x], o);
    SchemaMigration.DraftInvertible(before[x], after[x], o, back);
  }

  /** k statements of a script are behind us: its schema is on its way from s to t, the rest is as it was. */
  ghost predicate Underway(blocks: seq<Block>, schema: Option<Name>, k: nat, from: Schemas, now: Schemas) {
    && schema in from && schema in now && now == from[schema := now[schema]]
    && k <= |blocks| && Run(blocks[..k], from[schema]) == Some(now[schema])
  }

  /** The first i migrations are applied and recorded, and k statements of the next one may have run. */
  ghost predicate Reached(c: Chain, i: nat, k: nat, db: Database)
    requires ValidChain(c)
  {
    && i <= |c.files| && db.records == Identities(c.files[..i])
    && if i == |c.files| then k == 0 && db.schemas == c.states[i]
       else Underway(c.files[i].forward, c.files[i].schema, k, c.states[i], db.schemas)
  }

  /** The first i migrations are recorded, and k statements of the way back of the last one may have run. */
  ghost predicate Undone(c: Chain, i: nat, k: nat, db: Database)
    requires ValidChain(c)
  {
    && i <= |c.files| && db.records == Identities(c.files[..i])
    && if i == 0 then k == 0 && db.schemas == c.states[0]
       else
         assert Link(c.files[i - 1], c.states[i - 1], c.states[i]);
         Underway(c.files[i - 1].back.value, c.files[i - 1].schema, k, c.states[i], db.schemas)
  }

  // ---- One script ----

  lemma {:induction false} RunToPrefix(blocks: seq<Block>, limit: nat, s: Schema)
    requires Run(blocks, s).Some?
    ensures Run(blocks[..if limit < |blocks| then limit else |blocks|], s) == Some(RunTo(blocks, limit, s).0)
    ensures RunTo(blocks, limit, s).1 <==> limit >= |blocks|
  {
    if blocks != [] && limit > 0 {
      var n := if limit < |blocks| then limit else |blocks|;
      assert blocks[..n][1..] == blocks[1..][..n - 1];
      assert blocks[..n][0] == blocks[0];
      RunToPrefix(blocks[1..], limit - 1, Exec(blocks[0], s).value);
    }
  }

  /** A script that was underway, run again from its start under any limit: it is further, or as far as it was, and when
      it gets to its end the schema is the new one. */
  lemma ScriptAgain(blocks: seq<Block>, x: Option<Name>, k: nat, limit: nat, from: Schemas, to: Schemas, db: Database)
      returns (k': nat)
    requires Underway(blocks, x, k, from, db.schemas)
    requires x in to && to == from[x := to[x]] && Restarts(blocks, from[x], to[x])
    ensures Underway(blocks, x, k', from, Script(blocks, x, limit, db).0.schemas)
    ensures Script(blocks, x, limit, db).0.records == db.records
    ensures Script(blocks, x, limit, db).1 <==> limit >= |blocks|
    ensures Script(blocks, x, limit, db).1 ==> Script(blocks, x, limit, db).0.schemas == to
  {
    hide Run, RunTo;
    var s := db.schemas[x];
    RestartsEnds(blocks, from[x], to[x], k);
    RunToPrefix(blocks, limit, s);
    var j := if limit < |blocks| then limit else |blocks|;
    k' := Further(k, j);
    assert RerunAt(blocks, from[x], k, j);
    assert blocks[..|blocks|] == blocks;
  }

  // ---- Applying ----

  lemma {:induction false} PendingRest(files: seq<Migration>, i: nat, records: seq<Name>)
    requires i <= |files| && forall j :: 0 <= j < |files| ==> (files[j].identity in records <==> j < i)
    ensures Pending(files, records) == files[i..]
  {
    if files != [] {
      var rest := if i == 0 then 0 else i - 1;
      forall j | 0 <= j < |files[1..]|
        ensures files[1..][j].identity in records <==> j < rest
      {
        assert files[1..][j] == files[j + 1];
      }
      PendingRest(files[1..], rest, records);
    }
  }

  lemma PendingOf(c: Chain, i: nat, records: seq<Name>)
    requires ValidChain(c) && i <= |c.files| && records == Identities(c.files[..i])
    ensures Pending(c.files, records) == c.files[i..]
  {
    var names := Identities(c.files);
    forall j | 0 <= j < |c.files|
      ensures c.files[j].identity in records <==> j < i
    {
      if j < i {
        assert records[j] == c.files[j].identity;
      } else {
        assert forall q :: 0 <= q < i ==> records[q] == names[q] && names[q] != names[j];
      }
    }
    PendingRest(c.files, i, records);
  }

  lemma AppliedNext(c: Chain, i: nat, db: Database)
    requires ValidChain(c) && i < |c.files| && db.records == Identities(c.files[..i]) && db.schemas == c.states[i + 1]
    ensures Reached(c, i + 1, 0, db.(records := db.records + [c.files[i].identity]))
  {
    assert c.files[..i + 1] == c.files[..i] + [c.files[i]];
    if i + 1 < |c.files| {
      var m := c.files[i + 1];
      assert Link(m, c.states[i + 1], c.states[i + 2]);
      RunNone(m.forward, c.states[i + 1][m.schema]);
      assert c.states[i + 1][m.schema := c.states[i + 1][m.schema]] == c.states[i + 1];
    }
  }

  /** What a run of these migrations executes: their scripts and a record each. */
  function Statements(files: seq<Migration>): nat {
    if files == [] then 0 else |files[0].forward| + 1 + Statements(files[1..])
  }

  lemma {:induction false} ApplyRun(c: Chain, i: nat, k: nat, limit: nat, db: Database) returns (j: nat, k': nat)
    requires ValidChain(c) && Reached(c, i, k, db)
    ensures i <= j && Reached(c, j, k', Apply(c.files[i..], limit, db).0)
    ensures Apply(c.files[i..], limit, db).1 == Done <==> j == |c.files|
    ensures Apply(c.files[i..], limit, db).1 != Refused
    ensures limit >= Statements(c.files[i..]) ==> j == |c.files|
    decreases |c.files| - i
  {
    hide Run, RunTo, Restarts, Script, Distinct;
    if i == |c.files| {
      j, k' := i, k;
    } else {
      var m := c.files[i];
      assert Link(m, c.states[i], c.states[i + 1]);
      assert c.files[i..][0] == m && c.files[i..][1..] == c.files[i + 1..];
      var next := Script(m.forward, m.schema, limit, db).0;
      var k1 := ScriptAgain(m.forward, m.schema, k, limit, c.states[i], c.states[i + 1], db);
      if limit <= |m.forward| {
        j, k' := i, k1;
      } else {
        AppliedNext(c, i, next);
        j, k' := ApplyRun(c, i + 1, 0, limit - |m.forward| - 1, next.(records := next.records + [m.identity]));
      }
    }
  }

  /** The database after one run for each limit, each run failing where its limit ends; whether the last run succeeded. */
  function MigrateRuns(files: seq<Migration>, limits: seq<nat>, db: Database): (Database, Outcome)
    requires limits != []
    decreases |limits|
  {
    var (next, o) := Migrate(files, limits[0], db);
    if |limits| == 1 then (next, o) else MigrateRuns(files, limits[1..], next)
  }

  /** Any sequence of runs from a database with the first i migrations, however often they fail: the applied migrations
      are always a prefix of the chain, recorded once each, with at most one underway; and once a run succeeds, the schemas
      are the last ones and every migration is recorded exactly once. */
  lemma {:induction false} MigrateEnds(c: Chain, i: nat, k: nat, limits: seq<nat>, db: Database) returns (j: nat, k': nat)
    requires ValidChain(c) && Reached(c, i, k, db) && limits != []
    ensures i <= j && Reached(c, j, k', MigrateRuns(c.files, limits, db).0)
    ensures MigrateRuns(c.files, limits, db).1 == Done ==>
              MigrateRuns(c.files, limits, db).0 == Database(c.states[|c.files|], Identities(c.files))
    ensures |limits| == 1 && limits[0] >= Statements(c.files[i..]) ==> MigrateRuns(c.files, limits, db).1 == Done
    decreases |limits|
  {
    hide Run, Apply, Pending, Distinct;
    PendingOf(c, i, db.records);
    var j1, k1 := ApplyRun(c, i, k, limits[0], db);
    if |limits| == 1 {
      j, k' := j1, k1;
      assert c.files[..|c.files|] == c.files;
    } else {
      j, k' := MigrateEnds(c, j1, k1, limits[1..], Migrate(c.files, limits[0], db).0);
    }
  }

  // ---- Rolling back ----

  /** The migrations from number i - 1 down to number m. */
  function Down(files: seq<Migration>, i: nat, m: nat): seq<Migration>
    requires i <= |files|
  {
    if i <= m then [] else [files[i - 1]] + Down(files, i - 1, m)
  }

  lemma {:induction false} DownAt(files: seq<Migration>, i: nat, m: nat)
    requires m <= i <= |files|
    ensures |Down(files, i, m)| == i - m
    ensures forall j :: 0 <= j < i - m ==> Down(files, i, m)[j] == files[i - 1 - j]
  {
    if i > m {
      DownAt(files, i - 1, m);
    }
  }

  lemma {:induction false} FindFirst(files: seq<Migration>, j: nat)
    requires j < |files| && forall q :: 0 <= q < j ==> files[q].identity != files[j].identity
    ensures Find(files, files[j].identity) == Some(files[j])
  {
    if j > 0 {
      assert files[1..][j - 1] == files[j];
      assert forall q :: 0 <= q < j - 1 ==> files[1..][q] == files[q + 1];
      FindFirst(files[1..], j - 1);
    }
  }

  lemma {:induction false} PlansDown(c: Chain, i: nat, m: nat)
    requires ValidChain(c) && m <= i <= |c.files|
    ensures Plans(c.files, Identities(Down(c.files, i, m))) == Some(Down(c.files, i, m))
  {
    var targets := Identities(Down(c.files, i, m));
    if i > m {
      PlansDown(c, i - 1, m);
      assert targets[1..] == Identities(Down(c.files, i - 1, m));
      var names := Identities(c.files);
      assert forall q :: 0 <= q < i - 1 ==> names[q] != names[i - 1];
      FindFirst(c.files, i - 1);
      assert Link(c.files[i - 1], c.states[i - 1], c.states[i]);
    }
  }

  /** The targets of a rollback from the first i migrations are those down to number m. */
  lemma TargetsDown(c: Chain, i: nat, extent: Extent, m: nat)
    requires ValidChain(c) && m <= i <= |c.files|
    requires match extent
             case DownTo(identity) => 0 < m && identity == c.files[m - 1].identity
             case Steps(count) => count >= 1 && m == if count <= i then i - count else 0
    ensures Targets(Identities(c.files[..i]), extent) == Some(Identities(Down(c.files, i, m)))
  {
    hide *;
    var records := Identities(c.files[..i]);
    var rows := Newest(records);
    RowsDown(c, i, m);
    match extent
    case DownTo(identity) =>
      assert rows[i - m] == identity;
      TargetsTo(records, i - m);
    case Steps(count) =>
      assert rows[..i] == rows;
      TargetsSteps(records, count);
  }

  lemma TargetsTo(records: seq<Name>, at: nat)
    requires at < |Newest(records)| && forall p, q :: 0 <= p < q < |Newest(records)| ==> Newest(records)[p] != Newest(records)[q]
    ensures Targets(records, DownTo(Newest(records)[at])) == Some(Newest(records)[..at])
  {
    hide Newest;
    var rows := Newest(records);
    assert IndexOf(rows, rows[at]) == at;
  }

  lemma TargetsSteps(records: seq<Name>, count: nat)
    requires count >= 1
    ensures Targets(records, Steps(count)) ==
            Some(if count <= |Newest(records)| then Newest(records)[..count] else Newest(records))
  {
    hide Newest;
  }

  /** The newest records are those of the last migrations, and different. */
  lemma RowsDown(c: Chain, i: nat, m: nat)
    requires ValidChain(c) && m <= i <= |c.files|
    ensures var rows := Newest(Identities(c.files[..i]));
            && |rows| == i && Identities(Down(c.files, i, m)) == rows[..i - m]
            && (forall q :: 0 <= q < i ==> rows[q] == c.files[i - 1 - q].identity)
            && forall p, q :: 0 <= p < q < i ==> rows[p] != rows[q]
  {
    var names := Identities(c.files);
    var rows := Newest(Identities(c.files[..i]));
    DownAt(c.files, i, m);
    assert forall q :: 0 <= q < i ==> rows[q] == names[i - 1 - q];
  }

  lemma UndoneNext(c: Chain, i: nat, db: Database)
    requires ValidChain(c) && 0 < i <= |c.files| && db.records == Identities(c.files[..i]) && db.schemas == c.states[i - 1]
    ensures Undone(c, i - 1, 0, db.(records := Without(db.records, c.files[i - 1].identity)))
  {
    var names := Identities(c.files);
    assert c.files[..i] == c.files[..i - 1] + [c.files[i - 1]];
    assert forall q :: 0 <= q < i - 1 ==> names[q] != names[i - 1];
    WithoutLast(Identities(c.files[..i - 1]), c.files[i - 1].identity);
    assert Identities(c.files[..i]) == Identities(c.files[..i - 1]) + [c.files[i - 1].identity];
    if i > 1 {
      var m := c.files[i - 2];
      assert Link(m, c.states[i - 2], c.states[i - 1]);
      RunNone(m.back.value, c.states[i - 1][m.schema]);
      assert c.states[i - 1][m.schema := c.states[i - 1][m.schema]] == c.states[i - 1];
    }
  }

  lemma {:induction false} WithoutLast(s: seq<Name>, name: Name)
    requires name !in s
    ensures Without(s + [name], name) == s
  {
    if s != [] {
      assert (s + [name])[1..] == s[1..] + [name];
      WithoutLast(s[1..], name);
    } else {
      assert s + [name] == [name];
    }
  }

  /** The database once a file is undone. */
  function UndoneBy(f: Migration, limit: nat, db: Database): Database
    requires f.back.Some?
  {
    var next := Script(f.back.value, f.schema, limit, db).0;
    next.(records := Without(next.records, f.identity))
  }

  /** One file undone, or cut short. */
  lemma UndoOne(c: Chain, i: nat, k: nat, limit: nat, db: Database) returns (k': nat)
    requires ValidChain(c) && Undone(c, i, k, db) && i > 0 && c.files[i - 1].back.Some?
    ensures var f := c.files[i - 1];
            && (limit <= |f.back.value| ==> Undone(c, i, k', Script(f.back.value, f.schema, limit, db).0))
            && (limit > |f.back.value| ==> Undone(c, i - 1, 0, UndoneBy(f, limit, db)))
            && Script(f.back.value, f.schema, limit, db).1 == (limit >= |f.back.value|)
  {
    hide Run, RunTo, Restarts, Script, Distinct, Without;
    var f := c.files[i - 1];
    assert Link(f, c.states[i - 1], c.states[i]);
    assert c.states[i - 1] == c.states[i][f.schema := c.states[i - 1][f.schema]];
    k' := ScriptAgain(f.back.value, f.schema, k, limit, c.states[i], c.states[i - 1], db);
    if limit > |f.back.value| {
      UndoneNext(c, i, Script(f.back.value, f.schema, limit, db).0);
    }
  }

  predicate AllBack(plans: seq<Migration>) {
    forall m :: m in plans ==> m.back.Some?
  }

  lemma UndoDown(files: seq<Migration>, i: nat, m: nat, limit: nat, db: Database)
    requires m < i <= |files| && AllBack(Down(files, i, m))
    ensures files[i - 1].back.Some? && AllBack(Down(files, i - 1, m))
    ensures var f := files[i - 1];
            limit <= |f.back.value| ==>
              && Undo(Down(files, i, m), limit, db).0 == Script(f.back.value, f.schema, limit, db).0
              && Undo(Down(files, i, m), limit, db).1 == Failed
    ensures var f := files[i - 1];
            Script(f.back.value, f.schema, limit, db).1 && limit > |f.back.value| ==>
              Undo(Down(files, i, m), limit, db) == Undo(Down(files, i - 1, m), limit - |f.back.value| - 1, UndoneBy(f, limit, db))
  {
    var plans := Down(files, i, m);
    assert plans[0] in plans && plans[1..] == Down(files, i - 1, m);
    assert forall p :: p in plans[1..] ==> p in plans;
    hide Script, Without;
  }

  lemma {:induction false} UndoRun(c: Chain, i: nat, k: nat, m: nat, limit: nat, db: Database) returns (j: nat, k': nat)
    requires ValidChain(c) && Undone(c, i, k, db) && m <= i <= |c.files| && (i == m ==> k == 0)
    requires AllBack(Down(c.files, i, m))
    ensures m <= j <= i && Undone(c, j, k', Undo(Down(c.files, i, m), limit, db).0)
    ensures Undo(Down(c.files, i, m), limit, db).1 == if j == m then Done else Failed
    ensures j == m ==> k' == 0
    decreases i
  {
    hide *;
    if i == m {
      j, k' := i, k;
      NothingDown(c.files, m, limit, db);
    } else {
      ChainLength(c);
      var f := c.files[i - 1];
      UndoDown(c.files, i, m, limit, db);
      var k1 := UndoOne(c, i, k, limit, db);
      if limit <= |f.back.value| {
        j, k' := i, k1;
      } else {
        j, k' := UndoRun(c, i - 1, 0, m, limit - |f.back.value| - 1, UndoneBy(f, limit, db));
      }
    }
  }

  lemma NothingDown(files: seq<Migration>, m: nat, limit: nat, db: Database)
    requires m <= |files|
    ensures Undo(Down(files, m, m), limit, db) == (db, Done)
  {
  }

  lemma ChainLength(c: Chain)
    requires ValidChain(c)
    ensures |c.states| == |c.files| + 1
  {
    hide Link, Distinct;
  }

  lemma RollbackRun(c: Chain, i: nat, k: nat, extent: Extent, m: nat, limit: nat, db: Database) returns (j: nat, k': nat)
    requires ValidChain(c) && Undone(c, i, k, db) && m <= i && (i == m ==> k == 0)
    requires match extent
             case DownTo(identity) => 0 < m && identity == c.files[m - 1].identity
             case Steps(count) => count >= 1 && m == if count <= i then i - count else 0
    ensures m <= j <= i && Undone(c, j, k', Rollback(c.files, extent, limit, db).0)
    ensures Rollback(c.files, extent, limit, db).1 == if j == m then Done else Failed
    ensures j == m ==> k' == 0
  {
    hide Undo, Plans, Targets, Down, Distinct;
    TargetsDown(c, i, extent, m);
    PlansDown(c, i, m);
    PlansHaveBack(c.files, Identities(Down(c.files, i, m)));
    j, k' := UndoRun(c, i, k, m, limit, db);
  }

  /** One rollback for each limit, with the same request. */
  function RollbackRuns(files: seq<Migration>, extent: Extent, limits: seq<nat>, db: Database): (Database, Outcome)
    requires limits != []
    decreases |limits|
  {
    var (next, o) := Rollback(files, extent, limits[0], db);
    if |limits| == 1 then (next, o) else RollbackRuns(files, extent, limits[1..], next)
  }

  /** A rollback down to a migration may fail and be run again as often as it takes: once a run succeeds, the schemas and
      the records are those of the chain up to that migration. */
  lemma {:induction false} RollbackEnds(c: Chain, i: nat, k: nat, m: nat, limits: seq<nat>, db: Database) returns (j: nat, k': nat)
    requires ValidChain(c) && Undone(c, i, k, db) && 0 < m <= i && (i == m ==> k == 0) && limits != []
    ensures var extent := DownTo(c.files[m - 1].identity);
            && m <= j <= i && Undone(c, j, k', RollbackRuns(c.files, extent, limits, db).0)
            && (RollbackRuns(c.files, extent, limits, db).1 == Done ==>
                  RollbackRuns(c.files, extent, limits, db).0 == Database(c.states[m], Identities(c.files[..m])))
    decreases |limits|
  {
    hide Run, Rollback, Distinct;
    var extent := DownTo(c.files[m - 1].identity);
    var j1, k1 := RollbackRun(c, i, k, extent, m, limits[0], db);
    if |limits| == 1 {
      j, k' := j1, k1;
      UndoneAt(c, j, k', Rollback(c.files, extent, limits[0], db).0);
    } else {
      j, k' := RollbackEnds(c, j1, k1, m, limits[1..], Rollback(c.files, extent, limits[0], db).0);
    }
  }

  lemma UndoneAt(c: Chain, i: nat, k: nat, db: Database)
    requires ValidChain(c) && Undone(c, i, k, db)
    ensures k == 0 ==> db.schemas == c.states[i]
  {
    if i > 0 && k == 0 {
      assert Link(c.files[i - 1], c.states[i - 1], c.states[i]);
      RunNone(c.files[i - 1].back.value, c.states[i][c.files[i - 1].schema]);
    }
  }

  /** Rolling back a number of steps is not: an interrupted run that had already forgotten some migrations, run again with
      the same number, goes further back. It ends where one run would have ended if and only if the interrupted run forgot
      none, or the number covered every migration anyway. */
  lemma StepsRerun(c: Chain, i: nat, count: nat, first: nat, second: nat, db: Database)
    requires ValidChain(c) && Undone(c, i, 0, db) && count >= 1
    requires Rollback(c.files, Steps(count), first, db).1 == Failed
    requires var interrupted := Rollback(c.files, Steps(count), first, db).0;
             Rollback(c.files, Steps(count), second, interrupted).1 == Done
    ensures var interrupted := Rollback(c.files, Steps(count), first, db).0;
            var wanted := if count <= i then i - count else 0;
            Rollback(c.files, Steps(count), second, interrupted).0 == Database(c.states[wanted], Identities(c.files[..wanted]))
            <==> |interrupted.records| == |db.records| || count >= i
  {
    hide Run, Rollback, Distinct;
    var m := if count <= i then i - count else 0;
    var interrupted := Rollback(c.files, Steps(count), first, db).0;
    var j, k := RollbackRun(c, i, 0, Steps(count), m, first, db);
    var m' := if count <= j then j - count else 0;
    var j', k' := RollbackRun(c, j, k, Steps(count), m', second, interrupted);
    UndoneAt(c, j', k', Rollback(c.files, Steps(count), second, interrupted).0);
    assert |Identities(c.files[..m'])| == m' && |Identities(c.files[..m])| == m;
  }

  /** What is left to roll back is the number less what is already forgotten: run again with that, it ends where one run
      would have ended. */
  lemma StepsLeft(c: Chain, i: nat, count: nat, first: nat, second: nat, db: Database)
    requires ValidChain(c) && Undone(c, i, 0, db) && 1 <= count <= i
    requires Rollback(c.files, Steps(count), first, db).1 == Failed
    ensures var interrupted := Rollback(c.files, Steps(count), first, db).0;
            var left := count - (|db.records| - |interrupted.records|);
            && left >= 1
            && (Rollback(c.files, Steps(left), second, interrupted).1 == Done ==>
                  Rollback(c.files, Steps(left), second, interrupted).0 ==
                  Database(c.states[i - count], Identities(c.files[..i - count])))
  {
    hide Run, Rollback, Distinct;
    var interrupted := Rollback(c.files, Steps(count), first, db).0;
    var j, k := RollbackRun(c, i, 0, Steps(count), i - count, first, db);
    var left := count - (i - j);
    var j', k' := RollbackRun(c, j, k, Steps(left), i - count, second, interrupted);
    UndoneAt(c, j', k', Rollback(c.files, Steps(left), second, interrupted).0);
  }

  /** A fully migrated database is where a rollback starts. */
  lemma MigratedIsUndone(c: Chain, db: Database)
    requires ValidChain(c) && Reached(c, |c.files|, 0, db)
    ensures Undone(c, |c.files|, 0, db)
  {
    var n := |c.files|;
    if n > 0 {
      var m := c.files[n - 1];
      assert Link(m, c.states[n - 1], c.states[n]);
      RunNone(m.back.value, c.states[n][m.schema]);
      assert c.states[n][m.schema := c.states[n][m.schema]] == c.states[n];
    }
  }

  /** A migration without statements forgets its record and changes no schema. */
  lemma UndoEmpty(m: Migration, rest: seq<Migration>, limit: nat, db: Database)
    requires m.back == Some([]) && m.schema in db.schemas
    requires forall p :: p in [m] + rest ==> p.back.Some?
    ensures forall p :: p in rest ==> p.back.Some?
    ensures Undo([m] + rest, limit, db) ==
            if limit == 0 then (db, Failed) else Undo(rest, limit - 1, db.(records := Without(db.records, m.identity)))
  {
    assert ([m] + rest)[1..] == rest;
    assert db.schemas[m.schema := db.schemas[m.schema]] == db.schemas;
    assert forall p :: p in rest ==> p in [m] + rest;
  }

  /** A migration of comments alone, there and back: no statements, but parts that are not empty (an empty way back would be
      refused). */
  function Empty(text: string): Migration {
    Migration(Name(text), None, [], Some([]), false, false)
  }

  function Recorded(records: seq<Name>): Database {
    Database(map[None := map[]], records)
  }

  lemma UndoNothing(limit: nat, db: Database)
    ensures Undo([], limit, db) == (db, Done)
  {
  }

  lemma PlansTwo(files: seq<Migration>, m: Migration, n: Migration)
    requires Find(files, m.identity) == Some(m) && Find(files, n.identity) == Some(n)
    requires m.back.Some? && n.back.Some? && !m.backTodo && !n.backTodo
    ensures Plans(files, [m.identity, n.identity]) == Some([m] + [n])
  {
    assert [m.identity, n.identity][1..] == [n.identity] && [n.identity][1..] == [];
    assert Plans(files, [n.identity]) == Some([n] + []);
    assert [n] + [] == [n];
  }

  const THREE: seq<Migration> := [Empty("a"), Empty("b"), Empty("c")]

  /** Rolling back the last two of some recorded migrations without statements. */
  lemma RollbackTwo(records: seq<Name>, m: Migration, n: Migration, limit: nat)
    requires Find(THREE, m.identity) == Some(m) && Find(THREE, n.identity) == Some(n)
    requires m == Empty(m.identity.text) && n == Empty(n.identity.text) && m != n && limit >= 1
    requires m.identity !in records && n.identity !in records
    ensures Rollback(THREE, Steps(2), limit, Recorded(records + [n.identity, m.identity])) ==
            if limit == 1 then (Recorded(records + [n.identity]), Failed) else (Recorded(records), Done)
  {
    hide Undo, Plans, Find;
    var all := records + [n.identity, m.identity];
    PlansTwo(THREE, m, n);
    assert Newest(all)[..2] == [m.identity, n.identity];
    assert Targets(all, Steps(2)) == Some([m.identity, n.identity]);
    assert all == (records + [n.identity]) + [m.identity];
    WithoutLast(records + [n.identity], m.identity);
    WithoutLast(records, n.identity);
    UndoTwo(m, n, limit, Recorded(all));
  }

  /** For instance: three migrations of comments alone, and a rollback of two of them cut off after the first. The same
      request again forgets all three; one run forgets two. */
  lemma StepsRerunGoesTooFar(limit: nat)
    requires limit >= 2
    ensures var (a, b, c) := (Name("a"), Name("b"), Name("c"));
            && Rollback(THREE, Steps(2), 1, Recorded([a, b, c])) == (Recorded([a, b]), Failed)
            && Rollback(THREE, Steps(2), limit, Recorded([a, b])) == (Recorded([]), Done)
            && Rollback(THREE, Steps(2), limit, Recorded([a, b, c])) == (Recorded([a]), Done)
  {
    hide Undo, Plans, Rollback;
    var (a, b, c) := (Name("a"), Name("b"), Name("c"));
    FindFirst(THREE, 0);
    FindFirst(THREE, 1);
    FindFirst(THREE, 2);
    assert [a] + [b, c] == [a, b, c] && [] + [a, b] == [a, b] && [a] + [b] == [a, b];
    RollbackTwo([a], Empty("c"), Empty("b"), 1);
    RollbackTwo([a], Empty("c"), Empty("b"), limit);
    RollbackTwo([], Empty("b"), Empty("a"), limit);
  }

  lemma UndoTwo(m: Migration, n: Migration, limit: nat, db: Database)
    requires m.back == n.back == Some([]) && m.schema in db.schemas && n.schema in db.schemas && limit >= 1
    ensures var first := db.(records := Without(db.records, m.identity));
            Undo([m] + [n], limit, db) ==
            if limit == 1 then (first, Failed) else (first.(records := Without(first.records, n.identity)), Done)
  {
    hide Undo;
    var first := db.(records := Without(db.records, m.identity));
    UndoEmpty(m, [n], limit, db);
    assert [n] + [] == [n];
    UndoEmpty(n, [], limit - 1, first);
    if limit > 1 {
      UndoNothing(limit - 2, first.(records := Without(first.records, n.identity)));
    }
  }
}
