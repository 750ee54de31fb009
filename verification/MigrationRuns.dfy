/** The runners: migrations applied in order and recorded, rolled back newest first and forgotten, with a failure between
    any two statements. */
module MigrationRuns {
  import opened Wrappers
  import opened NameSeqs
  import opened SchemaDdl

  /** A migration file: the schema it runs in (None: the main database), its script and its way back (None: missing or
      blank), and whether either still holds a TODO. */
  datatype Migration = Migration(identity: Name, schema: Option<Name>, forward: seq<Block>, back: Option<seq<Block>>,
                                 forwardTodo: bool, backTodo: bool)

  /** The schemas of a database server and the recorded migrations, in the order they were applied. */
  datatype Database = Database(schemas: map<Option<Name>, Schema>, records: seq<Name>)

  datatype Outcome = Done | Failed | Refused

  datatype Extent = Steps(count: int) | DownTo(identity: Name)

  /** A script under a server that accepts `limit` more statements: the schema it leaves, and whether it got to its end. */
  function RunTo(blocks: seq<Block>, limit: nat, s: Schema): (Schema, bool) {
    if blocks == [] then (s, true)
    else if limit == 0 then (s, false)
    else match Exec(blocks[0], s)
      case None => (s, false)
      case Some(next) => RunTo(blocks[1..], limit - 1, next)
  }

  function Script(blocks: seq<Block>, schema: Option<Name>, limit: nat, db: Database): (Database, bool) {
    if schema !in db.schemas then (db, false)
    else
      var (s, ok) := RunTo(blocks, limit, db.schemas[schema]);
      (db.(schemas := db.schemas[schema := s]), ok)
  }

  lemma ScriptIs(blocks: seq<Block>, schema: Option<Name>, limit: nat, db: Database)
    requires schema in db.schemas
    ensures blocks[0..] == blocks && (blocks == [] ==> Script(blocks, schema, limit, db) == (db, true))
  {
    assert db.schemas[schema := db.schemas[schema]] == db.schemas;
  }

  lemma ScriptGoesOn(blocks: seq<Block>, i: nat, schema: Option<Name>, limit: nat, db: Database)
    requires i < |blocks| && schema in db.schemas
    ensures Script(blocks[i..], schema, limit, db) ==
            if limit == 0 then (db, false)
            else match Exec(blocks[i], db.schemas[schema])
              case None => (db, false)
              case Some(next) => Script(blocks[i + 1..], schema, limit - 1, db.(schemas := db.schemas[schema := next]))
  {
    assert blocks[i..][1..] == blocks[i + 1..] && blocks[i..][0] == blocks[i];
    assert db.schemas[schema := db.schemas[schema]] == db.schemas;
    hide Exec;
    if limit > 0 && Exec(blocks[i], db.schemas[schema]).Some? {
      var next := Exec(blocks[i], db.schemas[schema]).value;
      var (s, ok) := RunTo(blocks[i + 1..], limit - 1, next);
      assert db.schemas[schema := next][schema := s] == db.schemas[schema := s];
    }
  }

  /** The migrations that are not recorded, in file order. */
  function Pending(files: seq<Migration>, records: seq<Name>): seq<Migration> {
    if files == [] then []
    else (if files[0].identity in records then [] else [files[0]]) + Pending(files[1..], records)
  }

  /** Each pending migration with its record as one script; the first that fails stops the run. */
  function Apply(pending: seq<Migration>, limit: nat, db: Database): (Database, Outcome) {
    if pending == [] then (db, Done)
    else
      var m := pending[0];
      if m.forwardTodo then (db, Refused)
      else
        var (next, ok) := Script(m.forward, m.schema, limit, db);
        if !ok || limit <= |m.forward| then (next, Failed)
        else Apply(pending[1..], limit - |m.forward| - 1, next.(records := next.records + [m.identity]))
  }

  function Migrate(files: seq<Migration>, limit: nat, db: Database): (Database, Outcome) {
    Apply(Pending(files, db.records), limit, db)
  }

  function Newest(records: seq<Name>): (rows: seq<Name>)
    ensures |rows| == |records|
    ensures forall i :: 0 <= i < |rows| ==> rows[i] == records[|records| - 1 - i]
  {
    seq(|records|, i requires 0 <= i < |records| => records[|records| - 1 - i])
  }

  function IndexOf(s: seq<Name>, x: Name): (i: nat)
    requires x in s
    ensures i < |s| && s[i] == x && x !in s[..i]
  {
    if s[0] == x then 0 else 1 + IndexOf(s[1..], x)
  }

  /** The recorded migrations to roll back, newest first, or None when the request is refused. */
  function Targets(records: seq<Name>, extent: Extent): Option<seq<Name>> {
    var rows := Newest(records);
    match extent
    case DownTo(identity) => if identity in rows then Some(rows[..IndexOf(rows, identity)]) else None
    case Steps(count) => if count < 1 then None else if count <= |rows| then Some(rows[..count]) else Some(rows)
  }

  function Find(files: seq<Migration>, identity: Name): Option<Migration> {
    if files == [] then None
    else if files[0].identity == identity then Some(files[0])
    else Find(files[1..], identity)
  }

  /** Every target's file with a way back that is finished, or None: checked before anything changes. */
  function Plans(files: seq<Migration>, targets: seq<Name>): Option<seq<Migration>> {
    if targets == [] then Some([])
    else
      match (Find(files, targets[0]), Plans(files, targets[1..]))
      case (Some(m), Some(rest)) => if m.back.Some? && !m.backTodo then Some([m] + rest) else None
      case _ => None
  }

  function Undo(plans: seq<Migration>, limit: nat, db: Database): (Database, Outcome)
    requires forall m :: m in plans ==> m.back.Some?
  {
    if plans == [] then (db, Done)
    else
      var m := plans[0];
      var (next, ok) := Script(m.back.value, m.schema, limit, db);
      if !ok || limit <= |m.back.value| then (next, Failed)
      else Undo(plans[1..], limit - |m.back.value| - 1, next.(records := Without(next.records, m.identity)))
  }

  lemma PlansHaveBack(files: seq<Migration>, targets: seq<Name>)
    ensures Plans(files, targets).Some? ==> forall m :: m in Plans(files, targets).value ==> m.back.Some?
  {
  }

  function Rollback(files: seq<Migration>, extent: Extent, limit: nat, db: Database): (Database, Outcome) {
    match Targets(db.records, extent)
    case None => (db, Refused)
    case Some(targets) =>
      PlansHaveBack(files, targets);
      match Plans(files, targets)
      case None => (db, Refused)
      case Some(plans) => Undo(plans, limit, db)
  }

  // ---- What is refused ----

  /** A rollback can be asked for one step or more, or down to a recorded migration. */
  predicate Askable(records: seq<Name>, extent: Extent) {
    match extent
    case Steps(count) => count >= 1
    case DownTo(identity) => identity in records
  }

  /** The record is one of those to roll back: one of the last steps, or behind the last record of the migration to keep. */
  predicate Asked(records: seq<Name>, extent: Extent, j: nat)
    requires j < |records|
  {
    match extent
    case Steps(count) => |records| - j <= count
    case DownTo(identity) => identity !in records[j..]
  }

  predicate CanUndo(m: Migration) {
    m.back.Some? && !m.backTodo
  }

  /** No file of the name has a finished way back. */
  predicate NoWayBack(files: seq<Migration>, name: Name) {
    forall m :: m in files && m.identity == name ==> !CanUndo(m)
  }

  predicate HasWayBack(files: seq<Migration>, name: Name) {
    (exists m :: m in files && m.identity == name) && forall m :: m in files && m.identity == name ==> CanUndo(m)
  }

  lemma BehindLast(records: seq<Name>, identity: Name, last: nat)
    requires last < |records| && records[last] == identity && identity !in records[last + 1..]
    ensures forall j :: 0 <= j < |records| ==> (Asked(records, DownTo(identity), j) <==> last < j)
  {
    forall j | 0 <= j < |records|
      ensures identity !in records[j..] <==> last < j
    {
      if j <= last {
        assert records[j..][last - j] == identity;
      } else {
        assert records[j..] == records[last + 1..][j - last - 1..];
      }
    }
  }

  lemma NewestIndex(records: seq<Name>, identity: Name)
    requires identity in Newest(records)
    ensures var at := IndexOf(Newest(records), identity);
            records[|records| - 1 - at] == identity && identity !in records[|records| - at..]
  {
    var rows := Newest(records);
    var at := IndexOf(rows, identity);
    forall j | |records| - at <= j < |records|
      ensures records[j] != identity
    {
      assert rows[..at][|records| - 1 - j] == records[j];
    }
  }

  /** The last records, newest first, and no others are asked for. */
  ghost predicate AreAsked(records: seq<Name>, extent: Extent, targets: seq<Name>) {
    && |targets| <= |records|
    && (forall i :: 0 <= i < |targets| ==> targets[i] == records[|records| - 1 - i])
    && (forall j :: 0 <= j < |records| ==> (Asked(records, extent, j) <==> |records| - |targets| <= j))
  }

  lemma TargetsOfSteps(records: seq<Name>, count: int)
    requires count >= 1
    ensures Targets(records, Steps(count)).Some? && AreAsked(records, Steps(count), Targets(records, Steps(count)).value)
  {
  }

  lemma TargetsOfName(records: seq<Name>, identity: Name)
    requires identity in Newest(records)
    ensures Targets(records, DownTo(identity)).Some?
    ensures AreAsked(records, DownTo(identity), Targets(records, DownTo(identity)).value)
  {
    NewestIndex(records, identity);
    hide IndexOf, Asked;
    BehindLast(records, identity, |records| - 1 - IndexOf(Newest(records), identity));
  }

  lemma NewestHas(records: seq<Name>, identity: Name)
    ensures identity in Newest(records) <==> identity in records
  {
    assert forall j :: 0 <= j < |records| ==> records[j] == Newest(records)[|records| - 1 - j];
  }

  /** The targets are the records asked for. */
  lemma TargetsAre(records: seq<Name>, extent: Extent)
    ensures Targets(records, extent).Some? <==> Askable(records, extent)
    ensures Askable(records, extent) ==> AreAsked(records, extent, Targets(records, extent).value)
  {
    hide AreAsked, Newest, IndexOf;
    match extent
    case Steps(count) =>
      if count >= 1 {
        TargetsOfSteps(records, count);
      }
    case DownTo(identity) =>
      NewestHas(records, identity);
      if identity in records {
        TargetsOfName(records, identity);
      }
  }

  lemma {:induction false} FindIs(files: seq<Migration>, name: Name)
    ensures match Find(files, name)
            case None => forall m :: m in files ==> m.identity != name
            case Some(m) => m in files && m.identity == name
  {
    if files != [] {
      FindIs(files[1..], name);
    }
  }

  /** Every target has a plan, its own file with a finished way back; without one for some target there are no plans. */
  lemma {:induction false} PlansAre(files: seq<Migration>, targets: seq<Name>)
    ensures match Plans(files, targets)
            case None => exists i :: 0 <= i < |targets| && !HasWayBack(files, targets[i])
            case Some(plans) =>
              && |plans| == |targets|
              && (forall i :: 0 <= i < |targets| ==> plans[i].identity == targets[i] && !NoWayBack(files, targets[i]))
  {
    if targets != [] {
      FindIs(files, targets[0]);
      PlansAre(files, targets[1..]);
      hide Find, HasWayBack, NoWayBack;
      PlanOrNot(files, targets[0]);
      if Plans(files, targets).None? && HasWayBack(files, targets[0]) {
        var i :| 0 <= i < |targets[1..]| && !HasWayBack(files, targets[1..][i]);
        assert targets[i + 1] == targets[1..][i];
      }
    }
  }

  lemma PlanOrNot(files: seq<Migration>, name: Name)
    ensures var found := Find(files, name);
            if found.Some? && CanUndo(found.value) then found.value.identity == name && !NoWayBack(files, name)
            else !HasWayBack(files, name)
  {
    FindIs(files, name);
    hide Find;
  }

  lemma {:induction false} UndoIsNotRefused(plans: seq<Migration>, limit: nat, db: Database)
    requires forall m :: m in plans ==> m.back.Some?
    ensures Undo(plans, limit, db).1 != Refused
  {
    hide Script, Without;
    if plans != [] {
      var m := plans[0];
      var (next, ok) := Script(m.back.value, m.schema, limit, db);
      if ok && limit > |m.back.value| {
        UndoIsNotRefused(plans[1..], limit - |m.back.value| - 1, next.(records := Without(next.records, m.identity)));
      }
    }
  }

  /** A rollback that asks for what is not recorded, for no step, or for a migration without a finished way back changes
      nothing. Any other is not refused. */
  ghost predicate RefusedAsAsked(files: seq<Migration>, extent: Extent, db: Database, after: Database, o: Outcome) {
    && (!Askable(db.records, extent) ==> o == Refused && after == db)
    && ((exists j :: 0 <= j < |db.records| && Asked(db.records, extent, j) && NoWayBack(files, db.records[j])) ==>
          o == Refused && after == db)
    && (Askable(db.records, extent)
        && (forall j :: 0 <= j < |db.records| && Asked(db.records, extent, j) ==> HasWayBack(files, db.records[j])) ==>
          o != Refused)
  }

  lemma PlansOrNot(files: seq<Migration>, records: seq<Name>, extent: Extent)
    requires Askable(records, extent)
    ensures var targets := Targets(records, extent);
            && targets.Some?
            && (Plans(files, targets.value).None? ==>
                  exists j :: 0 <= j < |records| && Asked(records, extent, j) && !HasWayBack(files, records[j]))
            && (Plans(files, targets.value).Some? ==>
                  forall j :: 0 <= j < |records| && Asked(records, extent, j) ==> !NoWayBack(files, records[j]))
  {
    var n := |records|;
    TargetsAre(records, extent);
    var targets := Targets(records, extent).value;
    PlansAre(files, targets);
    hide Targets, Asked, Askable, Plans, HasWayBack, NoWayBack;
    if Plans(files, targets).None? {
      var i :| 0 <= i < |targets| && !HasWayBack(files, targets[i]);
      assert Asked(records, extent, n - 1 - i) && records[n - 1 - i] == targets[i];
    } else {
      forall j | 0 <= j < n && Asked(records, extent, j)
        ensures !NoWayBack(files, records[j])
      {
        assert records[j] == targets[n - 1 - j];
      }
    }
  }

  lemma RollbackRefusals(files: seq<Migration>, extent: Extent, limit: nat, db: Database)
    ensures var (after, o) := Rollback(files, extent, limit, db);
            RefusedAsAsked(files, extent, db, after, o)
  {
    hide Targets, Asked, Askable, Plans, Undo, HasWayBack, NoWayBack;
    TargetsAre(db.records, extent);
    if Askable(db.records, extent) {
      var targets := Targets(db.records, extent).value;
      PlansOrNot(files, db.records, extent);
      PlansHaveBack(files, targets);
      if Plans(files, targets).Some? {
        UndoIsNotRefused(Plans(files, targets).value, limit, db);
      }
    }
  }

  /** The records a rollback leaves: all but those of the plans it got through. */
  lemma {:induction false} UndoForgets(plans: seq<Migration>, limit: nat, db: Database, x: Name)
    requires forall m :: m in plans ==> m.back.Some?
    ensures var (after, o) := Undo(plans, limit, db);
            && (x in after.records ==> x in db.records)
            && (x in db.records && (forall i :: 0 <= i < |plans| ==> plans[i].identity != x) ==> x in after.records)
            && (o == Done ==> (x in after.records <==> x in db.records && forall i :: 0 <= i < |plans| ==> plans[i].identity != x))
  {
    hide Script, Without;
    if plans != [] {
      var m, rest := plans[0], plans[1..];
      var (next, ok) := Script(m.back.value, m.schema, limit, db);
      ScriptKeepsRecords(m.back.value, m.schema, limit, db);
      if ok && limit > |m.back.value| {
        UndoForgets(rest, limit - |m.back.value| - 1, next.(records := Without(next.records, m.identity)), x);
        WithoutHas(next.records, m.identity, x);
        assert forall i :: 0 < i < |plans| ==> plans[i] == rest[i - 1];
        assert forall i :: 0 <= i < |rest| ==> rest[i] == plans[i + 1];
      }
    }
  }

  lemma ScriptKeepsRecords(blocks: seq<Block>, schema: Option<Name>, limit: nat, db: Database)
    ensures Script(blocks, schema, limit, db).0.records == db.records
  {
    hide RunTo;
  }

  lemma {:induction false} WithoutHas(s: seq<Name>, name: Name, x: Name)
    ensures x in Without(s, name) <==> x in s && x != name
  {
    if s != [] {
      WithoutHas(s[1..], name, x);
    }
  }

  /** What a rollback forgets: nothing it was not asked for, and all of that when it is done. */
  lemma RollbackForgets(files: seq<Migration>, extent: Extent, limit: nat, db: Database)
    ensures var (after, o) := Rollback(files, extent, limit, db);
            Forgotten(extent, db, after, o)
  {
    var n := |db.records|;
    hide Targets, Asked, Askable, Plans, Undo, HasWayBack, NoWayBack;
    TargetsAre(db.records, extent);
    if Askable(db.records, extent) {
      var targets := Targets(db.records, extent).value;
      PlansAre(files, targets);
      PlansHaveBack(files, targets);
      if Plans(files, targets).Some? {
        var plans := Plans(files, targets).value;
        forall x: Name
          ensures
            var (after, o) := Undo(plans, limit, db);
            && (x in after.records ==> x in db.records)
            && (x in db.records && !IsAsked(db.records, extent, x) ==> x in after.records)
            && (o == Done ==> (x in after.records <==> x in db.records && !IsAsked(db.records, extent, x)))
        {
          UndoForgets(plans, limit, db, x);
          assert forall i :: 0 <= i < |plans| ==> plans[i].identity == db.records[n - 1 - i] && Asked(db.records, extent, n - 1 - i);
          assert forall j :: n - |plans| <= j < n ==> db.records[j] == plans[n - 1 - j].identity;
        }
      }
    }
  }

  predicate IsAsked(records: seq<Name>, extent: Extent, x: Name) {
    exists j :: 0 <= j < |records| && records[j] == x && Asked(records, extent, j)
  }

  ghost predicate Forgotten(extent: Extent, db: Database, after: Database, o: Outcome) {
    && (forall x :: x in after.records ==> x in db.records)
    && (forall x :: x in db.records && !IsAsked(db.records, extent, x) ==> x in after.records)
    && (o == Done ==> forall x :: x in after.records <==> x in db.records && !IsAsked(db.records, extent, x))
  }

  /** A pending migration that still has a TODO ends the run: it is the run of the files before it, and is not done. */
  lemma {:induction false} ApplyUpToTodo(before: seq<Migration>, m: Migration, behind: seq<Migration>, limit: nat, db: Database)
    requires m.forwardTodo
    ensures var (next, o) := Apply(before, limit, db);
            Apply(before + [m] + behind, limit, db) == (next, if o == Done then Refused else o)
  {
    var all := before + [m] + behind;
    hide Script;
    if before == [] {
      assert all[0] == m;
    } else {
      var (next, ok) := Script(all[0].forward, all[0].schema, limit, db);
      assert all[1..] == before[1..] + [m] + behind;
      if !all[0].forwardTodo && ok && limit > |all[0].forward| {
        ApplyUpToTodo(before[1..], m, behind, limit - |all[0].forward| - 1, next.(records := next.records + [all[0].identity]));
      }
    }
  }

  lemma {:induction false} PendingConcat(a: seq<Migration>, b: seq<Migration>, records: seq<Name>)
    ensures Pending(a + b, records) == Pending(a, records) + Pending(b, records)
  {
    if a == [] {
      assert a + b == b;
    } else {
      assert (a + b)[1..] == a[1..] + b;
      PendingConcat(a[1..], b, records);
    }
  }

  /** Nothing from the first unrecorded file with a TODO on is run or recorded. */
  lemma MigrateUpToTodo(files: seq<Migration>, k: nat, limit: nat, db: Database)
    requires k < |files| && files[k].identity !in db.records && files[k].forwardTodo
    ensures var (next, o) := Migrate(files[..k], limit, db);
            Migrate(files, limit, db) == (next, if o == Done then Refused else o)
  {
    var m := files[k];
    assert files == files[..k] + ([m] + files[k + 1..]);
    PendingConcat(files[..k], [m] + files[k + 1..], db.records);
    PendingConcat([m], files[k + 1..], db.records);
    assert Pending([m], db.records) == [m];
    var before, behind := Pending(files[..k], db.records), Pending(files[k + 1..], db.records);
    hide Apply, Pending;
    assert before + ([m] + behind) == before + [m] + behind;
    ApplyUpToTodo(before, m, behind, limit, db);
  }

  /** The records grow by the first of the pending migrations, in their order, and by all of them when the run is done. */
  lemma {:induction false} ApplyRecords(pending: seq<Migration>, limit: nat, db: Database)
    ensures var (after, o) := Apply(pending, limit, db);
            && |db.records| <= |after.records| <= |db.records| + |pending|
            && after.records[..|db.records|] == db.records
            && (forall i :: |db.records| <= i < |after.records| ==> after.records[i] == pending[i - |db.records|].identity)
            && (o == Done ==> |after.records| == |db.records| + |pending|)
  {
    hide Script;
    if pending != [] && !pending[0].forwardTodo {
      var m := pending[0];
      var (next, ok) := Script(m.forward, m.schema, limit, db);
      ScriptKeepsRecords(m.forward, m.schema, limit, db);
      if ok && limit > |m.forward| {
        var recorded := next.(records := next.records + [m.identity]);
        ApplyRecords(pending[1..], limit - |m.forward| - 1, recorded);
        var after := Apply(pending, limit, db).0;
        assert after.records[..|db.records|] == after.records[..|recorded.records|][..|db.records|];
        assert after.records[|db.records|] == after.records[..|recorded.records|][|db.records|];
      }
    }
  }

  // ---- The runners as they work, statement by statement ----

  class Server {
    var db: Database
    var left: nat  // the statements the server accepts before the connection is lost

    constructor (db: Database, left: nat)
      ensures this.db == db && this.left == left
    {
      this.db, this.left := db, left;
    }

    /** One script in its schema: true when its last statement was executed. */
    method Execute(blocks: seq<Block>, schema: Option<Name>) returns (ok: bool)
      modifies this
      ensures (db, ok) == Script(blocks, schema, old(left), old(db))
      ensures ok ==> old(left) >= |blocks| && left == old(left) - |blocks|
    {
      if schema !in db.schemas {
        return false;
      }
      var i := 0;
      ScriptIs(blocks, schema, left, db);
      ghost var whole := Script(blocks, schema, left, db);
      while i < |blocks|
        invariant i <= |blocks| && i + left == old(left) && schema in db.schemas
        invariant whole == Script(blocks[i..], schema, left, db)
      {
        ScriptGoesOn(blocks, i, schema, left, db);
        hide *;
        if left == 0 {
          return false;
        }
        match Exec(blocks[i], db.schemas[schema])
        case None => return false;
        case Some(next) =>
          db := db.(schemas := db.schemas[schema := next]);
        left, i := left - 1, i + 1;
      }
      ScriptIs([], schema, left, db);
      return true;
    }

    method MigrateAll(files: seq<Migration>) returns (o: Outcome)
      modifies this
      ensures (db, o) == Migrate(files, old(left), old(db))
      ensures forall k :: 0 <= k < |files| && files[k].identity !in old(db).records && files[k].forwardTodo ==>
                db == Migrate(files[..k], old(left), old(db)).0 && o != Done
    {
      forall k | 0 <= k < |files| && files[k].identity !in db.records && files[k].forwardTodo
        ensures var (next, end) := Migrate(files[..k], left, db);
                Migrate(files, left, db) == (next, if end == Done then Refused else end)
      {
        MigrateUpToTodo(files, k, left, db);
      }
      var pending := Pending(files, db.records);
      for i := 0 to |pending|
        invariant Apply(pending, old(left), old(db)) == Apply(pending[i..], left, db)
      {
        var m := pending[i];
        assert pending[i..][1..] == pending[i + 1..];
        if m.forwardTodo {
          return Refused;
        }
        var ok := Execute(m.forward, m.schema);
        if !ok || left == 0 {
          return Failed;
        }
        db := db.(records := db.records + [m.identity]);
        left := left - 1;
      }
      return Done;
    }

    method RollbackTo(files: seq<Migration>, extent: Extent) returns (o: Outcome)
      modifies this
      ensures (db, o) == Rollback(files, extent, old(left), old(db))
      ensures RefusedAsAsked(files, extent, old(db), db, o) && Forgotten(extent, old(db), db, o)
    {
      RollbackRefusals(files, extent, left, db);
      RollbackForgets(files, extent, left, db);
      hide Targets, Plans, Without, RefusedAsAsked, Forgotten;
      var targets := Targets(db.records, extent);
      if targets.None? {
        return Refused;
      }
      var plans := Plans(files, targets.value);
      if plans.None? {
        return Refused;
      }
      PlansHaveBack(files, targets.value);
      for i := 0 to |plans.value|
        invariant Undo(plans.value, old(left), old(db)) == Undo(plans.value[i..], left, db)
      {
        var m := plans.value[i];
        assert plans.value[i..][1..] == plans.value[i + 1..];
        assert m in plans.value;
        var ok := Execute(m.back.value, m.schema);
        if !ok || left == 0 {
          return Failed;
        }
        db := db.(records := Without(db.records, m.identity));
        left := left - 1;
      }
      return Done;
    }
  }
}
