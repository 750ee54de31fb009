/** A whole migration: the blocks from one schema to the next and back, and what running them gives. */
module SchemaMigration {
  import opened NameSeqs
  import opened SchemaDdl
  import opened SchemaDraft
  import opened SchemaRestart
  import opened Sequences
  import opened Wrappers

  /** The orders the differ walks in: the new, common and dropped tables, and each common table's keys. */
  datatype Orders = Orders(created: seq<Name>, common: seq<Name>, gone: seq<Name>, keys: map<Name, KeyOrder>)

  predicate ValidOrders(o: Orders, before: Schema, after: Schema) {
    && Enumerates(o.created, after.Keys - before.Keys)
    && Enumerates(o.common, after.Keys * before.Keys)
    && Enumerates(o.gone, before.Keys - after.Keys)
    && forall t :: t in before && t in after ==> t in o.keys && ValidKeyOrder(o.keys[t], before[t], after[t])
  }

  function CreateBlocks(after: Schema, tables: seq<Name>): (blocks: seq<Block>)
    requires Elements(tables) <= after.Keys
    ensures |blocks| == |tables|
    ensures forall i :: 0 <= i < |blocks| ==> tables[i] in Elements(tables) && blocks[i] == CreateTable(tables[i], after[tables[i]])
  {
    assert forall t :: t in tables ==> t in Elements(tables);
    seq(|tables|, i requires 0 <= i < |tables| => CreateTable(tables[i], after[tables[i]]))
  }

  function DropBlocks(tables: seq<Name>): (blocks: seq<Block>)
    ensures |blocks| == |tables|
    ensures forall i :: 0 <= i < |blocks| ==> blocks[i] == DropTable(tables[i])
  {
    seq(|tables|, i requires 0 <= i < |tables| => DropTable(tables[i]))
  }

  function CommonAlters(before: Schema, after: Schema, o: Orders, t: Name): seq<Alter>
    requires ValidOrders(o, before, after) && t in before && t in after
  {
    if before[t] == after[t] then [] else TableAlters(before[t], after[t], o.keys[t])
  }

  function CommonBlocks(before: Schema, after: Schema, o: Orders, n: nat): seq<Block>
    requires ValidOrders(o, before, after) && n <= |o.common|
  {
    if n == 0 then []
    else
      var t := o.common[n - 1];
      assert t in Elements(o.common);
      CommonBlocks(before, after, o, n - 1) + Changes(t, CommonAlters(before, after, o, t))
  }

  /** The drafted blocks: new tables, changed tables, dropped tables. */
  function Draft(before: Schema, after: Schema, o: Orders): seq<Block>
    requires ValidOrders(o, before, after)
  {
    CreateBlocks(after, o.created) + CommonBlocks(before, after, o, |o.common|) + DropBlocks(o.gone)
  }

  /** The differ's loop over the tables in both schemas. */
  method CommonChanges(before: Schema, after: Schema, o: Orders) returns (blocks: seq<Block>)
    requires ValidOrders(o, before, after)
    ensures blocks == CommonBlocks(before, after, o, |o.common|)
  {
    blocks := [];
    for i := 0 to |o.common|
      invariant blocks == CommonBlocks(before, after, o, i)
    {
      var t := o.common[i];
      assert t in Elements(o.common);
      var alters := [];
      if before[t] != after[t] {
        alters := TableChanges(before[t], after[t], o.keys[t]);
      }
      blocks := blocks + Changes(t, alters);
    }
  }

  /** The differ over two schemas: new tables, changed tables, dropped tables. */
  method DraftChanges(before: Schema, after: Schema, o: Orders) returns (blocks: seq<Block>)
    requires ValidOrders(o, before, after)
    ensures blocks == Draft(before, after, o)
  {
    var creates, drops := [], [];
    for i := 0 to |o.created|
      invariant creates == CreateBlocks(after, o.created)[..i]
    {
      assert o.created[i] in Elements(o.created);
      creates := creates + [CreateTable(o.created[i], after[o.created[i]])];
    }
    var commons := CommonChanges(before, after, o);
    for i := 0 to |o.gone|
      invariant drops == DropBlocks(o.gone)[..i]
    {
      drops := drops + [DropTable(o.gone[i])];
    }
    blocks := creates + commons + drops;
  }

  // ---- No two blocks concern the same thing ----

  predicate AltersApart(a: seq<Alter>) {
    forall i, j :: 0 <= i < j < |a| ==> a[i].Todo? || AlteredItem(a[i]) != AlteredItem(a[j])
  }

  predicate ItemsIn(a: seq<Alter>, items: set<Item>) {
    forall i :: 0 <= i < |a| ==> a[i].Todo? || AlteredItem(a[i]) in items
  }

  function ColumnItems(names: set<Name>): set<Item> {
    set n | n in names :: Column(n)
  }

  function KeyItems(names: set<Name>): set<Item> {
    set n | n in names :: Key(n)
  }

  lemma AppendAlters(a: seq<Alter>, b: seq<Alter>, itemsA: set<Item>, itemsB: set<Item>)
    requires AltersApart(a) && AltersApart(b) && ItemsIn(a, itemsA) && ItemsIn(b, itemsB)
    requires itemsA !! itemsB && Nothing !in itemsA
    ensures AltersApart(a + b) && ItemsIn(a + b, itemsA + itemsB)
  {
  }

  lemma {:induction false} ColumnAltersApart(before: Table, after: Table, p: nat)
    requires p <= |after.names|
    ensures AltersApart(ColumnAlters(before, after, p))
    ensures ItemsIn(ColumnAlters(before, after, p), ColumnItems(Elements(after.names[..p])))
  {
    if p > 0 {
      ColumnAltersApart(before, after, p - 1);
      PrefixElements(after.names, p - 1);
      var c := after.names[p - 1];
      var items := ColumnItems(Elements(after.names[..p - 1]));
      AppendAlters(ColumnAlters(before, after, p - 1), ColumnAlter(before, after, p - 1), items, {Column(c)});
      assert items + {Column(c)} == ColumnItems(Elements(after.names[..p]));
    }
  }

  lemma {:induction false} KeyAltersApart(before: Table, after: Table, order: seq<Name>, n: nat)
    requires Enumerates(order, after.keys.Keys) && n <= |order|
    ensures AltersApart(KeyAlters(before, after, order, n))
    ensures ItemsIn(KeyAlters(before, after, order, n), KeyItems(Elements(order[..n])))
  {
    if n > 0 {
      KeyAltersApart(before, after, order, n - 1);
      PrefixElements(order, n - 1);
      var k := order[n - 1];
      var items := KeyItems(Elements(order[..n - 1]));
      AppendAlters(KeyAlters(before, after, order, n - 1), KeyAlter(before, after, k), items, {Key(k)});
      assert items + {Key(k)} == KeyItems(Elements(order[..n]));
    }
  }

  lemma ColumnsApart(before: Table, after: Table)
    ensures var alters := ColumnAlters(before, after, |after.names|) +
                          DropAlters(Keep(before.names, before.columns.Keys - after.columns.Keys));
            AltersApart(alters) && ItemsIn(alters, ColumnItems(before.columns.Keys + after.columns.Keys))
  {
    var n := |after.names|;
    var kept, dropped := after.columns.Keys, before.columns.Keys - after.columns.Keys;
    assert after.names[..n] == after.names;
    ColumnAltersApart(before, after, n);
    KeepElements(before.names, dropped);
    DropsApart(Keep(before.names, dropped));
    AppendAlters(ColumnAlters(before, after, n), DropAlters(Keep(before.names, dropped)), ColumnItems(kept), ColumnItems(dropped));
  }

  lemma KeysApart(before: Table, after: Table, o: KeyOrder)
    requires ValidKeyOrder(o, before, after)
    ensures var alters := KeyAlters(before, after, o.listed, |o.listed|) + (GoneKeyAlters(o.gone) + OptionAlters(before, after));
            AltersApart(alters) && ItemsIn(alters, KeyItems(before.keys.Keys + after.keys.Keys))
  {
    var m := |o.listed|;
    assert o.listed[..m] == o.listed;
    var gone := KeyItems(Elements(o.gone));
    KeyAltersApart(before, after, o.listed, m);
    GoneApart(o.gone);
    AppendAlters(GoneKeyAlters(o.gone), OptionAlters(before, after), gone, {});
    AppendAlters(KeyAlters(before, after, o.listed, m), GoneKeyAlters(o.gone) + OptionAlters(before, after),
                 KeyItems(after.keys.Keys), gone + {});
  }

  lemma TableAltersApart(before: Table, after: Table, o: KeyOrder)
    requires ValidKeyOrder(o, before, after)
    ensures AltersApart(TableAlters(before, after, o))
  {
    ColumnsApart(before, after);
    KeysApart(before, after, o);
    AppendAlters(ColumnAlters(before, after, |after.names|) +
                 DropAlters(Keep(before.names, before.columns.Keys - after.columns.Keys)),
                 KeyAlters(before, after, o.listed, |o.listed|) + (GoneKeyAlters(o.gone) + OptionAlters(before, after)),
                 ColumnItems(before.columns.Keys + after.columns.Keys), KeyItems(before.keys.Keys + after.keys.Keys));
  }

  lemma DropsApart(names: seq<Name>)
    requires Distinct(names)
    ensures AltersApart(DropAlters(names)) && ItemsIn(DropAlters(names), ColumnItems(Elements(names)))
  {
  }

  lemma GoneApart(names: seq<Name>)
    requires Distinct(names)
    ensures AltersApart(GoneKeyAlters(names)) && ItemsIn(GoneKeyAlters(names), KeyItems(Elements(names)))
  {
  }

  predicate TablesIn(blocks: seq<Block>, tables: set<Name>) {
    forall i :: 0 <= i < |blocks| ==> blocks[i].table in tables
  }

  lemma AppendBlocks(a: seq<Block>, b: seq<Block>, tablesA: set<Name>, tablesB: set<Name>)
    requires AllApart(a) && AllApart(b) && TablesIn(a, tablesA) && TablesIn(b, tablesB) && tablesA !! tablesB
    ensures AllApart(a + b) && TablesIn(a + b, tablesA + tablesB)
  {
  }

  lemma ChangesApart(t: Name, alters: seq<Alter>)
    requires AltersApart(alters)
    ensures AllApart(Changes(t, alters)) && TablesIn(Changes(t, alters), {t})
  {
  }

  lemma CommonAltersApart(before: Schema, after: Schema, o: Orders, t: Name)
    requires ValidOrders(o, before, after) && t in before && t in after
    ensures AltersApart(CommonAlters(before, after, o, t))
  {
    if before[t] != after[t] {
      TableAltersApart(before[t], after[t], o.keys[t]);
    }
    hide TableAlters;
  }

  lemma CommonNext(before: Schema, after: Schema, o: Orders, n: nat)
    requires ValidOrders(o, before, after) && 0 < n <= |o.common|
    ensures var t := o.common[n - 1];
            && t in before && t in after && Elements(o.common[..n]) == Elements(o.common[..n - 1]) + {t} && t !in Elements(o.common[..n - 1])
            && CommonBlocks(before, after, o, n) == CommonBlocks(before, after, o, n - 1) + Changes(t, CommonAlters(before, after, o, t))
  {
    PrefixElements(o.common, n - 1);
    assert o.common[n - 1] in Elements(o.common);
    hide CommonAlters, Changes, ValidKeyOrder;
  }

  lemma NoCommons(before: Schema, after: Schema, o: Orders)
    requires ValidOrders(o, before, after)
    ensures AllApart(CommonBlocks(before, after, o, 0)) && TablesIn(CommonBlocks(before, after, o, 0), Elements(o.common[..0]))
  {
    hide ValidOrders;
  }

  lemma {:induction false} CommonBlocksApart(before: Schema, after: Schema, o: Orders, n: nat)
    requires ValidOrders(o, before, after) && n <= |o.common|
    ensures AllApart(CommonBlocks(before, after, o, n)) && TablesIn(CommonBlocks(before, after, o, n), Elements(o.common[..n]))
  {
    hide *;
    if n == 0 {
      NoCommons(before, after, o);
    } else {
      var t := o.common[n - 1];
      CommonBlocksApart(before, after, o, n - 1);
      CommonNext(before, after, o, n);
      CommonAltersApart(before, after, o, t);
      ChangesApart(t, CommonAlters(before, after, o, t));
      AppendBlocks(CommonBlocks(before, after, o, n - 1), Changes(t, CommonAlters(before, after, o, t)), Elements(o.common[..n - 1]), {t});
    }
  }

  lemma DraftApart(before: Schema, after: Schema, o: Orders)
    requires ValidOrders(o, before, after)
    ensures AllApart(Draft(before, after, o))
  {
    CommonBlocksApart(before, after, o, |o.common|);
    assert o.common[..|o.common|] == o.common;
    var creates, commons := CreateBlocks(after, o.created), CommonBlocks(before, after, o, |o.common|);
    AppendBlocks(creates, commons, Elements(o.created), Elements(o.common));
    AppendBlocks(creates + commons, DropBlocks(o.gone), Elements(o.created) + Elements(o.common), Elements(o.gone));
  }

  // ---- What is left to a person ----

  lemma {:induction false} ColumnsNoTodo(before: Table, after: Table, p: nat)
    requires p <= |after.names|
    ensures Todo !in ColumnAlters(before, after, p)
  {
    if p > 0 {
      ColumnsNoTodo(before, after, p - 1);
    }
  }

  lemma {:induction false} KeysTodo(before: Table, after: Table, order: seq<Name>, n: nat)
    requires Elements(order) == after.keys.Keys && n <= |order|
    ensures Todo in KeyAlters(before, after, order, n) <==>
            exists i :: 0 <= i < n && order[i] in before.keys && order[i] in after.keys && before.keys[order[i]] != after.keys[order[i]]
  {
    if n > 0 {
      assert order[n - 1] in Elements(order);
      KeysTodo(before, after, order, n - 1);
      assert Todo in KeyAlter(before, after, order[n - 1]) <==>
             order[n - 1] in before.keys && before.keys[order[n - 1]] != after.keys[order[n - 1]];
      hide KeyAlter;
    }
  }

  lemma KeysListed(before: Table, after: Table, order: seq<Name>)
    requires Elements(order) == after.keys.Keys
    ensures (exists i :: 0 <= i < |order| && order[i] in before.keys && order[i] in after.keys
                         && before.keys[order[i]] != after.keys[order[i]]) <==>
            exists k :: k in before.keys && k in after.keys && before.keys[k] != after.keys[k]
  {
    if k :| k in before.keys && k in after.keys && before.keys[k] != after.keys[k] {
      assert k in Elements(order);
      var i :| 0 <= i < |order| && order[i] == k;
    }
  }

  /** A table's blocks leave something to a person exactly when a key, a constraint or an option changed. */
  lemma TableTodo(before: Table, after: Table, o: KeyOrder)
    requires ValidKeyOrder(o, before, after)
    ensures Todo in TableAlters(before, after, o) <==>
            (exists k :: k in before.keys && k in after.keys && before.keys[k] != after.keys[k])
            || before.other != after.other || before.options != after.options
  {
    ColumnsNoTodo(before, after, |after.names|);
    KeysTodo(before, after, o.listed, |o.listed|);
    KeysListed(before, after, o.listed);
    var drops := DropAlters(Keep(before.names, before.columns.Keys - after.columns.Keys));
    assert Todo !in drops && Todo !in GoneKeyAlters(o.gone);
    hide ColumnAlters, KeyAlters, Keep;
  }

  predicate LeavesTodo(blocks: seq<Block>) {
    exists i :: 0 <= i < |blocks| && blocks[i].Change? && blocks[i].alter.Todo?
  }

  lemma TodoConcat(a: seq<Block>, b: seq<Block>)
    ensures LeavesTodo(a + b) <==> LeavesTodo(a) || LeavesTodo(b)
  {
    if i :| 0 <= i < |a| && a[i].Change? && a[i].alter.Todo? {
      assert (a + b)[i] == a[i];
    }
    if i :| 0 <= i < |b| && b[i].Change? && b[i].alter.Todo? {
      assert (a + b)[|a| + i] == b[i];
    }
  }

  lemma ChangesTodo(t: Name, alters: seq<Alter>)
    ensures LeavesTodo(Changes(t, alters)) <==> Todo in alters
  {
    if Todo in alters {
      var i :| 0 <= i < |alters| && alters[i] == Todo;
      assert Changes(t, alters)[i].alter.Todo?;
    }
  }

  /** A changed key, constraint or option. */
  predicate Unfinished(before: Table, after: Table) {
    (exists k :: k in before.keys && k in after.keys && before.keys[k] != after.keys[k])
    || before.other != after.other || before.options != after.options
  }

  lemma CommonTodo(before: Schema, after: Schema, o: Orders, t: Name)
    requires ValidOrders(o, before, after) && t in before && t in after
    ensures Todo in CommonAlters(before, after, o, t) <==> Unfinished(before[t], after[t])
  {
    TableTodo(before[t], after[t], o.keys[t]);
    hide TableAlters, ValidKeyOrder;
  }

  predicate UnfinishedIn(before: Schema, after: Schema, tables: seq<Name>) {
    exists t :: t in tables && t in before && t in after && Unfinished(before[t], after[t])
  }

  lemma UnfinishedMore(before: Schema, after: Schema, tables: seq<Name>, t: Name)
    requires t in before && t in after
    ensures UnfinishedIn(before, after, tables + [t]) <==> UnfinishedIn(before, after, tables) || Unfinished(before[t], after[t])
  {
    hide Unfinished;
    assert forall x :: x in tables + [t] <==> x in tables || x == t;
  }

  lemma NothingTodo(before: Schema, after: Schema, o: Orders)
    requires ValidOrders(o, before, after)
    ensures !LeavesTodo(CommonBlocks(before, after, o, 0)) && !UnfinishedIn(before, after, [])
  {
    hide ValidOrders;
  }

  lemma {:induction false} CommonsTodo(before: Schema, after: Schema, o: Orders, n: nat)
    requires ValidOrders(o, before, after) && n <= |o.common|
    ensures LeavesTodo(CommonBlocks(before, after, o, n)) <==> UnfinishedIn(before, after, o.common[..n])
  {
    hide *;
    if n == 0 {
      NothingTodo(before, after, o);
      assert o.common[..0] == [];
    } else {
      var t := o.common[n - 1];
      CommonsTodo(before, after, o, n - 1);
      CommonNext(before, after, o, n);
      TodoConcat(CommonBlocks(before, after, o, n - 1), Changes(t, CommonAlters(before, after, o, t)));
      ChangesTodo(t, CommonAlters(before, after, o, t));
      CommonTodo(before, after, o, t);
      assert o.common[..n] == o.common[..n - 1] + [t];
      UnfinishedMore(before, after, o.common[..n - 1], t);
    }
  }

  /** The drafted script leaves a TODO exactly when some table in both schemas has a changed key, constraint or option: so
      it is complete exactly when it leaves none and no common column moved. */
  lemma DraftTodo(before: Schema, after: Schema, o: Orders)
    requires ValidOrders(o, before, after)
    ensures LeavesTodo(Draft(before, after, o)) <==> exists t :: t in before && t in after && Unfinished(before[t], after[t])
    ensures Complete(before, after) <==>
            !LeavesTodo(Draft(before, after, o)) && forall t :: t in before && t in after ==> SameOrder(before[t], after[t])
  {
    var creates, commons, drops := CreateBlocks(after, o.created), CommonBlocks(before, after, o, |o.common|), DropBlocks(o.gone);
    CommonsTodo(before, after, o, |o.common|);
    AllCommons(before, after, o);
    assert !LeavesTodo(creates) && !LeavesTodo(drops);
    TodoConcat(creates, commons);
    TodoConcat(creates + commons, drops);
    hide LeavesTodo, CreateBlocks, CommonBlocks, DropBlocks, SameOrder, ValidOrders;
    forall t | t in before && t in after
      ensures NoTodo(before[t], after[t]) <==> !Unfinished(before[t], after[t])
    {
    }
    hide NoTodo, Unfinished;
  }

  lemma AllCommons(before: Schema, after: Schema, o: Orders)
    requires ValidOrders(o, before, after)
    ensures forall t :: t in o.common[..|o.common|] <==> t in before && t in after
  {
    assert o.common[..|o.common|] == o.common;
    assert forall t :: t in o.common <==> t in Elements(o.common);
  }

  // ---- What a whole run gives ----

  /** The schema with the first n tables of the list created. */
  function Created(after: Schema, tables: seq<Name>, n: nat, s: Schema): Schema
    requires Elements(tables) <= after.Keys && n <= |tables|
  {
    if n == 0 then s
    else
      PrefixElements(tables, n - 1);
      Created(after, tables, n - 1, s)[tables[n - 1] := after[tables[n - 1]]]
  }

  lemma {:induction false} CreatedTables(after: Schema, tables: seq<Name>, n: nat, s: Schema)
    requires Elements(tables) <= after.Keys && Distinct(tables) && n <= |tables|
    ensures Created(after, tables, n, s).Keys == s.Keys + Elements(tables[..n])
    ensures forall t :: t in s && t !in tables ==> Created(after, tables, n, s)[t] == s[t]
    ensures forall t :: t in tables[..n] ==> Created(after, tables, n, s)[t] == after[t]
  {
    if n > 0 {
      CreatedTables(after, tables, n - 1, s);
      PrefixElements(tables, n - 1);
      SplitAt(tables, n - 1, {});
    }
  }

  lemma CreateStep(after: Schema, tables: seq<Name>, n: nat, s: Schema)
    requires Elements(tables) <= after.Keys && Elements(tables) !! s.Keys && Distinct(tables) && n < |tables|
    ensures Exec(CreateBlocks(after, tables)[n], Created(after, tables, n, s)) == Some(Created(after, tables, n + 1, s))
  {
    PrefixElements(tables, n);
    CreatedTables(after, tables, n, s);
  }

  lemma {:induction false} CreatesRun(after: Schema, tables: seq<Name>, n: nat, s: Schema)
    requires Elements(tables) <= after.Keys && Elements(tables) !! s.Keys && Distinct(tables) && n <= |tables|
    ensures Run(CreateBlocks(after, tables)[..n], s) == Some(Created(after, tables, n, s))
  {
    hide CreateBlocks, Run, Exec, Distinct, Elements;
    RunNone(CreateBlocks(after, tables), s);
    if n > 0 {
      CreatesRun(after, tables, n - 1, s);
      CreateStep(after, tables, n - 1, s);
      RunNext(CreateBlocks(after, tables), n - 1, s, Created(after, tables, n - 1, s));
    }
  }

  lemma {:induction false} DropsRunAll(tables: seq<Name>, n: nat, s: Schema)
    requires n <= |tables|
    ensures Run(DropBlocks(tables)[..n], s) == Some(s - Elements(tables[..n]))
  {
    hide Run, DropBlocks;
    RunNone(DropBlocks(tables), s);
    if n == 0 {
      assert s - Elements(tables[..0]) == s;
    } else {
      DropsRunAll(tables, n - 1, s);
      RunNext(DropBlocks(tables), n - 1, s, s - Elements(tables[..n - 1]));
      PrefixElements(tables, n - 1);
      assert s - Elements(tables[..n - 1]) - {tables[n - 1]} == s - Elements(tables[..n]);
    }
  }

  lemma AllDropped(tables: seq<Name>, s: Schema)
    ensures Run(DropBlocks(tables), s) == Some(s - Elements(tables))
  {
    DropsRunAll(tables, |tables|, s);
    assert DropBlocks(tables)[..|tables|] == DropBlocks(tables) && tables[..|tables|] == tables;
  }

  lemma AllCreated(after: Schema, tables: seq<Name>, s: Schema)
    requires Elements(tables) <= after.Keys && Elements(tables) !! s.Keys && Distinct(tables)
    ensures Run(CreateBlocks(after, tables), s) == Some(Created(after, tables, |tables|, s))
  {
    hide *;
    CreatesRun(after, tables, |tables|, s);
    assert CreateBlocks(after, tables)[..|tables|] == CreateBlocks(after, tables);
  }

  /** Nothing is left to a person and no common column moved, in any common table. */
  predicate Complete(before: Schema, after: Schema) {
    forall t :: t in before && t in after ==> SameOrder(before[t], after[t]) && NoTodo(before[t], after[t])
  }

  /** One common table after its blocks. */
  ghost predicate Settled(t: Table, before: Table, after: Table) {
    t == after <==> SameOrder(before, after) && NoTodo(before, after)
  }

  lemma CommonRun(before: Schema, after: Schema, o: Orders, t: Name) returns (table: Table)
    requires ValidOrders(o, before, after) && t in before && t in after
    ensures RunAlters(CommonAlters(before, after, o, t), before[t]) == Some(table)
    ensures Settled(table, before[t], after[t])
  {
    if before[t] == after[t] {
      table := before[t];
    } else {
      table := TableDraft(before[t], after[t], o.keys[t]);
    }
  }

  lemma CommonsRunNext(before: Schema, after: Schema, o: Orders, n: nat, t: Name, s: Schema, mid: Schema, table: Table)
    requires ValidOrders(o, before, after) && 0 < n <= |o.common| && t == o.common[n - 1] && t in before && t in after
    requires Run(CommonBlocks(before, after, o, n - 1), s) == Some(mid)
    requires t in mid && mid[t] == before[t]
    requires RunAlters(CommonAlters(before, after, o, t), before[t]) == Some(table)
    ensures Run(CommonBlocks(before, after, o, n), s) == Some(mid[t := table])
  {
    RunChanges(t, CommonAlters(before, after, o, t), mid);
    RunThen(CommonBlocks(before, after, o, n - 1), Changes(t, CommonAlters(before, after, o, t)), s, mid);
  }

  /** The first n common tables are settled, the others are as they were. */
  ghost predicate CommonsAt(last: Schema, s: Schema, before: Schema, after: Schema, settled: set<Name>) {
    && last.Keys == s.Keys
    && settled <= before.Keys * after.Keys * s.Keys
    && forall t :: t in s ==> if t in settled then Settled(last[t], before[t], after[t]) else last[t] == s[t]
  }

  lemma SettleOne(mid: Schema, s: Schema, before: Schema, after: Schema, settled: set<Name>, t: Name, table: Table)
    requires CommonsAt(mid, s, before, after, settled)
    requires t in before && t in after && t in s && Settled(table, before[t], after[t])
    ensures CommonsAt(mid[t := table], s, before, after, settled + {t})
  {
    var last := mid[t := table];
    assert last.Keys == s.Keys;
    forall u | u in s
      ensures if u in settled + {t} then u in before && u in after && Settled(last[u], before[u], after[u]) else last[u] == s[u]
    {
      assert u != t ==> last[u] == mid[u];
    }
  }

  lemma {:induction false} CommonsRun(before: Schema, after: Schema, o: Orders, n: nat, s: Schema) returns (last: Schema)
    requires ValidOrders(o, before, after) && n <= |o.common|
    requires forall t :: t in before ==> t in s && s[t] == before[t]
    ensures Run(CommonBlocks(before, after, o, n), s) == Some(last)
    ensures CommonsAt(last, s, before, after, Elements(o.common[..n]))
  {
    if n == 0 {
      last := s;
    } else {
      var mid := CommonsRun(before, after, o, n - 1, s);
      var t := o.common[n - 1];
      PrefixElements(o.common, n - 1);
      assert t in Elements(o.common) && mid[t] == before[t];
      var table := CommonRun(before, after, o, t);
      CommonsRunNext(before, after, o, n, t, s, mid, table);
      last := mid[t := table];
      SettleOne(mid, s, before, after, Elements(o.common[..n - 1]), t, table);
    }
  }

  lemma DraftIs(before: Schema, after: Schema, o: Orders)
    requires ValidOrders(o, before, after)
    ensures Draft(before, after, o) ==
            CreateBlocks(after, o.created) + CommonBlocks(before, after, o, |o.common|) + DropBlocks(o.gone)
  {
    hide CreateBlocks, CommonBlocks, DropBlocks, Distinct;
  }

  /** A drafted migration runs on its old schema without an error, and it gives exactly the new one if and only if no
      TODO was left and no common column moved. */
  lemma DraftReaches(before: Schema, after: Schema, o: Orders) returns (last: Schema)
    requires ValidOrders(o, before, after)
    ensures Run(Draft(before, after, o), before) == Some(last)
    ensures last == after <==> Complete(before, after)
  {
    hide *;
    DraftIs(before, after, o);
    OrdersSay(before, after, o);
    var n := |o.common|;
    var creates, commons, drops := CreateBlocks(after, o.created), CommonBlocks(before, after, o, n), DropBlocks(o.gone);
    var made := Created(after, o.created, |o.created|, before);
    AllCreated(after, o.created, before);
    MadeTables(before, after, o, made);
    var mid := CommonsRun(before, after, o, n, made);
    last := mid - Elements(o.gone);
    AllDropped(o.gone, mid);
    ScriptOf3(creates, commons, drops, before, made, mid);
    CompleteWhen(before, after, made, mid);
  }

  lemma OrdersSay(before: Schema, after: Schema, o: Orders)
    requires ValidOrders(o, before, after)
    ensures Elements(o.created) <= after.Keys && Elements(o.created) !! before.Keys && Distinct(o.created)
    ensures o.common[..|o.common|] == o.common && Elements(o.common) == before.Keys * after.Keys
    ensures Elements(o.gone) == before.Keys - after.Keys
  {
    hide Elements, Distinct;
  }

  lemma MadeTables(before: Schema, after: Schema, o: Orders, made: Schema)
    requires ValidOrders(o, before, after) && made == Created(after, o.created, |o.created|, before)
    ensures made.Keys == before.Keys + after.Keys
    ensures forall t :: t in made ==> made[t] == if t in before then before[t] else after[t]
  {
    assert o.created[..|o.created|] == o.created;
    CreatedTables(after, o.created, |o.created|, before);
    assert forall t :: t in o.created <==> t in Elements(o.created);
  }

  lemma ScriptOf3(a: seq<Block>, b: seq<Block>, c: seq<Block>, s: Schema, t: Schema, u: Schema)
    requires Run(a, s) == Some(t) && Run(b, t) == Some(u)
    ensures Run(a + b + c, s) == Run(c, u)
  {
    RunThen(a, b, s, t);
    RunThen(a + b, c, s, u);
  }

  lemma CompleteWhen(before: Schema, after: Schema, made: Schema, mid: Schema)
    requires made.Keys == before.Keys + after.Keys
    requires forall t :: t in made ==> made[t] == if t in before then before[t] else after[t]
    requires CommonsAt(mid, made, before, after, before.Keys * after.Keys)
    ensures mid - (before.Keys - after.Keys) == after <==> Complete(before, after)
  {
    hide SameOrder, NoTodo;
    var last := mid - (before.Keys - after.Keys);
    assert last.Keys == after.Keys;
    forall t | t in after
      ensures last[t] == after[t] <==> t !in before || (SameOrder(before[t], after[t]) && NoTodo(before[t], after[t]))
    {
      assert last[t] == mid[t];
    }
  }

  /** A migration may stop behind any statement and be run again, and gives the new schema, exactly when it is complete:
      otherwise not even its first full run does. */
  lemma DraftRestartable(before: Schema, after: Schema, o: Orders)
    requires ValidOrders(o, before, after)
    ensures Restarts(Draft(before, after, o), before, after) <==> Complete(before, after)
  {
    hide Run, Draft, Complete;
    var last := DraftReaches(before, after, o);
    DraftApart(before, after, o);
    if Complete(before, after) {
      Restartable(Draft(before, after, o), before, after);
    }
  }

  /** The way back is a migration of the same kind, complete exactly when the way forward is: then it is restartable and
      undoes it. */
  lemma DraftInvertible(before: Schema, after: Schema, o: Orders, back: Orders)
    requires ValidOrders(o, before, after) && ValidOrders(back, after, before)
    ensures Restarts(Draft(before, after, o), before, after) <==> Restarts(Draft(after, before, back), after, before)
  {
    hide Restarts, Draft;
    DraftRestartable(before, after, o);
    DraftRestartable(after, before, back);
    if Complete(before, after) {
      CompleteBothWays(before, after);
    } else if Complete(after, before) {
      CompleteBothWays(after, before);
    }
  }

  lemma CompleteBothWays(before: Schema, after: Schema)
    requires Complete(before, after)
    ensures Complete(after, before)
  {
  }

  /** For instance, swapping two columns gets no block at all, so no run of the migration gives the new schema. */
  lemma MovedColumnIsNotDrafted(o: Orders)
    requires ValidOrders(o, TwoColumns("a", "b"), TwoColumns("b", "a"))
    ensures Draft(TwoColumns("a", "b"), TwoColumns("b", "a"), o) == []
    ensures TwoColumns("a", "b") != TwoColumns("b", "a")
  {
    var t := Name("t");
    var before, after := TwoColumns("a", "b"), TwoColumns("b", "a");
    assert before[t].names[0] != after[t].names[0];
    assert Elements(o.created) == {} && Elements(o.gone) == {} && Elements(o.common) == {t};
    NoElements(o.created);
    NoElements(o.gone);
    OneElement(o.common, t);
    var k := o.keys[t];
    NoElements(k.listed);
    NoElements(k.gone);
    var dropped := Keep(before[t].names, before[t].columns.Keys - after[t].columns.Keys);
    KeepElements(before[t].names, before[t].columns.Keys - after[t].columns.Keys);
    NoElements(dropped);
    assert ColumnAlters(before[t], after[t], 1) == [];
    assert ColumnAlters(before[t], after[t], 2) == [];
    assert TableAlters(before[t], after[t], k) == [];
    assert CommonBlocks(before, after, o, 1) == [];
  }

  function TwoColumns(first: string, second: string): Schema
    requires first != second
  {
    var columns := map[Name(first) := Sql("int"), Name(second) := Sql("int")];
    var d := Definition([Name(first), Name(second)], columns, map[], [], Sql(")"));
    assert d.Valid() by {
      assert d.names == [Name(first), Name(second)];
      assert Name(first) in d.names && Name(second) in d.names;
    }
    map[Name("t") := d]
  }

  lemma NoElements(s: seq<Name>)
    ensures Elements(s) == {} <==> s == []
  {
    if s != [] {
      assert s[0] in Elements(s);
    }
  }

  lemma OneElement(s: seq<Name>, x: Name)
    requires Distinct(s)
    ensures Elements(s) == {x} <==> s == [x]
  {
    if |s| > 1 {
      assert s[0] in Elements(s) && s[1] in Elements(s);
    } else if |s| == 1 {
      assert s[0] in Elements(s);
    }
  }
}
