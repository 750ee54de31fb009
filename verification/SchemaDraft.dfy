/** The differ: the blocks that take one table, and one schema, from its old definition to its new one. */
module SchemaDraft {
  import opened NameSeqs
  import opened SchemaDdl
  import opened SchemaRestart
  import opened Sequences
  import opened Wrappers

  /** The first p columns of `after`: added where they are missing, modified where they differ. */
  function ColumnAlters(before: Table, after: Table, p: nat): seq<Alter>
    requires p <= |after.names|
  {
    if p == 0 then [] else ColumnAlters(before, after, p - 1) + ColumnAlter(before, after, p - 1)
  }

  function ColumnAlter(before: Table, after: Table, p: nat): seq<Alter>
    requires p < |after.names|
  {
    var c := after.names[p];
    if c !in before.columns then
      [AddColumn(c, after.columns[c], if p == 0 then First else After(after.names[p - 1]))]
    else if before.columns[c] != after.columns[c] then [ModifyColumn(c, after.columns[c])]
    else []
  }

  function DropAlters(names: seq<Name>): (alters: seq<Alter>)
    ensures |alters| == |names|
    ensures forall i :: 0 <= i < |alters| ==> alters[i] == DropColumn(names[i])
  {
    seq(|names|, i requires 0 <= i < |names| => DropColumn(names[i]))
  }

  /** The first n keys of `after` in the order given: added where missing, left to a person where changed. */
  function KeyAlters(before: Table, after: Table, order: seq<Name>, n: nat): seq<Alter>
    requires Elements(order) == after.keys.Keys && n <= |order|
  {
    if n == 0 then [] else KeyAlters(before, after, order, n - 1) + KeyAlter(before, after, order[n - 1])
  }

  function KeyAlter(before: Table, after: Table, k: Name): seq<Alter>
    requires k in after.keys
  {
    if k !in before.keys then [AddKey(k, after.keys[k])]
    else if before.keys[k] != after.keys[k] then [Todo]
    else []
  }

  function GoneKeyAlters(order: seq<Name>): (alters: seq<Alter>)
    ensures |alters| == |order|
    ensures forall i :: 0 <= i < |alters| ==> alters[i] == DropKey(order[i])
  {
    seq(|order|, i requires 0 <= i < |order| => DropKey(order[i]))
  }

  function OptionAlters(before: Table, after: Table): seq<Alter> {
    if before.other != after.other || before.options != after.options then [Todo] else []
  }

  /** The order in which the differ meets the keys of the new definition and those that are gone (a set's order). */
  datatype KeyOrder = KeyOrder(listed: seq<Name>, gone: seq<Name>)

  predicate ValidKeyOrder(o: KeyOrder, before: Table, after: Table) {
    Enumerates(o.listed, after.keys.Keys) && Enumerates(o.gone, before.keys.Keys - after.keys.Keys)
  }

  function TableAlters(before: Table, after: Table, o: KeyOrder): seq<Alter>
    requires ValidKeyOrder(o, before, after)
  {
    ColumnAlters(before, after, |after.names|) +
    DropAlters(Keep(before.names, before.columns.Keys - after.columns.Keys)) +
    (KeyAlters(before, after, o.listed, |o.listed|) + (GoneKeyAlters(o.gone) + OptionAlters(before, after)))
  }

  /** The differ's loop over the columns of the new definition. */
  method ColumnChanges(before: Table, after: Table) returns (alters: seq<Alter>)
    ensures alters == ColumnAlters(before, after, |after.names|)
  {
    alters := [];
    for p := 0 to |after.names|
      invariant alters == ColumnAlters(before, after, p)
    {
      var c := after.names[p];
      assert c in Elements(after.names);
      if c !in before.columns {
        var place := if p == 0 then First else After(after.names[p - 1]);
        alters := alters + [AddColumn(c, after.columns[c], place)];
      } else if before.columns[c] != after.columns[c] {
        alters := alters + [ModifyColumn(c, after.columns[c])];
      }
    }
  }

  /** The differ's loop over the keys of the new definition. */
  method KeyChanges(before: Table, after: Table, order: seq<Name>) returns (alters: seq<Alter>)
    requires Elements(order) == after.keys.Keys
    ensures alters == KeyAlters(before, after, order, |order|)
  {
    alters := [];
    for i := 0 to |order|
      invariant alters == KeyAlters(before, after, order, i)
    {
      var k := order[i];
      assert k in Elements(order);
      if k !in before.keys {
        alters := alters + [AddKey(k, after.keys[k])];
      } else if before.keys[k] != after.keys[k] {
        alters := alters + [Todo];
      }
    }
  }

  method DropChanges(dropped: seq<Name>) returns (alters: seq<Alter>)
    ensures alters == DropAlters(dropped)
  {
    alters := [];
    for i := 0 to |dropped|
      invariant alters == DropAlters(dropped)[..i]
    {
      alters := alters + [DropColumn(dropped[i])];
    }
  }

  method GoneKeyChanges(gone: seq<Name>) returns (alters: seq<Alter>)
    ensures alters == GoneKeyAlters(gone)
  {
    alters := [];
    for i := 0 to |gone|
      invariant alters == GoneKeyAlters(gone)[..i]
    {
      alters := alters + [DropKey(gone[i])];
    }
  }

  /** The differ over one table: columns, dropped columns, keys, keys that are gone, the rest. */
  method TableChanges(before: Table, after: Table, o: KeyOrder) returns (alters: seq<Alter>)
    requires ValidKeyOrder(o, before, after)
    ensures alters == TableAlters(before, after, o)
  {
    var columns := ColumnChanges(before, after);
    var drops := DropChanges(Keep(before.names, before.columns.Keys - after.columns.Keys));
    var keys := KeyChanges(before, after, o.listed);
    var gone := GoneKeyChanges(o.gone);
    var rest := if before.other != after.other || before.options != after.options then [Todo] else [];
    alters := columns + drops + (keys + (gone + rest));
  }

  // ---- What the blocks of one table do ----

  /** The common columns have the same relative order in both definitions. */
  predicate SameOrder(before: Table, after: Table) {
    Keep(before.names, after.columns.Keys) == Keep(after.names, before.columns.Keys)
  }

  /** Nothing is left to a person: no changed key, constraint or option. */
  predicate NoTodo(before: Table, after: Table) {
    && (forall k :: k in before.keys && k in after.keys ==> before.keys[k] == after.keys[k])
    && before.other == after.other && before.options == after.options
  }

  /** The order of the columns after the first p new ones: the common columns are still in their had order, and if that
      is the new order too, the columns of the new table are in it as far as they are there. */
  ghost predicate OrderAt(names: seq<Name>, had: seq<Name>, wanted: seq<Name>, p: nat)
    requires p <= |wanted|
  {
    && Keep(names, Elements(had) * Elements(wanted)) == Keep(had, Elements(had) * Elements(wanted))
    && (Keep(had, Elements(wanted)) == Keep(wanted, Elements(had)) ==>
          Keep(names, Elements(wanted)) == wanted[..p] + Keep(wanted[p..], Elements(had)))
  }

  lemma OrderStart(had: seq<Name>, wanted: seq<Name>)
    ensures OrderAt(had, had, wanted, 0)
  {
    assert wanted[0..] == wanted;
  }

  lemma OrderFound(names: seq<Name>, had: seq<Name>, wanted: seq<Name>, p: nat)
    requires p < |wanted| && OrderAt(names, had, wanted, p) && wanted[p] in had
    ensures OrderAt(names, had, wanted, p + 1)
  {
    SplitAt(wanted, p, Elements(had));
  }

  lemma OrderFront(names: seq<Name>, had: seq<Name>, wanted: seq<Name>)
    requires 0 < |wanted| && OrderAt(names, had, wanted, 0) && wanted[0] !in had
    ensures OrderAt([wanted[0]] + names, had, wanted, 1)
  {
    SplitAt(wanted, 0, Elements(had));
    assert wanted[0] in Elements(wanted);
    KeepCons(wanted[0], names, Elements(had) * Elements(wanted));
    KeepCons(wanted[0], names, Elements(wanted));
  }

  lemma OrderBehind(names: seq<Name>, had: seq<Name>, wanted: seq<Name>, p: nat)
    requires 0 < p < |wanted| && Distinct(wanted) && OrderAt(names, had, wanted, p) && wanted[p] !in had
    ensures OrderAt(InsertAfter(names, wanted[p - 1], wanted[p]), had, wanted, p + 1)
  {
    SplitAt(wanted, p, Elements(had));
    KeepInsertOther(names, wanted[p - 1], wanted[p], Elements(had) * Elements(wanted));
    assert wanted[p - 1] in Elements(wanted) && wanted[p] in Elements(wanted);
    KeepInsert(names, wanted[p - 1], wanted[p], Elements(wanted));
    assert wanted[..p][p - 1] == wanted[p - 1];
    InsertBehindPrefix(wanted[..p], Keep(wanted[p + 1..], Elements(had)), wanted[p]);
  }

  /** The definitions a table has after the first p columns of the new one: what was there, then those. */
  function ColumnMap(base: map<Name, Sql>, after: Table, p: nat): map<Name, Sql>
    requires p <= |after.names|
  {
    if p == 0 then base
    else
      assert after.names[p - 1] in Elements(after.names);
      ColumnMap(base, after, p - 1)[after.names[p - 1] := after.columns[after.names[p - 1]]]
  }

  lemma NoElements(names: seq<Name>)
    ensures names[..0] == [] && Elements(names[..0]) == {}
  {
  }

  lemma {:induction false} ColumnMapEntries(base: map<Name, Sql>, after: Table, p: nat)
    requires p <= |after.names|
    ensures ColumnMap(base, after, p).Keys == base.Keys + Elements(after.names[..p])
    ensures forall c :: c in after.names[..p] ==> c in after.columns && ColumnMap(base, after, p)[c] == after.columns[c]
    ensures forall c :: c in base && c !in after.names[..p] ==> ColumnMap(base, after, p)[c] == base[c]
  {
    hide Keep, Elements, Distinct;
    if p > 0 {
      ColumnMapEntries(base, after, p - 1);
      PrefixElements(after.names, p - 1);
      SplitAt(after.names, p - 1, {});
    } else {
      NoElements(after.names);
    }
  }

  /** A table on its way after the first p columns: what was there, plus the new ones, defined as they should be by now. */
  ghost predicate ColumnsAt(t: Table, before: Table, after: Table, p: nat)
    requires p <= |after.names|
  {
    t == before.(names := t.names, columns := ColumnMap(before.columns, after, p))
    && OrderAt(t.names, before.names, after.names, p)
  }

  lemma ColumnAt(base: map<Name, Sql>, after: Table, p: nat)
    requires p < |after.names|
    ensures after.names[p] in after.columns
    ensures p > 0 ==> after.names[p - 1] in ColumnMap(base, after, p)
    ensures after.names[p] in ColumnMap(base, after, p) <==> after.names[p] in base
    ensures after.names[p] in base ==> ColumnMap(base, after, p)[after.names[p]] == base[after.names[p]]
  {
    ColumnMapEntries(base, after, p);
    PrefixElements(after.names, p);
  }

  lemma RunOne(a: Alter, t: Table)
    ensures RunAlters([a], t) == ExecAlter(a, t)
  {
    assert [a][1..] == [];
  }

  lemma AddStep(t: Table, before: Table, after: Table, p: nat) returns (next: Table)
    requires p < |after.names| && ColumnsAt(t, before, after, p) && after.names[p] !in before.columns
    ensures RunAlters(ColumnAlter(before, after, p), t) == Some(next)
    ensures ColumnsAt(next, before, after, p + 1)
  {
    var c := after.names[p];
    ColumnAt(before.columns, after, p);
    var place := if p == 0 then First else After(after.names[p - 1]);
    RunOne(AddColumn(c, after.columns[c], place), t);
    next := Add(t, c, after.columns[c], place);
    assert c !in Elements(before.names);
    if p == 0 {
      OrderFront(t.names, before.names, after.names);
    } else {
      OrderBehind(t.names, before.names, after.names, p);
    }
  }

  lemma KeepStep(t: Table, before: Table, after: Table, p: nat) returns (next: Table)
    requires p < |after.names| && ColumnsAt(t, before, after, p) && after.names[p] in before.columns
    ensures RunAlters(ColumnAlter(before, after, p), t) == Some(next)
    ensures ColumnsAt(next, before, after, p + 1)
  {
    var c := after.names[p];
    ColumnAt(before.columns, after, p);
    RunOne(ModifyColumn(c, after.columns[c]), t);
    next := Modify(t, c, after.columns[c]);
    if before.columns[c] == after.columns[c] {
      assert next.columns == t.columns;
    }
    assert c in Elements(before.names);
    OrderFound(t.names, before.names, after.names, p);
  }

  lemma {:induction false} ColumnsRun(before: Table, after: Table, p: nat) returns (last: Table)
    requires p <= |after.names|
    ensures RunAlters(ColumnAlters(before, after, p), before) == Some(last)
    ensures ColumnsAt(last, before, after, p)
  {
    hide ExecAlter, Keep, OrderAt;
    if p == 0 {
      last := before;
      OrderStart(before.names, after.names);
    } else {
      var t := ColumnsRun(before, after, p - 1);
      if after.names[p - 1] in before.columns {
        last := KeepStep(t, before, after, p - 1);
      } else {
        last := AddStep(t, before, after, p - 1);
      }
      AltersThen(ColumnAlters(before, after, p - 1), ColumnAlter(before, after, p - 1), before, t);
    }
  }

  /** Dropping the listed columns, none of them in `kept`, leaves the others in their order. */
  lemma {:induction false} DropsRun(t: Table, dropped: seq<Name>, kept: set<Name>) returns (last: Table)
    requires Distinct(dropped) && Elements(dropped) !! kept
    requires kept != {} && kept <= t.columns.Keys
    ensures RunAlters(DropAlters(dropped), t) == Some(last)
    ensures last == t.(names := last.names, columns := t.columns - Elements(dropped))
    ensures forall names: set<Name> {:trigger Keep(last.names, names)} ::
              names !! Elements(dropped) ==> Keep(last.names, names) == Keep(t.names, names)
    decreases |dropped|
  {
    if dropped == [] {
      last := t;
      assert t.columns - Elements(dropped) == t.columns;
    } else {
      var c := dropped[0];
      assert c in Elements(dropped);
      assert Elements(dropped) == {c} + Elements(dropped[1..]);
      var alters := DropAlters(dropped);
      assert alters[1..] == DropAlters(dropped[1..]);
      var next := t;
      if c in t.columns {
        var k :| k in kept;
        assert k in Elements(t.names) && c in Elements(t.names);
        assert |t.names| > 1;
        next := t.(names := Without(t.names, c), columns := t.columns - {c});
        WithoutElements(t.names, c);
        assert k in Elements(next.names);
      }
      last := DropsRun(next, dropped[1..], kept);
      assert next.columns - Elements(dropped[1..]) == t.columns - Elements(dropped);
      forall names: set<Name> | names !! Elements(dropped)
        ensures Keep(last.names, names) == Keep(t.names, names)
      {
        assert names !! Elements(dropped[1..]);
        KeepWithout(t.names, c, names);
      }
    }
  }

  /** The keys after the first n of the new definition: those missing are there, the changed ones still as they were. */
  function KeysAt(had: map<Name, Sql>, wanted: map<Name, Sql>, order: seq<Name>, n: nat): map<Name, Sql>
    requires Elements(order) == wanted.Keys && n <= |order|
  {
    if n == 0 then had
    else
      assert order[n - 1] in Elements(order);
      var keys := KeysAt(had, wanted, order, n - 1);
      if order[n - 1] in had then keys else keys[order[n - 1] := wanted[order[n - 1]]]
  }

  lemma {:induction false} KeysAtEntries(had: map<Name, Sql>, wanted: map<Name, Sql>, order: seq<Name>, n: nat)
    requires Enumerates(order, wanted.Keys) && n <= |order|
    ensures KeysAt(had, wanted, order, n).Keys == had.Keys + Elements(order[..n])
    ensures forall k :: k in KeysAt(had, wanted, order, n) ==>
              KeysAt(had, wanted, order, n)[k] == if k in had then had[k] else wanted[k]
  {
    if n > 0 {
      KeysAtEntries(had, wanted, order, n - 1);
      PrefixElements(order, n - 1);
    }
  }

  lemma KeyStep(t: Table, before: Table, after: Table, order: seq<Name>, n: nat)
    requires Enumerates(order, after.keys.Keys) && n < |order|
    requires t.keys == KeysAt(before.keys, after.keys, order, n)
    ensures order[n] in after.keys
    ensures RunAlters(KeyAlter(before, after, order[n]), t) == Some(t.(keys := KeysAt(before.keys, after.keys, order, n + 1)))
  {
    var k := order[n];
    KeysAtEntries(before.keys, after.keys, order, n);
    PrefixElements(order, n);
    RunOne(AddKey(k, after.keys[k]), t);
    RunOne(Todo, t);
  }

  lemma {:induction false} KeysRun(t: Table, before: Table, after: Table, order: seq<Name>, n: nat)
    requires t.keys == before.keys && Enumerates(order, after.keys.Keys) && n <= |order|
    ensures RunAlters(KeyAlters(before, after, order, n), t) == Some(t.(keys := KeysAt(before.keys, after.keys, order, n)))
  {
    if n > 0 {
      var u: Table := t.(keys := KeysAt(before.keys, after.keys, order, n - 1));
      KeysRun(t, before, after, order, n - 1);
      KeyStep(u, before, after, order, n - 1);
      AltersThen(KeyAlters(before, after, order, n - 1), KeyAlter(before, after, order[n - 1]), t, u);
    }
  }

  lemma {:induction false} GoneKeysRun(t: Table, order: seq<Name>)
    ensures RunAlters(GoneKeyAlters(order), t) == Some(t.(keys := t.keys - Elements(order)))
    decreases |order|
  {
    if order == [] {
      assert t.keys - Elements(order) == t.keys;
    } else {
      var next := t.(keys := t.keys - {order[0]});
      assert GoneKeyAlters(order)[1..] == GoneKeyAlters(order[1..]);
      GoneKeysRun(next, order[1..]);
      assert Elements(order) == {order[0]} + Elements(order[1..]);
      assert next.keys - Elements(order[1..]) == t.keys - Elements(order);
    }
  }

  lemma ColumnsLeft(before: Table, after: Table)
    ensures ColumnMap(before.columns, after, |after.names|) - (before.columns.Keys - after.columns.Keys) == after.columns
  {
    var n := |after.names|;
    assert after.names[..n] == after.names;
    ColumnMapEntries(before.columns, after, n);
    forall c | c in after.columns
      ensures ColumnMap(before.columns, after, n)[c] == after.columns[c]
    {
      assert c in Elements(after.names);
    }
  }

  /** The columns after the column blocks and the drops: the new definitions, in the new order if the common columns
      have it, and only then. */
  lemma ColumnsResult(before: Table, after: Table) returns (last: Table)
    ensures RunAlters(ColumnAlters(before, after, |after.names|) +
                      DropAlters(Keep(before.names, before.columns.Keys - after.columns.Keys)), before) == Some(last)
    ensures last == before.(names := last.names, columns := after.columns)
    ensures last.names == after.names <==> SameOrder(before, after)
  {
    hide RunAlters, ExecAlter, ColumnAlters, DropAlters, Keep, ColumnMap, OrderAt;
    var n := |after.names|;
    var gone := before.columns.Keys - after.columns.Keys;
    var dropped := Keep(before.names, gone);
    assert after.names[..n] == after.names && after.names[n..] == [];
    var t := ColumnsRun(before, after, n);
    KeepElements(before.names, gone);
    ColumnMapEntries(before.columns, after, n);
    PrefixElements(after.names, 0);
    last := DropsRun(t, dropped, after.columns.Keys);
    AltersThen(ColumnAlters(before, after, n), DropAlters(dropped), before, t);
    ColumnsLeft(before, after);
    OrderResult(t.names, last.names, before.names, after.names);
  }

  lemma OrderResult(names: seq<Name>, last: seq<Name>, had: seq<Name>, wanted: seq<Name>)
    requires OrderAt(names, had, wanted, |wanted|)
    requires Elements(last) == Elements(wanted)
    requires forall kept: set<Name> {:trigger Keep(last, kept)} :: kept <= Elements(wanted) ==> Keep(last, kept) == Keep(names, kept)
    ensures last == wanted <==> Keep(had, Elements(wanted)) == Keep(wanted, Elements(had))
  {
    var common := Elements(had) * Elements(wanted);
    assert wanted[..|wanted|] == wanted && wanted[|wanted|..] == [];
    KeepAll(last, Elements(wanted));
    assert forall x :: x in wanted ==> x in Elements(wanted);
    assert forall x :: x in had ==> x in Elements(had);
    KeepSame(wanted, common, Elements(had));
    KeepSame(had, common, Elements(wanted));
    assert Keep(last, common) == Keep(names, common);
  }

  lemma KeysWhen(had: map<Name, Sql>, wanted: map<Name, Sql>, keys: map<Name, Sql>, gone: set<Name>)
    requires keys.Keys == had.Keys + wanted.Keys && gone == had.Keys - wanted.Keys
    requires forall k :: k in keys ==> keys[k] == if k in had then had[k] else wanted[k]
    ensures keys - gone == wanted <==> forall k :: k in had && k in wanted ==> had[k] == wanted[k]
  {
    var last := keys - gone;
    assert last.Keys == wanted.Keys;
    assert forall k :: k in wanted ==> last[k] == keys[k];
  }

  lemma GoneResult(u: Table, before: Table, after: Table, gone: seq<Name>) returns (last: Table)
    ensures RunAlters(GoneKeyAlters(gone) + OptionAlters(before, after), u) == Some(last)
    ensures last == u.(keys := u.keys - Elements(gone))
  {
    GoneKeysRun(u, gone);
    last := u.(keys := u.keys - Elements(gone));
    RunOne(Todo, last);
    AltersThen(GoneKeyAlters(gone), OptionAlters(before, after), u, last);
  }

  lemma KeysResult(t: Table, before: Table, after: Table, o: KeyOrder) returns (last: Table)
    requires ValidKeyOrder(o, before, after) && t.keys == before.keys
    ensures RunAlters(KeyAlters(before, after, o.listed, |o.listed|) +
                      (GoneKeyAlters(o.gone) + OptionAlters(before, after)), t) == Some(last)
    ensures last == t.(keys := last.keys)
    ensures last.keys == after.keys <==> forall k :: k in before.keys && k in after.keys ==> before.keys[k] == after.keys[k]
  {
    var u: Table := t.(keys := KeysAt(before.keys, after.keys, o.listed, |o.listed|));
    KeysRun(t, before, after, o.listed, |o.listed|);
    last := GoneResult(u, before, after, o.gone);
    AltersThen(KeyAlters(before, after, o.listed, |o.listed|), GoneKeyAlters(o.gone) + OptionAlters(before, after), t, u);
    KeysAtEntries(before.keys, after.keys, o.listed, |o.listed|);
    assert o.listed[..|o.listed|] == o.listed;
    KeysWhen(before.keys, after.keys, u.keys, Elements(o.gone));
  }

  /** One table: its blocks run without an error, and they end with the new definition exactly when no TODO was left
      and the common columns did not change their order (a change of order gets no block). */
  lemma TableDraft(before: Table, after: Table, o: KeyOrder) returns (last: Table)
    requires ValidKeyOrder(o, before, after)
    ensures RunAlters(TableAlters(before, after, o), before) == Some(last)
    ensures last == after <==> SameOrder(before, after) && NoTodo(before, after)
  {
    var columns := ColumnAlters(before, after, |after.names|);
    var drops := DropAlters(Keep(before.names, before.columns.Keys - after.columns.Keys));
    var keys := KeyAlters(before, after, o.listed, |o.listed|) + (GoneKeyAlters(o.gone) + OptionAlters(before, after));
    var t := ColumnsResult(before, after);
    last := KeysResult(t, before, after, o);
    AltersThen(columns + drops, keys, before, t);
  }
}
