/** Sequences of distinct names: filtering, removal and insertion, as the column order of a table needs them. */
module NameSeqs {
  import opened Sequences

  /** The name of a column, key or table. */
  datatype Name = Name(text: string)

  /** s lists every element of the set once, in any order. */
  predicate Enumerates<T(==)>(s: seq<T>, elements: set<T>) {
    Distinct(s) && Elements(s) == elements
  }

  /** The names of s that are in the set, in their order. */
  function Keep(s: seq<Name>, names: set<Name>): seq<Name> {
    if s == [] then []
    else (if s[0] in names then [s[0]] else []) + Keep(s[1..], names)
  }

  function Without(s: seq<Name>, name: Name): seq<Name> {
    if s == [] then []
    else (if s[0] == name then [] else [s[0]]) + Without(s[1..], name)
  }

  /** s with name inserted directly behind the first occurrence of anchor; s itself when there is none. */
  function InsertAfter(s: seq<Name>, anchor: Name, name: Name): seq<Name> {
    if s == [] then []
    else if s[0] == anchor then [s[0], name] + s[1..]
    else [s[0]] + InsertAfter(s[1..], anchor, name)
  }

  /** Moving the element at p from the end to the front part. */
  lemma {:induction false} SplitAt(s: seq<Name>, p: nat, names: set<Name>)
    requires p < |s|
    ensures s[..p + 1] == s[..p] + [s[p]]
    ensures Keep(s[p..], names) == if s[p] in names then [s[p]] + Keep(s[p + 1..], names) else Keep(s[p + 1..], names)
    ensures Distinct(s) ==> s[p] !in s[..p] && Distinct(s[..p])
  {
    assert s[p..][1..] == s[p + 1..];
  }

  lemma {:induction false} PrefixElements(s: seq<Name>, p: nat)
    requires p < |s|
    ensures s[p] in Elements(s)
    ensures Elements(s[..p + 1]) == Elements(s[..p]) + {s[p]}
    ensures Distinct(s) ==> s[p] !in Elements(s[..p])
  {
    assert s[..p + 1] == s[..p] + [s[p]];
  }

  lemma {:induction false} ConsElements(x: Name, s: seq<Name>)
    ensures Elements([x] + s) == {x} + Elements(s)
    ensures x !in s && Distinct(s) ==> Distinct([x] + s)
  {
  }

  lemma {:induction false} KeepCons(x: Name, s: seq<Name>, names: set<Name>)
    ensures Keep([x] + s, names) == if x in names then [x] + Keep(s, names) else Keep(s, names)
  {
    assert ([x] + s)[1..] == s;
  }

  lemma {:induction false} DistinctCons<T>(x: T, rest: seq<T>)
    requires Distinct(rest) && x !in rest
    ensures Distinct([x] + rest)
  {
  }

  lemma {:induction false} KeepElements(s: seq<Name>, names: set<Name>)
    ensures Elements(Keep(s, names)) == Elements(s) * names
    ensures Distinct(s) ==> Distinct(Keep(s, names))
  {
    if s != [] {
      KeepElements(s[1..], names);
      assert s == [s[0]] + s[1..];
      var rest := Keep(s[1..], names);
      assert forall x :: x in rest ==> x in Elements(rest);
      assert forall x :: x in s <==> x == s[0] || x in s[1..];
      assert forall x :: x in Keep(s, names) <==> (s[0] in names && x == s[0]) || x in rest;
      assert forall x :: x in Elements(rest) <==> x in s[1..] && x in names;
    }
  }

  lemma {:induction false} WithoutElements(s: seq<Name>, name: Name)
    ensures Elements(Without(s, name)) == Elements(s) - {name}
    ensures Distinct(s) ==> Distinct(Without(s, name))
  {
    if s != [] {
      WithoutElements(s[1..], name);
      assert s == [s[0]] + s[1..];
      var rest := Without(s[1..], name);
      assert forall x :: x in rest ==> x in Elements(rest);
      assert forall x :: x in s <==> x == s[0] || x in s[1..];
      assert forall x :: x in Without(s, name) <==> (s[0] != name && x == s[0]) || x in rest;
      assert forall x :: x in Elements(rest) <==> x in s[1..] && x != name;
      if Distinct(s) && s[0] != name {
        assert s[0] !in Elements(rest);
        DistinctCons(s[0], rest);
      }
    }
  }

  lemma {:induction false} InsertElements(s: seq<Name>, anchor: Name, name: Name)
    requires anchor in s
    ensures Elements(InsertAfter(s, anchor, name)) == Elements(s) + {name}
    ensures Distinct(s) && name !in s ==> Distinct(InsertAfter(s, anchor, name))
  {
    var r := InsertAfter(s, anchor, name);
    assert s == [s[0]] + s[1..];
    assert forall x :: x in s <==> x == s[0] || x in s[1..];
    if s[0] == anchor {
      assert forall x :: x in r <==> x == s[0] || x == name || x in s[1..];
    } else {
      InsertElements(s[1..], anchor, name);
      var rest := InsertAfter(s[1..], anchor, name);
      assert forall x :: x in rest ==> x in Elements(rest);
      assert forall x :: x in r <==> x == s[0] || x in rest;
      assert forall x :: x in Elements(rest) <==> x in s[1..] || x == name;
      if Distinct(s) && name !in s {
        assert s[0] !in Elements(rest);
        DistinctCons(s[0], rest);
      }
    }
  }

  lemma {:induction false} KeepAll(s: seq<Name>, names: set<Name>)
    requires Elements(s) <= names
    ensures Keep(s, names) == s
  {
    if s != [] {
      assert s[0] in Elements(s);
      assert forall x :: x in s[1..] ==> x in Elements(s);
      KeepAll(s[1..], names);
    }
  }

  /** A filter only depends on which of the listed names it keeps. */
  lemma {:induction false} KeepSame(s: seq<Name>, a: set<Name>, b: set<Name>)
    requires forall x :: x in s ==> (x in a <==> x in b)
    ensures Keep(s, a) == Keep(s, b)
  {
    if s != [] {
      KeepSame(s[1..], a, b);
    }
  }

  lemma {:induction false} KeepWithout(s: seq<Name>, name: Name, names: set<Name>)
    requires name !in names
    ensures Keep(Without(s, name), names) == Keep(s, names)
  {
    if s != [] {
      KeepWithout(s[1..], name, names);
      if s[0] == name {
        assert Without(s, name) == Without(s[1..], name);
      } else {
        assert Without(s, name)[1..] == Without(s[1..], name);
      }
    }
  }

  lemma {:induction false} KeepInsertOther(s: seq<Name>, anchor: Name, name: Name, names: set<Name>)
    requires name !in names
    ensures Keep(InsertAfter(s, anchor, name), names) == Keep(s, names)
  {
    if s != [] {
      if s[0] == anchor {
        assert InsertAfter(s, anchor, name) == [s[0]] + ([name] + s[1..]);
        assert ([name] + s[1..])[1..] == s[1..];
        assert Keep([name] + s[1..], names) == Keep(s[1..], names);
      } else {
        KeepInsertOther(s[1..], anchor, name, names);
        assert InsertAfter(s, anchor, name)[1..] == InsertAfter(s[1..], anchor, name);
      }
    }
  }

  lemma {:induction false} KeepInsert(s: seq<Name>, anchor: Name, name: Name, names: set<Name>)
    requires name in names && anchor in names
    ensures Keep(InsertAfter(s, anchor, name), names) == InsertAfter(Keep(s, names), anchor, name)
  {
    if s != [] {
      if s[0] == anchor {
        assert InsertAfter(s, anchor, name) == [s[0]] + ([name] + s[1..]);
        assert ([name] + s[1..])[1..] == s[1..];
        assert Keep([name] + s[1..], names) == [name] + Keep(s[1..], names);
      } else {
        KeepInsert(s[1..], anchor, name, names);
        assert InsertAfter(s, anchor, name)[1..] == InsertAfter(s[1..], anchor, name);
        if s[0] in names {
          assert Keep(s, names)[1..] == Keep(s[1..], names);
        } else {
          assert Keep(s, names) == Keep(s[1..], names);
        }
      }
    }
  }

  /** Behind the last name of a distinct prefix, the insertion splits the sequence there. */
  lemma {:induction false} InsertBehindPrefix(prefix: seq<Name>, rest: seq<Name>, name: Name)
    requires prefix != [] && Distinct(prefix)
    ensures InsertAfter(prefix + rest, prefix[|prefix| - 1], name) == prefix + [name] + rest
  {
    var s := prefix + rest;
    if |prefix| > 1 {
      assert s[1..] == prefix[1..] + rest;
      InsertBehindPrefix(prefix[1..], rest, name);
      assert [prefix[0]] + (prefix[1..] + [name] + rest) == prefix + [name] + rest;
    } else {
      assert [s[0], name] + s[1..] == prefix + [name] + rest;
    }
  }
}
