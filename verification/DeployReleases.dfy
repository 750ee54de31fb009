/** The kept release copies: which one a rollback returns to, and what pruning leaves. */
module DeployReleases {
  import opened Wrappers
  import opened DeployRemovals
  import opened Sequences

  const KEEP_RELEASES := 3

  predicate Completed(e: Entry) {
    e.failed.None?
  }

  /** The latest completed entry of another commit. */
  function LatestOther(entries: seq<Entry>, commit: Commit): Option<Entry> {
    if entries == [] then None
    else
      var last := entries[|entries| - 1];
      if Completed(last) && last.commit != commit then Some(last) else LatestOther(entries[..|entries| - 1], commit)
  }

  /** Where a rollback goes: to the newest completed deploy of a commit other than the last entry's. */
  function RollbackEntry(entries: seq<Entry>): Option<Entry> {
    if entries == [] then None
    else LatestOther(entries[..|entries| - 1], entries[|entries| - 1].commit)
  }

  /** The newest completed commits, each once, added to those found so far until there are `limit`. */
  function NewestCompleted(entries: seq<Entry>, found: seq<Commit>, limit: nat): seq<Commit> {
    if entries == [] || |found| >= limit then found
    else
      var last := entries[|entries| - 1];
      NewestCompleted(entries[..|entries| - 1],
                      if Completed(last) && last.commit !in found then found + [last.commit] else found, limit)
  }

  /** The releases a prune never removes. */
  function Used(entries: seq<Entry>, keep: Commit): set<Commit> {
    {keep} + Elements(NewestCompleted(entries, [], KEEP_RELEASES)) +
    if entries == [] then {} else {entries[|entries| - 1].commit}
  }

  /** What a prune leaves of the copies, listed newest first by their times. */
  function Pruned(entries: seq<Entry>, keep: Commit, listed: seq<Commit>): set<Commit> {
    set c | c in listed && (c in listed[..if |listed| < KEEP_RELEASES then |listed| else KEEP_RELEASES] || c in Used(entries, keep))
  }

  /** The prune's first loop: the newest completed releases, redeploys of one release counting once. */
  method NewestReleases(entries: seq<Entry>) returns (distinct: seq<Commit>)
    ensures distinct == NewestCompleted(entries, [], KEEP_RELEASES)
  {
    distinct := [];
    var i := |entries|;
    assert entries[..i] == entries;
    while i > 0 && |distinct| < KEEP_RELEASES
      invariant 0 <= i <= |entries|
      invariant NewestCompleted(entries, [], KEEP_RELEASES) == NewestCompleted(entries[..i], distinct, KEEP_RELEASES)
    {
      var entry := entries[i - 1];
      assert entries[..i][..i - 1] == entries[..i - 1];
      if Completed(entry) && entry.commit !in distinct {
        distinct := distinct + [entry.commit];
      }
      i := i - 1;
    }
  }

  lemma PrunedAre(entries: seq<Entry>, keep: Commit, listed: seq<Commit>)
    requires Distinct(listed)
    ensures Pruned(entries, keep, listed) <= Elements(listed)
    ensures forall i :: 0 <= i < |listed| ==>
              (listed[i] in Pruned(entries, keep, listed) <==>
               i < 3 || listed[i] == keep || (entries != [] && listed[i] == entries[|entries| - 1].commit)
               || IsNewest(entries, {}, 3, listed[i]))
  {
    forall i | 0 <= i < |listed|
      ensures listed[i] in Pruned(entries, keep, listed) <==>
              i < 3 || listed[i] == keep || (entries != [] && listed[i] == entries[|entries| - 1].commit)
              || IsNewest(entries, {}, 3, listed[i])
    {
      var first := listed[..if |listed| < KEEP_RELEASES then |listed| else KEEP_RELEASES];
      assert listed[i] in first <==> i < 3 by {
        assert i < 3 ==> first[i] == listed[i];
      }
      FoundAreNewest(entries, [], KEEP_RELEASES, listed[i]);
      assert Elements<Commit>([]) == {};
      hide NewestCompleted, IsNewest;
    }
  }

  /** The prune: of the copies beyond the newest three, those not used go. */
  method PruneReleases(entries: seq<Entry>, keep: Commit, listed: seq<Commit>) returns (kept: set<Commit>)
    requires Distinct(listed)
    ensures kept == Pruned(entries, keep, listed)
    ensures kept <= Elements(listed)
    ensures forall i :: 0 <= i < |listed| ==>
              (listed[i] in kept <==> i < 3 || listed[i] == keep || (entries != [] && listed[i] == entries[|entries| - 1].commit)
                                      || IsNewest(entries, {}, 3, listed[i]))
  {
    PrunedAre(entries, keep, listed);
    hide IsNewest, NewestCompleted;
    var distinct := NewestReleases(entries);
    var used := {keep} + (set c | c in distinct);
    if entries != [] {
      used := used + {entries[|entries| - 1].commit};
    }
    assert used == Used(entries, keep);
    kept := set c | c in listed;
    var q := KEEP_RELEASES;
    while q < |listed|
      invariant |listed| > KEEP_RELEASES ==> q <= |listed|
      invariant forall c :: c in kept <==> c in listed && (|listed| <= KEEP_RELEASES || c !in listed[KEEP_RELEASES..q] || c in used)
    {
      if listed[q] !in used {
        kept := kept - {listed[q]};
      }
      q := q + 1;
    }
  }

  // ---- What the loops find ----

  /** The commits completed behind an entry. */
  function CompletedBehind(entries: seq<Entry>, i: nat): set<Commit>
    requires i < |entries|
  {
    set j | i < j < |entries| && entries[j].failed.None? :: entries[j].commit
  }

  /** A completed entry of the commit, with fewer than so many commits found or completed behind it. */
  predicate NewestAt(entries: seq<Entry>, found: set<Commit>, limit: nat, c: Commit, i: nat)
    requires i < |entries|
  {
    entries[i].failed.None? && entries[i].commit == c && |found + CompletedBehind(entries, i)| < limit
  }

  predicate IsNewest(entries: seq<Entry>, found: set<Commit>, limit: nat, c: Commit) {
    exists i :: 0 <= i < |entries| && NewestAt(entries, found, limit, c, i)
  }

  lemma DistinctSize(s: seq<Commit>, c: Commit)
    requires Distinct(s) && c !in s
    ensures Distinct(s + [c]) && Elements(s + [c]) == Elements(s) + {c}
  {
  }

  lemma {:induction false} SizeOfDistinct(s: seq<Commit>)
    requires Distinct(s)
    ensures |Elements(s)| == |s|
  {
    if s != [] {
      var front, last := s[..|s| - 1], s[|s| - 1];
      SizeOfDistinct(front);
      assert s == front + [last] && last !in front;
      assert Elements(s) == Elements(front) + {last} && last !in Elements(front);
    }
  }

  lemma Fewer(a: set<Commit>, b: set<Commit>)
    ensures |a| <= |a + b|
  {
    assert a + b == a + (b - a) && a !! (b - a);
  }

  /** What is found with the last entry. */
  function FoundWith(found: set<Commit>, last: Entry): set<Commit> {
    if Completed(last) then found + {last.commit} else found
  }

  lemma BehindIs(rest: seq<Entry>, last: Entry, i: nat)
    requires i < |rest|
    ensures CompletedBehind(rest + [last], i) == FoundWith(CompletedBehind(rest, i), last)
  {
    var all := rest + [last];
    forall c
      ensures c in CompletedBehind(all, i) <==> c in FoundWith(CompletedBehind(rest, i), last)
    {
      if j :| i < j < |all| && Completed(all[j]) && all[j].commit == c {
        assert j < |rest| ==> rest[j] == all[j];
      }
      if j :| i < j < |rest| && Completed(rest[j]) && rest[j].commit == c {
        assert all[j] == rest[j];
      }
      assert all[|rest|] == last;
    }
  }

  lemma BehindNext(entries: seq<Entry>, found: set<Commit>, limit: nat, c: Commit, i: nat)
    requires i < |entries| - 1
    ensures var n := |entries| - 1;
            NewestAt(entries, found, limit, c, i) == NewestAt(entries[..n], FoundWith(found, entries[n]), limit, c, i)
  {
    var n := |entries| - 1;
    var rest := entries[..n];
    assert rest + [entries[n]] == entries && rest[i] == entries[i];
    BehindIs(rest, entries[n], i);
    hide CompletedBehind, Completed;
    assert found + CompletedBehind(entries, i) == FoundWith(found, entries[n]) + CompletedBehind(rest, i);
  }

  lemma NewestNext(entries: seq<Entry>, found: set<Commit>, limit: nat, c: Commit)
    requires entries != [] && |found| < limit
    ensures var n := |entries| - 1;
            IsNewest(entries, found, limit, c) <==>
            (Completed(entries[n]) && entries[n].commit == c) || IsNewest(entries[..n], FoundWith(found, entries[n]), limit, c)
  {
    var n := |entries| - 1;
    var rest, more := entries[..n], FoundWith(found, entries[n]);
    LastIsNewest(entries, found, limit, c);
    hide NewestAt, FoundWith, Completed, CompletedBehind;
    if IsNewest(entries, found, limit, c) {
      var i :| 0 <= i < |entries| && NewestAt(entries, found, limit, c, i);
      if i < n {
        BehindNext(entries, found, limit, c, i);
      }
    }
    if IsNewest(rest, more, limit, c) {
      var i :| 0 <= i < |rest| && NewestAt(rest, more, limit, c, i);
      BehindNext(entries, found, limit, c, i);
    }
  }

  lemma LastIsNewest(entries: seq<Entry>, found: set<Commit>, limit: nat, c: Commit)
    requires entries != [] && |found| < limit
    ensures NewestAt(entries, found, limit, c, |entries| - 1) <==>
            Completed(entries[|entries| - 1]) && entries[|entries| - 1].commit == c
  {
    assert CompletedBehind(entries, |entries| - 1) == {} && found + {} == found;
  }

  lemma NoneNewest(entries: seq<Entry>, found: set<Commit>, limit: nat, c: Commit)
    requires entries == [] || |found| >= limit
    ensures !IsNewest(entries, found, limit, c)
  {
    forall i | 0 <= i < |entries|
      ensures |found + CompletedBehind(entries, i)| >= |found|
    {
      Fewer(found, CompletedBehind(entries, i));
    }
  }

  /** Found are the commits with a completed deploy behind which fewer than `limit` other commits were completed. */
  lemma {:induction false} FoundAreNewest(entries: seq<Entry>, found: seq<Commit>, limit: nat, c: Commit)
    requires Distinct(found)
    ensures c in NewestCompleted(entries, found, limit) <==> c in found || IsNewest(entries, Elements(found), limit, c)
  {
    SizeOfDistinct(found);
    if entries == [] || |found| >= limit {
      NoneNewest(entries, Elements(found), limit, c);
    } else {
      var last := entries[|entries| - 1];
      NewestNext(entries, Elements(found), limit, c);
      hide IsNewest;
      if Completed(last) && last.commit !in found {
        DistinctSize(found, last.commit);
        FoundAreNewest(entries[..|entries| - 1], found + [last.commit], limit, c);
      } else {
        assert FoundWith(Elements(found), last) == Elements(found);
        FoundAreNewest(entries[..|entries| - 1], found, limit, c);
      }
    }
  }

  /** Completed, and of another commit. */
  predicate IsOther(e: Entry, commit: Commit) {
    e.failed.None? && e.commit != commit
  }

  predicate IsLatestOther(entries: seq<Entry>, commit: Commit, i: nat)
    requires i < |entries|
  {
    IsOther(entries[i], commit) && forall j :: i < j < |entries| ==> !IsOther(entries[j], commit)
  }

  lemma {:induction false} LatestOtherIs(entries: seq<Entry>, commit: Commit)
    ensures match LatestOther(entries, commit)
            case None => forall i :: 0 <= i < |entries| ==> !IsOther(entries[i], commit)
            case Some(e) => exists i :: 0 <= i < |entries| && entries[i] == e && IsLatestOther(entries, commit, i)
  {
    if entries != [] {
      var n := |entries| - 1;
      var rest := entries[..n];
      LatestOtherIs(rest, commit);
      assert LatestOther(entries, commit) == if IsOther(entries[n], commit) then Some(entries[n]) else LatestOther(rest, commit);
      hide LatestOther, IsOther;
      assert forall i :: 0 <= i < n ==> rest[i] == entries[i];
      if IsOther(entries[n], commit) {
        assert IsLatestOther(entries, commit, n);
      } else if LatestOther(rest, commit).Some? {
        var i :| 0 <= i < |rest| && rest[i] == LatestOther(rest, commit).value && IsLatestOther(rest, commit, i);
        assert entries[i] == rest[i] && IsLatestOther(entries, commit, i);
      }
    }
  }

  /** A rollback goes to the latest completed entry of another commit than the last entry's, if there is one. */
  lemma RollbackGoesTo(entries: seq<Entry>)
    requires entries != []
    ensures var commit := entries[|entries| - 1].commit;
            match RollbackEntry(entries)
            case None => forall i :: 0 <= i < |entries| ==> !IsOther(entries[i], commit)
            case Some(e) => exists i :: 0 <= i < |entries| && entries[i] == e && IsLatestOther(entries, commit, i)
  {
    var n, commit := |entries| - 1, entries[|entries| - 1].commit;
    var rest := entries[..n];
    LatestOtherIs(rest, commit);
    assert !IsOther(entries[n], commit) && forall i :: 0 <= i < n ==> rest[i] == entries[i];
    hide LatestOther, IsOther;
    if RollbackEntry(entries).Some? {
      var i :| 0 <= i < |rest| && rest[i] == RollbackEntry(entries).value && IsLatestOther(rest, commit, i);
      assert entries[i] == rest[i] && IsLatestOther(entries, commit, i);
    }
  }

  // ---- The rollback target is one of the two newest completed releases ----

  lemma {:induction false} FoundStay(entries: seq<Entry>, found: seq<Commit>, limit: nat)
    ensures Elements(found) <= Elements(NewestCompleted(entries, found, limit))
  {
    if entries != [] && |found| < limit {
      var last := entries[|entries| - 1];
      FoundStay(entries[..|entries| - 1],
                if Completed(last) && last.commit !in found then found + [last.commit] else found, limit);
    }
  }

  lemma {:induction false} OtherIsFound(entries: seq<Entry>, commit: Commit, found: seq<Commit>)
    requires found == [] || found == [commit]
    ensures LatestOther(entries, commit).Some? ==>
              LatestOther(entries, commit).value.commit in Elements(NewestCompleted(entries, found, 2))
  {
    if entries != [] {
      var last, rest := entries[|entries| - 1], entries[..|entries| - 1];
      if Completed(last) && last.commit != commit {
        FoundStay(rest, found + [last.commit], 2);
        assert last.commit in Elements(found + [last.commit]);
      } else if Completed(last) && found == [] {
        assert found + [last.commit] == [commit];
        OtherIsFound(rest, commit, [commit]);
      } else {
        OtherIsFound(rest, commit, found);
      }
    }
  }

  /** more holds the same commits as found, or exactly x besides them. */
  predicate AtMostOneMore(found: seq<Commit>, more: seq<Commit>, x: Commit) {
    || (Elements(more) == Elements(found) && |more| == |found|)
    || (x !in found && Elements(more) == Elements(found) + {x} && |more| == |found| + 1)
  }

  lemma FoundNext(found: seq<Commit>, more: seq<Commit>, x: Commit, c: Commit)
    requires AtMostOneMore(found, more, x)
    ensures AtMostOneMore(if c !in found then found + [c] else found, if c !in more then more + [c] else more, x)
  {
    assert c in found <==> c in Elements(found);
    assert c in more <==> c in Elements(more);
    assert Elements(found + [c]) == Elements(found) + {c};
    assert Elements(more + [c]) == Elements(more) + {c};
  }

  /** One commit found beforehand pushes out at most one: with a limit one higher, none. */
  lemma {:induction false} OneMoreIsEnough(entries: seq<Entry>, found: seq<Commit>, more: seq<Commit>, x: Commit, limit: nat)
    requires AtMostOneMore(found, more, x)
    ensures Elements(NewestCompleted(entries, found, limit)) <= Elements(NewestCompleted(entries, more, limit + 1))
  {
    FoundStay(entries, more, limit + 1);
    if entries != [] && |found| < limit {
      var last, rest := entries[|entries| - 1], entries[..|entries| - 1];
      if Completed(last) {
        FoundNext(found, more, x, last.commit);
        OneMoreIsEnough(rest, if last.commit !in found then found + [last.commit] else found,
                        if last.commit !in more then more + [last.commit] else more, x, limit);
      } else {
        OneMoreIsEnough(rest, found, more, x, limit);
      }
    }
  }

  /** And with the same limit, nothing else is found instead. */
  lemma {:induction false} OneMoreAddsNothing(entries: seq<Entry>, found: seq<Commit>, more: seq<Commit>, x: Commit, limit: nat)
    requires AtMostOneMore(found, more, x)
    ensures Elements(NewestCompleted(entries, more, limit)) <= Elements(NewestCompleted(entries, found, limit)) + {x}
  {
    FoundStay(entries, found, limit);
    if entries != [] && |more| < limit {
      var last, rest := entries[|entries| - 1], entries[..|entries| - 1];
      if Completed(last) {
        FoundNext(found, more, x, last.commit);
        OneMoreAddsNothing(rest, if last.commit !in found then found + [last.commit] else found,
                           if last.commit !in more then more + [last.commit] else more, x, limit);
      } else {
        OneMoreAddsNothing(rest, found, more, x, limit);
      }
    }
  }

  /** The copies a rollback may need now or after one more deploy: the last entry's, and the two newest completed ones
      before it. */
  predicate CopiesKept(entries: seq<Entry>, built: set<Commit>) {
    entries != [] ==>
      && entries[|entries| - 1].commit in built
      && Elements(NewestCompleted(entries[..|entries| - 1], [], 2)) <= built
  }

  /** The release a rollback returns to is always still there. */
  lemma RollbackCopyKept(entries: seq<Entry>, built: set<Commit>)
    requires CopiesKept(entries, built)
    ensures RollbackEntry(entries).Some? ==> RollbackEntry(entries).value.commit in built
  {
    if entries != [] {
      OtherIsFound(entries[..|entries| - 1], entries[|entries| - 1].commit, []);
    }
  }

  /** Recording a deploy of a built release keeps it so, whether the last deploy completed or failed. */
  lemma RecordKeeps(entries: seq<Entry>, e: Entry, built: set<Commit>)
    requires CopiesKept(entries, built) && e.commit in built
    ensures CopiesKept(entries + [e], built)
  {
    assert (entries + [e])[..|entries|] == entries;
    if entries != [] {
      var last, rest := entries[|entries| - 1], entries[..|entries| - 1];
      var found: seq<Commit> := if Completed(last) then [last.commit] else [];
      assert Elements([last.commit]) == {last.commit};
      assert [] + [last.commit] == [last.commit];
      OneMoreAddsNothing(rest, [], found, last.commit, 2);
    }
  }

  /** What a prune never removes holds the copies a rollback may need. */
  lemma UsedCovers(entries: seq<Entry>, keep: Commit)
    requires entries != []
    ensures entries[|entries| - 1].commit in Used(entries, keep)
    ensures Elements(NewestCompleted(entries[..|entries| - 1], [], 2)) <= Used(entries, keep)
  {
    var last, rest := entries[|entries| - 1], entries[..|entries| - 1];
    var found: seq<Commit> := if Completed(last) then [last.commit] else [];
    assert Elements([last.commit]) == {last.commit};
    assert [] + [last.commit] == [last.commit];
    OneMoreIsEnough(rest, [], found, last.commit, 2);
    assert NewestCompleted(entries, [], KEEP_RELEASES) == NewestCompleted(rest, found, KEEP_RELEASES);
  }

  /** Pruning keeps it so, whatever the copies' times and whichever release was just built. */
  lemma PruneKeeps(entries: seq<Entry>, built: set<Commit>, keep: Commit, listed: seq<Commit>)
    requires CopiesKept(entries, built) && Elements(listed) == built + {keep}
    ensures CopiesKept(entries, Pruned(entries, keep, listed)) && keep in Pruned(entries, keep, listed)
  {
    hide NewestCompleted;
    var pruned := Pruned(entries, keep, listed);
    assert keep in Used(entries, keep);
    forall c | c in built + {keep} && c in Used(entries, keep)
      ensures c in pruned
    {
      assert c in Elements(listed);
    }
    if entries != [] {
      UsedCovers(entries, keep);
    }
  }
}
