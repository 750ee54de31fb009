/** Which files a deploy removes from its target: what the releases still on it shipped and the new one does not. */
module DeployRemovals {
  import opened Sequences
  import opened Wrappers

  datatype Part = Part(text: string)

  /** A code tree name, split at its slashes. */
  datatype File = File(parts: seq<Part>)

  datatype Commit = Commit(sha: string)

  datatype Health = Good | Bad

  /** Why an entry is not completed: still incomplete, a stage's name, or its health check. */
  datatype Failure = Incomplete | Stage(name: string) | FailedHealth

  datatype AttemptId = AttemptId(id: string)

  /** One deploy of the history. removalsPending: its removal step has not ended. */
  datatype Entry = Entry(commit: Commit, failed: Option<Failure>, removalsPending: bool, pendingRemovals: set<File>,
                         rollback: bool, attempt: Option<AttemptId>, health: Option<Health>)

  predicate SafePart(p: Part) {
    p.text != "" && p.text != "." && p.text != ".." && forall i :: 0 <= i < |p.text| ==> 32 <= p.text[i] as int != 127
  }

  /** A relative name without empty, . or .. parts and without control characters. */
  predicate Safe(f: File) {
    f.parts != [] && forall i :: 0 <= i < |f.parts| ==> SafePart(f.parts[i])
  }

  /** Where a path leads once its empty, . and .. parts are worked off: None above its start. */
  function Settled(at: seq<Part>, parts: seq<Part>): Option<seq<Part>>
    decreases |parts|
  {
    if parts == [] then Some(at)
    else if parts[0].text == "" || parts[0].text == "." then Settled(at, parts[1..])
    else if parts[0].text == ".." then if at == [] then None else Settled(at[..|at| - 1], parts[1..])
    else Settled(at + [parts[0]], parts[1..])
  }

  predicate IsPlainPart(p: Part) {
    p.text !in {"", ".", ".."}
  }

  predicate AllPlain(parts: seq<Part>) {
    forall i :: 0 <= i < |parts| ==> IsPlainPart(parts[i])
  }

  lemma {:induction false} SettledIsPlain(at: seq<Part>, parts: seq<Part>)
    requires AllPlain(at)
    ensures Settled(at, parts).Some? ==> AllPlain(Settled(at, parts).value)
    ensures AllPlain(parts) ==> Settled(at, parts) == Some(at + parts)
    decreases |parts|
  {
    if parts == [] {
      assert at + [] == at;
    } else if parts[0].text == "" || parts[0].text == "." {
      SettledIsPlain(at, parts[1..]);
    } else if parts[0].text == ".." {
      if at != [] {
        SettledIsPlain(at[..|at| - 1], parts[1..]);
      }
    } else {
      assert IsPlainPart(parts[0]);
      assert at + [parts[0]] + parts[1..] == at + parts;
      SettledIsPlain(at + [parts[0]], parts[1..]);
    }
  }

  /** A name is safe exactly when it leads below the target by itself, part by part, and holds no control character. */
  lemma SafeIsSettled(f: File)
    ensures Safe(f) <==>
            && f.parts != [] && Settled([], f.parts) == Some(f.parts)
            && forall i, k :: 0 <= i < |f.parts| && 0 <= k < |f.parts[i].text| ==>
                                !(f.parts[i].text[k] < ' ' || f.parts[i].text[k] == '\U{7F}')
  {
    SettledIsPlain([], f.parts);
    assert [] + f.parts == f.parts;
    hide Settled;
    if Safe(f) {
      assert forall i :: 0 <= i < |f.parts| ==> SafePart(f.parts[i]) && IsPlainPart(f.parts[i]);
    }
  }

  /** f is a directory on the way to g. */
  predicate Above(f: File, g: File) {
    |f.parts| < |g.parts| && f.parts == g.parts[..|f.parts|]
  }

  /** The files of the built releases, by commit; a release without a list is missing. */
  type Manifests = map<Commit, set<File>>

  function Shipped(m: Manifests, c: Commit): set<File> {
    if c in m then m[c] else {}
  }

  // ---- The history's answer ----

  /** The deploys a removal looks back to, newest first: up to the first that finished its own removals. With them, the
      files such removals could not unlink. */
  function Sources(entries: seq<Entry>): (seq<Commit>, set<File>) {
    if entries == [] then ([], {})
    else
      var last := entries[|entries| - 1];
      if last.removalsPending then
        var (commits, pending) := Sources(entries[..|entries| - 1]);
        ([last.commit] + commits, last.pendingRemovals + pending)
      else ([last.commit], last.pendingRemovals)
  }

  method RemovalSources(entries: seq<Entry>) returns (commits: seq<Commit>, pending: set<File>)
    ensures (commits, pending) == Sources(entries)
  {
    commits, pending := [], {};
    var i := |entries|;
    assert entries[..i] == entries;
    while i > 0
      invariant 0 <= i <= |entries|
      invariant Sources(entries).0 == commits + Sources(entries[..i]).0
      invariant Sources(entries).1 == pending + Sources(entries[..i]).1
    {
      var entry := entries[i - 1];
      ghost var rest := entries[..i];
      assert rest[..i - 1] == entries[..i - 1] && rest[|rest| - 1] == entry;
      commits := commits + [entry.commit];
      pending := pending + entry.pendingRemovals;
      i := i - 1;
      if !entry.removalsPending {
        return;
      }
    }
    assert entries[..0] == [] && commits + [] == commits && pending + {} == pending;
  }

  /** The files a next deploy looks at: what a release shipped whose removals, and those of every later deploy, have not
      ended, and what was left pending by one. */
  ghost predicate Named(m: Manifests, entries: seq<Entry>, f: File) {
    exists i :: 0 <= i < |entries| && (f in Shipped(m, entries[i].commit) || f in entries[i].pendingRemovals)
                && forall j :: i < j < |entries| ==> entries[j].removalsPending
  }

  lemma {:induction false} SourcesAreNamed(m: Manifests, entries: seq<Entry>, f: File)
    ensures f in Sources(entries).1 || (exists c :: c in Sources(entries).0 && f in Shipped(m, c)) <==> Named(m, entries, f)
  {
    if entries != [] {
      var n := |entries| - 1;
      var last, rest := entries[n], entries[..n];
      SourcesAreNamed(m, rest, f);
      if last.removalsPending {
        assert forall c :: c in Sources(entries).0 <==> c == last.commit || c in Sources(rest).0;
        if Named(m, rest, f) {
          var i :| 0 <= i < n && (f in Shipped(m, rest[i].commit) || f in rest[i].pendingRemovals)
                   && forall j :: i < j < n ==> rest[j].removalsPending;
          assert forall j :: i < j < |entries| ==> entries[j].removalsPending;
        }
        if Named(m, entries, f) {
          var i :| 0 <= i < |entries| && (f in Shipped(m, entries[i].commit) || f in entries[i].pendingRemovals)
                   && forall j :: i < j < |entries| ==> entries[j].removalsPending;
          if i < n {
            assert rest[i] == entries[i] && forall j :: i < j < n ==> rest[j] == entries[j];
          }
        }
      } else {
        assert forall c :: c in Sources(entries).0 <==> c == last.commit;
        assert Named(m, entries, f) ==> f in Shipped(m, last.commit) || f in last.pendingRemovals;
      }
    }
  }

  // ---- What a deploy removes ----

  /** The files to remove for the new release: named by the history before it, not shipped by it, not protected, safe. */
  method RemovedFiles(m: Manifests, entries: seq<Entry>, current: Commit, protected: File -> bool) returns (names: set<File>)
    ensures forall f :: f in names <==>
              Named(m, entries, f) && f !in Shipped(m, current) && !protected(f) && Safe(f)
  {
    var commits, pending := RemovalSources(entries);
    var before := pending;
    var known := false;
    for i := 0 to |commits|
      invariant forall f :: f in before <==> f in pending || exists q :: 0 <= q < i && f in Shipped(m, commits[q])
      invariant !known ==> before == pending
    {
      if commits[i] in m {
        known := true;
        before := before + m[commits[i]];
      }
    }
    forall f
      ensures f in before <==> Named(m, entries, f)
    {
      SourcesAreNamed(m, entries, f);
      if exists c :: c in commits && f in Shipped(m, c) {
        var c :| c in commits && f in Shipped(m, c);
        var q :| 0 <= q < |commits| && commits[q] == c;
      }
    }
    if !known && pending == {} {
      return {};
    }
    names := set f | f in before && f !in Shipped(m, current) && !protected(f) && Safe(f);
  }

  // ---- The removal on the target (a code tree without links) ----

  /** The names of the new release and the directories they lie in. */
  ghost predicate InRelease(keep: set<File>, f: File) {
    f in keep || exists g :: g in keep && Above(f, g)
  }

  predicate HoldsBelow(target: set<File>, f: File) {
    exists g :: g in target && Above(f, g)
  }

  /** What becomes of one name: refused (no plain name), kept on purpose (the release's, protected), still there or not to
      be reached (a directory, a file the server refuses to unlink, or a name below a file that stays), or gone. */
  datatype Fate = Refused | Kept | Pending | Gone

  /** The removal unlinks this file, if it is asked to and comes to it. */
  ghost predicate Unlinkable(f: File, target: set<File>, keep: set<File>, protected: File -> bool, stuck: set<File>) {
    Safe(f) && !InRelease(keep, f) && !protected(f) && !HoldsBelow(target, f) && f !in stuck
  }

  /** The name lies below what is a file on the target and stays one. */
  ghost predicate Blocked(f: File, target: set<File>, names: set<File>, keep: set<File>, protected: File -> bool, stuck: set<File>) {
    exists g :: g in target && Above(g, f) && !(g in names && Unlinkable(g, target, keep, protected, stuck))
  }

  /** The fate of one of the names to remove, in a removal of all of them. */
  ghost function FateOf(f: File, target: set<File>, names: set<File>, keep: set<File>, protected: File -> bool,
                        stuck: set<File>): Fate {
    if !Safe(f) then Refused
    else if InRelease(keep, f) || protected(f) then Kept
    else if HoldsBelow(target, f) || (f in target && f in stuck) || Blocked(f, target, names, keep, protected, stuck) then Pending
    else Gone
  }

  /** A name never comes before one on the way to it, as in sorted names. */
  predicate TopDown(names: seq<File>) {
    forall i, j :: 0 <= i < j < |names| ==> !Above(names[j], names[i])
  }

  lemma AboveAll(f: File, g: File, h: File)
    requires Above(f, g) && Above(g, h)
    ensures Above(f, h)
  {
    assert h.parts[..|g.parts|][..|f.parts|] == h.parts[..|f.parts|];
  }

  /** When a removal comes to a name, a file is still above it exactly if one stays there to the end. */
  lemma StillAbove(names: seq<File>, done: nat, files: set<File>, before: set<File>, keep: set<File>, protected: File -> bool,
                   stuck: set<File>)
    requires done < |names| && TopDown(names)
    requires var all := Elements(names);
             forall f :: f in files <==>
               f in before && !(f in names[..done] && FateOf(f, before, all, keep, protected, stuck) == Gone)
    ensures (exists g :: g in files && Above(g, names[done])) <==>
            Blocked(names[done], before, Elements(names), keep, protected, stuck)
  {
    hide Above, Safe, InRelease, HoldsBelow;
    var all, name := Elements(names), names[done];
    if Blocked(name, before, all, keep, protected, stuck) {
      var g :| g in before && Above(g, name) && !(g in all && Unlinkable(g, before, keep, protected, stuck));
      assert g in names[..done] ==> g in all;
      assert g in files;
    }
    if exists g :: g in files && Above(g, name) {
      var g :| g in files && Above(g, name);
      if g in all && Unlinkable(g, before, keep, protected, stuck) {
        LooksAbove(names, done, g);
        var h :| h in before && Above(h, g) && !(h in all && Unlinkable(h, before, keep, protected, stuck));
        AboveAll(h, g, name);
      }
    }
  }

  /** What is above a name comes before it. */
  lemma LooksAbove(names: seq<File>, done: nat, g: File)
    requires done < |names| && TopDown(names) && g in names && Above(g, names[done])
    ensures g in names[..done]
  {
    var k :| 0 <= k < |names| && names[k] == g;
    assert k < done;
    assert names[..done][k] == g;
  }

  class Tree {
    var files: set<File>

    constructor (files: set<File>)
      ensures this.files == files
    {
      this.files := files;
    }

    /** The removal of names, one by one, of which `done` were looked at when it ended or was cut off after `limit`
        unlinked files. stuck: the files the server refuses to unlink. A directory stays one when its files are gone. */
    method Remove(names: seq<File>, keep: set<File>, protected: File -> bool, stuck: set<File>, limit: nat)
      returns (pending: set<File>, done: nat)
      requires TopDown(names)
      modifies this
      ensures done <= |names|
      ensures var all := Elements(names);
              && (forall f :: f in files <==>
                    f in old(files) && !(f in names[..done] && FateOf(f, old(files), all, keep, protected, stuck) == Gone))
              && (forall f :: f in pending <==>
                    f in names[..done] && FateOf(f, old(files), all, keep, protected, stuck) == Pending)
      ensures |old(files)| <= limit ==> done == |names|
    {
      hide Above, Safe, Blocked;
      var before, left := files, limit;
      ghost var all := Elements(names);
      pending, done := {}, 0;
      while done < |names|
        invariant done <= |names|
        invariant files <= before && |before| - |files| == limit - left
        invariant forall f :: f in files <==>
                    f in before && !(f in names[..done] && FateOf(f, before, all, keep, protected, stuck) == Gone)
        invariant forall f :: f in pending <==> f in names[..done] && FateOf(f, before, all, keep, protected, stuck) == Pending
      {
        var name := names[done];
        assert names[..done + 1] == names[..done] + [name];
        StillAbove(names, done, files, before, keep, protected, stuck);
        var ships := name in keep || exists g :: g in keep && Above(name, g);
        if !Safe(name) || ships || protected(name) {
        } else if HoldsBelow(before, name) || exists g :: g in files && Above(g, name) {
          pending := pending + {name};
        } else if name in files {
          if name in stuck {
            pending := pending + {name};
          } else {
            if left == 0 {
              assert |files| > 0;
              return;
            }
            files, left := files - {name}, left - 1;
          }
        }
        done := done + 1;
      }
    }
  }
}
