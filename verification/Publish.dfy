/** The staged release published into the live tree: a merge of the two trees, path by path. */
module Publish {
  import opened Destination
  import opened Wrappers

  predicate Below(p: Path, at: Path) {
    |p| > |at| && p[..|at|] == at
  }

  /** What is staged below a directory. */
  function Under(staged: Tree, at: Path): set<Path> {
    set p | p in staged && Below(p, at)
  }

  lemma UnderRoot(staged: Tree)
    requires TreeOk(staged)
    ensures Under(staged, []) == staged.Keys
  {
  }

  /** What is staged below a directory, through the entries of these names. */
  function Through(staged: Tree, at: Path, names: set<Part>): set<Path> {
    set p | p in staged && Below(p, at) && p[|at|] in names
  }

  /** A staged file or link where the live tree has a directory: it cannot be renamed over it. */
  predicate Conflict(live: Tree, staged: Tree, keep: bool, p: Path) {
    !keep && p in staged && !staged[p].Directory? && p in live && live[p].Directory?
  }

  /** The live tree with these staged paths published. keep (ignore_existing) publishes files and links only where the
      live tree has nothing. */
  function Merged(live: Tree, staged: Tree, keep: bool, paths: set<Path>): Tree {
    live + map p | p in staged && p in paths && (!keep || staged[p].Directory? || p !in live) :: staged[p]
  }

  /** What publishing these paths takes out of the staging directory: a rename moves, a link does not. */
  function Moved(staged: Tree, keep: bool, paths: set<Path>): set<Path> {
    set p | p in staged && p in paths && !keep && !staged[p].Directory?
  }

  /** These staged paths, and no others, have been published, and none of them met a conflict. */
  predicate Published(live: Tree, staged: Tree, keep: bool, paths: set<Path>, after: Tree, left: Tree) {
    && after == Merged(live, staged, keep, paths)
    && left == staged - Moved(staged, keep, paths)
    && forall p :: p in paths ==> !Conflict(live, staged, keep, p)
  }

  /** A publish that ends is a merge of the trees: every staged path is there (a file or link only where the live tree has
      nothing, with keep), every other path is as it was, nothing but a file or a link is ever replaced (with keep, only by
      a directory), and what is renamed leaves the staging directory while what is linked stays there too. */
  lemma PublishMerges(live: Tree, staged: Tree, keep: bool, after: Tree, left: Tree, p: Path)
    requires Published(live, staged, keep, staged.Keys, after, left)
    ensures p in staged ==>
              p in after && after[p] == if keep && !staged[p].Directory? && p in live then live[p] else staged[p]
    ensures p !in staged ==> (p in after <==> p in live) && (p in live ==> after[p] == live[p])
    ensures p in live && after[p] != live[p] ==> !live[p].Directory? && (keep ==> staged[p].Directory?)
    ensures p in left <==> p in staged && (keep || staged[p].Directory?)
  {
    if p in staged && !keep && p in live {
      assert !Conflict(live, staged, keep, p);
    }
  }

  lemma MergedTwice(live: Tree, staged: Tree, keep: bool, a: set<Path>, b: set<Path>)
    requires a !! b
    ensures Merged(Merged(live, staged, keep, a), staged - Moved(staged, keep, a), keep, b) == Merged(live, staged, keep, a + b)
  {
  }

  lemma MovedTwice(staged: Tree, keep: bool, a: set<Path>, b: set<Path>)
    requires a !! b
    ensures staged - Moved(staged, keep, a) - Moved(staged - Moved(staged, keep, a), keep, b) == staged - Moved(staged, keep, a + b)
  {
  }

  /** What is not yet published is as it was. */
  lemma PublishedOutside(live: Tree, staged: Tree, keep: bool, paths: set<Path>, after: Tree, left: Tree, p: Path)
    requires Published(live, staged, keep, paths, after, left) && p !in paths
    ensures (p in left <==> p in staged) && (p in staged ==> left[p] == staged[p])
    ensures (p in after <==> p in live) && (p in live ==> after[p] == live[p])
    ensures Conflict(after, left, keep, p) == Conflict(live, staged, keep, p)
  {
  }

  lemma PublishedNext(live: Tree, staged: Tree, keep: bool, a: set<Path>, after: Tree, left: Tree, b: set<Path>, last: Tree, rest: Tree)
    requires Published(live, staged, keep, a, after, left) && Published(after, left, keep, b, last, rest) && a !! b
    ensures Published(live, staged, keep, a + b, last, rest)
  {
    MergedTwice(live, staged, keep, a, b);
    MovedTwice(staged, keep, a, b);
    forall p | p in b
      ensures !Conflict(live, staged, keep, p)
    {
      PublishedOutside(live, staged, keep, a, after, left, p);
    }
    hide Merged, Moved, Conflict;
  }

  /** A directory of the live tree stays one. */
  lemma PublishedDirectory(live: Tree, staged: Tree, keep: bool, paths: set<Path>, after: Tree, left: Tree, at: Path)
    requires Published(live, staged, keep, paths, after, left) && IsDirectory(live, at)
    ensures IsDirectory(after, at)
  {
  }

  lemma PublishedUnder(live: Tree, staged: Tree, keep: bool, paths: set<Path>, after: Tree, left: Tree, at: Path)
    requires Published(live, staged, keep, paths, after, left) && Under(staged, at) !! paths
    ensures Under(left, at) == Under(staged, at)
  {
  }

  lemma PublishedOne(live: Tree, staged: Tree, keep: bool, p: Path)
    requires p in staged && !Conflict(live, staged, keep, p)
    ensures Published(live, staged, keep, {p},
                      if !keep || staged[p].Directory? || p !in live then live[p := staged[p]] else live,
                      if keep || staged[p].Directory? then staged else staged - {p})
  {
    var left := if keep || staged[p].Directory? then staged else staged - {p};
    assert left == staged - Moved(staged, keep, {p});
  }

  lemma ReplacedTwice(t: Tree, p: Path, node: Node)
    ensures (t - {p})[p := node] == t[p := node]
  {
  }

  lemma PutAgain(t: Tree, p: Path)
    requires p in t
    ensures t == t[p := t[p]]
  {
  }

  lemma TreePut(t: Tree, p: Path, node: Node)
    requires TreeOk(t) && p != [] && IsDirectory(t, Parent(p)) && (p in t && t[p].Directory? ==> node.Directory?)
    ensures TreeOk(t[p := node])
  {
  }

  lemma TreeDrop(t: Tree, p: Path)
    requires TreeOk(t) && p in t && !t[p].Directory?
    ensures TreeOk(t - {p})
  {
  }

  /** A staged path and what is below it. */
  function Whole(staged: Tree, p: Path): set<Path> {
    set q | q in staged && (q == p || Below(q, p))
  }

  lemma WholeIs(staged: Tree, p: Path)
    requires TreeOk(staged) && p in staged
    ensures Whole(staged, p) == {p} + Under(staged, p) && p !in Under(staged, p)
    ensures !staged[p].Directory? ==> Under(staged, p) == {}
  {
    if q :| q in Under(staged, p) && !staged[p].Directory? {
      EntryAbove(staged, p, q);
    }
  }

  /** What lies below a path lies below a directory. */
  lemma {:induction false} EntryAbove(staged: Tree, at: Path, p: Path)
    requires TreeOk(staged) && p in Under(staged, at)
    ensures IsDirectory(staged, at)
    decreases |p|
  {
    if |p| == |at| + 1 {
      assert Parent(p) == at;
    } else {
      assert Parent(p)[..|at|] == at;
      EntryAbove(staged, at, Parent(p));
    }
  }

  /** Every staged path below a directory is one of its entries or below one. */
  lemma EntryOf(staged: Tree, at: Path, p: Path)
    requires TreeOk(staged) && p in Under(staged, at)
    ensures p in Whole(staged, at + [p[|at|]]) && at + [p[|at|]] in staged
  {
    var entry := at + [p[|at|]];
    assert p[..|entry|] == entry;
    if p != entry {
      EntryAbove(staged, entry, p);
    }
  }

  lemma ThroughNext(staged: Tree, at: Path, names: set<Part>, name: Part)
    requires TreeOk(staged) && at + [name] in staged && name !in names
    ensures var whole := Whole(staged, at + [name]);
            && Through(staged, at, names + {name}) == Through(staged, at, names) + whole
            && whole !! Through(staged, at, names) && whole <= Under(staged, at)
    ensures Through(staged, at, names) <= Under(staged, at) && Parent(at + [name]) == at && at + [name] != []
  {
    var c := at + [name];
    forall p | p in staged && Below(p, at) && p[|at|] == name
      ensures p in Whole(staged, c)
    {
      EntryOf(staged, at, p);
    }
    forall p | p in Whole(staged, c)
      ensures Below(p, at) && p[|at|] == name
    {
      assert p[..|c|] == c && p[..|at|] == c[..|at|] == at;
    }
  }

  lemma ThroughAll(staged: Tree, at: Path, names: set<Part>)
    requires TreeOk(staged) && forall name :: at + [name] in staged ==> name in names
    ensures Through(staged, at, names) == Under(staged, at)
  {
    forall p | p in Under(staged, at)
      ensures p[|at|] in names
    {
      EntryOf(staged, at, p);
    }
  }

  lemma ThroughNone(staged: Tree, at: Path)
    ensures Through(staged, at, {}) == {}
  {
  }

  lemma PublishedNone(live: Tree, staged: Tree, keep: bool)
    ensures Published(live, staged, keep, {}, live, staged)
  {
  }

  lemma PublishedWhole(live: Tree, staged: Tree, keep: bool, paths: set<Path>, after: Tree, left: Tree, p: Path)
    requires Published(live, staged, keep, paths, after, left) && Whole(staged, p) !! paths && p in staged
    ensures Whole(left, p) == Whole(staged, p) && p in left
  {
    assert p in Whole(staged, p);
  }

  lemma PlacedDirectory(live: Tree, staged: Tree, keep: bool, p: Path, after: Tree, left: Tree)
    requires p in staged && staged[p].Directory? && Published(live, staged, keep, {p}, after, left)
    ensures IsDirectory(after, p) && IsDirectory(left, p)
  {
  }

  class Publisher {
    const keep: bool  // ignore_existing
    var staged: Tree
    var live: Tree

    constructor (keep: bool, staged: Tree, live: Tree)
      requires TreeOk(staged) && TreeOk(live)
      ensures this.keep == keep && this.staged == staged && this.live == live && Valid()
    {
      this.keep, this.staged, this.live := keep, staged, live;
    }

    ghost predicate Valid()
      reads this
    {
      TreeOk(staged) && TreeOk(live)
    }

    /** The names of a staged directory's entries. */
    function Entries(at: Path): (names: set<Part>)
      reads this
      ensures forall name :: name in names <==> at + [name] in staged
    {
      assert forall name :: at + [name] in staged ==> Below(at + [name], at) && (at + [name])[|at|] == name;
      assert forall p :: p in staged && Below(p, at) && |p| == |at| + 1 ==> p == at + [p[|at|]];
      set p | p in staged && Below(p, at) && |p| == |at| + 1 :: p[|at|]
    }

    /** A directory of this name in the live tree, in place of a link or file of that name. */
    method PlaceDirectory(p: Path)
      requires Valid() && p != [] && IsDirectory(live, Parent(p)) && p in staged && staged[p].Directory?
      modifies this`live
      ensures Valid() && Published(old(live), staged, keep, {p}, live, staged)
    {
      PublishedOne(live, staged, keep, p);
      TreePut(live, p, Directory);
      hide Published, TreeOk;
      if p !in live {
        live := live[p := Directory];
      } else if !live[p].Directory? {
        ReplacedTwice(live, p, Directory);
        live := live - {p};
        live := live[p := Directory];
      } else {
        PutAgain(live, p);
      }
    }

    /** A staged file or link put into the live tree: kept out by what is there, or renamed over it. */
    method PlaceEntry(p: Path) returns (ok: bool)
      requires Valid() && p != [] && IsDirectory(live, Parent(p)) && p in staged && !staged[p].Directory?
      modifies this
      ensures Valid() && ok == !Conflict(old(live), old(staged), keep, p)
      ensures ok ==> Published(old(live), old(staged), keep, {p}, live, staged)
      ensures !ok ==> live == old(live) && staged == old(staged)
    {
      TreeDrop(staged, p);
      if !Conflict(live, staged, keep, p) {
        PublishedOne(live, staged, keep, p);
        if !(keep && p in live) {
          TreePut(live, p, staged[p]);
        }
      }
      hide Published, TreeOk;
      if keep {
        if p !in live {
          live := live[p := staged[p]];
        }
        return true;
      }
      if p in live && live[p].Directory? {
        return false;
      }
      live, staged := live[p := staged[p]], staged - {p};
      return true;
    }

    /** Publishes one staged entry: a directory with what is staged below it, or a file or link. */
    method PublishEntry(p: Path) returns (conflict: Option<Path>, ghost done: set<Path>)
      requires Valid() && p in staged && p != [] && IsDirectory(live, Parent(p))
      modifies this
      ensures Valid() && Published(old(live), old(staged), keep, done, live, staged) && done <= Whole(old(staged), p)
      ensures match conflict
              case None => done == Whole(old(staged), p)
              case Some(c) => c in Whole(old(staged), p) && c !in done && Conflict(old(live), old(staged), keep, c)
      decreases Whole(staged, p), 0
    {
      WholeIs(staged, p);
      hide *;
      ghost var l, s := live, staged;
      PublishedNone(l, s, keep);
      if !staged[p].Directory? {
        var ok := PlaceEntry(p);
        return if ok then None else Some(p), if ok then {p} else {};
      }
      PlaceDirectory(p);
      PlacedDirectory(l, s, keep, p, live, staged);
      PublishedUnder(l, s, keep, {p}, live, staged, p);
      ghost var l1, s1 := live, staged;
      conflict, done := Publish(p);
      PublishedNext(l, s, keep, {p}, l1, s1, done, live, staged);
      if conflict.Some? {
        PublishedOutside(l, s, keep, {p}, l1, s1, conflict.value);
      }
      done := {p} + done;
    }

    /** Publishes what is staged below a directory, entry by entry, in whatever order; a conflict stops it. */
    method Publish(at: Path) returns (conflict: Option<Path>, ghost done: set<Path>)
      requires Valid() && IsDirectory(staged, at) && IsDirectory(live, at)
      modifies this
      ensures Valid() && Published(old(live), old(staged), keep, done, live, staged) && done <= Under(old(staged), at)
      ensures match conflict
              case None => done == Under(old(staged), at) && (at == [] ==> done == old(staged).Keys)
              case Some(p) => p in Under(old(staged), at) && p !in done && Conflict(old(live), old(staged), keep, p)
      decreases Under(staged, at), 1
    {
      assert TreeOk(staged);
      hide *;
      ghost var l, s, finished := live, staged, {};
      var left := Entries(at);
      conflict, done := None, {};
      PublishedNone(l, s, keep);
      ThroughNone(s, at);
      while left != {}
        invariant Valid() && Published(l, s, keep, done, live, staged) && conflict.None?
        invariant done == Through(s, at, finished) && left !! finished
        invariant forall name :: at + [name] in s <==> name in left + finished
        decreases left
      {
        var name :| name in left;
        ghost var c, l1, s1, newly := at + [name], live, staged, {};
        ThroughNext(s, at, finished, name);
        PublishedDirectory(l, s, keep, done, live, staged, at);
        PublishedWhole(l, s, keep, done, live, staged, c);
        conflict, newly := PublishEntry(at + [name]);
        PublishedNext(l, s, keep, done, l1, s1, newly, live, staged);
        if conflict.Some? {
          PublishedOutside(l, s, keep, done, l1, s1, conflict.value);
          done := done + newly;
          return;
        }
        done, finished, left := done + newly, finished + {name}, left - {name};
      }
      ThroughAll(s, at, finished);
      UnderRoot(s);
    }
  }
}
