/** One environment's deploys as a protocol: the history, the files on the target and the kept release copies, step by
    step, with a kill or a failure between any two steps. */
module DeployHistory {
  import opened Wrappers
  import opened DeployRemovals
  import opened DeployReleases
  import opened Sequences

  /** What does not change: the files each release ships, the names a deploy never removes, and the names that the copy's
      filters match, those of a directory (true) and those of a file. */
  datatype Environment = Environment(ships: Manifests, protected: File -> bool, excludes: (File, bool) -> bool)

  /** The deploy at work, if any: after its recorded copy, while it removes files, and after its removals are recorded. */
  datatype Run = Idle | Copied | Removing(names: set<File>, stuck: set<File>, before: set<File>) | Finishing

  datatype State = State(history: seq<Entry>, target: set<File>, built: set<Commit>, run: Run)

  datatype Step =
    | Build(commit: Commit, listed: seq<Commit>)
    | Copy(commit: Commit, rollback: bool, attempt: Option<AttemptId>)
    | PushProtected(files: set<File>)
    | StartRemovals(names: set<File>, stuck: set<File>)
    | Unlink(file: File)
    | EndRemovals(left: set<File>)
    | Complete
    | Fail(stage: string)
    | Kill
    | CheckHealth(ok: bool)

  function Last(entries: seq<Entry>): Entry
    requires entries != []
  {
    entries[|entries| - 1]
  }

  function ReplaceLast(entries: seq<Entry>, e: Entry): seq<Entry>
    requires entries != []
  {
    entries[..|entries| - 1] + [e]
  }

  /** The copy gets to a directory: its filters match neither it nor a directory on the way. */
  predicate Entered(env: Environment, d: File) {
    forall k :: 0 < k <= |d.parts| ==> !env.excludes(File(d.parts[..k]), true)
  }

  predicate IsSent(env: Environment, f: File) {
    !env.excludes(f, false) && forall k :: 0 < k < |f.parts| ==> !env.excludes(File(f.parts[..k]), true)
  }

  /** The files of a release that its copy sends. */
  function Sent(env: Environment, c: Commit): set<File> {
    set f | f in Shipped(env.ships, c) && IsSent(env, f)
  }

  /** A directory of a release that its copy leaves out, with all that is in it. */
  predicate LeftOut(env: Environment, c: Commit, d: File) {
    HoldsBelow(Shipped(env.ships, c), d) && !Entered(env, d)
  }

  /** The target after the copy: the sent files, and of what was there all but files in the place of which the release has
      a directory that its copy gets to. */
  function AfterCopy(env: Environment, target: set<File>, c: Commit): set<File> {
    Sent(env, c) + set f | f in target && !(HoldsBelow(Shipped(env.ships, c), f) && Entered(env, f))
  }

  /** The target after some files are put there: a file gives way to a directory. */
  function Over(target: set<File>, files: set<File>): set<File> {
    files + set f | f in target && !HoldsBelow(files, f)
  }

  /** The files the removal of the running deploy looks at. */
  ghost predicate Removable(env: Environment, entries: seq<Entry>, current: Commit, f: File) {
    Named(env.ships, entries, f) && f !in Shipped(env.ships, current) && !env.protected(f) && Safe(f)
  }

  /** What the running removal does with a name. */
  ghost function FateNow(env: Environment, s: State, f: File): Fate
    requires s.run.Removing? && s.history != []
  {
    FateOf(f, s.run.before, s.run.names, Shipped(env.ships, Last(s.history).commit), env.protected, s.run.stuck)
  }

  ghost predicate Enabled(env: Environment, s: State, step: Step) {
    match step
    case Build(c, listed) => s.run.Idle? && c !in s.built && c in env.ships && Elements(listed) == s.built + {c}
    case Copy(c, rollback, _) =>
      && s.run.Idle? && c in s.built && c in env.ships
      && (rollback ==> RollbackEntry(s.history).Some? && RollbackEntry(s.history).value.commit == c)
      // rsync does not replace a directory that still holds files by a file
      && (forall f, g :: f in Sent(env, c) && g in s.target ==> !Above(f, g))
    case PushProtected(files) =>
      && s.run.Copied? && s.history != []
      && (forall f :: f in files ==> f in Shipped(env.ships, Last(s.history).commit) && env.protected(f))
      && (forall f, g :: f in files && g in s.target ==> !Above(f, g))
    case StartRemovals(names, _) =>
      && s.run.Copied? && s.history != []
      && forall f :: f in names <==> Removable(env, s.history[..|s.history| - 1], Last(s.history).commit, f)
    case Unlink(f) =>
      s.run.Removing? && s.history != [] && f in s.run.names && f in s.target && FateNow(env, s, f).Gone?
    case EndRemovals(left) =>
      && s.run.Removing? && s.history != []
      && (forall f :: f in left <==> f in s.run.names && FateNow(env, s, f).Pending?)
      && (forall f :: f in s.run.names && f in s.target ==> !FateNow(env, s, f).Gone?)
    case Complete => s.run.Finishing? && s.history != []
    case Fail(_) => !s.run.Idle? && s.history != []
    case Kill => !s.run.Idle?
    case CheckHealth(_) =>
      s.run.Idle? && s.history != [] && (Last(s.history).failed == None || Last(s.history).failed == Some(FailedHealth))
  }

  ghost function Next(env: Environment, s: State, step: Step): State
    requires Enabled(env, s, step)
  {
    match step
    case Build(c, listed) => s.(built := Pruned(s.history, c, listed))
    case Copy(c, rollback, attempt) =>
      s.(history := s.history + [Entry(c, Some(Incomplete), true, {}, rollback, attempt, None)],
         target := AfterCopy(env, s.target, c), run := Copied)
    case PushProtected(files) => s.(target := Over(s.target, files))
    case StartRemovals(names, stuck) => s.(run := Removing(names, stuck, s.target))
    case Unlink(f) => s.(target := s.target - {f})
    case EndRemovals(left) =>
      s.(history := ReplaceLast(s.history, Last(s.history).(removalsPending := false, pendingRemovals := left)), run := Finishing)
    case Complete => s.(history := ReplaceLast(s.history, Last(s.history).(failed := None)), run := Idle)
    case Fail(stage) => s.(history := ReplaceLast(s.history, Last(s.history).(failed := Some(Stage(stage)))), run := Idle)
    case Kill => s.(run := Idle)
    case CheckHealth(ok) =>
      var last := Last(s.history);
      var checked := if ok then last.(health := Some(Good), failed := None)
                     else last.(health := Some(Bad), failed := Some(FailedHealth));
      s.(history := ReplaceLast(s.history, checked))
  }

  // ---- What every step keeps ----

  /** Some recorded deploy shipped the file. */
  ghost predicate EverShipped(env: Environment, entries: seq<Entry>, f: File) {
    exists i :: 0 <= i < |entries| && f in Shipped(env.ships, entries[i].commit)
  }

  /** Every file on the target that a recorded deploy shipped is named by the history, if it is safe and unprotected. */
  ghost predicate NoneForgotten(env: Environment, entries: seq<Entry>, target: set<File>) {
    forall f :: f in target && Safe(f) && !env.protected(f) && EverShipped(env, entries, f) ==> Named(env.ships, entries, f)
  }

  ghost predicate TreeOk(target: set<File>) {
    forall f, g :: f in target && g in target ==> !Above(f, g)
  }

  ghost predicate HistoryOk(env: Environment, entries: seq<Entry>) {
    && (forall i :: 0 <= i < |entries| ==> entries[i].commit in env.ships)
    && (forall i :: 0 <= i < |entries| ==> (entries[i].health == Some(Bad) <==> entries[i].failed == Some(FailedHealth)))
    && (forall i, f :: 0 <= i < |entries| && f in entries[i].pendingRemovals ==> EverShipped(env, entries, f))
  }

  ghost predicate RunOk(env: Environment, s: State) {
    !s.run.Idle? ==>
      && s.history != [] && Last(s.history).failed == Some(Incomplete) && Last(s.history).health.None?
      && Sent(env, Last(s.history).commit) <= s.target
      && (forall f :: f in s.target && HoldsBelow(Shipped(env.ships, Last(s.history).commit), f) ==> !Entered(env, f))
      && (Last(s.history).removalsPending <==> !s.run.Finishing?)
      && (!s.run.Finishing? ==> Last(s.history).pendingRemovals == {})
      && (s.run.Removing? ==>
            && s.target <= s.run.before && TreeOk(s.run.before)
            && forall f :: f in s.run.names <==> Removable(env, s.history[..|s.history| - 1], Last(s.history).commit, f))
  }

  ghost predicate Invariant(env: Environment, s: State) {
    && TreeOk(s.target) && HistoryOk(env, s.history) && RunOk(env, s) && CopiesKept(s.history, s.built)
    && NoneForgotten(env, s.history, s.target)
  }

  /** Each release is a tree. */
  ghost predicate ReleasesOk(env: Environment) {
    forall c :: c in env.ships ==> TreeOk(env.ships[c])
  }

  /** The directories of releases that the copy leaves out are protected, as files of their name are. */
  ghost predicate DirectoriesProtected(env: Environment) {
    forall c, d :: c in env.ships && Safe(d) && LeftOut(env, c, d) ==> env.protected(d)
  }

  ghost predicate Initial(s: State) {
    s.history == [] && s.built == {} && s.run.Idle? && TreeOk(s.target)
  }

  lemma InitialOk(env: Environment, s: State)
    requires Initial(s)
    ensures Invariant(env, s)
  {
  }

  // ---- Histories ----

  lemma NamedAppend(m: Manifests, entries: seq<Entry>, e: Entry, f: File)
    ensures Named(m, entries + [e], f) <==>
            f in Shipped(m, e.commit) || f in e.pendingRemovals || (e.removalsPending && Named(m, entries, f))
  {
    var all, n := entries + [e], |entries|;
    if Named(m, entries, f) && e.removalsPending {
      var i :| 0 <= i < n && (f in Shipped(m, entries[i].commit) || f in entries[i].pendingRemovals)
               && forall j :: i < j < n ==> entries[j].removalsPending;
      assert all[i] == entries[i] && forall j :: i < j < n ==> all[j] == entries[j];
    }
    if Named(m, all, f) {
      var i :| 0 <= i < |all| && (f in Shipped(m, all[i].commit) || f in all[i].pendingRemovals)
               && forall j :: i < j < |all| ==> all[j].removalsPending;
      if i < n {
        assert all[n].removalsPending;
        assert forall j :: i < j < n ==> all[j] == entries[j];
      }
    }
    if f in Shipped(m, e.commit) || f in e.pendingRemovals {
      assert all[n] == e;
    }
  }

  lemma EverShippedAppend(env: Environment, entries: seq<Entry>, e: Entry, f: File)
    ensures EverShipped(env, entries + [e], f) <==> f in Shipped(env.ships, e.commit) || EverShipped(env, entries, f)
  {
    var all := entries + [e];
    if EverShipped(env, entries, f) {
      var i :| 0 <= i < |entries| && f in Shipped(env.ships, entries[i].commit);
      assert all[i] == entries[i];
    }
    assert all[|entries|] == e;
  }

  /** Removable files were shipped by some recorded deploy. */
  lemma NamedWasShipped(env: Environment, entries: seq<Entry>, f: File)
    requires HistoryOk(env, entries) && Named(env.ships, entries, f)
    ensures EverShipped(env, entries, f)
  {
  }

  lemma SplitLast(entries: seq<Entry>)
    requires entries != []
    ensures entries == entries[..|entries| - 1] + [Last(entries)]
  {
  }

  lemma HistoryAppend(env: Environment, entries: seq<Entry>, e: Entry)
    requires HistoryOk(env, entries) && e.commit in env.ships && (e.health == Some(Bad) <==> e.failed == Some(FailedHealth))
    requires forall f :: f in e.pendingRemovals ==> EverShipped(env, entries + [e], f)
    ensures HistoryOk(env, entries + [e])
  {
    var all := entries + [e];
    forall i, f | 0 <= i < |all| && f in all[i].pendingRemovals
      ensures EverShipped(env, all, f)
    {
      EverShippedAppend(env, entries, e, f);
    }
  }

  /** Rewriting the last entry of the same commit. */
  lemma HistoryReplace(env: Environment, entries: seq<Entry>, e: Entry)
    requires HistoryOk(env, entries) && entries != [] && e.commit == Last(entries).commit
    requires e.health == Some(Bad) <==> e.failed == Some(FailedHealth)
    requires forall f :: f in e.pendingRemovals ==> EverShipped(env, entries, f)
    ensures HistoryOk(env, ReplaceLast(entries, e))
    ensures forall f :: EverShipped(env, ReplaceLast(entries, e), f) <==> EverShipped(env, entries, f)
  {
    var all := ReplaceLast(entries, e);
    forall f
      ensures EverShipped(env, all, f) <==> EverShipped(env, entries, f)
    {
      SplitLast(entries);
      EverShippedAppend(env, entries[..|entries| - 1], Last(entries), f);
      EverShippedAppend(env, entries[..|entries| - 1], e, f);
    }
  }

  lemma NamedReplace(env: Environment, entries: seq<Entry>, e: Entry, f: File)
    requires entries != [] && e.commit == Last(entries).commit && e.removalsPending == Last(entries).removalsPending
    requires e.pendingRemovals == Last(entries).pendingRemovals
    ensures Named(env.ships, ReplaceLast(entries, e), f) <==> Named(env.ships, entries, f)
  {
    SplitLast(entries);
    NamedAppend(env.ships, entries[..|entries| - 1], Last(entries), f);
    NamedAppend(env.ships, entries[..|entries| - 1], e, f);
  }

  lemma CopiesReplace(entries: seq<Entry>, e: Entry, built: set<Commit>)
    requires entries != [] && CopiesKept(entries, built) && e.commit == Last(entries).commit
    ensures CopiesKept(ReplaceLast(entries, e), built)
  {
    assert ReplaceLast(entries, e)[..|entries| - 1] == entries[..|entries| - 1];
  }

  // ---- Each step ----

  lemma EnteredAbove(env: Environment, d: File, f: File)
    requires IsSent(env, f) && Above(d, f)
    ensures Entered(env, d)
  {
    forall k | 0 < k <= |d.parts|
      ensures !env.excludes(File(d.parts[..k]), true)
    {
      assert d.parts[..k] == f.parts[..k];
    }
  }

  /** What is on the target after a copy is a tree, and has no file in the place of a directory that the copy got to. */
  lemma CopiedTarget(env: Environment, target: set<File>, c: Commit)
    requires TreeOk(target) && TreeOk(Shipped(env.ships, c)) && forall f, g :: f in Sent(env, c) && g in target ==> !Above(f, g)
    ensures TreeOk(AfterCopy(env, target, c))
    ensures forall f :: f in AfterCopy(env, target, c) && HoldsBelow(Shipped(env.ships, c), f) ==> !Entered(env, f)
  {
    hide Entered, IsSent, Above;
    var next := AfterCopy(env, target, c);
    forall f, g | f in next && g in next
      ensures !Above(f, g)
    {
      if f in target && g in Sent(env, c) && Above(f, g) {
        EnteredAbove(env, f, g);
      }
    }
  }

  lemma CopyKeeps(env: Environment, s: State, c: Commit, rollback: bool, attempt: Option<AttemptId>)
    requires ReleasesOk(env) && Invariant(env, s) && Enabled(env, s, Copy(c, rollback, attempt))
    ensures Invariant(env, Next(env, s, Copy(c, rollback, attempt)))
  {
    var e := Entry(c, Some(Incomplete), true, {}, rollback, attempt, None);
    var next := Next(env, s, Copy(c, rollback, attempt));
    CopiedTarget(env, s.target, c);
    HistoryAppend(env, s.history, e);
    RecordKeeps(s.history, e, s.built);
    forall f
      ensures Named(env.ships, next.history, f) <==> f in Shipped(env.ships, c) || Named(env.ships, s.history, f)
      ensures EverShipped(env, next.history, f) <==> f in Shipped(env.ships, c) || EverShipped(env, s.history, f)
    {
      NamedAppend(env.ships, s.history, e, f);
      EverShippedAppend(env, s.history, e, f);
    }
    hide Named, EverShipped, TreeOk, Entered, IsSent, HoldsBelow, HistoryOk, CopiesKept;
  }

  lemma OverIsTree(env: Environment, target: set<File>, files: set<File>, ships: set<File>)
    requires TreeOk(target) && TreeOk(ships) && files <= ships && forall f, g :: f in files && g in target ==> !Above(f, g)
    ensures TreeOk(Over(target, files))
    ensures forall f :: f in ships && f in target ==> f in Over(target, files)
    ensures forall f :: f in Over(target, files) && HoldsBelow(ships, f) ==> f in target
  {
    hide Above;
  }

  /** Files put over the protected paths keep the invariant: they are the new release's, and take the place of files only. */
  lemma PushKeeps(env: Environment, s: State, files: set<File>)
    requires ReleasesOk(env) && Invariant(env, s) && Enabled(env, s, PushProtected(files))
    ensures Invariant(env, Next(env, s, PushProtected(files)))
  {
    var ships := Shipped(env.ships, Last(s.history).commit);
    assert TreeOk(ships);
    OverIsTree(env, s.target, files, ships);
    assert forall f :: f in Over(s.target, files) && !env.protected(f) ==> f in s.target;
    hide Entered, IsSent, EverShipped, Above, Named, TreeOk, HoldsBelow, HistoryOk, CopiesKept, Over;
  }

  /** Why a removable file that is still there stays: the server, or a directory of the new release's that its copy leaves
      out. */
  lemma StaysWhy(env: Environment, s: State, left: set<File>, f: File)
    requires Invariant(env, s) && Enabled(env, s, EndRemovals(left))
    requires f in s.target && Safe(f) && !env.protected(f) && EverShipped(env, s.history, f)
    ensures var c := Last(s.history).commit;
            f in Shipped(env.ships, c) || f in left || (f in s.run.names && LeftOut(env, c, f))
  {
    var prefix := s.history[..|s.history| - 1];
    SplitLast(s.history);
    NamedAppend(env.ships, prefix, Last(s.history), f);
    hide Entered, IsSent, EverShipped, Above;
  }

  /** When a removal step ends, every safe, unprotected file that a recorded deploy shipped and that is still on the target
      is the new release's or left pending -- exactly when none of the files to remove has the name of a directory of
      the new release that its copy leaves out: remove_inside keeps such a name, and it is not pending. */
  lemma RemovalsEnd(env: Environment, s: State, left: set<File>)
    requires Invariant(env, s) && Enabled(env, s, EndRemovals(left))
    ensures var c := Last(s.history).commit;
            (forall f :: f in s.target && Safe(f) && !env.protected(f) && EverShipped(env, s.history, f) ==>
               f in Shipped(env.ships, c) || f in left)
            <==> forall f :: f in s.run.names && f in s.target ==> !LeftOut(env, c, f)
  {
    hide Entered, EverShipped, Named, Invariant, Above;
    var c := Last(s.history).commit;
    forall f | f in s.target && Safe(f) && !env.protected(f) && EverShipped(env, s.history, f)
      ensures f in Shipped(env.ships, c) || f in left || (f in s.run.names && LeftOut(env, c, f))
    {
      StaysWhy(env, s, left, f);
    }
    forall f | f in s.run.names && f in s.target && LeftOut(env, c, f)
      ensures Safe(f) && !env.protected(f) && EverShipped(env, s.history, f) && f !in Shipped(env.ships, c) && f !in left
    {
      LeftOutStays(env, s, left, f);
    }
  }

  lemma LeftOutStays(env: Environment, s: State, left: set<File>, f: File)
    requires Invariant(env, s) && Enabled(env, s, EndRemovals(left))
    requires f in s.run.names && LeftOut(env, Last(s.history).commit, f)
    ensures Safe(f) && !env.protected(f) && EverShipped(env, s.history, f) && f !in Shipped(env.ships, Last(s.history).commit)
    ensures f !in left
  {
    var c, prefix := Last(s.history).commit, s.history[..|s.history| - 1];
    assert Removable(env, prefix, c, f);
    assert FateNow(env, s, f) == Kept;
    SplitLast(s.history);
    NamedAppend(env.ships, prefix, Last(s.history), f);
    NamedWasShipped(env, s.history, f);
  }

  /** Where such directories are protected, it is so after every removal. */
  lemma RemovalsEndWell(env: Environment, s: State, left: set<File>)
    requires DirectoriesProtected(env) && Invariant(env, s) && Enabled(env, s, EndRemovals(left))
    ensures forall f :: f in s.target && Safe(f) && !env.protected(f) && EverShipped(env, s.history, f) ==>
              f in Shipped(env.ships, Last(s.history).commit) || f in left
  {
    var c := Last(s.history).commit;
    assert c in env.ships;
    forall f | f in s.run.names && f in s.target
      ensures !LeftOut(env, c, f)
    {
      assert Removable(env, s.history[..|s.history| - 1], c, f);
    }
    RemovalsEnd(env, s, left);
    hide LeftOut, EverShipped, Named, Invariant, Above;
  }

  /** Every name to remove was shipped by some recorded deploy. */
  lemma NamesWereShipped(env: Environment, s: State)
    requires Invariant(env, s) && s.run.Removing?
    ensures forall f :: f in s.run.names ==> EverShipped(env, s.history, f)
  {
    var last, prefix := Last(s.history), s.history[..|s.history| - 1];
    SplitLast(s.history);
    forall f | f in s.run.names
      ensures EverShipped(env, s.history, f)
    {
      NamedAppend(env.ships, prefix, last, f);
      NamedWasShipped(env, s.history, f);
    }
  }

  lemma EndRemovalsKeeps(env: Environment, s: State, left: set<File>)
    requires DirectoriesProtected(env) && Invariant(env, s) && Enabled(env, s, EndRemovals(left))
    ensures Invariant(env, Next(env, s, EndRemovals(left)))
  {
    var last, prefix := Last(s.history), s.history[..|s.history| - 1];
    var e := last.(removalsPending := false, pendingRemovals := left);
    NamesWereShipped(env, s);
    HistoryReplace(env, s.history, e);
    CopiesReplace(s.history, e, s.built);
    RemovalsEndWell(env, s, left);
    hide EverShipped, Named, TreeOk, Entered, IsSent, Above, HoldsBelow, HistoryOk, CopiesKept, DirectoriesProtected, Shipped;
    forall f | f in s.target && Safe(f) && !env.protected(f) && EverShipped(env, ReplaceLast(s.history, e), f)
      ensures Named(env.ships, ReplaceLast(s.history, e), f)
    {
      NamedAppend(env.ships, prefix, e, f);
    }
  }

  /** Steps that only rewrite what the last entry says about its result. */
  lemma ResultKeeps(env: Environment, s: State, e: Entry)
    requires Invariant(env, s) && s.history != []
    requires e.commit == Last(s.history).commit && e.removalsPending == Last(s.history).removalsPending
    requires e.pendingRemovals == Last(s.history).pendingRemovals
    requires e.health == Some(Bad) <==> e.failed == Some(FailedHealth)
    ensures Invariant(env, s.(history := ReplaceLast(s.history, e), run := Idle))
  {
    forall f | f in e.pendingRemovals
      ensures EverShipped(env, s.history, f)
    {
      assert s.history[|s.history| - 1] == Last(s.history);
    }
    HistoryReplace(env, s.history, e);
    CopiesReplace(s.history, e, s.built);
    forall f | f in s.target && Safe(f) && !env.protected(f) && EverShipped(env, ReplaceLast(s.history, e), f)
      ensures Named(env.ships, ReplaceLast(s.history, e), f)
    {
      NamedReplace(env, s.history, e, f);
    }
  }

  /** Every step keeps the invariant. */
  lemma StepKeeps(env: Environment, s: State, step: Step)
    requires ReleasesOk(env) && DirectoriesProtected(env) && Invariant(env, s) && Enabled(env, s, step)
    ensures Invariant(env, Next(env, s, step))
  {
    match step
    case Build(c, listed) => PruneKeeps(s.history, s.built, c, listed);
    case Copy(c, rollback, attempt) => CopyKeeps(env, s, c, rollback, attempt);
    case PushProtected(files) => PushKeeps(env, s, files);
    case EndRemovals(left) => EndRemovalsKeeps(env, s, left);
    case Complete => ResultKeeps(env, s, Last(s.history).(failed := None));
    case Fail(stage) => ResultKeeps(env, s, Last(s.history).(failed := Some(Stage(stage))));
    case CheckHealth(ok) =>
      var last := Last(s.history);
      ResultKeeps(env, s, if ok then last.(health := Some(Good), failed := None)
                          else last.(health := Some(Bad), failed := Some(FailedHealth)));
    case _ =>
  }

  // ---- Whole runs ----

  /** The state after the steps, or None when one of them cannot be taken. */
  ghost function After(env: Environment, s: State, steps: seq<Step>): Option<State>
    decreases |steps|
  {
    if steps == [] then Some(s)
    else if Enabled(env, s, steps[0]) then After(env, Next(env, s, steps[0]), steps[1..])
    else None
  }

  /** From an empty history, whatever deploys, failures, kills, rollbacks, prunes and health checks follow each other:
      no stale file is forgotten, and the release a rollback returns to still has its copy. */
  lemma {:induction false} EveryRunKeeps(env: Environment, s: State, steps: seq<Step>)
    requires ReleasesOk(env) && DirectoriesProtected(env) && Invariant(env, s) && After(env, s, steps).Some?
    ensures var last := After(env, s, steps).value;
            && Invariant(env, last)
            && NoneForgotten(env, last.history, last.target)
            && (RollbackEntry(last.history).Some? ==> RollbackEntry(last.history).value.commit in last.built)
    decreases |steps|
  {
    hide Invariant, ReleasesOk, DirectoriesProtected, NoneForgotten;
    if steps == [] {
      InvariantSays(env, s);
    } else {
      StepKeeps(env, s, steps[0]);
      EveryRunKeeps(env, Next(env, s, steps[0]), steps[1..]);
    }
  }

  lemma InvariantSays(env: Environment, s: State)
    requires Invariant(env, s)
    ensures NoneForgotten(env, s.history, s.target)
    ensures RollbackEntry(s.history).Some? ==> RollbackEntry(s.history).value.commit in s.built
  {
    RollbackCopyKept(s.history, s.built);
  }

  /** What is unlinked was shipped by a recorded deploy, is not the new release's and is not protected. */
  lemma UnlinksOnlyStale(env: Environment, s: State, f: File)
    requires Invariant(env, s) && Enabled(env, s, Unlink(f))
    ensures EverShipped(env, s.history, f) && f !in Shipped(env.ships, Last(s.history).commit) && !env.protected(f) && Safe(f)
  {
    var prefix := s.history[..|s.history| - 1];
    SplitLast(s.history);
    NamedAppend(env.ships, prefix, Last(s.history), f);
    NamedWasShipped(env, s.history, f);
  }

  // ---- A run that forgets a file ----

  lemma AfterCons(env: Environment, s: State, step: Step, rest: seq<Step>)
    ensures After(env, s, [step] + rest) == if Enabled(env, s, step) then After(env, Next(env, s, step), rest) else None
    ensures After(env, s, []) == Some(s)
  {
    assert ([step] + rest)[1..] == rest;
    hide Enabled, Next;
  }

  function DoneEntry(c: Commit): Entry {
    Entry(c, None, false, {}, false, None, None)
  }

  function CopiedEntry(c: Commit): Entry {
    Entry(c, Some(Incomplete), true, {}, false, None, None)
  }

  /** The entry of a deploy whose removals are done, but for the files left pending. */
  function RemovedEntry(c: Commit, left: set<File>): Entry {
    Entry(c, Some(Incomplete), false, left, false, None, None)
  }

  /** A first deploy that completes, and a second one up to the end of its removals, of which the server allows none. */
  function TwoDeploys(c: Commit, d: Commit, names: set<File>, left: set<File>): seq<Step> {
    [Build(c, [c])] + ([Copy(c, false, None)] + ([StartRemovals({}, {})] + ([EndRemovals({})] + ([Complete] +
    ([Build(d, [c, d])] + ([Copy(d, false, None)] + ([StartRemovals(names, names)] + ([EndRemovals(left)] + []))))))))
  }

  /** A file of release c in the place of which release d has a directory that its copy leaves out, unprotected. */
  ghost predicate Hides(env: Environment, c: Commit, d: Commit, f: File) {
    && c in env.ships && d in env.ships && f in env.ships[c] && LeftOut(env, d, f) && Safe(f) && !env.protected(f)
  }

  /** What the second deploy is to remove, and what it leaves pending. */
  function Stale(env: Environment, c: Commit, d: Commit): set<File> {
    set f | f in Shipped(env.ships, c) && f !in Shipped(env.ships, d) && !env.protected(f) && Safe(f)
  }

  /** The target after the first deploy's copy, with file f there before it, and after both. */
  function First(env: Environment, c: Commit, f: File): set<File> {
    AfterCopy(env, {f}, c)
  }

  function Both(env: Environment, c: Commit, d: Commit, f: File): set<File> {
    AfterCopy(env, First(env, c, f), d)
  }

  ghost function Left(env: Environment, c: Commit, d: Commit, f: File): set<File> {
    var names := Stale(env, c, d);
    set x | x in names && FateOf(x, Both(env, c, d, f), names, Shipped(env.ships, d), env.protected, names).Pending?
  }

  /** No history, and one file on the target. */
  function Start(f: File): State {
    State([], {f}, {}, Idle)
  }

  lemma FirstCopied(env: Environment, c: Commit, f: File)
    requires c in env.ships && forall x :: x in Sent(env, c) ==> !Above(x, f)
    ensures Enabled(env, Start(f), Build(c, [c])) && Next(env, Start(f), Build(c, [c])) == State([], {f}, {c}, Idle)
    ensures Enabled(env, State([], {f}, {c}, Idle), Copy(c, false, None))
    ensures Next(env, State([], {f}, {c}, Idle), Copy(c, false, None)) == State([CopiedEntry(c)], First(env, c, f), {c}, Copied)
  {
    hide Sent, AfterCopy;
    assert Elements([c]) == {c};
    assert Pruned([], c, [c]) == {c};
  }

  lemma FirstDone(env: Environment, c: Commit, f: File)
    ensures var target := First(env, c, f);
            var removing := State([CopiedEntry(c)], target, {c}, Removing({}, {}, target));
            var removed := State([RemovedEntry(c, {})], target, {c}, Finishing);
            && Enabled(env, State([CopiedEntry(c)], target, {c}, Copied), StartRemovals({}, {}))
            && Next(env, State([CopiedEntry(c)], target, {c}, Copied), StartRemovals({}, {})) == removing
            && Enabled(env, removing, EndRemovals({})) && Next(env, removing, EndRemovals({})) == removed
            && Enabled(env, removed, Complete) && Next(env, removed, Complete) == State([DoneEntry(c)], target, {c}, Idle)
  {
    hide First;
    assert [CopiedEntry(c)][..0] == [];
  }

  lemma SecondCopied(env: Environment, c: Commit, d: Commit, f: File)
    requires c in env.ships && d in env.ships && c != d
    requires forall x, y :: x in Sent(env, d) && y in First(env, c, f) ==> !Above(x, y)
    ensures var target := First(env, c, f);
            var done, built := State([DoneEntry(c)], target, {c}, Idle), State([DoneEntry(c)], target, {c, d}, Idle);
            && Enabled(env, done, Build(d, [c, d])) && Next(env, done, Build(d, [c, d])) == built
            && Enabled(env, built, Copy(d, false, None))
            && Next(env, built, Copy(d, false, None)) == State([DoneEntry(c), CopiedEntry(d)], Both(env, c, d, f), {c, d}, Copied)
  {
    hide Sent, AfterCopy, First;
    assert Elements([c, d]) == {c, d} && [c, d][..2] == [c, d];
    assert Pruned([DoneEntry(c)], d, [c, d]) == {c, d};
    assert [DoneEntry(c)] + [CopiedEntry(d)] == [DoneEntry(c), CopiedEntry(d)];
  }

  lemma SecondRemoved(env: Environment, c: Commit, d: Commit, f: File)
    ensures var names, left, target := Stale(env, c, d), Left(env, c, d, f), Both(env, c, d, f);
            var copied := State([DoneEntry(c), CopiedEntry(d)], target, {c, d}, Copied);
            var removing := copied.(run := Removing(names, names, target));
            && Enabled(env, copied, StartRemovals(names, names)) && Next(env, copied, StartRemovals(names, names)) == removing
            && Enabled(env, removing, EndRemovals(left))
            && Next(env, removing, EndRemovals(left)) == State([DoneEntry(c), RemovedEntry(d, left)], target, {c, d}, Finishing)
  {
    hide Both;
    assert [DoneEntry(c), CopiedEntry(d)][..1] == [DoneEntry(c)];
    NamedOnce(env, c);
    assert [DoneEntry(c)] + [RemovedEntry(d, Left(env, c, d, f))] == [DoneEntry(c), RemovedEntry(d, Left(env, c, d, f))];
  }

  lemma NamedOnce(env: Environment, c: Commit)
    ensures forall f :: Named(env.ships, [DoneEntry(c)], f) <==> f in Shipped(env.ships, c)
  {
    forall f
      ensures Named(env.ships, [DoneEntry(c)], f) <==> f in Shipped(env.ships, c)
    {
      NamedAppend(env.ships, [], DoneEntry(c), f);
      assert [] + [DoneEntry(c)] == [DoneEntry(c)];
    }
  }

  lemma TwoDeploysAre(c: Commit, d: Commit, names: set<File>, left: set<File>)
    ensures TwoDeploys(c, d, names, left) ==
            [Build(c, [c])] + ([Copy(c, false, None)] + ([StartRemovals({}, {})] + ([EndRemovals({})] + ([Complete] +
            ([Build(d, [c, d])] + ([Copy(d, false, None)] + ([StartRemovals(names, names)] + ([EndRemovals(left)] + []))))))))
  {
  }

  lemma TwoDeploysLead(env: Environment, c: Commit, d: Commit, x: File)
    requires c in env.ships && d in env.ships && c != d
    requires forall s :: s in Sent(env, c) ==> !Above(s, x)
    requires forall s, y :: s in Sent(env, d) && y in First(env, c, x) ==> !Above(s, y)
    ensures var names, left := Stale(env, c, d), Left(env, c, d, x);
            After(env, Start(x), TwoDeploys(c, d, names, left)) ==
            Some(State([DoneEntry(c), RemovedEntry(d, left)], Both(env, c, d, x), {c, d}, Finishing))
  {
    hide *;
    var names, left, target, both := Stale(env, c, d), Left(env, c, d, x), First(env, c, x), Both(env, c, d, x);
    FirstCopied(env, c, x);
    FirstDone(env, c, x);
    SecondCopied(env, c, d, x);
    SecondRemoved(env, c, d, x);
    TwoDeploysAre(c, d, names, left);
    var built, copied := State([], {x}, {c}, Idle), State([CopiedEntry(c)], target, {c}, Copied);
    var removing := State([CopiedEntry(c)], target, {c}, Removing({}, {}, target));
    var removed := State([RemovedEntry(c, {})], target, {c}, Finishing);
    var done, rebuilt := State([DoneEntry(c)], target, {c}, Idle), State([DoneEntry(c)], target, {c, d}, Idle);
    var recopied := State([DoneEntry(c), CopiedEntry(d)], both, {c, d}, Copied);
    var reremoving := recopied.(run := Removing(names, names, both));
    var last := State([DoneEntry(c), RemovedEntry(d, left)], both, {c, d}, Finishing);
    var i := [EndRemovals(left)] + [];
    var h := [StartRemovals(names, names)] + i;
    var g := [Copy(d, false, None)] + h;
    var f := [Build(d, [c, d])] + g;
    var e := [Complete] + f;
    var k := [EndRemovals({})] + e;
    var l := [StartRemovals({}, {})] + k;
    AfterCons(env, Start(x), Build(c, [c]), [Copy(c, false, None)] + l);
    AfterCons(env, built, Copy(c, false, None), l);
    AfterCons(env, copied, StartRemovals({}, {}), k);
    AfterCons(env, removing, EndRemovals({}), e);
    AfterCons(env, removed, Complete, f);
    AfterCons(env, done, Build(d, [c, d]), g);
    AfterCons(env, rebuilt, Copy(d, false, None), h);
    AfterCons(env, recopied, StartRemovals(names, names), i);
    AfterCons(env, reremoving, EndRemovals(left), []);
    AfterCons(env, last, Complete, []);
  }

  /** The reserve is needed wherever it does not hold: given a file that release c ships, and a directory of its name that
      release d has and its copy leaves out, unprotected, two deploys over that file and an empty history forget it. The
      removal keeps its name as a directory of d's, it stays, and no later deploy looks for it. (The copy of d can follow
      that of c only if no file that it sends lies where c has a directory.) */
  lemma Forgets(env: Environment, c: Commit, d: Commit, f: File)
    requires ReleasesOk(env) && Hides(env, c, d, f)
    requires forall x, y :: x in Sent(env, d) && y in Sent(env, c) ==> !Above(x, y)
    ensures !DirectoriesProtected(env)
    ensures var last := After(env, Start(f), TwoDeploys(c, d, Stale(env, c, d), Left(env, c, d, f)));
            && Initial(Start(f)) && last.Some?
            && f in last.value.target && EverShipped(env, last.value.history, f) && !Named(env.ships, last.value.history, f)
            && !NoneForgotten(env, last.value.history, last.value.target)
  {
    Apart(env, c, d, f);
    Forgotten(env, c, d, f);
    hide Left, Both, Stale, InRelease, Sent, Named, TwoDeploys, First, Hides;
    TwoDeploysLead(env, c, d, f);
  }

  /** The releases are two, and the copies do not meet the file. */
  lemma Apart(env: Environment, c: Commit, d: Commit, f: File)
    requires ReleasesOk(env) && Hides(env, c, d, f)
    requires forall x, y :: x in Sent(env, d) && y in Sent(env, c) ==> !Above(x, y)
    ensures c != d && f !in Shipped(env.ships, d) && f in First(env, c, f) && f in Both(env, c, d, f)
    ensures forall x :: x in Sent(env, c) ==> !Above(x, f)
    ensures forall x, y :: x in Sent(env, d) && y in First(env, c, f) ==> !Above(x, y)
  {
    hide Entered, IsSent;
    var g :| g in Shipped(env.ships, d) && Above(f, g);
    assert TreeOk(env.ships[d]) && TreeOk(env.ships[c]);
    forall x | x in Sent(env, d)
      ensures !Above(x, f)
    {
      if Above(x, f) {
        AboveAll(x, f, g);
      }
    }
  }

  lemma Forgotten(env: Environment, c: Commit, d: Commit, f: File)
    requires Hides(env, c, d, f) && f !in Shipped(env.ships, d)
    ensures var history := [DoneEntry(c), RemovedEntry(d, Left(env, c, d, f))];
            EverShipped(env, history, f) && !Named(env.ships, history, f)
  {
    var left := Left(env, c, d, f);
    var e, r := DoneEntry(c), RemovedEntry(d, left);
    assert InRelease(Shipped(env.ships, d), f);
    assert f !in left;
    assert [e] + [r] == [e, r];
    NamedAppend(env.ships, [e], r, f);
    assert f in Shipped(env.ships, [e, r][0].commit);
  }
}
