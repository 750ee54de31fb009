/** The deploy as it works on the history file and the target: each of its writes is a step of the protocol, and it may be
    killed or fail between any two of them. */
module DeployRun {
  import opened Sequences
  import opened Wrappers
  import opened DeployRemovals
  import opened DeployReleases
  import opened DeployHistory
  import PipelineProtocol

  /** The steps that unlink the files one by one. */
  function Unlinks(files: seq<File>): (steps: seq<Step>)
    ensures |steps| == |files| && forall i :: 0 <= i < |steps| ==> steps[i] == Unlink(files[i])
  {
    seq(|files|, i requires 0 <= i < |files| => Unlink(files[i]))
  }

  lemma {:induction false} AfterConcat(env: Environment, s: State, a: seq<Step>, b: seq<Step>)
    requires After(env, s, a).Some?
    ensures After(env, s, a + b) == After(env, After(env, s, a).value, b)
    decreases |a|
  {
    if a == [] {
      assert a + b == b;
    } else {
      assert (a + b)[1..] == a[1..] + b;
      AfterConcat(env, Next(env, s, a[0]), a[1..], b);
    }
  }

  lemma AfterStep(env: Environment, s: State, a: seq<Step>, step: Step)
    requires After(env, s, a).Some? && Enabled(env, After(env, s, a).value, step)
    ensures After(env, s, a + [step]) == Some(Next(env, After(env, s, a).value, step))
  {
    AfterConcat(env, s, a, [step]);
    assert [step][1..] == [];
  }

  lemma {:induction false} UnlinksRun(env: Environment, s: State, files: seq<File>)
    requires s.run.Removing? && s.history != []
    requires forall i, j :: 0 <= i < j < |files| ==> files[i] != files[j]
    requires forall f :: f in files ==> f in s.target && f in s.run.names && FateNow(env, s, f).Gone?
    ensures After(env, s, Unlinks(files)) == Some(s.(target := s.target - set f | f in files))
    decreases |files|
  {
    if files == [] {
      assert s.target - (set f | f in files) == s.target;
    } else {
      var next := Next(env, s, Unlink(files[0]));
      assert Unlinks(files)[1..] == Unlinks(files[1..]);
      UnlinksRun(env, next, files[1..]);
      assert next.target - (set f | f in files[1..]) == s.target - (set f | f in files);
    }
  }

  ghost function Listed(s: set<File>): (list: seq<File>)
    ensures forall x :: x in list <==> x in s
    ensures forall i, j :: 0 <= i < j < |list| ==> list[i] != list[j]
  {
    if s == {} then [] else var x :| x in s; [x] + Listed(s - {x})
  }

  /** Where the deploy stops after its recorded copy: it is killed, or a stage raises an error. */
  datatype Stop = Never | AtProtectedFiles(raised: bool) | AtRemovals(unlinked: nat, raised: bool) | AtStage(stage: string, raised: bool)

  class Deployer {
    var history: seq<Entry>
    var built: set<Commit>
    const tree: Tree

    constructor (history: seq<Entry>, built: set<Commit>, tree: Tree)
      ensures this.history == history && this.built == built && this.tree == tree
    {
      this.history, this.built, this.tree := history, built, tree;
    }

    ghost function Idling(): State
      reads this, tree
    {
      State(history, tree.files, built, Idle)
    }

    method Record(e: Entry)
      modifies this`history
      ensures history == old(history) + [e]
    {
      history := history + [e];
    }

    method ReplaceLastEntry(e: Entry)
      requires history != []
      modifies this`history
      ensures history == ReplaceLast(old(history), e)
    {
      history := history[..|history| - 1] + [e];
    }

    /** The steps led to s, which is what the file and the target hold now. */
    ghost predicate Tracks(env: Environment, start: State, steps: seq<Step>, s: State)
      reads this, tree
    {
      After(env, start, steps) == Some(s) && s.history == history && s.target == tree.files && s.built == built
    }

    /** The copy, recorded at once. */
    method CopyAndRecord(env: Environment, entry: Entry) returns (ghost s: State)
      requires Enabled(env, Idling(), Copy(entry.commit, entry.rollback, entry.attempt))
      requires entry == Entry(entry.commit, Some(Incomplete), true, {}, entry.rollback, entry.attempt, None)
      modifies this`history, tree
      ensures s == Next(env, old(Idling()), Copy(entry.commit, entry.rollback, entry.attempt))
      ensures Tracks(env, old(Idling()), [Copy(entry.commit, entry.rollback, entry.attempt)], s)
      ensures history == old(history) + [entry] && s.run.Copied?
    {
      s := Next(env, Idling(), Copy(entry.commit, entry.rollback, entry.attempt));
      assert [Copy(entry.commit, entry.rollback, entry.attempt)][1..] == [];
      tree.files := AfterCopy(env, tree.files, entry.commit);
      Record(entry);
    }

    /** The removal of what the history before this deploy names; finished unless it is cut off. */
    method RemoveStale(env: Environment, entries: seq<Entry>, entry: Entry, stuck: set<File>, order: seq<File>, limit: nat,
                       ghost start: State, ghost steps: seq<Step>, ghost s: State)
      returns (left: set<File>, finished: bool, ghost all: seq<Step>, ghost next: State)
      requires Tracks(env, start, steps, s) && s.run.Copied? && history == entries + [entry]
      requires TopDown(order) && forall f :: f in order <==> Removable(env, entries, entry.commit, f)
      modifies tree
      ensures Tracks(env, start, all, next) && next.run.Removing?
      ensures finished ==> Enabled(env, next, EndRemovals(left))
      ensures |old(tree.files)| <= limit ==> finished
    {
      var names := RemovedFiles(env.ships, entries, entry.commit, env.protected);
      assert history[..|history| - 1] == entries && Last(history) == entry;
      AfterStep(env, start, steps, StartRemovals(names, stuck));
      all, next := steps + [StartRemovals(names, stuck)], Next(env, s, StartRemovals(names, stuck));
      ghost var at := next;
      var done;
      assert names == Elements(order);
      left, done := tree.Remove(order, Shipped(env.ships, entry.commit), env.protected, stuck, limit);
      all, next := Unlinked(env, start, all, next, tree.files, order[..done]);
      finished := done == |order|;
      if finished {
        assert order[..done] == order;
        assert forall f :: FateNow(env, next, f) == FateNow(env, at, f);
      }
    }

    /** One deploy of a built release. order: the names to remove, as the removal meets them, sorted. */
    method LockedDeploy(env: Environment, commit: Commit, rollback: bool, attempt: Option<AttemptId>, protectedFiles: set<File>,
                        stuck: set<File>, order: seq<File>, stop: Stop) returns (ghost steps: seq<Step>)
      requires Enabled(env, Idling(), Copy(commit, rollback, attempt))
      requires Enabled(env, Next(env, Idling(), Copy(commit, rollback, attempt)), PushProtected(protectedFiles))
      requires TopDown(order) && forall f :: f in order <==> Removable(env, history, commit, f)
      modifies this`history, tree
      ensures After(env, old(Idling()), steps) == Some(Idling())
      ensures |history| == |old(history)| + 1 && history[..|old(history)|] == old(history)
      ensures stop.Never? ==> Last(history) == Entry(commit, None, false, Last(history).pendingRemovals, rollback, attempt, None)
    {
      hide After, Enabled, Next, Removable;
      var entries := history;
      var entry := Entry(commit, Some(Incomplete), true, {}, rollback, attempt, None);
      ghost var start := Idling();
      ghost var s := CopyAndRecord(env, entry);
      steps := [Copy(commit, rollback, attempt)];
      if stop.AtProtectedFiles? {
        steps := StopHere(env, start, steps, s, "protected-files", stop.raised);
        return;
      }
      steps, s := PushFiles(env, protectedFiles, start, steps, s);
      var limit := if stop.AtRemovals? then stop.unlinked else |tree.files|;
      var left, finished;
      left, finished, steps, s := RemoveStale(env, entries, entry, stuck, order, limit, start, steps, s);
      if stop.AtRemovals? {
        steps := StopHere(env, start, steps, s, "removals", stop.raised);
        return;
      }
      entry := entry.(removalsPending := false, pendingRemovals := left);
      steps, s := RecordRemovals(env, entry, start, steps, s);
      if stop.AtStage? {
        steps := StopHere(env, start, steps, s, stop.stage, stop.raised);
        return;
      }
      steps := RecordCompleted(env, entry, start, steps, s);
    }

    method PushFiles(env: Environment, files: set<File>, ghost start: State, ghost steps: seq<Step>, ghost s: State)
      returns (ghost all: seq<Step>, ghost next: State)
      requires Tracks(env, start, steps, s) && Enabled(env, s, PushProtected(files))
      modifies tree
      ensures Tracks(env, start, all, next) && next.run.Copied?
    {
      tree.files := Over(tree.files, files);
      AfterStep(env, start, steps, PushProtected(files));
      all, next := steps + [PushProtected(files)], Next(env, s, PushProtected(files));
    }

    method RecordRemovals(env: Environment, entry: Entry, ghost start: State, ghost steps: seq<Step>, ghost s: State)
      returns (ghost all: seq<Step>, ghost next: State)
      requires Tracks(env, start, steps, s) && history != []
      requires entry == Last(history).(removalsPending := false, pendingRemovals := entry.pendingRemovals)
      requires Enabled(env, s, EndRemovals(entry.pendingRemovals))
      modifies this`history
      ensures Tracks(env, start, all, next) && next.run.Finishing? && history == ReplaceLast(old(history), entry)
    {
      AfterStep(env, start, steps, EndRemovals(entry.pendingRemovals));
      all, next := steps + [EndRemovals(entry.pendingRemovals)], Next(env, s, EndRemovals(entry.pendingRemovals));
      ReplaceLastEntry(entry);
    }

    method RecordCompleted(env: Environment, entry: Entry, ghost start: State, ghost steps: seq<Step>, ghost s: State)
      returns (ghost all: seq<Step>)
      requires Tracks(env, start, steps, s) && history != [] && entry == Last(history) && s.run.Finishing?
      modifies this`history
      ensures After(env, start, all) == Some(Idling()) && history == ReplaceLast(old(history), entry.(failed := None))
    {
      AfterStep(env, start, steps, DeployHistory.Complete);
      all := steps + [DeployHistory.Complete];
      ReplaceLastEntry(entry.(failed := None));
    }

    /** The removal's unlinked files as steps. */
    ghost method Unlinked(env: Environment, start: State, steps: seq<Step>, s: State, files: set<File>, looked: seq<File>)
      returns (all: seq<Step>, next: State)
      requires After(env, start, steps) == Some(s) && s.run.Removing? && s.history != [] && s.run.before == s.target
      requires forall f :: f in looked ==> f in s.run.names
      requires forall f :: f in files <==> f in s.target && !(f in looked && FateNow(env, s, f).Gone?)
      ensures After(env, start, all) == Some(next) && next == s.(target := files)
    {
      var gone := Listed(s.target - files);
      UnlinksRun(env, s, gone);
      AfterConcat(env, start, steps, Unlinks(gone));
      assert s.target - (set f | f in gone) == files;
      all, next := steps + Unlinks(gone), s.(target := files);
    }

    /** Killed here, or a stage's error recorded. */
    method StopHere(ghost env: Environment, ghost start: State, ghost steps: seq<Step>, ghost s: State, stage: string, raised: bool)
      returns (ghost all: seq<Step>)
      requires After(env, start, steps) == Some(s) && !s.run.Idle? && history != []
      requires s.history == history && s.target == tree.files && s.built == built
      modifies this`history
      ensures After(env, start, all) == Some(Idling())
      ensures history == if raised then ReplaceLast(old(history), Last(old(history)).(failed := Some(Stage(stage)))) else old(history)
    {
      if raised {
        AfterStep(env, start, steps, Fail(stage));
        all := steps + [Fail(stage)];
        ReplaceLastEntry(history[|history| - 1].(failed := Some(Stage(stage))));
      } else {
        AfterStep(env, start, steps, Kill);
        all := steps + [Kill];
      }
    }

    /** make deploy-health: refused unless the last deploy is the named attempt's, a rollback when one is to be checked, and
        completed or failed its health check only. What it then writes is the step of both protocols. */
    method DeployHealth(env: Environment, attempt: Option<AttemptId>, rollback: bool, ok: bool) returns (status: nat)
      modifies this`history
      ensures status == 64 <==> !PipelineProtocol.Checkable(old(history), attempt, rollback)
      ensures status == 64 ==> history == old(history)
      ensures status != 64 ==> Enabled(env, old(Idling()), CheckHealth(ok)) && Idling() == Next(env, old(Idling()), CheckHealth(ok))
      ensures status != 64 ==> history == ReplaceLast(old(history), PipelineProtocol.CheckedEntry(Last(old(history)), ok))
      ensures status != 64 ==> (status == 0 <==> ok)
    {
      if history == [] {
        return 64;
      }
      var last := history[|history| - 1];
      if attempt.Some? && last.attempt != attempt {
        return 64;
      }
      if rollback && !last.rollback {
        return 64;
      }
      if last.failed.Some? && last.failed != Some(FailedHealth) {
        return 64;
      }
      last := last.(health := Some(if ok then Good else Bad));
      if !ok {
        last := last.(failed := Some(FailedHealth));
      } else if last.failed == Some(FailedHealth) {
        last := last.(failed := None);
      }
      ReplaceLastEntry(last);
      return if ok then 0 else 1;
    }
  }
}
