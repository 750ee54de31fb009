/** What attempts and the history keep over every interleaving of runs, restarts, rollbacks and kills. */
module PipelineAttempts {
  import opened Wrappers
  import opened DeployRemovals
  import DeployHistory
  import opened PipelineProtocol

  // ---- Writers ----

  lemma RecordCopyKeepsWriters(s: State, c: Pid, commit: Commit)
    requires LockOk(s) && ChildrenOk(s.procs) && WritersOk(s) && Enabled(s, RecordCopy(c, commit))
    ensures WritersOk(Next(s, RecordCopy(c, commit)))
  {
    forall p | p in s.procs && !IsWaiting(s.procs[p])
      ensures p == c || c in ChildOf(s.procs[p])
    {
      OneRunAtWork(s, p, c);
    }
  }

  lemma RewriteLastKeepsWriters(s: State, step: Step)
    requires LockOk(s) && ChildrenOk(s.procs) && WritersOk(s) && step.RewriteLast? && Enabled(s, step)
    ensures WritersOk(Next(s, step))
  {
    var c := step.pid;
    forall p | p in s.procs && !IsWaiting(s.procs[p])
      ensures p == c || c in ChildOf(s.procs[p])
    {
      OneRunAtWork(s, p, c);
    }
  }

  lemma EndCheckKeepsWriters(s: State, c: Pid, ok: bool)
    requires LockOk(s) && ChildrenOk(s.procs) && WritersOk(s) && Enabled(s, EndCheck(c, ok))
    ensures WritersOk(Next(s, EndCheck(c, ok)))
  {
    var next := Next(s, EndCheck(c, ok));
    forall p | p in s.procs && !IsWaiting(s.procs[p])
      ensures p == c || c in ChildOf(s.procs[p])
    {
      OneRunAtWork(s, p, c);
    }
    forall p | p in next.procs
      ensures next.procs[p].Deploy? ==> next.procs[p] == s.procs[p]
      ensures next.procs[p].Pipeline? && c !in ChildOf(s.procs[p]) ==> next.procs[p] == s.procs[p]
    {
    }
    forall p | p in next.procs && next.procs[p].Pipeline? && c in ChildOf(s.procs[p])
      ensures ChildOk(s.procs[p], s.procs[c])
    {
    }
  }

  /** A process that ends without a passed check leaves the writers as they are. */
  lemma GoneKeepsWriters(s: State, c: Pid, ok: bool)
    requires LockOk(s) && ChildrenOk(s.procs) && WritersOk(s) && c in s.procs && (ok ==> s.procs[c].Deploy?)
    ensures WritersOk(Ended(s, c, ok))
  {
    var next := Ended(s, c, ok);
    forall p | p in next.procs && next.procs[p].Pipeline? && c in ChildOf(s.procs[p])
      ensures ChildOk(s.procs[p], s.procs[c])
    {
    }
  }

  lemma WritersKept(s: State, step: Step)
    requires LockOk(s) && ChildrenOk(s.procs) && WritersOk(s) && Enabled(s, step)
    ensures WritersOk(Next(s, step))
  {
    hide Locked, ChildrenOk;
    var p := step.pid;
    match step
    case RecordCopy(_, commit) => RecordCopyKeepsWriters(s, p, commit);
    case RewriteLast(_, _, _, _) => RewriteLastKeepsWriters(s, step);
    case EndCheck(_, ok) => EndCheckKeepsWriters(s, p, ok);
    case EndDeploy(_, ok) => GoneKeepsWriters(s, p, ok);
    case RefuseCheck(_) => GoneKeepsWriters(s, p, false);
    case Refuse(_, _) => GoneKeepsWriters(s, p, false);
    case Exit(_) => GoneKeepsWriters(s, p, false);
    case Kill(_) => GoneKeepsWriters(s, p, false);
    case _ =>
  }

  /** Who changes the history is the only process at work, besides the run that waits for it, and leaves it as it was,
      appends one entry, or rewrites the last one with its commit and attempt. */
  lemma HistoryDiscipline(s: State, step: Step)
    requires LockOk(s) && ChildrenOk(s.procs) && WritersOk(s) && Enabled(s, step)
    ensures var h := Next(s, step).history;
            h != s.history ==>
              && step.pid in s.procs
              && (forall q :: q in s.procs && !IsWaiting(s.procs[q]) ==> q == step.pid || step.pid in ChildOf(s.procs[q]))
              && (if |h| == |s.history| + 1 then h[..|s.history|] == s.history
                  else && |h| == |s.history| > 0 && h[..|h| - 1] == s.history[..|h| - 1]
                       && DeployHistory.Last(h).commit == DeployHistory.Last(s.history).commit
                       && DeployHistory.Last(h).attempt == DeployHistory.Last(s.history).attempt
                       && DeployHistory.Last(h).rollback == DeployHistory.Last(s.history).rollback)
  {
    var c := step.pid;
    if step.RecordCopy? || step.RewriteLast? || step.EndCheck? {
      forall q | q in s.procs && !IsWaiting(s.procs[q])
        ensures q == c || c in ChildOf(s.procs[q])
      {
        OneRunAtWork(s, q, c);
      }
    }
  }

  /** An entry's health is bad exactly when its health check failed it. */
  ghost predicate HealthOk(history: seq<Entry>) {
    forall i :: 0 <= i < |history| ==> (history[i].health == Some(Bad) <==> history[i].failed == Some(FailedHealth))
  }

  lemma HealthKept(s: State, step: Step)
    requires HealthOk(s.history) && Enabled(s, step)
    ensures HealthOk(Next(s, step).history)
  {
  }

  // ---- One forward deploy per attempt ----

  predicate Forward(e: Entry, a: AttemptId) {
    e.attempt == Some(a) && !e.rollback
  }

  /** The deploys of an attempt in the history that are no rollbacks. */
  function Forwards(history: seq<Entry>, a: AttemptId): nat {
    if history == [] then 0
    else Forwards(history[..|history| - 1], a) + if Forward(history[|history| - 1], a) then 1 else 0
  }

  lemma ForwardsAppend(history: seq<Entry>, e: Entry, a: AttemptId)
    ensures Forwards(history + [e], a) == Forwards(history, a) + if Forward(e, a) then 1 else 0
  {
    assert (history + [e])[..|history|] == history;
  }

  lemma ForwardsReplace(history: seq<Entry>, e: Entry, a: AttemptId)
    requires history != [] && e.attempt == DeployHistory.Last(history).attempt && e.rollback == DeployHistory.Last(history).rollback
    ensures Forwards(DeployHistory.ReplaceLast(history, e), a) == Forwards(history, a)
  {
    ForwardsAppend(history[..|history| - 1], e, a);
    ForwardsAppend(history[..|history| - 1], DeployHistory.Last(history), a);
    assert history == history[..|history| - 1] + [DeployHistory.Last(history)];
  }

  lemma {:induction false} NoForwards(history: seq<Entry>, a: AttemptId)
    ensures !HasEntry(history, a) ==> Forwards(history, a) == 0
  {
    if history != [] {
      var rest := history[..|history| - 1];
      NoForwards(rest, a);
      if HasEntry(rest, a) {
        var i :| 0 <= i < |rest| && rest[i].attempt == Some(a);
        assert history[i].attempt == Some(a);
      }
    }
  }

  /** A process that may still record the forward deploy of attempt a. */
  predicate MayDeploy(p: Process, a: AttemptId) {
    p.attempt == Some(a) && !p.rollback &&
    match p
    case Pipeline(_, _, restarted, phase) =>
      (match phase
       case Waiting => restarted
       case Checking => restarted
       case Decided(mode) => mode.New? || mode.Resume?
       case Preparing(_) => true
       case _ => false)
    case Deploy(_, _, _, recorded) => recorded.None?
    case HealthCheck(_, _, _) => false
  }

  /** A make deploy with the attempt's id that no run starts; it asks nothing about the attempt. */
  predicate ByHand(step: Step, a: AttemptId) {
    step.Start? && step.process.Deploy? && step.process.attempt == Some(a) && !step.process.rollback
  }

  /** Not even its attempt's file exists yet. */
  predicate Undecided(p: Process) {
    p.Pipeline? && p.phase.Decided? && p.phase.mode.New?
  }

  /** At most one process may still record it, and none once it is recorded. */
  ghost predicate AttemptOk(s: State, a: AttemptId) {
    && (forall p, q :: p in s.procs && q in s.procs && MayDeploy(s.procs[p], a) && MayDeploy(s.procs[q], a) ==> p == q)
    && (forall p :: p in s.procs && MayDeploy(s.procs[p], a) ==>
          Forwards(s.history, a) == 0 && (if Undecided(s.procs[p]) then !IsKnown(s, a) else a in s.records))
    && Forwards(s.history, a) <= 1
  }

  /** A run that is decided to be new is still: nobody has written since. Only a rollback or an unnamed run goes on
      otherwise. */
  ghost predicate DecisionsOk(s: State) {
    forall p :: p in s.procs && s.procs[p].Pipeline? ==>
      && (Undecided(s.procs[p]) ==> s.procs[p].attempt.Some? && !IsKnown(s, s.procs[p].attempt.value))
      && (match s.procs[p].phase
          case Preparing(mode) => (mode.Follow? ==> s.procs[p].rollback) && (mode.Unnamed? ==> s.procs[p].attempt.None?) && !mode.Known?
          case Decided(mode) => (mode.Unnamed? ==> s.procs[p].attempt.None?) && (mode.Resume? ==> s.procs[p].restarted)
          case _ => true)
  }

  /** Beside a run that waits for no make step, another process can only start or be killed. */
  lemma OthersAreIdle(s: State, p: Pid, step: Step)
    requires LockOk(s) && Enabled(s, step)
    requires p in s.procs && s.procs[p].Pipeline? && !s.procs[p].phase.Waiting? && ChildOf(s.procs[p]) == {}
    ensures step.pid == p || step.Start? || step.Kill?
  {
    RunAlone(s, p);
    if step.pid != p && !step.Start? && !step.Kill? && !step.Acquire? {
      OneRunAtWork(s, step.pid, p);
    }
  }

  lemma DecisionsKept(s: State, step: Step)
    requires LockOk(s) && DecisionsOk(s) && Enabled(s, step)
    ensures DecisionsOk(Next(s, step))
  {
    hide Locked;
    var next := Next(s, step);
    forall p | p in next.procs && Undecided(next.procs[p])
      ensures next.procs[p].attempt.Some? && !IsKnown(next, next.procs[p].attempt.value)
    {
      if p != step.pid {
        OthersAreIdle(s, p, step);
      }
    }
  }

  // ---- What a run has decided ----

  /** The last deploy of the history is the attempt's own, and failed. */
  predicate OwnFailedLast(s: State, attempt: Option<AttemptId>) {
    s.history != [] && s.history[|s.history| - 1].attempt == attempt && s.history[|s.history| - 1].failed.Some?
  }

  /** The last event that is no refused repeat is the update of the setup. */
  predicate SetupIsLast(events: seq<Event>) {
    exists i :: 0 <= i < |events| && events[i].stage == "setup" && forall j :: i < j < |events| ==> events[j].stage == "repeated"
  }

  /** The attempt is in progress, and its run restarted on a newer setup. */
  predicate Restarting(s: State, a: AttemptId) {
    a in s.records && s.records[a].outcome == InProgress && SetupIsLast(s.records[a].events)
  }

  lemma {:induction false} UpdatedLastIs(events: seq<Event>)
    ensures UpdatedLast(events) <==> SetupIsLast(events)
  {
    if events != [] {
      var front, last := events[..|events| - 1], events[|events| - 1];
      UpdatedLastIs(front);
      assert forall i :: 0 <= i < |front| ==> front[i] == events[i];
      if SetupIsLast(events) {
        var i :| 0 <= i < |events| && events[i].stage == "setup" && forall j :: i < j < |events| ==> events[j].stage == "repeated";
        assert i < |front| ==> front[i].stage == "setup";
      }
      if last.stage == "repeated" && SetupIsLast(front) {
        var i :| 0 <= i < |front| && front[i].stage == "setup" && forall j :: i < j < |front| ==> front[j].stage == "repeated";
        assert events[i].stage == "setup";
      }
      assert "setup" != "repeated" by {
        assert "setup"[0] != "repeated"[0];
      }
    }
  }

  /** What an attempt is when its run decides: a new one is not known in any way, a follow-up has its own failed deploy last,
      a resumed one is the run's own, in progress and just updated, and any other known one is known. */
  ghost predicate ModeTrue(s: State, attempt: Option<AttemptId>, restarted: bool, mode: Mode) {
    match mode
    case Unnamed => attempt.None?
    case New => attempt.Some? && attempt.value !in s.records && forall i :: 0 <= i < |s.history| ==> s.history[i].attempt != attempt
    case Follow => attempt.Some? && OwnFailedLast(s, attempt) && !(restarted && Restarting(s, attempt.value))
    case Resume => attempt.Some? && restarted && Restarting(s, attempt.value)
    case Known =>
      && attempt.Some? && (attempt.value in s.records || exists i :: 0 <= i < |s.history| && s.history[i].attempt == attempt)
      && !OwnFailedLast(s, attempt) && !(restarted && Restarting(s, attempt.value))
  }

  lemma ModeIsTrue(s: State, attempt: Option<AttemptId>, restarted: bool)
    ensures ModeTrue(s, attempt, restarted, AttemptMode(s, attempt, restarted))
  {
    if attempt.Some? {
      if attempt.value in s.records {
        UpdatedLastIs(s.records[attempt.value].events);
      }
      assert HasEntry(s.history, attempt.value) <==> exists i :: 0 <= i < |s.history| && s.history[i].attempt == attempt;
      hide SetupIsLast, UpdatedLast, HasEntry;
    }
  }

  /** Until a run accepts, what it decided is so. A follow-up rollback has its own failed deploy last until it starts. */
  ghost predicate ModesOk(s: State) {
    forall p :: p in s.procs && s.procs[p].Pipeline? ==>
      match s.procs[p].phase
      case Decided(mode) => ModeTrue(s, s.procs[p].attempt, s.procs[p].restarted, mode)
      case Preparing(mode) => mode.Follow? ==> OwnFailedLast(s, s.procs[p].attempt)
      case _ => true
  }

  lemma IdleKeepsModes(s: State, t: State, attempt: Option<AttemptId>, restarted: bool, mode: Mode)
    requires t.records == s.records && t.history == s.history
    ensures ModeTrue(s, attempt, restarted, mode) == ModeTrue(t, attempt, restarted, mode)
    ensures OwnFailedLast(s, attempt) == OwnFailedLast(t, attempt)
  {
    hide SetupIsLast;
  }

  lemma ModesKept(s: State, step: Step)
    requires LockOk(s) && ModesOk(s) && Enabled(s, step)
    ensures ModesOk(Next(s, step))
  {
    var next := Next(s, step);
    forall p | p in next.procs && next.procs[p].Pipeline? && (next.procs[p].phase.Decided? || next.procs[p].phase.Preparing?)
      ensures match next.procs[p].phase
              case Decided(mode) => ModeTrue(next, next.procs[p].attempt, next.procs[p].restarted, mode)
              case Preparing(mode) => mode.Follow? ==> OwnFailedLast(next, next.procs[p].attempt)
              case _ => true
    {
      if p == step.pid {
        OwnModeKept(s, step);
      } else {
        OtherModeKept(s, step, p);
      }
    }
  }

  lemma OwnModeKept(s: State, step: Step)
    requires ModesOk(s) && Enabled(s, step)
    requires var next := Next(s, step); step.pid in next.procs && next.procs[step.pid].Pipeline?
    ensures var next := Next(s, step);
            match next.procs[step.pid].phase
            case Decided(mode) => ModeTrue(next, next.procs[step.pid].attempt, next.procs[step.pid].restarted, mode)
            case Preparing(mode) => mode.Follow? ==> OwnFailedLast(next, next.procs[step.pid].attempt)
            case _ => true
  {
    hide AttemptMode, ModeTrue, SetupIsLast, WithEvent, WithOutcome, Created, Refusal, Repeated;
    var p := step.pid;
    if step.Decide? {
      var attempt, restarted := s.procs[p].attempt, s.procs[p].restarted;
      ModeIsTrue(s, attempt, restarted);
      IdleKeepsModes(s, Next(s, step), attempt, restarted, AttemptMode(s, attempt, restarted));
    }
    if step.Accept? {
      FollowIsTrue(s, s.procs[p].attempt, s.procs[p].restarted, s.procs[p].phase.mode);
    }
  }

  lemma FollowIsTrue(s: State, attempt: Option<AttemptId>, restarted: bool, mode: Mode)
    requires ModeTrue(s, attempt, restarted, mode)
    ensures mode.Follow? ==> OwnFailedLast(s, attempt)
  {
  }

  lemma OtherModeKept(s: State, step: Step, p: Pid)
    requires LockOk(s) && ModesOk(s) && Enabled(s, step) && p != step.pid
    requires var next := Next(s, step);
             p in next.procs && next.procs[p].Pipeline? && (next.procs[p].phase.Decided? || next.procs[p].phase.Preparing?)
    ensures var next := Next(s, step);
            match next.procs[p].phase
            case Decided(mode) => ModeTrue(next, next.procs[p].attempt, next.procs[p].restarted, mode)
            case Preparing(mode) => mode.Follow? ==> OwnFailedLast(next, next.procs[p].attempt)
            case _ => true
  {
    hide ModeTrue, AttemptMode, SetupIsLast, Locked;
    var next := Next(s, step);
    assert p in s.procs && next.procs[p] == s.procs[p];
    OthersAreIdle(s, p, step);
    IdleKeepsModes(s, next, s.procs[p].attempt, s.procs[p].restarted,
                   if s.procs[p].phase.Decided? then s.procs[p].phase.mode else Unnamed);
  }

  /** What is known stays known, and a file stays a file. */
  lemma RecordsGrow(s: State, step: Step, a: AttemptId)
    requires Enabled(s, step)
    ensures a in s.records ==> a in Next(s, step).records
  {
  }

  /** The forward deploy's turn stays with one process, and passes from a run to its make deploy. */
  lemma TurnKept(s: State, step: Step, a: AttemptId, p: Pid)
    requires DecisionsOk(s) && Enabled(s, step) && !ByHand(step, a)
    requires p in Next(s, step).procs && MayDeploy(Next(s, step).procs[p], a)
    ensures || (p in s.procs && MayDeploy(s.procs[p], a))
            || (step.Decide? && p == step.pid && Undecided(Next(s, step).procs[p]) && !IsKnown(s, a))
            || (step.StartDeploy? && p == step.child && MayDeploy(s.procs[step.pid], a))
  {
    hide HasEntry;
    if step.Decide? && p == step.pid {
      assert s.procs[p].phase.Checking?;
    }
  }

  lemma ForwardsKept(s: State, step: Step, a: AttemptId)
    requires WritersOk(s) && Enabled(s, step)
    ensures Forwards(Next(s, step).history, a) ==
            Forwards(s.history, a) + if step.RecordCopy? && MayDeploy(s.procs[step.pid], a) then 1 else 0
  {
    match step
    case RecordCopy(c, commit) =>
      ForwardsAppend(s.history, Entry(commit, Some(Incomplete), true, {}, s.procs[c].rollback, s.procs[c].attempt, None), a);
    case RewriteLast(c, failed, removalsPending, pending) =>
      ForwardsReplace(s.history, EntryOf(s.procs[c], failed, removalsPending, pending), a);
    case EndCheck(_, ok) => ForwardsReplace(s.history, CheckedEntry(DeployHistory.Last(s.history), ok), a);
    case _ =>
  }

  /** Where the turn is, before and after: nobody has it together with anybody else. */
  lemma TurnUnique(s: State, step: Step, a: AttemptId, p: Pid, q: Pid)
    requires LockOk(s) && DecisionsOk(s) && AttemptOk(s, a) && Enabled(s, step) && !ByHand(step, a)
    requires p in Next(s, step).procs && MayDeploy(Next(s, step).procs[p], a)
    requires q in Next(s, step).procs && MayDeploy(Next(s, step).procs[q], a)
    ensures p == q
  {
    TurnKept(s, step, a, p);
    TurnKept(s, step, a, q);
    var x := step.pid;
    if step.Decide? && !IsKnown(s, a) {
      NoOtherTurn(s, a, x);
    }
    if step.StartDeploy? {
      assert ChildOf(s.procs[x]) == {};
      assert !MayDeploy(Next(s, step).procs[x], a);
    }
  }

  /** While an attempt is not known, only an undecided run could have its turn, and it would be alone at work. */
  lemma NoOtherTurn(s: State, a: AttemptId, x: Pid)
    requires LockOk(s) && AttemptOk(s, a) && !IsKnown(s, a)
    requires x in s.procs && s.procs[x].Pipeline? && s.procs[x].phase.Checking?
    ensures forall p :: p in s.procs ==> !MayDeploy(s.procs[p], a)
  {
    RunAlone(s, x);
    forall p | p in s.procs && MayDeploy(s.procs[p], a)
      ensures false
    {
      assert Undecided(s.procs[p]);
      RunAlone(s, p);
    }
  }

  /** Every step keeps it. */
  lemma AttemptKept(s: State, step: Step, a: AttemptId)
    requires LockOk(s) && WritersOk(s) && DecisionsOk(s) && AttemptOk(s, a) && Enabled(s, step) && !ByHand(step, a)
    ensures AttemptOk(Next(s, step), a)
  {
    var next := Next(s, step);
    ForwardsKept(s, step, a);
    RecordsGrow(s, step, a);
    DecisionsKept(s, step);
    NoForwards(s.history, a);
    forall p, q | p in next.procs && q in next.procs && MayDeploy(next.procs[p], a) && MayDeploy(next.procs[q], a)
      ensures p == q
    {
      TurnUnique(s, step, a, p, q);
    }
    forall p | p in next.procs && MayDeploy(next.procs[p], a)
      ensures Forwards(next.history, a) == 0 && (if Undecided(next.procs[p]) then !IsKnown(next, a) else a in next.records)
    {
      TurnKept(s, step, a, p);
      TurnOk(s, step, a, p);
    }
  }

  lemma TurnOk(s: State, step: Step, a: AttemptId, p: Pid)
    requires LockOk(s) && WritersOk(s) && DecisionsOk(s) && AttemptOk(s, a) && Enabled(s, step) && !ByHand(step, a)
    requires p in Next(s, step).procs && MayDeploy(Next(s, step).procs[p], a)
    ensures Forwards(Next(s, step).history, a) == 0
    ensures if Undecided(Next(s, step).procs[p]) then !IsKnown(Next(s, step), a) else a in Next(s, step).records
  {
    hide *;
    TurnNotTaken(s, step, a, p);
    TurnKnown(s, step, a, p);
  }

  /** Who still has the turn has not recorded the deploy, and nobody else has. */
  lemma TurnNotTaken(s: State, step: Step, a: AttemptId, p: Pid)
    requires WritersOk(s) && DecisionsOk(s) && AttemptOk(s, a) && Enabled(s, step) && !ByHand(step, a)
    requires p in Next(s, step).procs && MayDeploy(Next(s, step).procs[p], a)
    ensures Forwards(Next(s, step).history, a) == 0
  {
    ForwardsKept(s, step, a);
    TurnKept(s, step, a, p);
    NoForwards(s.history, a);
    hide WritersOk, DecisionsOk, Forwards, HasEntry, AttemptMode, Refusal, Repeated, WithReturned, UpdatedLast;
  }

  lemma TurnKnown(s: State, step: Step, a: AttemptId, p: Pid)
    requires LockOk(s) && DecisionsOk(s) && AttemptOk(s, a) && Enabled(s, step) && !ByHand(step, a)
    requires p in Next(s, step).procs && MayDeploy(Next(s, step).procs[p], a)
    ensures if Undecided(Next(s, step).procs[p]) then !IsKnown(Next(s, step), a) else a in Next(s, step).records
  {
    hide LockOk, Forwards, IsKnown, Enabled, Next;
    RecordsGrow(s, step, a);
    TurnKept(s, step, a, p);
    DecisionsKept(s, step);
    if p in s.procs && MayDeploy(s.procs[p], a) && Undecided(s.procs[p]) && !Undecided(Next(s, step).procs[p]) {
      AcceptedIsKnown(s, step, a, p);
    }
    if step.StartDeploy? && p == step.child {
      StarterPrepares(s, step);
    }
  }

  lemma StarterPrepares(s: State, step: Step)
    requires step.StartDeploy? && Enabled(s, step)
    ensures step.pid in s.procs && s.procs[step.pid].Pipeline? && s.procs[step.pid].phase.Preparing?
  {
  }

  /** A new run keeps its turn only by being accepted, which creates its attempt's file. */
  lemma AcceptedIsKnown(s: State, step: Step, a: AttemptId, p: Pid)
    requires Enabled(s, step) && p in s.procs && MayDeploy(s.procs[p], a) && Undecided(s.procs[p])
    requires p in Next(s, step).procs && MayDeploy(Next(s, step).procs[p], a) && !Undecided(Next(s, step).procs[p])
    ensures a in Next(s, step).records
  {
    hide HasEntry, AttemptMode, Refusal, Repeated, UpdatedLast;
    assert step.Accept? && p == step.pid;
  }

  // ---- The attempt's file ----

  /** An attempt's events are only appended to. */
  lemma EventsGrow(s: State, step: Step, a: AttemptId)
    requires DecisionsOk(s) && Enabled(s, step) && a in s.records
    ensures var next := Next(s, step);
            a in next.records && |s.records[a].events| <= |next.records[a].events|
            && next.records[a].events[..|s.records[a].events|] == s.records[a].events
  {
    if step.Refuse? || step.Accept? {
      var p := step.pid;
      assert s.procs[p].phase.mode.New? ==> Undecided(s.procs[p]);
    }
  }

  /** An attempt becomes rolled back only in a step behind which the last deploy is its own rollback and has passed its
      health check. */
  lemma RolledBackOnlyChecked(s: State, step: Step, a: AttemptId)
    requires WritersOk(s) && Enabled(s, step)
    requires a in s.records ==> s.records[a].outcome != RolledBack
    requires a in Next(s, step).records && Next(s, step).records[a].outcome == RolledBack
    ensures RollbackPassed(Next(s, step).history, Some(a)) && DeployHistory.Last(Next(s, step).history).attempt == Some(a)
  {
    hide OwnEntry;
  }

  /** An attempt becomes live only behind a deploy that is no rollback: when its run settles after its deploy ended well, or
      when a health check of its last deploy passes. */
  lemma LiveOnlyDeployed(s: State, step: Step, a: AttemptId)
    requires Enabled(s, step)
    requires a in s.records ==> s.records[a].outcome != Live
    requires a in Next(s, step).records && Next(s, step).records[a].outcome == Live
    ensures step.pid in s.procs
    ensures var p, after := s.procs[step.pid], Next(s, step).history;
            || (step.Settle? && p.Pipeline? && p.attempt == Some(a) && p.phase.Deployed? && !p.phase.mode.Follow?)
            || (step.EndCheck? && p.attempt == Some(a) && !p.rollback && after != [] && after[|after| - 1].attempt == Some(a)
                && after[|after| - 1].health == Some(Good) && after[|after| - 1].failed.None?)
  {
    hide HasEntry, AttemptMode, UpdatedLast;
  }

  // ---- Whole runs ----

  /** byHand: the attempts for which somebody starts a make deploy besides the runs. */
  ghost predicate Invariant(s: State, byHand: set<AttemptId>) {
    && LockOk(s) && ChildrenOk(s.procs) && WritersOk(s) && DecisionsOk(s) && ModesOk(s) && HealthOk(s.history)
    && forall a :: a !in byHand ==> AttemptOk(s, a)
  }

  ghost predicate Within(step: Step, byHand: set<AttemptId>) {
    forall a :: ByHand(step, a) ==> a in byHand
  }

  ghost predicate Initial(s: State) {
    s.history == [] && s.records == map[] && s.sharing == {} && s.procs == map[]
  }

  lemma InitialOk(s: State, byHand: set<AttemptId>)
    requires Initial(s)
    ensures Invariant(s, byHand)
  {
  }

  lemma StepKeeps(s: State, step: Step, byHand: set<AttemptId>)
    requires Invariant(s, byHand) && Enabled(s, step) && Within(step, byHand)
    ensures Invariant(Next(s, step), byHand)
  {
    hide LockOk, ChildrenOk, WritersOk, DecisionsOk, ModesOk, HealthOk, AttemptOk, Enabled, Next, ByHand;
    LockKept(s, step);
    ChildrenKept(s, step);
    WritersKept(s, step);
    DecisionsKept(s, step);
    ModesKept(s, step);
    HealthKept(s, step);
    forall a | a !in byHand
      ensures AttemptOk(Next(s, step), a)
    {
      assert !ByHand(step, a);
      AttemptKept(s, step, a);
    }
  }

  ghost function After(s: State, steps: seq<Step>): Option<State>
    decreases |steps|
  {
    if steps == [] then Some(s)
    else if Enabled(s, steps[0]) then After(Next(s, steps[0]), steps[1..])
    else None
  }

  /** Over any interleaving of pipeline runs, restarts, follow-up and automatic rollbacks, repeats, make steps started
      besides the runs, and kills: an attempt causes at most one deploy that is no rollback, unless somebody starts a make
      deploy with its id; its events only grow, and processes of two runs are never at work together. */
  lemma {:induction false} EveryRunKeeps(s: State, steps: seq<Step>, byHand: set<AttemptId>)
    requires Invariant(s, byHand) && After(s, steps).Some? && forall i :: 0 <= i < |steps| ==> Within(steps[i], byHand)
    ensures var last := After(s, steps).value;
            && Invariant(last, byHand)
            && (forall a :: a !in byHand ==> Forwards(last.history, a) <= 1)
            && (forall a :: a in s.records ==> a in last.records && s.records[a].events <= last.records[a].events)
            && HealthOk(last.history)
            && (forall p, q :: p in last.sharing && q in last.sharing ==>
                  p == q || q in ChildOf(last.procs[p]) || p in ChildOf(last.procs[q]))
    decreases |steps|
  {
    hide Enabled, Next, Within;
    if steps == [] {
      forall a | a !in byHand
        ensures Forwards(s.history, a) <= 1
      {
        assert AttemptOk(s, a);
      }
      forall p, q | p in s.sharing && q in s.sharing
        ensures p == q || q in ChildOf(s.procs[p]) || p in ChildOf(s.procs[q])
      {
        OneRunAtWork(s, p, q);
      }
    } else {
      var next := Next(s, steps[0]);
      StepKeeps(s, steps[0], byHand);
      EveryRunKeeps(next, steps[1..], byHand);
      forall a | a in s.records
        ensures a in next.records && s.records[a].events <= next.records[a].events
      {
        EventsGrow(s, steps[0], a);
      }
    }
  }

  /** A make deploy of the attempt, started besides the runs. */
  function DeployByHand(p: Pid, a: AttemptId, commit: Commit): seq<Step> {
    [Start(p, Deploy(Some(a), false, true, None))] + ([Acquire(p)] + ([RecordCopy(p, commit)] + ([EndDeploy(p, true)] + [])))
  }

  /** The reserve is needed: make deploy asks nothing about its attempt. Started besides the runs, as often as the lock is
      free, it adds one more deploy of the attempt each time. */
  lemma DeployedByHand(s: State, p: Pid, a: AttemptId, commit: Commit)
    requires LockOk(s) && p !in s.procs && s.sharing == {}
    ensures var e := Entry(commit, Some(Incomplete), true, {}, false, Some(a), None);
            After(s, DeployByHand(p, a, commit)) == Some(s.(history := s.history + [e]))
    ensures Forwards(After(s, DeployByHand(p, a, commit)).value.history, a) == Forwards(s.history, a) + 1
  {
    hide *;
    var e := Entry(commit, Some(Incomplete), true, {}, false, Some(a), None);
    var start, copy, end := Start(p, Deploy(Some(a), false, true, None)), RecordCopy(p, commit), EndDeploy(p, true);
    var started := s.(procs := s.procs[p := Deploy(Some(a), false, true, None)]);
    var holding := s.(procs := s.procs[p := Deploy(Some(a), false, false, None)], sharing := {p});
    var copied := holding.(procs := s.procs[p := Deploy(Some(a), false, false, Some(commit))], history := s.history + [e]);
    HandStart(s, p, a, started, holding);
    HandCopy(s, p, a, commit, holding, copied);
    HandEnd(s, p, a, commit, copied);
    ForwardsByHand(s.history, e, a);
    AfterCons(copied, end, []);
    AfterCons(Next(copied, end), end, []);
    AfterCons(holding, copy, [end] + []);
    AfterCons(started, Acquire(p), [copy] + ([end] + []));
    AfterCons(s, start, [Acquire(p)] + ([copy] + ([end] + [])));
    IsDeployByHand(p, a, commit);
  }

  lemma HandStart(s: State, p: Pid, a: AttemptId, started: State, holding: State)
    requires p !in s.procs && s.sharing == {}
    requires started == s.(procs := s.procs[p := Deploy(Some(a), false, true, None)])
    requires holding == s.(procs := s.procs[p := Deploy(Some(a), false, false, None)], sharing := {p})
    ensures Enabled(s, Start(p, Deploy(Some(a), false, true, None)))
    ensures Next(s, Start(p, Deploy(Some(a), false, true, None))) == started
    ensures Enabled(started, Acquire(p)) && Next(started, Acquire(p)) == holding
  {
    assert started.procs[p := Deploy(Some(a), false, false, None)] == holding.procs;
  }

  lemma HandCopy(s: State, p: Pid, a: AttemptId, commit: Commit, holding: State, copied: State)
    requires holding == s.(procs := s.procs[p := Deploy(Some(a), false, false, None)], sharing := {p})
    requires copied == holding.(procs := s.procs[p := Deploy(Some(a), false, false, Some(commit))],
                                history := s.history + [Entry(commit, Some(Incomplete), true, {}, false, Some(a), None)])
    ensures Enabled(holding, RecordCopy(p, commit)) && Next(holding, RecordCopy(p, commit)) == copied
  {
    assert holding.procs[p := Deploy(Some(a), false, false, Some(commit))] == copied.procs;
  }

  lemma HandEnd(s: State, p: Pid, a: AttemptId, commit: Commit, copied: State)
    requires LockOk(s) && p !in s.procs && s.sharing == {}
    requires copied.procs == s.procs[p := Deploy(Some(a), false, false, Some(commit))]
    requires copied == s.(procs := copied.procs, sharing := {p}, history := copied.history)
    ensures Enabled(copied, EndDeploy(p, true)) && Next(copied, EndDeploy(p, true)) == s.(history := copied.history)
  {
    assert WithReturned(copied.procs, p, true) == s.procs;
  }

  lemma ForwardsByHand(history: seq<Entry>, e: Entry, a: AttemptId)
    requires e.attempt == Some(a) && !e.rollback
    ensures Forwards(history + [e], a) == Forwards(history, a) + 1
  {
    ForwardsAppend(history, e, a);
    hide Forwards;
  }

  lemma IsDeployByHand(p: Pid, a: AttemptId, commit: Commit)
    ensures DeployByHand(p, a, commit) ==
            [Start(p, Deploy(Some(a), false, true, None))] + ([Acquire(p)] + ([RecordCopy(p, commit)] + ([EndDeploy(p, true)] + [])))
  {
  }

  lemma AfterCons(s: State, step: Step, rest: seq<Step>)
    ensures After(s, [step] + rest) == if Enabled(s, step) then After(Next(s, step), rest) else None
    ensures After(s, []) == Some(s)
  {
    assert ([step] + rest)[1..] == rest;
    hide Enabled, Next;
  }
}
