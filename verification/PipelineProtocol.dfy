/** Deploy runs of one environment side by side: the lock and the descriptors that hold it, the attempt files and the
    history, with any process killed at any time. */
module PipelineProtocol {
  import opened Wrappers
  import opened DeployRemovals
  import DeployHistory

  type Pid = nat

  datatype Outcome = InProgress | Live | Refused | NotDeployed | FailedAfterCode | RolledBack | RollbackFailed

  datatype Event = Event(stage: string, state: string)

  /** One attempt's file. */
  datatype Record = Record(outcome: Outcome, events: seq<Event>)

  /** What a run is to its attempt: none named, not seen before, the rollback after its own failed deploy, its own restart
      on a newer setup, or any other repeat. */
  datatype Mode = Unnamed | New | Follow | Resume | Known

  datatype Phase =
    | Waiting                          // for the lock
    | Checking                         // under the lock, nothing decided
    | Decided(mode: Mode)
    | Preparing(mode: Mode)            // accepted: repair, checkout, settings, images
    | Deploying(mode: Mode, child: Pid)
    | Deployed(mode: Mode)
    | Failing(mode: Mode)
    | CheckingHealth(mode: Mode, child: Pid)
    | Checked(mode: Mode, ok: bool)
    | RollingBack(child: Pid)
    | Reverted
    | CheckingRollback(child: Pid)
    | RollbackChecked(ok: bool)

  /** A process: a pipeline run, or a make deploy or make deploy-health, which a run started or a person or a workflow did.
      recorded: the commit a deploy's entry names, once it has copied it. */
  datatype Process =
    | Pipeline(attempt: Option<AttemptId>, rollback: bool, restarted: bool, phase: Phase)
    | Deploy(attempt: Option<AttemptId>, rollback: bool, waiting: bool, recorded: Option<Commit>)
    | HealthCheck(attempt: Option<AttemptId>, rollback: bool, waiting: bool)

  /** sharing: the processes that hold the descriptor under which the lock is taken; nobody: it is free. */
  datatype State = State(history: seq<Entry>, records: map<AttemptId, Record>, sharing: set<Pid>, procs: map<Pid, Process>)

  datatype Step =
    | Start(pid: Pid, process: Process)
    | Acquire(pid: Pid)
    | Decide(pid: Pid)
    | Refuse(pid: Pid, early: bool)  // early: before the run's switches are read
    | Accept(pid: Pid)
    | Note(pid: Pid, event: Event)
    | Interrupted(pid: Pid, other: AttemptId, reached: bool)
    | Restart(pid: Pid)
    | StartDeploy(pid: Pid, child: Pid)
    | RecordCopy(pid: Pid, commit: Commit)
    | RewriteLast(pid: Pid, failed: Option<Failure>, removalsPending: bool, pendingRemovals: set<File>)
    | EndDeploy(pid: Pid, ok: bool)
    | Settle(pid: Pid, outcome: Outcome)
    | StartCheck(pid: Pid, child: Pid)
    | EndCheck(pid: Pid, ok: bool)
    | RefuseCheck(pid: Pid)
    | StartRollback(pid: Pid, child: Pid)
    | StartRollbackCheck(pid: Pid, child: Pid)
    | Exit(pid: Pid)
    | Kill(pid: Pid)

  predicate IsWaiting(p: Process) {
    match p
    case Pipeline(_, _, _, phase) => phase.Waiting?
    case Deploy(_, _, waiting, _) => waiting
    case HealthCheck(_, _, waiting) => waiting
  }

  /** The make step a run waits for. */
  function ChildOf(p: Process): set<Pid> {
    if !p.Pipeline? then {}
    else
      match p.phase
      case Deploying(_, child) => {child}
      case CheckingHealth(_, child) => {child}
      case RollingBack(child) => {child}
      case CheckingRollback(child) => {child}
      case _ => {}
  }

  predicate HasEntry(history: seq<Entry>, a: AttemptId) {
    exists i :: 0 <= i < |history| && history[i].attempt == Some(a)
  }

  predicate IsKnown(s: State, a: AttemptId) {
    a in s.records || HasEntry(s.history, a)
  }

  /** The last event of an attempt that is not a refused repeat is the setup update. */
  predicate UpdatedLast(events: seq<Event>) {
    if events == [] then false
    else
      var last := events[|events| - 1];
      if last.stage == "repeated" then UpdatedLast(events[..|events| - 1]) else last.stage == "setup"
  }

  function AttemptMode(s: State, attempt: Option<AttemptId>, restarted: bool): Mode {
    match attempt
    case None => Unnamed
    case Some(a) =>
      if !IsKnown(s, a) then New
      else if restarted && a in s.records && s.records[a].outcome == InProgress && UpdatedLast(s.records[a].events) then Resume
      else if s.history != [] && DeployHistory.Last(s.history).attempt == attempt && DeployHistory.Last(s.history).failed.Some? then Follow
      else Known
  }

  /** The attempt's file with one more event, created if there was none. */
  function WithEvent(records: map<AttemptId, Record>, attempt: Option<AttemptId>, e: Event): map<AttemptId, Record> {
    match attempt
    case None => records
    case Some(a) =>
      var r := if a in records then records[a] else Record(InProgress, []);
      records[a := r.(events := r.events + [e])]
  }

  function WithOutcome(records: map<AttemptId, Record>, attempt: Option<AttemptId>, o: Outcome): map<AttemptId, Record> {
    match attempt
    case None => records
    case Some(a) =>
      var r := if a in records then records[a] else Record(InProgress, []);
      records[a := r.(outcome := o)]
  }

  function Created(records: map<AttemptId, Record>, attempt: Option<AttemptId>, o: Outcome): map<AttemptId, Record> {
    match attempt
    case None => records
    case Some(a) => records[a := Record(o, [])]
  }

  /** A repeat of a known attempt is noted in its file, if it has one. */
  function Repeated(records: map<AttemptId, Record>, attempt: Option<AttemptId>): map<AttemptId, Record> {
    if attempt.Some? && attempt.value in records then WithEvent(records, attempt, Event("repeated", "refused")) else records
  }

  function Refusal(records: map<AttemptId, Record>, attempt: Option<AttemptId>, mode: Mode): map<AttemptId, Record> {
    match mode
    case New => WithEvent(Created(records, attempt, Outcome.Refused), attempt, Event("refused", "refused"))
    case Follow => WithEvent(records, attempt, Event("rollback", "refused"))
    case Resume => WithOutcome(WithEvent(records, attempt, Event("refused", "refused")), attempt, Outcome.Refused)
    case _ => records
  }

  /** A history the health check accepts, for the attempt and rollback it is about. */
  predicate Checkable(history: seq<Entry>, attempt: Option<AttemptId>, rollback: bool) {
    history != [] &&
    var last := DeployHistory.Last(history);
    && (attempt.Some? ==> last.attempt == attempt)
    && (rollback ==> last.rollback)
    && (last.failed == None || last.failed == Some(FailedHealth))
  }

  function CheckedEntry(e: Entry, ok: bool): Entry {
    if ok then e.(health := Some(Good), failed := if e.failed == Some(FailedHealth) then None else e.failed)
    else e.(health := Some(Bad), failed := Some(FailedHealth))
  }

  /** The entry a deploy writes of itself. */
  function EntryOf(p: Process, failed: Option<Failure>, removalsPending: bool, pendingRemovals: set<File>): Entry
    requires p.Deploy? && p.recorded.Some?
  {
    Entry(p.recorded.value, failed, removalsPending, pendingRemovals, p.rollback, p.attempt, None)
  }

  /** The history with the entry in place of its last one. */
  function Rewritten(history: seq<Entry>, e: Entry): seq<Entry> {
    if history == [] then [e] else DeployHistory.ReplaceLast(history, e)
  }

  /** The parent's phase when its make step ends. */
  function Returned(phase: Phase, ok: bool): Phase {
    match phase
    case Deploying(mode, _) => if ok then Deployed(mode) else Failing(mode)
    case CheckingHealth(mode, _) => Checked(mode, ok)
    case RollingBack(_) => if ok then Reverted else RollbackChecked(false)
    case CheckingRollback(_) => RollbackChecked(ok)
    case _ => phase
  }

  function WithReturned(procs: map<Pid, Process>, child: Pid, ok: bool): map<Pid, Process> {
    map p | p in procs && p != child ::
      if child in ChildOf(procs[p]) then procs[p].(phase := Returned(procs[p].phase, ok)) else procs[p]
  }

  predicate Enabled(s: State, step: Step) {
    match step
    case Start(p, process) =>
      // a pipeline run that is not a restart, or a make step started by hand or by a workflow, with or without an attempt
      && p !in s.procs && IsWaiting(process) && (process.Pipeline? ==> !process.restarted)
      && (process.Deploy? ==> process.recorded.None?)
    case Acquire(p) => p in s.procs && IsWaiting(s.procs[p]) && s.sharing == {}
    case Decide(p) => p in s.procs && s.procs[p].Pipeline? && s.procs[p].phase.Checking?
    case Refuse(p, _) => p in s.procs && s.procs[p].Pipeline? && s.procs[p].phase.Decided?
    case Accept(p) =>
      && p in s.procs && s.procs[p].Pipeline? && s.procs[p].phase.Decided? && !s.procs[p].phase.mode.Known?
      && (s.procs[p].phase.mode.Follow? ==> s.procs[p].rollback)
    case Note(p, e) =>
      p in s.procs && p in s.sharing &&
      (match s.procs[p]
       case Pipeline(_, _, _, phase) => !phase.Waiting? && !phase.Checking? && !phase.Decided?
       case Deploy(_, rollback, waiting, _) => !waiting && !rollback
       case HealthCheck(_, _, _) => false)
    case Interrupted(p, b, _) =>
      && p in s.procs && s.procs[p].Pipeline? && s.procs[p].phase.Preparing?
      && b in s.records && s.records[b].outcome == InProgress
    case Restart(p) => p in s.procs && s.procs[p].Pipeline? && s.procs[p].phase.Preparing?
    case StartDeploy(p, c) => p in s.procs && s.procs[p].Pipeline? && s.procs[p].phase.Preparing? && c !in s.procs
    case RecordCopy(c, _) => c in s.procs && s.procs[c].Deploy? && !s.procs[c].waiting && s.procs[c].recorded.None?
    case RewriteLast(c, failed, _, _) =>
      // whatever the last entry is by then; a deploy's own failures are its stages'
      c in s.procs && s.procs[c].Deploy? && !s.procs[c].waiting && s.procs[c].recorded.Some? && failed != Some(FailedHealth)
    case EndDeploy(c, ok) => c in s.procs && s.procs[c].Deploy? && !s.procs[c].waiting
    case Settle(p, o) =>
      && p in s.procs && s.procs[p].Pipeline?
      && (match s.procs[p].phase
          case Preparing(mode) => o == Outcome.Refused || o == NotDeployed || (mode.Follow? && o == RollbackFailed)
          case Deployed(mode) => o == Live && !mode.Follow?
          case Failing(_) => o == NotDeployed || o == FailedAfterCode || o == RollbackFailed
          case Checked(mode, ok) => if ok then mode.Follow? && o == RolledBack else o == RollbackFailed
          case RollbackChecked(ok) => o == if ok then RolledBack else RollbackFailed
          case _ => false)
    case StartCheck(p, c) => p in s.procs && s.procs[p].Pipeline? && s.procs[p].phase.Deployed? && c !in s.procs
    case EndCheck(c, ok) =>
      c in s.procs && s.procs[c].HealthCheck? && !s.procs[c].waiting && Checkable(s.history, s.procs[c].attempt, s.procs[c].rollback)
    case RefuseCheck(c) => c in s.procs && s.procs[c].HealthCheck? && !s.procs[c].waiting
    case StartRollback(p, c) =>
      && p in s.procs && s.procs[p].Pipeline? && c !in s.procs && !s.procs[p].rollback
      && (s.procs[p].phase.Failing? || (s.procs[p].phase.Checked? && !s.procs[p].phase.ok))
    case StartRollbackCheck(p, c) => p in s.procs && s.procs[p].Pipeline? && s.procs[p].phase.Reverted? && c !in s.procs
    case Exit(p) => p in s.procs && s.procs[p].Pipeline? && ChildOf(s.procs[p]) == {} && p in s.sharing
    case Kill(p) => p in s.procs
  }

  function SetPhase(s: State, p: Pid, phase: Phase): State
    requires p in s.procs && s.procs[p].Pipeline?
  {
    s.(procs := s.procs[p := s.procs[p].(phase := phase)])
  }

  /** A run starts a make step, which inherits the lock's descriptor. */
  function Spawn(s: State, p: Pid, phase: Phase, c: Pid, child: Process): State
    requires p in s.procs && s.procs[p].Pipeline?
  {
    s.(procs := s.procs[p := s.procs[p].(phase := phase)][c := child], sharing := s.sharing + {c})
  }

  /** A process is gone, its descriptors with it; a run that waits for it goes on. */
  function Ended(s: State, c: Pid, ok: bool): State {
    s.(procs := WithReturned(s.procs, c, ok), sharing := s.sharing - {c})
  }

  function Next(s: State, step: Step): State
    requires Enabled(s, step)
  {
    var p := step.pid;
    match step
    case Start(_, process) => s.(procs := s.procs[p := process])
    case Acquire(_) =>
      s.(sharing := {p}, procs := s.procs[p := if s.procs[p].Pipeline? then s.procs[p].(phase := Checking) else s.procs[p].(waiting := false)])
    case Decide(_) => SetPhase(s, p, Decided(AttemptMode(s, s.procs[p].attempt, s.procs[p].restarted)))
    case Refuse(_, early) =>
      var mode := s.procs[p].phase.mode;
      var known := !early && (mode.Known? || (mode.Follow? && !s.procs[p].rollback));
      Ended(s, p, false).(records := if known then Repeated(s.records, s.procs[p].attempt) else Refusal(s.records, s.procs[p].attempt, mode))
    case Accept(_) =>
      var attempt, mode := s.procs[p].attempt, s.procs[p].phase.mode;
      SetPhase(s, p, Preparing(mode)).(
        records := if mode.New? then WithEvent(Created(s.records, attempt, InProgress), attempt, Event("accepted", "ok")) else s.records)
    case Note(_, e) => s.(records := WithEvent(s.records, s.procs[p].attempt, e))
    case Interrupted(_, b, reached) =>
      s.(records := WithOutcome(WithEvent(s.records, Some(b), Event("interrupted", "failed")), Some(b),
                                if reached then FailedAfterCode else NotDeployed))
    case Restart(_) =>
      // the same program with the same switches on the newer setup; its descriptor of the lock is closed
      s.(records := WithEvent(s.records, s.procs[p].attempt, Event("setup", "updated")),
         procs := s.procs[p := s.procs[p].(phase := Waiting, restarted := true)], sharing := s.sharing - {p})
    case StartDeploy(_, c) =>
      Spawn(s, p, Deploying(s.procs[p].phase.mode, c), c, Deploy(s.procs[p].attempt, s.procs[p].rollback, false, None))
    case RecordCopy(_, commit) =>
      s.(history := s.history + [Entry(commit, Some(Incomplete), true, {}, s.procs[p].rollback, s.procs[p].attempt, None)],
         procs := s.procs[p := s.procs[p].(recorded := Some(commit))])
    case RewriteLast(_, failed, removalsPending, pending) =>
      s.(history := Rewritten(s.history, EntryOf(s.procs[p], failed, removalsPending, pending)))
    case EndDeploy(_, ok) => Ended(s, p, ok)
    case Settle(_, o) => s.(records := WithOutcome(s.records, s.procs[p].attempt, o))
    case StartCheck(_, c) =>
      Spawn(s, p, CheckingHealth(s.procs[p].phase.mode, c), c, HealthCheck(s.procs[p].attempt, s.procs[p].phase.mode.Follow?, false))
    case EndCheck(_, ok) =>
      var attempt, rollback := s.procs[p].attempt, s.procs[p].rollback;
      var outcome := if rollback then (if ok then RolledBack else RollbackFailed) else if ok then Live else FailedAfterCode;
      var event := Event(if rollback then "health_after_rollback" else "health", if ok then "ok" else "failed");
      Ended(s, p, ok).(
        history := DeployHistory.ReplaceLast(s.history, CheckedEntry(DeployHistory.Last(s.history), ok)),
        records := if attempt.None? then s.records else WithOutcome(WithEvent(s.records, attempt, event), attempt, outcome))
    case RefuseCheck(_) =>
      var attempt, rollback := s.procs[p].attempt, s.procs[p].rollback;
      var own := rollback && attempt.Some? && s.history != [] && DeployHistory.Last(s.history).attempt == attempt
                 && DeployHistory.Last(s.history).rollback && attempt.value in s.records;
      Ended(s, p, false).(
        records := if own then WithOutcome(WithEvent(s.records, attempt, Event("health_after_rollback", "refused")), attempt, RollbackFailed)
                   else s.records)
    case StartRollback(_, c) => Spawn(s, p, RollingBack(c), c, Deploy(s.procs[p].attempt, true, false, None))
    case StartRollbackCheck(_, c) => Spawn(s, p, CheckingRollback(c), c, HealthCheck(s.procs[p].attempt, true, false))
    case Exit(_) => Ended(s, p, false)
    case Kill(_) => Ended(s, p, false)
  }

  // ---- The lock ----

  /** Processes at work hold the descriptor; a run and the make step it waits for are the only ones that can do so together. */
  ghost predicate Locked(procs: map<Pid, Process>, sharing: set<Pid>) {
    && sharing <= procs.Keys
    && (forall p :: p in procs ==> (p in sharing <==> !IsWaiting(procs[p])))
    && (forall p :: p in procs && procs[p].Pipeline? ==> ChildOf(procs[p]) <= procs.Keys - {p})
    && (forall p :: p in sharing && procs[p].Pipeline? ==> sharing == {p} + ChildOf(procs[p]))
    && (forall c :: c in sharing && !procs[c].Pipeline? ==> sharing == {c} || exists p :: p in sharing && procs[p].Pipeline?)
  }

  ghost predicate LockOk(s: State) {
    Locked(s.procs, s.sharing)
  }

  /** A run that waits for no make step is alone under the lock. */
  lemma RunAlone(s: State, p: Pid)
    requires LockOk(s) && p in s.procs && s.procs[p].Pipeline? && !s.procs[p].phase.Waiting? && ChildOf(s.procs[p]) == {}
    ensures s.sharing == {p}
  {
  }

  /** Two processes at work are the same one, or a run and its make step. */
  lemma OneRunAtWork(s: State, p: Pid, q: Pid)
    requires LockOk(s) && p in s.procs && q in s.procs && !IsWaiting(s.procs[p]) && !IsWaiting(s.procs[q])
    ensures p == q || q in ChildOf(s.procs[p]) || p in ChildOf(s.procs[q])
  {
    if !s.procs[p].Pipeline? && !s.procs[q].Pipeline? && p != q {
      var r :| r in s.sharing && s.procs[r].Pipeline?;
      assert s.sharing == {r} + ChildOf(s.procs[r]);
    }
  }

  lemma PhaseKeepsLock(s: State, p: Pid, phase: Phase)
    requires LockOk(s) && p in s.procs && s.procs[p].Pipeline? && !s.procs[p].phase.Waiting? && ChildOf(s.procs[p]) == {}
    requires !phase.Waiting? && ChildOf(s.procs[p].(phase := phase)) == {}
    ensures LockOk(SetPhase(s, p, phase))
  {
  }

  lemma SpawnKeepsLock(s: State, p: Pid, phase: Phase, c: Pid, child: Process)
    requires LockOk(s) && p in s.procs && s.procs[p].Pipeline? && !s.procs[p].phase.Waiting? && ChildOf(s.procs[p]) == {}
    requires c !in s.procs && !child.Pipeline? && !IsWaiting(child)
    requires !phase.Waiting? && ChildOf(s.procs[p].(phase := phase)) == {c}
    ensures LockOk(Spawn(s, p, phase, c, child))
  {
    var next := Spawn(s, p, phase, c, child);
    assert p in next.sharing && next.procs[p].Pipeline?;
    assert s.sharing == {p};
  }

  lemma GoneChildren(procs: map<Pid, Process>, c: Pid, ok: bool, p: Pid)
    requires p in procs && p != c
    ensures var next := WithReturned(procs, c, ok);
            && p in next && IsWaiting(next[p]) == IsWaiting(procs[p]) && ChildOf(next[p]) == ChildOf(procs[p]) - {c}
            && next[p].Pipeline? == procs[p].Pipeline? && next[p].attempt == procs[p].attempt && next[p].rollback == procs[p].rollback
  {
  }

  lemma GoneKeepsLock(s: State, c: Pid, ok: bool)
    requires LockOk(s) && c in s.procs
    ensures LockOk(Ended(s, c, ok))
  {
    hide ChildOf, IsWaiting;
    var next := WithReturned(s.procs, c, ok);
    assert next.Keys == s.procs.Keys - {c};
    forall p | p in next
      ensures IsWaiting(next[p]) == IsWaiting(s.procs[p])
      ensures ChildOf(next[p]) == ChildOf(s.procs[p]) - {c}
      ensures next[p].Pipeline? == s.procs[p].Pipeline?
    {
      GoneChildren(s.procs, c, ok, p);
    }
    OneChild(s.procs[c]);
    if c in s.sharing {
      if s.procs[c].Pipeline? {
        assert s.sharing - {c} == ChildOf(s.procs[c]);
      }
    }
  }

  lemma OneChild(p: Process)
    ensures forall x, y :: x in ChildOf(p) && y in ChildOf(p) ==> x == y
    ensures ChildOf(p) == {} || exists x :: ChildOf(p) == {x}
  {
    if ChildOf(p) != {} {
      assert ChildOf(p) == {p.phase.child};
    }
  }

  lemma ProcessKeepsLock(s: State, p: Pid, process: Process)
    requires LockOk(s) && p in s.procs && process.Pipeline? == s.procs[p].Pipeline?
    requires IsWaiting(process) == IsWaiting(s.procs[p]) && ChildOf(process) == ChildOf(s.procs[p])
    ensures LockOk(s.(procs := s.procs[p := process]))
  {
  }

  lemma StartKeepsLock(s: State, p: Pid, process: Process)
    requires LockOk(s) && p !in s.procs && IsWaiting(process)
    ensures LockOk(s.(procs := s.procs[p := process]))
  {
  }

  lemma AcquireKeepsLock(s: State, p: Pid)
    requires LockOk(s) && Enabled(s, Acquire(p))
    ensures LockOk(Next(s, Acquire(p)))
  {
  }

  lemma RestartKeepsLock(s: State, p: Pid)
    requires LockOk(s) && Enabled(s, Restart(p))
    ensures LockOk(Next(s, Restart(p)))
  {
  }

  /** Every step keeps the lock. */
  lemma LockKept(s: State, step: Step)
    requires LockOk(s) && Enabled(s, step)
    ensures LockOk(Next(s, step))
  {
    hide Locked;
    var p := step.pid;
    match step
    case Start(_, process) => StartKeepsLock(s, p, process);
    case Acquire(_) => AcquireKeepsLock(s, p);
    case Restart(_) => RestartKeepsLock(s, p);
    case Decide(_) => PhaseKeepsLock(s, p, Decided(AttemptMode(s, s.procs[p].attempt, s.procs[p].restarted)));
    case Accept(_) => PhaseKeepsLock(s, p, Preparing(s.procs[p].phase.mode));
    case StartDeploy(_, c) =>
      SpawnKeepsLock(s, p, Deploying(s.procs[p].phase.mode, c), c, Deploy(s.procs[p].attempt, s.procs[p].rollback, false, None));
    case StartCheck(_, c) =>
      SpawnKeepsLock(s, p, CheckingHealth(s.procs[p].phase.mode, c), c, HealthCheck(s.procs[p].attempt, s.procs[p].phase.mode.Follow?, false));
    case StartRollback(_, c) => SpawnKeepsLock(s, p, RollingBack(c), c, Deploy(s.procs[p].attempt, true, false, None));
    case StartRollbackCheck(_, c) => SpawnKeepsLock(s, p, CheckingRollback(c), c, HealthCheck(s.procs[p].attempt, true, false));
    case RecordCopy(_, commit) => ProcessKeepsLock(s, p, s.procs[p].(recorded := Some(commit)));
    case EndDeploy(_, ok) => GoneKeepsLock(s, p, ok);
    case EndCheck(_, ok) => GoneKeepsLock(s, p, ok);
    case RefuseCheck(_) => GoneKeepsLock(s, p, false);
    case Refuse(_, _) => GoneKeepsLock(s, p, false);
    case Exit(_) => GoneKeepsLock(s, p, false);
    case Kill(_) => GoneKeepsLock(s, p, false);
    case _ =>
  }

  // ---- The history under the lock ----

  /** A run's make step is what the run started it as. */
  ghost predicate ChildOk(parent: Process, child: Process)
    requires parent.Pipeline?
  {
    child.attempt == parent.attempt &&
    match parent.phase
    case CheckingHealth(mode, _) => child.HealthCheck? && child.rollback == mode.Follow?
    case CheckingRollback(_) => child.HealthCheck? && child.rollback
    case Deploying(_, _) => child.Deploy? && child.rollback == parent.rollback
    case _ => child.Deploy? && child.rollback
  }

  ghost predicate ChildrenOk(procs: map<Pid, Process>) {
    forall p, c :: p in procs && procs[p].Pipeline? && c in procs && c in ChildOf(procs[p]) ==> ChildOk(procs[p], procs[c])
  }

  /** The entry is the one this deploy recorded: nobody else has written to the history since. */
  ghost predicate OwnEntry(history: seq<Entry>, process: Process)
    requires process.Deploy?
  {
    history != [] &&
    var last := DeployHistory.Last(history);
    && Some(last.commit) == process.recorded && last.attempt == process.attempt && last.rollback == process.rollback
    && last.health.None? && last.failed != Some(FailedHealth)
  }

  /** The last entry is a rollback of this attempt that has just passed its health check. */
  ghost predicate RollbackPassed(history: seq<Entry>, attempt: Option<AttemptId>) {
    history != [] &&
    var last := DeployHistory.Last(history);
    (attempt.Some? ==> last.attempt == attempt) && last.rollback && last.health == Some(Good) && last.failed.None?
  }

  ghost predicate WritersOk(s: State) {
    && (forall c :: c in s.procs && s.procs[c].Deploy? && s.procs[c].recorded.Some? ==> !s.procs[c].waiting && OwnEntry(s.history, s.procs[c]))
    && (forall p :: p in s.procs && s.procs[p].Pipeline? ==>
          match s.procs[p].phase
          case Checked(mode, ok) => mode.Follow? && ok ==> RollbackPassed(s.history, s.procs[p].attempt)
          case RollbackChecked(ok) => ok ==> RollbackPassed(s.history, s.procs[p].attempt)
          case _ => true)
  }

  predicate SameKind(p: Process, q: Process) {
    p.Pipeline? == q.Pipeline? && p.Deploy? == q.Deploy? && p.attempt == q.attempt && p.rollback == q.rollback
  }

  /** One process started or changed, which waits for no make step. */
  lemma ChangedKeepsChildren(procs: map<Pid, Process>, p: Pid, process: Process)
    requires ChildrenOk(procs) && ChildOf(process) == {}
    requires if p in procs then SameKind(procs[p], process) else forall q :: q in procs && procs[q].Pipeline? ==> p !in ChildOf(procs[q])
    ensures ChildrenOk(procs[p := process])
  {
  }

  lemma SpawnKeepsChildren(s: State, p: Pid, phase: Phase, c: Pid, child: Process)
    requires LockOk(s) && ChildrenOk(s.procs) && p in s.procs && s.procs[p].Pipeline? && c !in s.procs && !child.Pipeline?
    requires ChildOf(s.procs[p].(phase := phase)) == {c} && ChildOk(s.procs[p].(phase := phase), child)
    ensures ChildrenOk(Spawn(s, p, phase, c, child).procs)
  {
  }

  lemma GoneKeepsChildren(procs: map<Pid, Process>, c: Pid, ok: bool)
    requires ChildrenOk(procs)
    ensures ChildrenOk(WithReturned(procs, c, ok))
  {
    var next := WithReturned(procs, c, ok);
    forall p, x | p in next && next[p].Pipeline? && x in next && x in ChildOf(next[p])
      ensures ChildOk(next[p], next[x])
    {
      GoneChildren(procs, c, ok, p);
      assert ChildOk(procs[p], procs[x]);
    }
  }

  lemma NoParentYet(s: State, p: Pid)
    requires LockOk(s) && p !in s.procs
    ensures forall q :: q in s.procs && s.procs[q].Pipeline? ==> p !in ChildOf(s.procs[q])
  {
  }

  /** A run's make step stays what the run started it as. */
  lemma ChildrenKept(s: State, step: Step)
    requires LockOk(s) && ChildrenOk(s.procs) && Enabled(s, step)
    ensures ChildrenOk(Next(s, step).procs)
  {
    hide LockOk, ChildrenOk, AttemptMode, Refusal, Repeated, Checkable, HasEntry, UpdatedLast, WithReturned;
    var procs, p := s.procs, step.pid;
    match step
    case Start(_, process) =>
      NoParentYet(s, p);
      ChangedKeepsChildren(procs, p, process);
    case Acquire(_) => ChangedKeepsChildren(procs, p, if procs[p].Pipeline? then procs[p].(phase := Checking) else procs[p].(waiting := false));
    case Decide(_) => ChangedKeepsChildren(procs, p, procs[p].(phase := Decided(AttemptMode(s, procs[p].attempt, procs[p].restarted))));
    case Accept(_) => ChangedKeepsChildren(procs, p, procs[p].(phase := Preparing(procs[p].phase.mode)));
    case Restart(_) => ChangedKeepsChildren(procs, p, procs[p].(phase := Waiting, restarted := true));
    case RecordCopy(_, commit) => ChangedKeepsChildren(procs, p, procs[p].(recorded := Some(commit)));
    case StartDeploy(_, c) =>
      SpawnKeepsChildren(s, p, Deploying(procs[p].phase.mode, c), c, Deploy(procs[p].attempt, procs[p].rollback, false, None));
    case StartCheck(_, c) =>
      SpawnKeepsChildren(s, p, CheckingHealth(procs[p].phase.mode, c), c, HealthCheck(procs[p].attempt, procs[p].phase.mode.Follow?, false));
    case StartRollback(_, c) => SpawnKeepsChildren(s, p, RollingBack(c), c, Deploy(procs[p].attempt, true, false, None));
    case StartRollbackCheck(_, c) => SpawnKeepsChildren(s, p, CheckingRollback(c), c, HealthCheck(procs[p].attempt, true, false));
    case EndDeploy(_, ok) => GoneKeepsChildren(procs, p, ok);
    case EndCheck(_, ok) => GoneKeepsChildren(procs, p, ok);
    case RefuseCheck(_) => GoneKeepsChildren(procs, p, false);
    case Refuse(_, _) => GoneKeepsChildren(procs, p, false);
    case Exit(_) => GoneKeepsChildren(procs, p, false);
    case Kill(_) => GoneKeepsChildren(procs, p, false);
    case _ =>
  }
}
