/** The build root's checkout: what a run leaves it at, and what the next run's repair makes of a killed one. */
module PipelineRepair {
  import opened Wrappers
  import opened DeployRemovals
  import DeployHistory

  /** What a run notes of itself until it ends: the commit it found, its target, whether it built its images, and how long
      the history was. */
  datatype Marker = Marker(start: Commit, target: Commit, attempt: Option<AttemptId>, images: bool, entries: nat)

  /** What a run comes to: refused by a check, or failed or completed by a make step. The deploy's own entry is what it
      recorded, if it got to its copy. */
  datatype Fate =
    | ChecksFail
    | ReleaseFails
    | ImagesFail
    | DeployFails(recorded: Option<Entry>)
    | Deploys(entry: Entry, healthy: bool)

  datatype Point = Never | AfterMark | AfterCheckout | BeforeImagesMark | AfterImagesMark | AfterDeploy | AfterFollow | AfterHealth

  /** A run that was killed: what it knew (its images built, its deploy done) and what it left. */
  datatype Killed = Killed(live: Commit, target: Commit, separate: bool, images: bool, deployed: bool,
                           marker: Marker, head: Commit, history: seq<Entry>)

  predicate Grown(k: Killed) {
    |k.history| > k.marker.entries
  }

  /** The history's last entry, if it is from this run, is a completed deploy. */
  predicate Completed(k: Killed) {
    Grown(k) && k.history[|k.history| - 1].failed.None?
  }

  /** What a killed run can leave behind. */
  ghost predicate Plausible(k: Killed) {
    && k.marker.start == k.live && k.marker.target == k.target && k.marker.entries <= |k.history| <= k.marker.entries + 1
    && (k.marker.images ==> k.images)
    && (k.images || Grown(k) ==> k.head == k.target || k.deployed)
    && (!k.deployed ==> k.head == k.target || k.head == k.live)
    && (k.deployed ==> Grown(k) && k.head == DeployedCommit(k))
    && (k.deployed && !Completed(k) ==> k.history[|k.history| - 1].failed == Some(FailedHealth))
  }

  /** The commit a finished deploy leaves the build root at: in one repository it follows what setup deployed. */
  function DeployedCommit(k: Killed): Commit {
    if k.separate || k.history == [] then k.target else k.history[|k.history| - 1].commit
  }

  /** Where the run's own end would have left the build root: behind a deploy that is done, at its commit; otherwise its
      restore path, at the commit it found unless its images were built. */
  function OwnEnd(k: Killed): Commit {
    if k.deployed || Completed(k) then DeployedCommit(k)
    else if k.images then k.target
    else k.live
  }

  /** What the next run's repair does with the marker it finds. */
  function Repaired(k: Killed): Commit {
    if Completed(k) && !k.separate then k.history[|k.history| - 1].commit
    else if Completed(k) || k.marker.images then k.head
    else k.marker.start
  }

  /** Killed anywhere from its marker to the end of its deploy, the repair leaves the build root where the run's own end
      would have, except between building the images and noting it in the marker (and there only if the commits differ). */
  lemma RepairMeetsOwnEnd(k: Killed)
    requires Plausible(k) && (k.deployed ==> Completed(k))
    ensures Repaired(k) == OwnEnd(k) <==> Completed(k) || k.images == k.marker.images || k.live == k.target
  {
  }

  /** Later, while the run still holds its marker, a failed health check makes the finished deploy look failed: the repair
      then goes back to the commit before the run, although its code is live, unless its images keep it there. */
  lemma RepairAfterFailedHealth(k: Killed)
    requires Plausible(k) && k.deployed && !Completed(k)
    ensures OwnEnd(k) == DeployedCommit(k)
    ensures Repaired(k) == OwnEnd(k) <==> k.marker.images || k.live == DeployedCommit(k)
  {
  }

  /** Where an uninterrupted run of this fate leaves the build root. */
  function EndOf(live: Commit, target: Commit, separate: bool, wantImages: bool, fate: Fate): Commit {
    match fate
    case ChecksFail => live
    case ReleaseFails => live
    case ImagesFail => target
    case DeployFails(_) => if wantImages then target else live
    case Deploys(entry, _) => if separate then target else entry.commit
  }

  /** A kill in place of the next step: that step's failure. */
  function CutOff(fate: Fate, kill: Point): Fate {
    match kill
    case AfterMark => ChecksFail
    case AfterCheckout => ChecksFail
    case BeforeImagesMark => ImagesFail
    case AfterImagesMark => ImagesFail
    case _ => fate
  }

  ghost predicate FateOk(fate: Fate, wantImages: bool) {
    match fate
    case ReleaseFails => wantImages
    case ImagesFail => wantImages
    case DeployFails(recorded) =>
      recorded.Some? ==> recorded.value.failed.Some? && recorded.value.failed != Some(FailedHealth)
    case Deploys(entry, _) => entry.failed.None? && entry.health.None?
    case _ => true
  }

  /** Whether a run of this fate comes to the point at which it is to be killed. */
  predicate Reaches(kill: Point, wantImages: bool, checkHealth: bool, fate: Fate) {
    match kill
    case Never => false
    case AfterMark => true
    case AfterCheckout => true
    case BeforeImagesMark => wantImages && !fate.ChecksFail? && !fate.ReleaseFails?
    case AfterImagesMark => wantImages && !fate.ChecksFail? && !fate.ReleaseFails?
    case AfterDeploy => fate.DeployFails? || fate.Deploys?
    case AfterFollow => fate.Deploys?
    case AfterHealth => fate.Deploys? && checkHealth
  }

  /** The points before the deploy. */
  predicate IsEarly(kill: Point) {
    kill.AfterMark? || kill.AfterCheckout? || kill.BeforeImagesMark? || kill.AfterImagesMark?
  }

  /** What the health check makes of an entry. */
  function Checked(e: Entry, healthy: bool): Entry {
    if healthy then e.(health := Some(Good)) else e.(health := Some(Bad), failed := Some(FailedHealth))
  }

  class Root {
    var head: Commit
    var marker: Option<Marker>
    var history: seq<Entry>
    const separate: bool

    constructor (head: Commit, history: seq<Entry>, separate: bool)
      ensures this.head == head && marker == None && this.history == history && this.separate == separate
    {
      this.head, marker, this.history, this.separate := head, None, history, separate;
    }

    /** The checkout and the history as a run that knows `images` and `deployed` would leave them if it was killed now. */
    ghost function Now(live: Commit, target: Commit, images: bool, deployed: bool): Killed
      requires marker.Some?
      reads this
    {
      Killed(live, target, separate, images, deployed, marker.value, head, history)
    }

    method Restore(live: Commit, target: Commit, images: bool)
      modifies this`head
      ensures head == if images then old(head) else live
    {
      if !images {
        head := live;
      }
    }

    /** From the marker to the images: the checkout, the checks, the images and the note that they are built. */
    method Prepare(target: Commit, attempt: Option<AttemptId>, wantImages: bool, fate: Fate, kill: Point)
      returns (killed: bool, images: bool, failed: bool)
      requires marker == None && FateOk(fate, wantImages)
      modifies this
      ensures marker.Some? && history == old(history)
      ensures marker.value == Marker(old(head), target, attempt, marker.value.images, |history|)
      ensures killed <==> IsEarly(kill) && Reaches(kill, wantImages, false, fate)
      ensures killed && (kill.AfterMark? || kill.AfterCheckout?) ==> !images
      ensures killed && (kill.BeforeImagesMark? || kill.AfterImagesMark?) ==>
                images && wantImages && !fate.ChecksFail? && !fate.ReleaseFails?
      ensures head == if killed && kill.AfterMark? then old(head) else target
      ensures marker.value.images == (images && !(killed && kill.BeforeImagesMark?))
      ensures !killed ==> images == (wantImages && !fate.ChecksFail? && !fate.ReleaseFails?)
      ensures !killed ==> failed == (fate.ChecksFail? || fate.ReleaseFails? || fate.ImagesFail?)
    {
      killed, images, failed := true, false, false;
      marker := Some(Marker(head, target, attempt, false, |history|));
      if kill.AfterMark? {
        return;
      }
      head := target;
      if kill.AfterCheckout? {
        return;
      }
      if fate.ChecksFail? || fate.ReleaseFails? {
        return false, false, true;
      }
      if wantImages {
        images := true;
        if kill.BeforeImagesMark? {
          return;
        }
        marker := Some(marker.value.(images := true));
        if kill.AfterImagesMark? {
          return;
        }
      }
      return false, images, fate.ImagesFail?;
    }

    /** The end of a run whose deploy is done: the checkout follows it, the health check rewrites its entry. */
    method Finish(target: Commit, checkHealth: bool, healthy: bool, kill: Point) returns (killed: bool)
      requires history != [] && head == target
      modifies this`head, this`history
      ensures killed <==> kill.AfterDeploy? || kill.AfterFollow? || (kill.AfterHealth? && checkHealth)
      ensures head == if kill.AfterDeploy? || separate then target else DeployHistory.Last(old(history)).commit
      ensures history == if kill.AfterDeploy? || kill.AfterFollow? || !checkHealth then old(history)
                         else DeployHistory.ReplaceLast(old(history), Checked(DeployHistory.Last(old(history)), healthy))
    {
      if kill.AfterDeploy? {
        return true;
      }
      if !separate {
        var commit := history[|history| - 1].commit;
        if commit != target {
          head := commit;
        }
      }
      if kill.AfterFollow? {
        return true;
      }
      if checkHealth {
        var last := history[|history| - 1];
        history := history[..|history| - 1] + [if healthy then last.(health := Some(Good))
                                               else last.(health := Some(Bad), failed := Some(FailedHealth))];
        return kill.AfterHealth?;
      }
      return false;
    }

    /** A deploy that completed: its entry is recorded, the run finishes, and the marker goes unless the run is killed. */
    method Succeed(target: Commit, entry: Entry, checkHealth: bool, healthy: bool, kill: Point) returns (killed: bool)
      requires marker.Some? && head == target
      modifies this
      ensures killed <==> kill.AfterDeploy? || kill.AfterFollow? || (kill.AfterHealth? && checkHealth)
      ensures marker == if killed then old(marker) else None
      ensures head == if kill.AfterDeploy? || separate then target else entry.commit
      ensures history == old(history) + [if kill.AfterDeploy? || kill.AfterFollow? || !checkHealth then entry else Checked(entry, healthy)]
    {
      history := history + [entry];
      killed := Finish(target, checkHealth, healthy, kill);
      if !killed {
        marker := None;
      }
    }

    /** A run that failed: what its deploy recorded, if it got that far, and the way back unless the run is killed first. */
    method GiveUp(live: Commit, target: Commit, images: bool, recorded: Option<Entry>, cutOff: bool)
      requires marker.Some?
      modifies this
      ensures history == old(history) + if recorded.Some? then [recorded.value] else []
      ensures marker == if cutOff then old(marker) else None
      ensures head == if cutOff || images then old(head) else live
    {
      if recorded.Some? {
        history := history + [recorded.value];
      }
      if !cutOff {
        Restore(live, target, images);
        marker := None;
      }
    }

    /** One run of the step that does not roll back on its own, from its marker on. It is killed exactly if it comes to the
        point given, and leaves a state it can have left there; otherwise it ends as its fate says, with the marker
        removed. */
    method RunStep(target: Commit, attempt: Option<AttemptId>, wantImages: bool, checkHealth: bool, fate: Fate, kill: Point)
      returns (killed: bool, images: bool, deployed: bool)
      requires marker == None && FateOk(fate, wantImages)
      modifies this
      ensures killed <==> Reaches(kill, wantImages, checkHealth, fate)
      ensures !killed ==> marker == None && head == EndOf(old(head), target, separate, wantImages, fate)
      ensures killed ==> marker.Some? && Plausible(Now(old(head), target, images, deployed))
      ensures killed ==> images == (wantImages && !kill.AfterMark? && !kill.AfterCheckout? && !fate.ChecksFail? && !fate.ReleaseFails?)
      ensures killed ==> marker.value.images == (images && !kill.BeforeImagesMark?) && marker.value.entries == |old(history)|
      ensures killed ==> deployed == (kill.AfterFollow? || kill.AfterHealth?)
      ensures killed && kill.BeforeImagesMark? ==> history == old(history)
      ensures killed && !kill.AfterHealth? ==>
                OwnEnd(Now(old(head), target, images, deployed)) == EndOf(old(head), target, separate, wantImages, CutOff(fate, kill))
      ensures killed && deployed ==>
                OwnEnd(Now(old(head), target, images, deployed)) == EndOf(old(head), target, separate, wantImages, fate)
      ensures killed && deployed ==> (Completed(Now(old(head), target, images, deployed)) <==> !kill.AfterHealth? || fate.healthy)
    {
      var live := head;
      deployed := false;
      var failed;
      killed, images, failed := Prepare(target, attempt, wantImages, fate, kill);
      if killed {
        return;
      }
      if !failed && fate.Deploys? {
        killed := Succeed(target, fate.entry, checkHealth, fate.healthy, kill);
        deployed := !kill.AfterDeploy?;
      } else {
        killed := !failed && kill.AfterDeploy?;
        GiveUp(live, target, images, if failed then None else fate.recorded, killed);
      }
    }

    /** The repair at the start of the next run: the checkout moves only if it has to, and the marker is gone. */
    method Repair() returns (commit: Commit)
      modifies this
      ensures old(marker) == None ==> commit == head == old(head)
      ensures old(marker).Some? ==>
                var m := old(marker).value;
                commit == head == Repaired(Killed(m.start, m.target, separate, m.images, false, m, old(head), old(history)))
      ensures marker == None && history == old(history)
    {
      if marker == None {
        return head;
      }
      var left := marker.value;
      var grown := |history| > left.entries;
      var deployed := grown && history[|history| - 1].failed.None?;
      if deployed && !separate {
        commit := history[|history| - 1].commit;
      } else if deployed || left.images {
        commit := head;
      } else {
        commit := left.start;
      }
      if commit != head {
        head := commit;
      }
      marker := None;
    }
  }

  /** A run killed at a point it comes to, and then the next run's repair: the build root is where the same run would have
      left it on its own, the kill being the failure of its next step. There are two exceptions: killed between building
      the images and noting it, and killed once the health check of its deploy has failed, unless its images were noted,
      the repair goes back to the commit before. */
  method KilledAndRepaired(root: Root, target: Commit, attempt: Option<AttemptId>, wantImages: bool, checkHealth: bool, fate: Fate,
                           kill: Point)
    returns (killed: bool)
    requires root.marker == None && FateOk(fate, wantImages)
    modifies root
    ensures root.marker == None
    ensures killed <==> Reaches(kill, wantImages, checkHealth, fate)
    ensures var back := kill.BeforeImagesMark? || (kill.AfterHealth? && !wantImages && fate.Deploys? && !fate.healthy);
            killed ==> root.head == if back then old(root.head)
                                    else EndOf(old(root.head), target, root.separate, wantImages, CutOff(fate, kill))
    ensures !killed ==> root.head == EndOf(old(root.head), target, root.separate, wantImages, fate)
  {
    ghost var live := root.head;
    var images, deployed;
    killed, images, deployed := root.RunStep(target, attempt, wantImages, checkHealth, fate, kill);
    if killed {
      ghost var k := root.Now(live, target, images, deployed);
      if deployed && kill.AfterHealth? && !fate.healthy {
        RepairAfterFailedHealth(k);
      } else {
        RepairMeetsOwnEnd(k);
      }
      var _ := root.Repair();
    }
  }

  /** For instance: a new separate root at commit a, and a run to b that is killed between building its images and noting
      it. The repair goes back to a; the run's own end, with those images, would have stayed at b. */
  method ImagesNotNoted(a: Commit, b: Commit) returns (root: Root, killed: bool)
    requires a != b
    ensures killed && root.head == a != EndOf(a, b, true, true, CutOff(ImagesFail, BeforeImagesMark)) == b
  {
    root := new Root(a, [], true);
    killed := KilledAndRepaired(root, b, None, true, false, ImagesFail, BeforeImagesMark);
  }

  /** For instance: the same root, and a run that deployed b and is killed once its health check has failed. The repair
      goes back to a; the run's own end is at b. */
  method DeployNotSeen(a: Commit, b: Commit) returns (root: Root, killed: bool)
    requires a != b
    ensures var fate := Deploys(Entry(b, None, false, {}, false, None, None), false);
            killed && root.head == a != EndOf(a, b, true, false, fate) == b
  {
    root := new Root(a, [], true);
    var fate := Deploys(Entry(b, None, false, {}, false, None, None), false);
    killed := KilledAndRepaired(root, b, None, false, true, fate, AfterHealth);
  }
}
