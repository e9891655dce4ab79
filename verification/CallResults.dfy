/** How calls, entries and execs go on and end: none is ever stuck, each is bounded, and a mount that succeeds ends tracked. */
module CallResults {
  import opened Sequences
  import opened SlotTable
  import opened SlotTableFacts
  import opened Credentials
  import opened SandboxSystem
  import opened EntryAccounting
  import opened Revocation
  import opened MountCalls
  import opened CallRoutes
  import opened PendingRecords
  import opened SandboxRuns

  // ----- progress -----

  /** A bound on the steps a task still takes before it is outside again. */
  function Remaining(stage: Stage): nat {
    match stage
    case User => 0
    case Joining(_, _) => 3
    case Committing(_) => 2
    case Aborting(_) => 1
    case Completing(_) => 1
    case AskNs(kind, at) => AskRank(kind, at) + 1
    case HoldNs(kind, at, _) => AskRank(kind, at)
    case Reserving(kind) => if kind.Tmpfs? then 10 else 5
    case Tracking(_, at) => if at == AtUmount then 10 else 3
    case Mounting(_) => 4
    case Returning(_, _) => 3
    case Reporting(_, _) => 2
    case Dropping(_) => 1
    case Unmounting(_) => 2
    case Execing(_) => 1
  }

  function AskRank(kind: MountKind, at: Check): nat {
    match at
    case AtSbMount => 11
    case AtMayMount => 8
    case AtBind => 6
    case AtUmount => 11
    case AtCanUmount => 7
    case AtSbUmount => 4
  }

  /** The combinations of call and check that occur. */
  predicate Sensible(stage: Stage) {
    match stage
    case AskNs(kind, at) => SensibleCheck(kind, at)
    case HoldNs(kind, at, _) => SensibleCheck(kind, at)
    case Reserving(kind) => !kind.Unmount?
    case Tracking(_, at) => at == AtUmount || at == AtSbUmount
    case _ => true
  }

  predicate SensibleCheck(kind: MountKind, at: Check) {
    match at
    case AtSbMount => !kind.Unmount?
    case AtMayMount => !kind.Unmount?
    case AtBind => kind.Bind?
    case _ => kind.Unmount?
  }

  lemma AskFalls(s: State, step: Step)
    requires Enabled(s, step) && (step.NsLock? || step.NsCompare? || step.Privileged?) && Sensible(s.tasks[step.t].stage)
    ensures Sensible(TaskAfter(s, step).stage)
    ensures Remaining(TaskAfter(s, step).stage) < Remaining(s.tasks[step.t].stage)
  {
  }

  lemma OtherFalls(s: State, step: Step)
    requires Enabled(s, step) && !OfRequest(step) && !step.NsLock? && !step.NsCompare? && !step.Privileged?
    requires Sensible(s.tasks[step.t].stage)
    ensures Sensible(TaskAfter(s, step).stage)
    ensures !s.tasks[step.t].stage.User? ==> Remaining(TaskAfter(s, step).stage) < Remaining(s.tasks[step.t].stage)
  {
  }

  /** Every step of a task that is inside something brings it nearer to the end. */
  lemma RemainingFalls(s: State, step: Step)
    requires Enabled(s, step) && !OfRequest(step) && Sensible(s.tasks[step.t].stage)
    ensures Sensible(TaskAfter(s, step).stage)
    ensures !s.tasks[step.t].stage.User? ==> Remaining(TaskAfter(s, step).stage) < Remaining(s.tasks[step.t].stage)
  {
    if step.NsLock? || step.NsCompare? || step.Privileged? {
      AskFalls(s, step);
    } else {
      OtherFalls(s, step);
    }
  }

  ghost predicate AllSensible(tasks: seq<Task>) { forall t :: 0 <= t < |tasks| ==> Sensible(tasks[t].stage) }

  lemma SensibleStep(s: State, step: Step)
    requires Enabled(s, step) && AllSensible(s.tasks)
    ensures AllSensible(TasksAfter(s, step))
  {
    forall t | 0 <= t < |TasksAfter(s, step)| ensures Sensible(TasksAfter(s, step)[t].stage) {
      TaskKept(s, step, t);
      if !OfRequest(step) { RemainingFalls(s, step); }
    }
  }

  lemma {:induction false} SensibleRun(trace: seq<State>, steps: seq<Step>, n: nat)
    requires IsRun(trace, steps) && n <= |steps|
    ensures AllSensible(trace[n].tasks)
  {
    if n > 0 {
      SensibleRun(trace, steps, n - 1);
      TasksAt(trace, steps, n - 1);
      SensibleStep(trace[n - 1], steps[n - 1]);
    }
  }

  /** The steps a task has taken between two moments. */
  function StepsBy(steps: seq<Step>, t: TaskId): nat {
    if steps == [] then 0
    else
      var last := steps[|steps| - 1];
      StepsBy(steps[..|steps| - 1], t) + if !OfRequest(last) && !last.Fork? && last.t == t then 1 else 0
  }

  lemma InsideNext(trace: seq<State>, steps: seq<Step>, n: nat, t: TaskId)
    requires IsRun(trace, steps) && n < |steps| && t < |trace[n].tasks| && !trace[n].tasks[t].stage.User?
    ensures t < |trace[n + 1].tasks|
    ensures Remaining(trace[n + 1].tasks[t].stage) +
              (if !OfRequest(steps[n]) && !steps[n].Fork? && steps[n].t == t then 1 else 0) <= Remaining(trace[n].tasks[t].stage)
  {
    SensibleRun(trace, steps, n);
    TasksAt(trace, steps, n);
    if OfRequest(steps[n]) || steps[n].Fork? || steps[n].t != t {
      OthersPassNothing(trace[n], steps[n], t);
    } else {
      RemainingFalls(trace[n], steps[n]);
    }
  }

  /** In any run a task that stays inside one entry, call or exec takes at most 12 steps of its own there. */
  lemma {:induction false} InsideIsBounded(trace: seq<State>, steps: seq<Step>, n: nat, m: nat, t: TaskId)
    requires IsRun(trace, steps) && n <= m <= |steps| && t < |trace[n].tasks|
    requires forall i :: n <= i < m ==> t < |trace[i].tasks| && !trace[i].tasks[t].stage.User?
    ensures t < |trace[m].tasks|
    ensures StepsBy(steps[n..m], t) + Remaining(trace[m].tasks[t].stage) <= Remaining(trace[n].tasks[t].stage) <= 12
    decreases m
  {
    if n < m {
      InsideIsBounded(trace, steps, n, m - 1, t);
      InsideNext(trace, steps, m - 1, t);
      assert steps[n..m][..m - 1 - n] == steps[n..m - 1];
    }
  }

  /** A step the task itself can take. */
  ghost predicate Moves(s: State, step: Step, t: TaskId) {
    Enabled(s, step) && !OfRequest(step) && !step.Fork? && step.t == t
  }

  lemma EntryNeverStuck(s: State, t: TaskId)
    requires t < |s.tasks| && (Counted(s.tasks[t].stage) || s.tasks[t].stage.Execing?)
    ensures exists step :: Moves(s, step, t)
  {
    match s.tasks[t].stage {
      case Joining(_, _) => assert Moves(s, JoinDone(t, true), t);
      case Committing(_) => assert Moves(s, Commit(t), t);
      case Execing(_) => assert Moves(s, ExecFail(t), t);
      case Aborting(_) => assert Moves(s, Complete(t), t);
      case Completing(_) => assert Moves(s, Complete(t), t);
    }
  }

  lemma ChecksNeverStuck(s: State, t: TaskId)
    requires t < |s.tasks| && InCall(s.tasks[t].stage)
    ensures exists step :: Moves(s, step, t)
  {
    match s.tasks[t].stage {
      case AskNs(_, _) => assert Moves(s, NsLock(t), t);
      case HoldNs(_, _, _) => assert Moves(s, NsCompare(t, false, true), t);
      case Reserving(_) => assert Moves(s, Reserve(t, true), t);
      case Tracking(_, _) => assert Moves(s, CheckTracked(t), t);
      case Mounting(_) => assert Moves(s, MountDone(t, None), t);
      case Unmounting(_) => assert Moves(s, UmountFail(t), t);
    }
  }

  lemma ReportNeverStuck(s: State, t: TaskId)
    requires t < |s.tasks| && (s.tasks[t].stage.Returning? || s.tasks[t].stage.Reporting? || s.tasks[t].stage.Dropping?)
    ensures exists step :: Moves(s, step, t)
  {
    match s.tasks[t].stage {
      case Returning(_, _) => assert Moves(s, StartReport(t), t);
      case Reporting(_, _) => assert Moves(s, Report(t), t);
      case Dropping(_) => assert Moves(s, DropMount(t), t);
    }
  }

  /** And there always is such a step. */
  lemma TaskNeverStuck(s: State, t: TaskId)
    requires t < |s.tasks| && !s.tasks[t].stage.User?
    ensures exists step :: Moves(s, step, t)
  {
    if InCall(s.tasks[t].stage) {
      ChecksNeverStuck(s, t);
    } else if Counted(s.tasks[t].stage) || s.tasks[t].stage.Execing? {
      EntryNeverStuck(s, t);
    } else {
      ReportNeverStuck(s, t);
    }
  }

  // ----- the result of a mount -----

  predicate Carries(stage: Stage, result: Option<Mount>, held: bool) {
    stage == Returning(result, held) || stage == Reporting(result, held)
  }

  lemma ResultStarts(s: State, t: TaskId, result: Option<Mount>)
    requires Enabled(s, MountDone(t, result))
    ensures Carries(TaskAfter(s, MountDone(t, result)).stage, result, s.tasks[t].stage.held)
    ensures TaskAfter(s, MountDone(t, result)).cred == s.tasks[t].cred
  {
  }

  lemma ResultKept(s: State, step: Step, result: Option<Mount>, held: bool)
    requires Enabled(s, step) && !OfRequest(step) && Carries(s.tasks[step.t].stage, result, held)
    requires !step.Report? && SandboxCurrent(s.slots, s.tasks[step.t].cred)
    ensures Carries(TaskAfter(s, step).stage, result, held) && TaskAfter(s, step).cred == s.tasks[step.t].cred
  {
  }

  /** What the kernel returned reaches the report, while releases are safe. */
  lemma {:induction false} ResultArrives(trace: seq<State>, steps: seq<Step>, b: nat, n: nat, t: TaskId, result: Option<Mount>)
    requires IsRun(trace, steps) && b < n <= |steps| && SafeReleases(trace, steps, n) && steps[b] == MountDone(t, result)
    requires forall j :: b < j < n ==> steps[j] != Report(t)
    ensures t < |trace[b].tasks| && trace[b].tasks[t].stage.Mounting? && t < |trace[n].tasks|
    ensures Carries(trace[n].tasks[t].stage, result, trace[b].tasks[t].stage.held)
    ensures trace[n].tasks[t].cred == trace[b].tasks[t].cred
    decreases n
  {
    TasksAt(trace, steps, n - 1);
    if n - 1 == b {
      ResultStarts(trace[b], t, result);
      TaskKept(trace[b], steps[b], t);
    } else {
      ResultArrives(trace, steps, b, n - 1, t, result);
      ResultNext(trace, steps, n - 1, t, result, trace[b].tasks[t].stage.held);
    }
  }

  lemma CallerIsCurrent(trace: seq<State>, steps: seq<Step>, n: nat, t: TaskId)
    requires IsRun(trace, steps) && n <= |steps| && SafeReleases(trace, steps, n) && t < |trace[n].tasks|
    requires trace[n].tasks[t].stage.Returning? || trace[n].tasks[t].stage.Reporting?
    ensures SandboxCurrent(trace[n].slots, trace[n].tasks[t].cred)
  {
    RecognisedRun(trace, steps, n);
    assert TaskOk(trace[n].tasks[t]) && ShapeOk(trace[n].tasks[t]);
    CurrentIfRetained(trace[n], t);
  }

  lemma ResultNext(trace: seq<State>, steps: seq<Step>, n: nat, t: TaskId, result: Option<Mount>, held: bool)
    requires IsRun(trace, steps) && n < |steps| && SafeReleases(trace, steps, n) && steps[n] != Report(t)
    requires t < |trace[n].tasks| && Carries(trace[n].tasks[t].stage, result, held)
    ensures t < |trace[n + 1].tasks| && Carries(trace[n + 1].tasks[t].stage, result, held)
    ensures trace[n + 1].tasks[t].cred == trace[n].tasks[t].cred
  {
    TasksAt(trace, steps, n);
    CallerIsCurrent(trace, steps, n, t);
    if OfRequest(steps[n]) || steps[n].Fork? || steps[n].t != t {
      OthersPassNothing(trace[n], steps[n], t);
    } else {
      ResultKept(trace[n], steps[n], result, held);
    }
  }

  /** The report of a call that owns a record: a mount is then tracked, and a failure gives count and bytes back. */
  lemma ReportSettles(slots: seq<Slot>, uid: nat, t: TaskId, result: Option<Mount>)
    requires TableOk(slots) && FindReady(slots, uid) < |slots| && t in Owners(slots[FindReady(slots, uid)])
    ensures var (after, left) := MountResult(slots, uid, t, result);
            var k := FindReady(slots, uid);
            && left == None && |after| == |slots|
            && (result.Some? ==> MountIsTracked(after, uid, result.value))
            && (result.None? ==> after[k].mountCount == slots[k].mountCount - 1 && after[k].tmpfsBytes <= slots[k].tmpfsBytes)
  {
    MountResultOutcome(slots, uid, t, result);
    UidCases(slots, uid);
    var k := FindReady(slots, uid);
    assert SlotOk(slots[k]);
    OwnerFound(slots[k], t);
    var after := MountResult(slots, uid, t, result).0;
    var j := FirstIndex(slots[k].mounts.value, PendingOf(t));
    UidCases(after, uid);
    assert after[k].inUse && after[k].ready && after[k].uid == uid;
    if result.Some? {
      assert TrackedAt(result.value)(after[k].mounts.value[j]);
    }
  }

  /**
   A mount that succeeds ends tracked: while releases are safe and comparisons honest, whatever the kernel returned is in
   the ledger after the report, if the UID still has a ready slot then, and can be unmounted again.
   */
  lemma MountEndsTracked(trace: seq<State>, steps: seq<Step>, b: nat, n: nat, t: TaskId, m: Mount)
    requires IsRun(trace, steps) && b < n < |steps| && SafeReleases(trace, steps, n) && HonestCompares(trace, steps, n)
    requires steps[b] == MountDone(t, Some(m)) && steps[n] == Report(t) && forall j :: b < j < n ==> steps[j] != Report(t)
    ensures t < |trace[n].tasks|
    ensures var uid := trace[n].tasks[t].cred.fsuid;
            FindReady(trace[n].slots, uid) < |trace[n].slots| ==> MountIsTracked(trace[n + 1].slots, uid, m)
  {
    ResultArrives(trace, steps, b, n, t, Some(m));
    HeldWhenActing(trace, steps, b, t);
    HonestUpTo(trace, steps, n);
    AccountedRun(trace, steps, n);
    OwnsIfHolding(trace[n], t);
    var uid := trace[n].tasks[t].cred.fsuid;
    if FindReady(trace[n].slots, uid) < |trace[n].slots| {
      ReportSettles(trace[n].slots, uid, t, Some(m));
      ReportedSlots(trace, steps, n, t);
    }
  }

  lemma HeldWhenActing(trace: seq<State>, steps: seq<Step>, b: nat, t: TaskId)
    requires IsRun(trace, steps) && b < |steps| && SafeReleases(trace, steps, b)
    requires t < |trace[b].tasks| && trace[b].tasks[t].stage.Mounting?
    ensures trace[b].tasks[t].stage.held
  {
    var c, kind := ActsAfterAllChecks(trace, steps, b, t);
  }

  lemma ReportedSlots(trace: seq<State>, steps: seq<Step>, n: nat, t: TaskId)
    requires IsRun(trace, steps) && n < |steps| && steps[n] == Report(t)
    ensures t < |trace[n].tasks| && trace[n].tasks[t].stage.Reporting?
    ensures trace[n + 1].slots == MountResult(trace[n].slots, trace[n].tasks[t].cred.fsuid, t, trace[n].tasks[t].stage.mnt).0
  {
    assert StepOk(trace, steps, n);
  }

  // ----- what is tracked -----

  ghost predicate Tracks(slot: Slot, m: Mount) {
    slot.mounts.Some? && exists j :: 0 <= j < |slot.mounts.value| && TrackedAt(m)(slot.mounts.value[j])
  }

  lemma TrackedIff(slots: seq<Slot>, uid: nat, k: nat, m: Mount)
    requires k == FindReady(slots, uid) < |slots|
    ensures MountIsTracked(slots, uid, m) <==> Tracks(slots[k], m)
  {
    if slots[k].mounts.Some? {
      var ms := slots[k].mounts.value;
      var j := FirstIndex(ms, TrackedAt(m));
      if j < |ms| { assert TrackedAt(m)(ms[j]); }
    }
  }

  lemma UpdateKeepsTracked(slot: Slot, after: Slot, j: nat, r: Record, m: Mount)
    requires Tracks(slot, m) && j < |slot.mounts.value| && !TrackedAt(m)(slot.mounts.value[j])
    requires after.mounts == Some(slot.mounts.value[j := r])
    ensures Tracks(after, m)
  {
    var i :| 0 <= i < |slot.mounts.value| && TrackedAt(m)(slot.mounts.value[i]);
    assert TrackedAt(m)(after.mounts.value[i]);
  }

  lemma ReserveKeepsTracked(slots: seq<Slot>, uid: nat, t: TaskId, bytes: nat, k: nat, m: Mount)
    requires TableOk(slots) && k < |slots| && Tracks(slots[k], m)
    ensures var after := MountReserve(slots, uid, t, bytes).0; k < |after| && Tracks(after[k], m)
  {
    MountReserveOutcome(slots, uid, t, bytes);
    var (after, error) := MountReserve(slots, uid, t, bytes);
    if error.None? && k == FindReady(slots, uid) {
      var j := FirstIndex(slots[k].mounts.value, IsFree());
      assert IsFree()(slots[k].mounts.value[j]);
      UpdateKeepsTracked(slots[k], after[k], j, Record(Pending, Some(t), None, bytes), m);
    }
  }

  lemma ReportKeepsTracked(slots: seq<Slot>, uid: nat, t: TaskId, mnt: Option<Mount>, k: nat, m: Mount)
    requires TableOk(slots) && k < |slots| && Tracks(slots[k], m)
    ensures var after := MountResult(slots, uid, t, mnt).0; k < |after| && Tracks(after[k], m)
  {
    MountResultOutcome(slots, uid, t, mnt);
    UidCases(slots, uid);
    var after := MountResult(slots, uid, t, mnt).0;
    assert SlotOk(slots[k]);
    if k == FindReady(slots, uid) && FirstIndex(slots[k].mounts.value, PendingOf(t)) < MaxMounts {
      var j := FirstIndex(slots[k].mounts.value, PendingOf(t));
      UpdateKeepsTracked(slots[k], after[k], j, after[k].mounts.value[j], m);
    }
  }

  lemma UmountKeepsTracked(slots: seq<Slot>, uid: nat, target: Mount, k: nat, m: Mount)
    requires TableOk(slots) && k < |slots| && Tracks(slots[k], m) && (slots[k].uid == uid ==> target != m)
    ensures var after := UmountResult(slots, uid, target).0; k < |after| && Tracks(after[k], m)
  {
    UmountResultOutcome(slots, uid, target);
    UidCases(slots, uid);
    var after := UmountResult(slots, uid, target).0;
    if k == FindReady(slots, uid) && MountIsTracked(slots, uid, target) {
      var j := FirstIndex(slots[k].mounts.value, TrackedAt(target));
      UpdateKeepsTracked(slots[k], after[k], j, FreeRecord, m);
    }
  }

  lemma SlotKeepsTracked(s: State, step: Step, k: nat, m: Mount)
    requires Enabled(s, step) && Accounted(s) && k < |s.slots| == |SlotsAfter(s, step)| && Tracks(s.slots[k], m)
    requires SlotsAfter(s, step)[k].inUse && SlotsAfter(s, step)[k].ready && s.slots[k].inUse && s.slots[k].ready
    requires step.Umount? && s.tasks[step.t].cred.fsuid == s.slots[k].uid ==> step.target != m
    ensures Tracks(SlotsAfter(s, step)[k], m)
  {
    if step.Reserve? {
      var task := s.tasks[step.t];
      ReserveKeepsTracked(s.slots, task.cred.fsuid, step.t, WantedBytes(task.stage.kind), k, m);
    } else if step.Report? {
      ReportKeepsTracked(s.slots, s.tasks[step.t].cred.fsuid, step.t, s.tasks[step.t].stage.mnt, k, m);
    } else if step.Umount? {
      UmountKeepsTracked(s.slots, s.tasks[step.t].cred.fsuid, step.target, k, m);
    } else {
      OtherOwners(s, step, k);
    }
  }

  /** A tracked mount stays tracked, as long as its UID has a ready slot, until a task of the UID has unmounted it. */
  lemma TrackedStays(s: State, step: Step, uid: nat, m: Mount)
    requires Enabled(s, step) && Accounted(s) && MountIsTracked(s.slots, uid, m)
    requires step.Umount? && s.tasks[step.t].cred.fsuid == uid ==> step.target != m
    ensures FindReady(SlotsAfter(s, step), uid) < |SlotsAfter(s, step)| ==> MountIsTracked(SlotsAfter(s, step), uid, m)
  {
    TableStep(s, step);
    var (after, k) := (SlotsAfter(s, step), FindReady(s.slots, uid));
    UidCases(s.slots, uid);
    UidCases(after, uid);
    var j := FindReady(after, uid);
    if j < |after| {
      ReadyBefore(s, step, j);
      assert j == k;
      TrackedIff(s.slots, uid, k, m);
      SlotKeepsTracked(s, step, k, m);
      TrackedIff(after, uid, k, m);
    }
  }
}
