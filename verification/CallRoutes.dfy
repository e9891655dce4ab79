/**
 The order of checks: a sandboxed mount or unmount reaches the kernel's own action only after each check of its kind has
 passed, once and in order; which answer passes a check; and what becomes of the result.
 */
module CallRoutes {
  import opened Sequences
  import opened SlotTable
  import opened SlotTableFacts
  import opened Credentials
  import opened SandboxSystem
  import opened EntryAccounting
  import opened Revocation

  /** A comparison of namespaces, a look into the ledger, or a reservation in it. */
  datatype Gate = Compare(at: Check) | Track(target: Mount, at: Check) | Book

  /** What the patched kernel and the hooks ask of each kind of call, in order. */
  function Route(kind: MountKind): seq<Gate> {
    match kind
    case Tmpfs(_) => [Compare(AtSbMount), Book, Compare(AtMayMount)]
    case Bind => [Compare(AtSbMount), Compare(AtMayMount), Compare(AtBind), Book]
    case Unmount(m) => [Compare(AtUmount), Track(m, AtUmount), Compare(AtCanUmount), Compare(AtSbUmount), Track(m, AtSbUmount)]
  }

  /** The checks are under way, or all done and the kernel acts. */
  predicate InCall(stage: Stage) {
    stage.AskNs? || stage.HoldNs? || stage.Reserving? || stage.Tracking? || Acting(stage)
  }

  predicate Acting(stage: Stage) { stage.Mounting? || stage.Unmounting? }

  predicate GateAt(kind: MountKind, i: nat, gate: Gate) { i < |Route(kind)| && Route(kind)[i] == gate }

  /** A call of this kind is at this stage when it has passed the first `i` gates of its route. */
  predicate Placed(stage: Stage, kind: MountKind, i: nat) {
    match stage
    case AskNs(k, at) => k == kind && GateAt(kind, i, Compare(at))
    case HoldNs(k, at, _) => k == kind && GateAt(kind, i, Compare(at))
    case Reserving(k) => k == kind && GateAt(kind, i, Book)
    case Tracking(target, at) => kind == Unmount(target) && GateAt(kind, i, Track(target, at))
    case Mounting(held) => held && !kind.Unmount? && i == |Route(kind)|
    case Unmounting(target) => kind == Unmount(target) && i == |Route(kind)|
    case _ => false
  }

  /**
   The gate a step of a task passes: its comparison did not fail and found the caller's own namespace, or a privilege check
   was met by the caller's own capabilities; its mount is tracked; its reservation is booked.
   */
  ghost function Passes(s: State, step: Step): seq<Gate>
    requires Enabled(s, step)
  {
    match step
    case Privileged(t) => [Compare(s.tasks[t].stage.at)]
    case NsCompare(t, spurious, _) =>
      var task := s.tasks[t];
      if !spurious && task.stage.file.Some? && task.stage.file.value.ns == task.ns then [Compare(task.stage.at)] else []
    case CheckTracked(t) =>
      var Tracking(target, at) := s.tasks[t].stage;
      if MountIsTracked(s.slots, s.tasks[t].cred.fsuid, target) then [Track(target, at)] else []
    case Reserve(t, _) =>
      var task := s.tasks[t];
      if MountReserve(s.slots, task.cred.fsuid, t, WantedBytes(task.stage.kind)).1.None? then [Book] else []
    case _ => []
  }

  /** A question put by a caller that is not recognised. */
  ghost predicate Unrecognised(s: State, step: Step) {
    step.NsLock? && step.t < |s.tasks| && !SandboxCurrent(s.slots, s.tasks[step.t].cred)
  }

  // ----- one step -----

  lemma LockKeepsPlace(s: State, step: Step, kind: MountKind, i: nat)
    requires Enabled(s, step) && step.NsLock? && !Unrecognised(s, step)
    requires Placed(s.tasks[step.t].stage, kind, i) && InCall(TaskAfter(s, step).stage)
    ensures TaskAfter(s, step).stage.HoldNs? && Placed(TaskAfter(s, step).stage, kind, i)
  {
  }

  lemma ComparePasses(s: State, step: Step, kind: MountKind, i: nat)
    requires Enabled(s, step) && (step.NsCompare? || step.Privileged?)
    requires Placed(s.tasks[step.t].stage, kind, i) && InCall(TaskAfter(s, step).stage)
    ensures i < |Route(kind)| && Passes(s, step) == [Route(kind)[i]] && Placed(TaskAfter(s, step).stage, kind, i + 1)
  {
  }

  lemma LedgerPasses(s: State, step: Step, kind: MountKind, i: nat)
    requires Enabled(s, step) && (step.Reserve? || step.CheckTracked?)
    requires Placed(s.tasks[step.t].stage, kind, i) && InCall(TaskAfter(s, step).stage)
    ensures i < |Route(kind)| && Passes(s, step) == [Route(kind)[i]] && Placed(TaskAfter(s, step).stage, kind, i + 1)
  {
  }

  lemma OnlyTheseGoOn(s: State, step: Step)
    requires Enabled(s, step) && !OfRequest(step) && InCall(s.tasks[step.t].stage) && InCall(TaskAfter(s, step).stage)
    ensures step.NsLock? || step.NsCompare? || step.Privileged? || step.Reserve? || step.CheckTracked?
  {
  }

  /** A step of the call passes the next gate of its route, or keeps its place, or leaves the call. */
  lemma GateStep(s: State, step: Step, kind: MountKind, i: nat)
    requires Enabled(s, step) && !OfRequest(step) && !Unrecognised(s, step)
    requires Placed(s.tasks[step.t].stage, kind, i) && InCall(TaskAfter(s, step).stage)
    ensures Passes(s, step) == [] || (i < |Route(kind)| && Passes(s, step) == [Route(kind)[i]])
    ensures Placed(TaskAfter(s, step).stage, kind, i + |Passes(s, step)|)
  {
    OnlyTheseGoOn(s, step);
    if step.NsLock? {
      LockKeepsPlace(s, step, kind, i);
    } else if step.NsCompare? || step.Privileged? {
      ComparePasses(s, step, kind, i);
    } else {
      LedgerPasses(s, step, kind, i);
    }
  }

  /** Which step asks at a gate, and what else the kernel may refuse there. */
  predicate Decides(step: Step) { step.NsCompare? || step.Privileged? || step.Reserve? || step.CheckTracked? }

  predicate KernelAgrees(step: Step, kind: MountKind, gate: Gate) {
    match step
    case NsCompare(_, _, proceed) => gate == Compare(AtMayMount) || proceed
    case Reserve(_, proceed) => kind.Bind? || proceed
    case _ => true
  }

  lemma CompareDecides(s: State, step: Step, kind: MountKind, i: nat)
    requires Enabled(s, step) && step.NsCompare? && Placed(s.tasks[step.t].stage, kind, i)
    ensures InCall(TaskAfter(s, step).stage) <==> Passes(s, step) != [] && KernelAgrees(step, kind, Route(kind)[i])
  {
  }

  lemma OtherDecides(s: State, step: Step, kind: MountKind, i: nat)
    requires Enabled(s, step) && (step.Privileged? || step.Reserve? || step.CheckTracked?)
    requires Placed(s.tasks[step.t].stage, kind, i)
    ensures InCall(TaskAfter(s, step).stage) <==> Passes(s, step) != [] && KernelAgrees(step, kind, Route(kind)[i])
  {
  }

  /** The call goes on if and only if it passes the gate and the kernel has no objection of its own. */
  lemma GateDecides(s: State, step: Step, kind: MountKind, i: nat)
    requires Enabled(s, step) && Decides(step) && Placed(s.tasks[step.t].stage, kind, i)
    ensures i < |Route(kind)|
    ensures InCall(TaskAfter(s, step).stage) <==> Passes(s, step) != [] && KernelAgrees(step, kind, Route(kind)[i])
  {
    if step.NsCompare? {
      CompareDecides(s, step, kind, i);
    } else {
      OtherDecides(s, step, kind, i);
    }
  }

  /** A recognised caller is asked to compare whenever its UID has a ready slot, with the file of that slot. */
  lemma QuestionIsPut(s: State, step: Step)
    requires Enabled(s, step) && step.NsLock? && !Unrecognised(s, step) && TableOk(s.slots)
    ensures var (k, task) := (FindReady(s.slots, s.tasks[step.t].cred.fsuid), s.tasks[step.t]);
            if k < |s.slots| then
              s.slots[k].file.Some? && TaskAfter(s, step).stage == HoldNs(task.stage.kind, task.stage.at, s.slots[k].file)
            else
              !InCall(TaskAfter(s, step).stage)
  {
    UidCases(s.slots, s.tasks[step.t].cred.fsuid);
    var k := FindReady(s.slots, s.tasks[step.t].cred.fsuid);
    if k < |s.slots| { assert SlotOk(s.slots[k]); }
  }

  /**
   Where a refused mount or unmount goes: back to the caller, or to the report of a failed mount, which it owes from the
   first hook on except at the privilege check.
   */
  lemma RefusedReports(s: State, step: Step, kind: MountKind, i: nat)
    requires Enabled(s, step) && Decides(step) && Placed(s.tasks[step.t].stage, kind, i) && !InCall(TaskAfter(s, step).stage)
    ensures i < |Route(kind)|
    ensures if kind.Unmount? || Route(kind)[i] == Compare(AtMayMount) then TaskAfter(s, step).stage == User
            else TaskAfter(s, step).stage == Returning(None, kind.Tmpfs? && Passes(s, step) == [Book])
  {
    GateDecides(s, step, kind, i);
  }

  /**
   A caller that is not recognised: the hooks let it pass, with nothing reserved and nothing looked up, and the privilege
   checks refuse it; what it mounts after the first hook is no longer a matter of the module.
   */
  lemma UnrecognisedGoes(s: State, step: Step)
    requires Enabled(s, step) && Unrecognised(s, step)
    ensures var AskNs(kind, at) := s.tasks[step.t].stage;
            var after := TaskAfter(s, step).stage;
            && (PrivilegeCheck(at) || at == AtSbMount ==> after == User)
            && (at == AtBind ==> after == Mounting(false))
            && (at == AtUmount ==> after == AskNs(kind, AtCanUmount))
            && (at == AtSbUmount && kind.Unmount? ==> after == Unmounting(kind.target))
  {
  }

  /** A recognised caller gets to unmount a mount only where its ledger tracks it. */
  lemma UnmountIsTracked(s: State, step: Step, m: Mount)
    requires Enabled(s, step) && !OfRequest(step) && !step.Fork? && SandboxCurrent(s.slots, s.tasks[step.t].cred)
    requires s.tasks[step.t].stage != Unmounting(m) && TaskAfter(s, step).stage == Unmounting(m)
    ensures step.CheckTracked? && s.tasks[step.t].stage == Tracking(m, s.tasks[step.t].stage.at)
    ensures MountIsTracked(s.slots, s.tasks[step.t].cred.fsuid, m)
  {
  }

  /** A reservation is charged to the quota of the UID, a tmpfs with its size and a bind mount with nothing. */
  lemma BookingCharges(s: State, step: Step)
    requires Enabled(s, step) && step.Reserve? && TableOk(s.slots)
    ensures var (kind, uid) := (s.tasks[step.t].stage.kind, s.tasks[step.t].cred.fsuid);
            var (k, after) := (FindReady(s.slots, uid), SlotsAfter(s, step));
            && (Passes(s, step) == [] ==> after == s.slots)
            && (Passes(s, step) != [] ==>
                  && k < |s.slots| == |after|
                  && after[k].mountCount == s.slots[k].mountCount + 1
                  && after[k].tmpfsBytes == s.slots[k].tmpfsBytes + (match kind case Tmpfs(bytes) => bytes case _ => 0)
                  && after[k].tmpfsBytes <= TmpfsLimit)
  {
    var task := s.tasks[step.t];
    MountReserveOutcome(s.slots, task.cred.fsuid, step.t, WantedBytes(task.stage.kind));
  }

  // ----- every run -----

  /** The gates the task has passed from step `b` on, before step `n`. */
  ghost function Passed(trace: seq<State>, steps: seq<Step>, b: nat, n: nat, t: TaskId): seq<Gate>
    requires IsRun(trace, steps) && b <= n <= |steps|
    decreases n
  {
    if n == b then []
    else Passed(trace, steps, b, n - 1, t) + PassedAt(trace, steps, n - 1, t)
  }

  ghost function PassedAt(trace: seq<State>, steps: seq<Step>, i: nat, t: TaskId): seq<Gate>
    requires IsRun(trace, steps) && i < |steps|
  {
    assert StepOk(trace, steps, i);
    if !OfRequest(steps[i]) && steps[i].t == t then Passes(trace[i], steps[i]) else []
  }

  ghost predicate UnrecognisedAt(trace: seq<State>, steps: seq<Step>, i: nat, t: TaskId)
    requires i < |steps| < |trace|
  {
    !OfRequest(steps[i]) && steps[i].t == t && Unrecognised(trace[i], steps[i])
  }

  /** The call began at step `b`, and unless it asked unrecognised since, it has passed the first gates of its route, in order. */
  ghost predicate OnRoute(trace: seq<State>, steps: seq<Step>, b: nat, n: nat, t: TaskId, kind: MountKind, i: nat)
    requires IsRun(trace, steps) && n <= |steps| && t < |trace[n].tasks|
  {
    && b < n && steps[b] == MountBegin(t, kind)
    && ((forall j :: b < j < n ==> !UnrecognisedAt(trace, steps, j, t)) ==>
          Placed(trace[n].tasks[t].stage, kind, i) && i <= |Route(kind)| && Passed(trace, steps, b + 1, n, t) == Route(kind)[..i])
  }

  lemma TaskKept(s: State, step: Step, t: TaskId)
    requires Enabled(s, step) && t < |TasksAfter(s, step)|
    ensures if OfRequest(step) then TasksAfter(s, step) == s.tasks
            else if step.Fork? then if t < |s.tasks| then TasksAfter(s, step)[t] == s.tasks[t]
                                    else TasksAfter(s, step)[t].stage == s.tasks[step.t].stage && s.tasks[step.t].stage.User?
            else t < |s.tasks| && TasksAfter(s, step)[t] == if t == step.t then TaskAfter(s, step) else s.tasks[t]
  {
  }

  lemma OthersPassNothing(s: State, step: Step, t: TaskId)
    requires Enabled(s, step) && t < |s.tasks| && t < |TasksAfter(s, step)|
    requires OfRequest(step) || step.Fork? || step.t != t
    ensures TasksAfter(s, step)[t] == s.tasks[t]
    ensures step.Fork? ==> Passes(s, step) == []
  {
    TaskKept(s, step, t);
  }

  /** Only a call in progress goes on, and only MountBegin starts one. */
  lemma CallBefore(s: State, step: Step)
    requires Enabled(s, step) && !OfRequest(step) && !step.Fork? && InCall(TaskAfter(s, step).stage)
    requires !InCall(s.tasks[step.t].stage)
    ensures step.MountBegin? && Placed(TaskAfter(s, step).stage, step.kind, 0)
  {
  }

  lemma TasksAt(trace: seq<State>, steps: seq<Step>, n: nat)
    requires IsRun(trace, steps) && n < |steps|
    ensures Enabled(trace[n], steps[n]) && trace[n + 1].tasks == TasksAfter(trace[n], steps[n])
  {
    assert StepOk(trace, steps, n);
  }

  lemma OwnGateStep(trace: seq<State>, steps: seq<Step>, n: nat, t: TaskId, kind: MountKind, i: nat)
    requires IsRun(trace, steps) && n < |steps| && t < |trace[n].tasks| && t < |trace[n + 1].tasks|
    requires !OfRequest(steps[n]) && !steps[n].Fork? && steps[n].t == t && !UnrecognisedAt(trace, steps, n, t)
    requires Placed(trace[n].tasks[t].stage, kind, i) && InCall(trace[n + 1].tasks[t].stage)
    ensures Enabled(trace[n], steps[n])
    ensures var passed := Passes(trace[n], steps[n]);
            && (passed == [] || (i < |Route(kind)| && passed == [Route(kind)[i]]))
            && Placed(trace[n + 1].tasks[t].stage, kind, i + |passed|)
  {
    TasksAt(trace, steps, n);
    TaskKept(trace[n], steps[n], t);
    GateStep(trace[n], steps[n], kind, i);
  }

  lemma TakenFurther(route: seq<Gate>, i: nat, passed: seq<Gate>)
    requires i <= |route| && (passed == [] || (i < |route| && passed == [route[i]]))
    ensures i + |passed| <= |route| && route[..i] + passed == route[..i + |passed|]
  {
  }

  lemma OwnPassed(trace: seq<State>, steps: seq<Step>, b: nat, n: nat, t: TaskId)
    requires IsRun(trace, steps) && b <= n < |steps| && !OfRequest(steps[n]) && steps[n].t == t
    ensures Enabled(trace[n], steps[n])
    ensures Passed(trace, steps, b, n + 1, t) == Passed(trace, steps, b, n, t) + Passes(trace[n], steps[n])
  {
    TasksAt(trace, steps, n);
  }

  lemma OwnRouteNext(trace: seq<State>, steps: seq<Step>, b: nat, n: nat, t: TaskId, kind: MountKind, i: nat) returns (j: nat)
    requires IsRun(trace, steps) && n < |steps| && t < |trace[n].tasks| && t < |trace[n + 1].tasks|
    requires OnRoute(trace, steps, b, n, t, kind, i) && InCall(trace[n + 1].tasks[t].stage)
    requires !OfRequest(steps[n]) && !steps[n].Fork? && steps[n].t == t
    requires forall k :: b < k < n + 1 ==> !UnrecognisedAt(trace, steps, k, t)
    ensures OnRoute(trace, steps, b, n + 1, t, kind, j)
  {
    OwnGateStep(trace, steps, n, t, kind, i);
    OwnPassed(trace, steps, b + 1, n, t);
    j := i + |Passes(trace[n], steps[n])|;
    TakenFurther(Route(kind), i, Passes(trace[n], steps[n]));
  }

  lemma OtherRouteNext(trace: seq<State>, steps: seq<Step>, b: nat, n: nat, t: TaskId, kind: MountKind, i: nat)
    requires IsRun(trace, steps) && n < |steps| && t < |trace[n].tasks| && t < |trace[n + 1].tasks|
    requires OnRoute(trace, steps, b, n, t, kind, i)
    requires OfRequest(steps[n]) || steps[n].Fork? || steps[n].t != t
    ensures OnRoute(trace, steps, b, n + 1, t, kind, i)
  {
    TasksAt(trace, steps, n);
    OthersPassNothing(trace[n], steps[n], t);
    assert PassedAt(trace, steps, n, t) == [];
    assert (forall k :: b < k < n + 1 ==> !UnrecognisedAt(trace, steps, k, t)) ==>
             forall k :: b < k < n ==> !UnrecognisedAt(trace, steps, k, t);
  }

  lemma RouteNext(trace: seq<State>, steps: seq<Step>, b: nat, n: nat, t: TaskId, kind: MountKind, i: nat) returns (j: nat)
    requires IsRun(trace, steps) && n < |steps| && t < |trace[n].tasks| && t < |trace[n + 1].tasks|
    requires OnRoute(trace, steps, b, n, t, kind, i) && InCall(trace[n + 1].tasks[t].stage)
    ensures OnRoute(trace, steps, b, n + 1, t, kind, j)
  {
    j := i;
    if OfRequest(steps[n]) || steps[n].Fork? || steps[n].t != t {
      OtherRouteNext(trace, steps, b, n, t, kind, i);
    } else if forall k :: b < k < n + 1 ==> !UnrecognisedAt(trace, steps, k, t) {
      j := OwnRouteNext(trace, steps, b, n, t, kind, i);
    }
  }

  lemma RouteStart(trace: seq<State>, steps: seq<Step>, n: nat, t: TaskId)
    requires IsRun(trace, steps) && n < |steps| && t < |trace[n + 1].tasks| && InCall(trace[n + 1].tasks[t].stage)
    requires t >= |trace[n].tasks| || !InCall(trace[n].tasks[t].stage)
    ensures steps[n].MountBegin? && OnRoute(trace, steps, n, n + 1, t, steps[n].kind, 0)
  {
    TasksAt(trace, steps, n);
    TaskKept(trace[n], steps[n], t);
    CallBefore(trace[n], steps[n]);
  }

  lemma NobodyCallsAtFirst(s: State, t: TaskId)
    requires Init(s) && t < |s.tasks|
    ensures !InCall(s.tasks[t].stage)
  {
  }

  /**
   In every run: a call in progress has begun, and unless its caller has asked unrecognised since, it has passed exactly
   the gates of its route before the one it is at, once and in order; all of them, when the kernel acts.
   */
  lemma {:induction false} CallsFollowRoute(trace: seq<State>, steps: seq<Step>, n: nat, t: TaskId)
    returns (b: nat, kind: MountKind, i: nat)
    requires IsRun(trace, steps) && n <= |steps| && t < |trace[n].tasks| && InCall(trace[n].tasks[t].stage)
    ensures OnRoute(trace, steps, b, n, t, kind, i)
  {
    if n == 0 {
      NobodyCallsAtFirst(trace[0], t);
    } else if t < |trace[n - 1].tasks| && InCall(trace[n - 1].tasks[t].stage) {
      b, kind, i := CallsFollowRoute(trace, steps, n - 1, t);
      i := RouteNext(trace, steps, b, n - 1, t, kind, i);
    } else {
      RouteStart(trace, steps, n - 1, t);
      b, kind, i := n - 1, steps[n - 1].kind, 0;
    }
  }

  lemma PassedOnce(trace: seq<State>, steps: seq<Step>, i: nat, t: TaskId)
    requires IsRun(trace, steps) && i < |steps|
    ensures |PassedAt(trace, steps, i, t)| <= 1
  {
  }

  lemma LastOf(front: seq<Gate>, last: seq<Gate>, p: nat)
    requires |last| <= 1 && |front| <= p < |front + last|
    ensures p == |front| && last == [(front + last)[p]]
  {
  }

  /** A gate that has been passed was passed at some step, in the state before it. */
  lemma {:induction false} PassedSomewhere(trace: seq<State>, steps: seq<Step>, b: nat, n: nat, t: TaskId, p: nat)
    returns (j: nat)
    requires IsRun(trace, steps) && b <= n <= |steps| && p < |Passed(trace, steps, b, n, t)|
    ensures b <= j < n && PassedAt(trace, steps, j, t) == [Passed(trace, steps, b, n, t)[p]]
    ensures |Passed(trace, steps, b, j, t)| == p
    decreases n
  {
    if p < |Passed(trace, steps, b, n - 1, t)| {
      j := PassedSomewhere(trace, steps, b, n - 1, t, p);
    } else {
      PassedOnce(trace, steps, n - 1, t);
      j := n - 1;
      LastOf(Passed(trace, steps, b, j, t), PassedAt(trace, steps, j, t), p);
    }
  }

  lemma SafelyRecognised(trace: seq<State>, steps: seq<Step>, j: nat, t: TaskId)
    requires IsRun(trace, steps) && j < |steps| && SafeReleases(trace, steps, j)
    ensures !UnrecognisedAt(trace, steps, j, t)
  {
    RecognisedRun(trace, steps, j);
    TasksAt(trace, steps, j);
    if UnrecognisedAt(trace, steps, j, t) {
      assert TaskOk(trace[j].tasks[t]) && ShapeOk(trace[j].tasks[t]);
      CurrentIfRetained(trace[j], t);
    }
  }

  /**
   While releases are safe, the kernel acts only for a call that has passed every gate of its route since it began: each at
   a step of its own, in order.
   */
  lemma ActsAfterAllChecks(trace: seq<State>, steps: seq<Step>, n: nat, t: TaskId) returns (b: nat, kind: MountKind)
    requires IsRun(trace, steps) && n <= |steps| && SafeReleases(trace, steps, n)
    requires t < |trace[n].tasks| && Acting(trace[n].tasks[t].stage)
    ensures b < n && steps[b] == MountBegin(t, kind) && Passed(trace, steps, b + 1, n, t) == Route(kind)
    ensures trace[n].tasks[t].stage.Mounting? ==> trace[n].tasks[t].stage.held
    ensures if trace[n].tasks[t].stage.Unmounting? then kind == Unmount(trace[n].tasks[t].stage.target) else !kind.Unmount?
  {
    var i;
    b, kind, i := CallsFollowRoute(trace, steps, n, t);
    forall j | b < j < n ensures !UnrecognisedAt(trace, steps, j, t) {
      assert SafeReleases(trace, steps, j) by {
        forall k | 0 <= k < j ensures SafeAt(trace, steps, k) {}
      }
      SafelyRecognised(trace, steps, j, t);
    }
    assert Route(kind)[..|Route(kind)|] == Route(kind);
  }

  lemma {:induction false} PassedGrows(trace: seq<State>, steps: seq<Step>, b: nat, n: nat, m: nat, t: TaskId)
    requires IsRun(trace, steps) && b <= n <= m <= |steps|
    ensures |Passed(trace, steps, b, n, t)| <= |Passed(trace, steps, b, m, t)|
    decreases m
  {
    if n < m { PassedGrows(trace, steps, b, n, m - 1, t); }
  }

  /** The caller is in the namespace of the file it took, and the comparison found it so. */
  ghost predicate ComparedAt(s: State, step: Step, t: TaskId, at: Check) {
    && step.NsCompare? && step.t == t < |s.tasks| && !step.spurious
    && var task := s.tasks[t];
       task.stage.HoldNs? && task.stage.at == at && task.stage.file.Some? && task.stage.file.value.ns == task.ns
  }

  ghost predicate FoundTracked(s: State, step: Step, t: TaskId, target: Mount) {
    step == CheckTracked(t) && t < |s.tasks| && MountIsTracked(s.slots, s.tasks[t].cred.fsuid, target)
  }

  lemma CompareGate(trace: seq<State>, steps: seq<Step>, i: nat, t: TaskId, at: Check)
    requires IsRun(trace, steps) && i < |steps| && PassedAt(trace, steps, i, t) == [Compare(at)] && !PrivilegeCheck(at)
    ensures ComparedAt(trace[i], steps[i], t, at)
  {
    TasksAt(trace, steps, i);
  }

  lemma TrackGate(trace: seq<State>, steps: seq<Step>, i: nat, t: TaskId, target: Mount, at: Check)
    requires IsRun(trace, steps) && i < |steps| && PassedAt(trace, steps, i, t) == [Track(target, at)]
    ensures FoundTracked(trace[i], steps[i], t, target)
  {
    TasksAt(trace, steps, i);
  }

  /** A sandboxed task mounts only after the first hook has found it in the namespace of the file it took. */
  lemma MountsOnlyCompared(trace: seq<State>, steps: seq<Step>, n: nat, t: TaskId) returns (c: nat)
    requires IsRun(trace, steps) && n <= |steps| && SafeReleases(trace, steps, n)
    requires t < |trace[n].tasks| && trace[n].tasks[t].stage.Mounting?
    ensures c < n && ComparedAt(trace[c], steps[c], t, AtSbMount)
  {
    var b, kind := ActsAfterAllChecks(trace, steps, n, t);
    c := PassedSomewhere(trace, steps, b + 1, n, t, 0);
    CompareGate(trace, steps, c, t, AtSbMount);
  }

  /**
   So a sandboxed task unmounts only what its own ledger tracked when it was last asked, after a comparison that found it
   in the namespace of its UID.
   */
  lemma UnmountsOnlyTracked(trace: seq<State>, steps: seq<Step>, n: nat, t: TaskId) returns (c: nat, j: nat)
    requires IsRun(trace, steps) && n <= |steps| && SafeReleases(trace, steps, n)
    requires t < |trace[n].tasks| && trace[n].tasks[t].stage.Unmounting?
    ensures c < j < n && ComparedAt(trace[c], steps[c], t, AtSbUmount)
    ensures FoundTracked(trace[j], steps[j], t, trace[n].tasks[t].stage.target)
  {
    var b, kind := ActsAfterAllChecks(trace, steps, n, t);
    c := PassedSomewhere(trace, steps, b + 1, n, t, 3);
    j := PassedSomewhere(trace, steps, b + 1, n, t, 4);
    CompareGate(trace, steps, c, t, AtSbUmount);
    TrackGate(trace, steps, j, t, kind.target, AtSbUmount);
    if j <= c { PassedGrows(trace, steps, b + 1, j, c, t); }
  }
}
