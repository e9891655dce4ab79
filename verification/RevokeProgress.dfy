/**
 How a revocation goes on and ends: at most 51 worker runs, meanwhile a UID that stays shut, and what freeing or
 keeping its slots leaves behind. Only the last needs a hypothesis on the run.
 */
module RevokeProgress {
  import opened Sequences
  import opened SlotTable
  import opened SlotTableFacts
  import opened SandboxSystem
  import opened EntryAccounting
  import opened Revocation

  const MaxRuns: nat := RevokeRetries + 1

  /** Steps one worker run can take, and one more to requeue. */
  const RunLength: nat := 2 * MaxInstances + 8

  /** Each run counts one retry, so the run counter is tied to the retries left. */
  ghost predicate Paced(req: Request) {
    match req.phase
    case Queued => req.queued && req.runs == req.retries <= RevokeRetries
    case Freed => req.queued && 1 <= req.runs <= MaxRuns && req.runs == req.retries + 1
    case Kept => if req.queued then req.runs == req.retries == MaxRuns else req.runs == 0 && req.retries == 0
    case _ => if req.queued then req.runs == req.retries + 1 && req.retries <= RevokeRetries else req.runs == 0 && req.retries == 0
  }

  function PhaseRank(phase: Phase): int {
    match phase
    case Queued => 2 * MaxInstances + 6
    case Detaching(next) => 2 * (MaxInstances - next) + 5
    case Letting(at, _, _) => 2 * (MaxInstances - at) + 4
    case Checking => 4
    case Scanning => 3
    case Releasing => 2
    case Freed => 0
    case Kept => 0
  }

  /** What is left for the request to do. */
  function Measure(req: Request): int {
    if !Active(req) then 0 else (RevokeRetries - req.retries) * RunLength + PhaseRank(req.phase)
  }

  lemma PacedStep(s: State, step: Step)
    requires Enabled(s, step) && OfRequest(step) && (step.Revoke? || Paced(s.requests[step.r]))
    requires |s.slots| == MaxInstances && (step.Revoke? || PhaseOk(s.requests[step.r]))
    ensures Paced(RequestAfter(s, step))
    ensures 0 <= Measure(RequestAfter(s, step)) <= MaxRuns * RunLength
  {
    var after := RequestAfter(s, step);
    assert PhaseOk(after) by { RequestAfterOk(s, step); }
    assert Active(after) ==> 0 <= PhaseRank(after.phase) <= RunLength;
  }

  /** Every step of a request brings its end nearer. */
  lemma MeasureFalls(s: State, step: Step)
    requires Enabled(s, step) && OfRequest(step) && !step.Revoke? && |s.slots| == MaxInstances
    requires Paced(s.requests[step.r]) && PhaseOk(s.requests[step.r])
    ensures Measure(RequestAfter(s, step)) < Measure(s.requests[step.r])
  {
  }

  /** An unfinished request can always take its next step. */
  lemma NeverStuck(s: State, r: nat)
    requires r < |s.requests| && Active(s.requests[r])
    ensures exists step :: Enabled(s, step) && OfRequest(step) && !step.Revoke? && step.r == r
  {
    match s.requests[r].phase {
      case Queued => assert Enabled(s, StartRun(r));
      case Detaching(next) =>
        if next < |s.slots| { assert Enabled(s, DetachNext(r)); } else { assert Enabled(s, DetachDone(r)); }
      case Letting(_, _, _) => assert Enabled(s, LetGo(r));
      case Checking => assert Enabled(s, CheckBusy(r));
      case Scanning => assert Enabled(s, Scan(r));
      case Releasing => assert Enabled(s, Release(r));
    }
  }

  predicate StepOf(step: Step, r: nat) { OfRequest(step) && !step.Revoke? && step.r == r }

  function StepsOf(steps: seq<Step>, r: nat): nat {
    if steps == [] then 0 else StepsOf(steps[..|steps| - 1], r) + if StepOf(steps[|steps| - 1], r) then 1 else 0
  }

  ghost predicate RequestOk(req: Request) {
    Paced(req) && PhaseOk(req) && 0 <= Measure(req) <= MaxRuns * RunLength && req.runs <= MaxRuns
  }

  lemma RequestsKept(s: State, step: Step)
    requires Enabled(s, step)
    ensures |s.requests| <= |RequestsAfter(s, step)|
  {
  }

  /** One step, seen from one request. */
  lemma RequestNext(s: State, step: Step, r: nat)
    requires Enabled(s, step) && |s.slots| == MaxInstances && r < |Apply(s, step).requests|
    requires r < |s.requests| ==> RequestOk(s.requests[r])
    ensures |s.requests| <= |Apply(s, step).requests|
    ensures RequestOk(Apply(s, step).requests[r])
    ensures r < |s.requests| ==>
              Measure(Apply(s, step).requests[r]) + (if StepOf(step, r) then 1 else 0) <= Measure(s.requests[r])
  {
    if StepOf(step, r) || r == |s.requests| {
      PacedStep(s, step);
      RequestAfterOk(s, step);
      if r < |s.requests| { MeasureFalls(s, step); }
      assert Apply(s, step).requests[r] == RequestAfter(s, step);
    } else {
      assert Apply(s, step).requests[r] == s.requests[r];
    }
  }

  lemma StepAt(trace: seq<State>, steps: seq<Step>, i: nat)
    requires IsRun(trace, steps) && i < |steps|
    ensures Enabled(trace[i], steps[i]) && trace[i + 1] == Apply(trace[i], steps[i]) && |trace[i].slots| == MaxInstances
  {
    AccountedRun(trace, steps, i);
    assert StepOk(trace, steps, i);
  }

  lemma StepGrows(trace: seq<State>, steps: seq<Step>, i: nat)
    requires IsRun(trace, steps) && i < |steps|
    ensures |trace[i].requests| <= |trace[i + 1].requests|
  {
    assert StepOk(trace, steps, i);
    RequestsKept(trace[i], steps[i]);
  }

  lemma {:induction false} RequestsGrow(trace: seq<State>, steps: seq<Step>, n: nat, m: nat)
    requires IsRun(trace, steps) && n <= m < |trace|
    ensures |trace[n].requests| <= |trace[m].requests|
    decreases m
  {
    if n < m {
      RequestsGrow(trace, steps, n, m - 1);
      StepGrows(trace, steps, m - 1);
    }
  }

  lemma {:induction false} RequestRun(trace: seq<State>, steps: seq<Step>, n: nat, r: nat)
    requires IsRun(trace, steps) && n < |trace| && r < |trace[n].requests|
    ensures RequestOk(trace[n].requests[r])
  {
    if n > 0 {
      StepAt(trace, steps, n - 1);
      if r < |trace[n - 1].requests| { RequestRun(trace, steps, n - 1, r); }
      RequestNext(trace[n - 1], steps[n - 1], r);
    }
  }

  /**
   In any run a request takes no more steps than its measure, hence at most `MaxRuns * RunLength` in its
   life, and its worker starts at most 51 times.
   */
  lemma {:induction false} RevocationIsBounded(trace: seq<State>, steps: seq<Step>, n: nat, m: nat, r: nat)
    requires IsRun(trace, steps) && n <= m < |trace| && r < |trace[n].requests|
    ensures r < |trace[m].requests|
    ensures StepsOf(steps[n..m], r) + Measure(trace[m].requests[r]) <= Measure(trace[n].requests[r]) <= MaxRuns * RunLength
    ensures 0 <= Measure(trace[m].requests[r]) && trace[m].requests[r].runs <= 51
    decreases m
  {
    RequestRun(trace, steps, n, r);
    RequestsGrow(trace, steps, n, m);
    RequestRun(trace, steps, m, r);
    if n < m {
      RevocationIsBounded(trace, steps, n, m - 1, r);
      StepAt(trace, steps, m - 1);
      RequestRun(trace, steps, m - 1, r);
      RequestNext(trace[m - 1], steps[m - 1], r);
      assert steps[n..m][..m - 1 - n] == steps[n..m - 1];
    }
  }

  /** So a request that has taken as many steps of its own as its measure was has ended, in any run. */
  lemma RevocationEnds(trace: seq<State>, steps: seq<Step>, n: nat, m: nat, r: nat)
    requires IsRun(trace, steps) && n <= m < |trace| && r < |trace[n].requests|
    requires StepsOf(steps[n..m], r) >= Measure(trace[n].requests[r])
    ensures r < |trace[m].requests| && !Active(trace[m].requests[r])
  {
    RevocationIsBounded(trace, steps, n, m, r);
    RequestRun(trace, steps, m, r);
    if Active(trace[m].requests[r]) { PositiveMeasure(trace[m].requests[r]); }
  }

  // ----- when the worker gives up -----

  /** The step ends a worker run because it met somebody: an entry in progress, or a task to kill. */
  ghost predicate Obstructed(s: State, step: Step, r: nat) {
    && r < |s.requests| && s.requests[r].queued
    && ((step == CheckBusy(r) && HasEntrants(s.slots, s.requests[r].uid)) ||
        (step == Scan(r) && AnyKillable(s, s.requests[r].uid)))
  }

  /** How often that has happened to the request. */
  ghost function Obstructions(trace: seq<State>, steps: seq<Step>, n: nat, r: nat): nat
    requires n <= |steps| < |trace|
  {
    if n == 0 then 0
    else Obstructions(trace, steps, n - 1, r) + if Obstructed(trace[n - 1], steps[n - 1], r) then 1 else 0
  }

  /**
   What a run of the worker leads to: with somebody met it is queued again as long as it has used at most 50 runs, and
   given up at the 51st; with nobody met it goes on to free the slots.
   */
  lemma WorkerDecides(s: State, step: Step)
    requires Enabled(s, step) && (step.CheckBusy? || step.Scan?) && s.requests[step.r].queued && Paced(s.requests[step.r])
    ensures var (before, after) := (s.requests[step.r], RequestAfter(s, step));
            && after.uid == before.uid && after.queued && after.runs == before.runs
            && (Obstructed(s, step, step.r) && before.runs <= RevokeRetries ==> after.phase.Queued?)
            && (Obstructed(s, step, step.r) && before.runs > RevokeRetries ==> after.phase.Kept?)
            && (!Obstructed(s, step, step.r) ==> after.phase == if step.CheckBusy? then Scanning else Releasing)
  {
  }

  lemma RetriesStep(s: State, step: Step, r: nat)
    requires Enabled(s, step) && r < |RequestsAfter(s, step)| && (r < |s.requests| ==> Paced(s.requests[r]))
    ensures r >= |s.requests| ==> RequestsAfter(s, step)[r].retries == 0
    ensures r < |s.requests| ==> RequestsAfter(s, step)[r].queued == s.requests[r].queued
    ensures r < |s.requests| && s.requests[r].queued ==>
              RequestsAfter(s, step)[r].retries == s.requests[r].retries + if Obstructed(s, step, r) then 1 else 0
  {
  }

  lemma {:induction false} NoObstructionsYet(trace: seq<State>, steps: seq<Step>, n: nat, r: nat)
    requires IsRun(trace, steps) && n < |trace| && r >= |trace[n].requests|
    ensures Obstructions(trace, steps, n, r) == 0
  {
    if n > 0 {
      StepGrows(trace, steps, n - 1);
      NoObstructionsYet(trace, steps, n - 1, r);
    }
  }

  lemma RetriesNext(trace: seq<State>, steps: seq<Step>, n: nat, r: nat)
    requires IsRun(trace, steps) && n < |steps| && r < |trace[n + 1].requests|
    ensures r >= |trace[n].requests| ==> trace[n + 1].requests[r].retries == 0
    ensures r < |trace[n].requests| ==> trace[n + 1].requests[r].queued == trace[n].requests[r].queued
    ensures r < |trace[n].requests| && trace[n].requests[r].queued ==>
              trace[n + 1].requests[r].retries == trace[n].requests[r].retries + if Obstructed(trace[n], steps[n], r) then 1 else 0
  {
    StepAt(trace, steps, n);
    if r < |trace[n].requests| { RequestRun(trace, steps, n, r); }
    RetriesStep(trace[n], steps[n], r);
  }

  /** In any run the retries of a queued request are the worker runs that met somebody. */
  lemma {:induction false} RetriesAreObstructions(trace: seq<State>, steps: seq<Step>, n: nat, r: nat)
    requires IsRun(trace, steps) && n < |trace| && r < |trace[n].requests| && trace[n].requests[r].queued
    ensures trace[n].requests[r].retries == Obstructions(trace, steps, n, r)
  {
    if n > 0 {
      RetriesNext(trace, steps, n - 1, r);
      if r < |trace[n - 1].requests| {
        RetriesAreObstructions(trace, steps, n - 1, r);
      } else {
        NoObstructionsYet(trace, steps, n - 1, r);
      }
    }
  }

  /**
   In any run: a queued request is given up if and only if 51 of its worker runs have met somebody, each time in a run
   of its own, and before that it is never given up; one that was not queued is never freed.
   */
  lemma GivenUpExactly(trace: seq<State>, steps: seq<Step>, n: nat, r: nat)
    requires IsRun(trace, steps) && n < |trace| && r < |trace[n].requests|
    ensures var req := trace[n].requests[r];
            && (req.queued ==> (req.phase.Kept? <==> Obstructions(trace, steps, n, r) == 51))
            && (req.queued && req.phase.Kept? ==> req.runs == 51)
            && (!req.queued ==> !req.phase.Freed? && req.runs == 0)
  {
    RequestRun(trace, steps, n, r);
    if trace[n].requests[r].queued { RetriesAreObstructions(trace, steps, n, r); }
  }

  lemma PositiveMeasure(req: Request)
    requires Paced(req) && PhaseOk(req) && Active(req)
    ensures Measure(req) > 0
  {
  }

  /** A finite piece of behaviour that only the worker of one request takes part in. */
  ghost predicate OwnRun(trace: seq<State>, steps: seq<Step>, r: nat) {
    && |trace| == |steps| + 1
    && forall i :: 0 <= i < |steps| ==> StepOf(steps[i], r) && StepOk(trace, steps, i)
  }

  lemma OwnNext(s: State, r: nat) returns (step: Step, next: State)
    requires Accounted(s) && r < |s.requests| && RequestOk(s.requests[r]) && Active(s.requests[r])
    ensures Next(s, step, next) && StepOf(step, r)
    ensures Accounted(next) && r < |next.requests| && RequestOk(next.requests[r])
    ensures Measure(next.requests[r]) < Measure(s.requests[r])
  {
    NeverStuck(s, r);
    step :| Enabled(s, step) && OfRequest(step) && !step.Revoke? && step.r == r;
    next := Apply(s, step);
    AccountedStep(s, step);
    RequestsKept(s, step);
    assert next.requests == RequestsAfter(s, step);
    RequestNext(s, step, r);
  }

  lemma StepOkLater(s: State, step: Step, tail: seq<State>, more: seq<Step>, i: nat)
    requires i < |more| < |tail| && StepOk(tail, more, i)
    ensures StepOk([s] + tail, [step] + more, i + 1)
  {
    var (trace, steps) := ([s] + tail, [step] + more);
    assert trace[i + 1] == tail[i] && trace[i + 2] == tail[i + 1] && steps[i + 1] == more[i];
  }

  lemma StepOkFirst(s: State, step: Step, tail: seq<State>, more: seq<Step>)
    requires |more| < |tail| && Next(s, step, tail[0])
    ensures StepOk([s] + tail, [step] + more, 0)
  {
    var (trace, steps) := ([s] + tail, [step] + more);
    assert trace[0] == s && trace[1] == tail[0] && steps[0] == step;
  }

  lemma OwnCons(s: State, step: Step, tail: seq<State>, more: seq<Step>, r: nat)
    requires OwnRun(tail, more, r) && Next(s, step, tail[0]) && StepOf(step, r)
    ensures OwnRun([s] + tail, [step] + more, r)
  {
    var (trace, steps) := ([s] + tail, [step] + more);
    StepOkFirst(s, step, tail, more);
    forall i | 0 < i < |steps| ensures StepOf(steps[i], r) && StepOk(trace, steps, i) {
      assert StepOf(more[i - 1], r) && StepOk(tail, more, i - 1);
      StepOkLater(s, step, tail, more, i - 1);
    }
  }

  /** Left alone, a request ends within its measure, from any state and with whatever answers it gets. */
  lemma {:induction false} LeftAloneItEnds(s: State, r: nat) returns (trace: seq<State>, steps: seq<Step>)
    requires Accounted(s) && r < |s.requests| && RequestOk(s.requests[r])
    ensures OwnRun(trace, steps, r) && trace[0] == s && |steps| <= Measure(s.requests[r])
    ensures var last := trace[|trace| - 1]; r < |last.requests| && !Active(last.requests[r])
    decreases Measure(s.requests[r])
  {
    if !Active(s.requests[r]) {
      return [s], [];
    }
    var step, next := OwnNext(s, r);
    var tail, more := LeftAloneItEnds(next, r);
    OwnCons(s, step, tail, more, r);
    trace, steps := [s] + tail, [step] + more;
  }

  /** Nobody is entering the UID, and nobody in it would be killed. */
  ghost predicate Undisturbed(s: State, r: nat) {
    && |s.slots| == MaxInstances && r < |s.requests| && s.requests[r].queued && !s.requests[r].phase.Kept?
    && (forall k :: 0 <= k < |s.slots| && s.slots[k].inUse && s.slots[k].uid == s.requests[r].uid ==> s.slots[k].entrants == 0)
    && !AnyKillable(s, s.requests[r].uid)
  }

  /** The worker's own steps make no slot, and no entry. */
  lemma OwnSlots(s: State, step: Step, r: nat, k: nat)
    requires Enabled(s, step) && StepOf(step, r) && k < |s.slots|
    ensures |SlotsAfter(s, step)| == |s.slots|
    ensures var (b, a) := (s.slots[k], SlotsAfter(s, step)[k]);
            a.inUse ==> b.inUse && a.uid == b.uid && a.sid == b.sid && a.entrants == b.entrants
  {
  }

  lemma NobodyBusy(slots: seq<Slot>, uid: nat)
    requires forall k :: 0 <= k < |slots| && slots[k].inUse && slots[k].uid == uid ==> slots[k].entrants == 0
    ensures !HasEntrants(slots, uid)
  {
  }

  lemma OwnPhase(s: State, step: Step, r: nat)
    requires Enabled(s, step) && StepOf(step, r) && Undisturbed(s, r)
    ensures var after := RequestsAfter(s, step)[r];
            after.queued && after.uid == s.requests[r].uid && !after.phase.Kept?
  {
    NobodyBusy(s.slots, s.requests[r].uid);
  }

  lemma UndisturbedStep(s: State, step: Step, r: nat)
    requires Enabled(s, step) && StepOf(step, r) && Undisturbed(s, r)
    ensures Undisturbed(Apply(s, step), r)
  {
    var (slots, uid) := (SlotsAfter(s, step), s.requests[r].uid);
    OwnPhase(s, step, r);
    forall k | 0 <= k < |slots| && slots[k].inUse
      ensures s.slots[k].inUse && slots[k].uid == s.slots[k].uid && slots[k].sid == s.slots[k].sid
      ensures slots[k].uid == uid ==> slots[k].entrants == 0
    {
      OwnSlots(s, step, r, k);
    }
    forall t | 0 <= t < |s.tasks| ensures !Killable(slots, s.tasks[t], uid) {
      StillUnkillable(s.slots, slots, s.tasks[t], uid);
    }
  }

  lemma StillUnkillable(slots: seq<Slot>, after: seq<Slot>, task: Task, uid: nat)
    requires !Killable(slots, task, uid) && |after| == |slots|
    requires forall k :: 0 <= k < |after| && after[k].inUse ==>
               slots[k].inUse && after[k].uid == slots[k].uid && after[k].sid == slots[k].sid
    ensures !Killable(after, task, uid)
  {
    var id := Identity(task.cred.fsuid, task.cred.security.sid);
    if HasSlot(after, id) {
      var k :| 0 <= k < |after| && Holds(after[k], id);
      assert Holds(slots[k], id);
    }
  }

  /**
   Once nobody enters the UID and nobody in it is left to kill, the worker left alone frees the slots: it is never queued
   again and never gives up, so when it ends it has freed them.
   */
  lemma {:induction false} DesertedIsFreed(trace: seq<State>, steps: seq<Step>, r: nat, n: nat)
    requires OwnRun(trace, steps, r) && n < |trace| && Undisturbed(trace[0], r)
    ensures Undisturbed(trace[n], r)
    ensures !Active(trace[n].requests[r]) ==> trace[n].requests[r].phase.Freed?
  {
    if n > 0 {
      DesertedIsFreed(trace, steps, r, n - 1);
      assert StepOf(steps[n - 1], r) && StepOk(trace, steps, n - 1);
      UndisturbedStep(trace[n - 1], steps[n - 1], r);
    }
  }

  // ----- a UID under revocation is shut -----

  /** While a slot of the UID is revoked every entry is refused and changes nothing, whatever the kernel would answer. */
  lemma RevokedUidRefuses(slots: seq<Slot>, k: nat, sid: nat, env: JoinEnv)
    requires TableOk(slots) && k < |slots| && slots[k].inUse && slots[k].revoking
    ensures JoinOrCreate(slots, slots[k].uid, sid, env) == (slots, Revoked)
  {
    assert SlotOk(slots[k]);
    JoinOrCreateOutcome(slots, slots[k].uid, sid, env);
    UidCases(slots, slots[k].uid);
  }

  /** So is every reservation of a mount. */
  lemma RevokedUidReservesNothing(slots: seq<Slot>, k: nat, t: TaskId, bytes: nat)
    requires TableOk(slots) && k < |slots| && slots[k].inUse && slots[k].revoking
    ensures MountReserve(slots, slots[k].uid, t, bytes) == (slots, Some(EACCES))
  {
    assert SlotOk(slots[k]);
    UidCases(slots, slots[k].uid);
    MountReserveOutcome(slots, slots[k].uid, t, bytes);
  }

  /** The step is the release that gives this slot back. */
  ghost predicate Frees(s: State, step: Step, k: nat) {
    step.Release? && step.r < |s.requests| && k < |s.slots| && Releasable(s.slots[k], s.requests[step.r].uid)
  }

  /** A revoked slot stays revoked, and a detached one empty, until a release that frees it. */
  lemma RevokedStep(s: State, step: Step, k: nat)
    requires Enabled(s, step) && Accounted(s) && k < |s.slots| && s.slots[k].inUse && s.slots[k].revoking
    requires !Frees(s, step, k)
    ensures |SlotsAfter(s, step)| == |s.slots| && StillRevoked(s.slots[k], SlotsAfter(s, step)[k])
  {
    assert SlotOk(s.slots[k]);
    SlotMoves(s, step, k);
  }

  ghost predicate StillRevoked(before: Slot, after: Slot) {
    && after.inUse && after.revoking && after.uid == before.uid && after.sid == before.sid
    && (Detached(before) ==> Detached(after))
  }

  ghost predicate FreesAt(trace: seq<State>, steps: seq<Step>, i: nat, k: nat)
    requires i < |steps| < |trace|
  {
    Frees(trace[i], steps[i], k)
  }

  lemma RevokedAt(trace: seq<State>, steps: seq<Step>, i: nat, k: nat)
    requires IsRun(trace, steps) && i < |steps| && k < |trace[i].slots| && trace[i].slots[k].inUse && trace[i].slots[k].revoking
    requires !FreesAt(trace, steps, i, k)
    ensures |trace[i + 1].slots| == |trace[i].slots| && StillRevoked(trace[i].slots[k], trace[i + 1].slots[k])
  {
    AccountedRun(trace, steps, i);
    StepAt(trace, steps, i);
    RevokedStep(trace[i], steps[i], k);
  }

  /** The same over a stretch of a run: shut from the mark, and empty from the detach, until a release frees it. */
  lemma {:induction false} RevokedUntilReleased(trace: seq<State>, steps: seq<Step>, n: nat, m: nat, k: nat)
    requires IsRun(trace, steps) && n <= m < |trace| && k < |trace[n].slots|
    requires trace[n].slots[k].inUse && trace[n].slots[k].revoking
    requires forall i :: n <= i < m ==> !FreesAt(trace, steps, i, k)
    ensures |trace[m].slots| == |trace[n].slots| && StillRevoked(trace[n].slots[k], trace[m].slots[k])
    decreases m
  {
    if n < m {
      RevokedUntilReleased(trace, steps, n, m - 1, k);
      RevokedAt(trace, steps, m - 1, k);
    }
  }

  /** All along such a stretch every entry of the UID is refused and every reservation fails; neither touches the table. */
  lemma RevokedRefusesAlong(trace: seq<State>, steps: seq<Step>, n: nat, i: nat, k: nat)
    requires IsRun(trace, steps) && n <= i < |steps| && k < |trace[n].slots|
    requires trace[n].slots[k].inUse && trace[n].slots[k].revoking
    requires forall j :: n <= j < i ==> !FreesAt(trace, steps, j, k)
    ensures Enabled(trace[i], steps[i])
    ensures var (s, step, uid) := (trace[i], steps[i], trace[n].slots[k].uid);
            && (step.Enter? && s.tasks[step.t].cred.uid == uid ==>
                  EnterOutcome(s, step.t, step.sid, step.env) == Revoked && trace[i + 1].slots == s.slots)
            && (step.Reserve? && s.tasks[step.t].cred.fsuid == uid ==>
                  && trace[i + 1].slots == s.slots
                  && step.t < |trace[i + 1].tasks| && trace[i + 1].tasks[step.t].stage == Returning(None, false))
  {
    RevokedUntilReleased(trace, steps, n, i, k);
    AccountedRun(trace, steps, i);
    StepAt(trace, steps, i);
    var (s, step) := (trace[i], steps[i]);
    if step.Enter? && s.tasks[step.t].cred.uid == s.slots[k].uid {
      RevokedUidRefuses(s.slots, k, step.sid, step.env);
    } else if step.Reserve? && s.tasks[step.t].cred.fsuid == s.slots[k].uid {
      RevokedUidReservesNothing(s.slots, k, step.t, WantedBytes(s.tasks[step.t].stage.kind));
    }
  }

  // ----- how a revocation ends -----

  lemma FreedLeavesNothing(slots: seq<Slot>, uid: nat)
    ensures forall k :: 0 <= k < |slots| ==> !Releasable(ReleaseSlots(slots, uid)[k], uid)
  {
  }

  lemma RequestKeepsUid(s: State, step: Step, r: nat)
    requires Enabled(s, step) && |s.slots| == MaxInstances && r < |s.requests| && PhaseOk(s.requests[r])
    ensures r < |RequestsAfter(s, step)| && RequestsAfter(s, step)[r].uid == s.requests[r].uid
    ensures !StepOf(step, r) ==> RequestsAfter(s, step)[r] == s.requests[r]
    ensures step == Release(r) ==> RequestsAfter(s, step)[r].phase.Freed?
    ensures Active(s.requests[r]) && RequestsAfter(s, step)[r].phase.Freed? ==> step == Release(r)
  {
    if StepOf(step, r) { RequestAfterOk(s, step); }
  }

  lemma RequestAt(trace: seq<State>, steps: seq<Step>, i: nat, r: nat)
    requires IsRun(trace, steps) && i < |steps| && r < |trace[i].requests|
    ensures r < |trace[i + 1].requests| && trace[i + 1].requests[r].uid == trace[i].requests[r].uid
    ensures steps[i] == Release(r) ==> trace[i + 1].requests[r].phase.Freed?
    ensures Active(trace[i].requests[r]) && trace[i + 1].requests[r].phase.Freed? ==>
              steps[i] == Release(r) && trace[i + 1].slots == ReleaseSlots(trace[i].slots, trace[i].requests[r].uid)
  {
    AccountedRun(trace, steps, i);
    StepAt(trace, steps, i);
    RequestKeepsUid(trace[i], steps[i], r);
  }

  lemma {:induction false} UidAlong(trace: seq<State>, steps: seq<Step>, n: nat, m: nat, r: nat)
    requires IsRun(trace, steps) && n <= m < |trace| && r < |trace[n].requests|
    ensures r < |trace[m].requests| && trace[m].requests[r].uid == trace[n].requests[r].uid
    decreases m
  {
    if n < m {
      UidAlong(trace, steps, n, m - 1, r);
      RequestAt(trace, steps, m - 1, r);
    }
  }

  /** The mark and its request. */
  lemma Marked(trace: seq<State>, steps: seq<Step>, i: nat)
    requires IsRun(trace, steps) && i < |steps| && steps[i].Revoke?
    ensures var (r, uid, next) := (|trace[i].requests|, steps[i].uid, trace[i + 1]);
            && r < |next.requests| && next.requests[r].uid == uid && Active(next.requests[r])
            && forall k :: 0 <= k < |next.slots| && next.slots[k].inUse && next.slots[k].uid == uid ==> next.slots[k].revoking
  {
    StepAt(trace, steps, i);
  }

  /** While the request is unfinished, and one revocation runs at a time, nobody else frees slots of its UID. */
  lemma NobodyElseFrees(trace: seq<State>, steps: seq<Step>, j: nat, r: nat, k: nat)
    requires IsRun(trace, steps) && ObeysOneRevocation(trace, steps) && j < |steps|
    requires r < |trace[j].requests| && Active(trace[j].requests[r])
    requires k < |trace[j].slots| && trace[j].slots[k].uid == trace[j].requests[r].uid
    ensures Frees(trace[j], steps[j], k) ==> steps[j] == Release(r)
  {
    SecuredRun(trace, steps, j);
    assert StepOk(trace, steps, j);
    if Frees(trace[j], steps[j], k) {
      assert Active(trace[j].requests[steps[j].r]);
    }
  }

  /** A request that has not freed yet has left every slot it marked in place. */
  lemma {:induction false} MarkedSlotStays(trace: seq<State>, steps: seq<Step>, n: nat, m: nat, r: nat, k: nat)
    requires IsRun(trace, steps) && ObeysOneRevocation(trace, steps) && n <= m < |trace|
    requires k < |trace[n].slots| && trace[n].slots[k].inUse && trace[n].slots[k].revoking
    requires r < |trace[n].requests| && trace[n].requests[r].uid == trace[n].slots[k].uid
    requires forall j :: n <= j < m ==> r < |trace[j].requests| && Active(trace[j].requests[r])
    requires r < |trace[m].requests| && !trace[m].requests[r].phase.Freed?
    ensures |trace[m].slots| == |trace[n].slots| && StillRevoked(trace[n].slots[k], trace[m].slots[k])
    decreases m
  {
    if n < m {
      MarkedSlotStays(trace, steps, n, m - 1, r, k);
      UidAlong(trace, steps, n, m - 1, r);
      NobodyElseFrees(trace, steps, m - 1, r, k);
      RequestAt(trace, steps, m - 1, r);
      RevokedAt(trace, steps, m - 1, k);
    }
  }

  /**
   The end of a revocation, with one at a time. If it freed, no slot of its UID is left that could have been freed. If
   it kept, every slot that it marked is still there, still marked, and has given up its file and its mounts; and all 51
   runs of its worker met somebody, or it had no worker.
   */
  lemma RevocationOutcome(trace: seq<State>, steps: seq<Step>, i: nat, m: nat)
    requires IsRun(trace, steps) && ObeysOneRevocation(trace, steps) && i < m < |trace| && steps[i].Revoke?
    requires |trace[i].requests| < |trace[m].requests| && !Active(trace[m].requests[|trace[i].requests|])
    requires forall j :: i < j < m ==>
               |trace[i].requests| < |trace[j].requests| && Active(trace[j].requests[|trace[i].requests|])
    ensures var (r, uid) := (|trace[i].requests|, steps[i].uid);
            && (trace[m].requests[r].phase.Freed? ==>
                  forall k :: 0 <= k < |trace[m].slots| ==> !Releasable(trace[m].slots[k], uid))
            && (trace[m].requests[r].phase.Kept? ==>
                  |trace[m].slots| == |trace[i + 1].slots| && forall k ::
                    0 <= k < |trace[m].slots| && trace[i + 1].slots[k].inUse && trace[i + 1].slots[k].uid == uid ==>
                      StillRevoked(trace[i + 1].slots[k], trace[m].slots[k]) && Detached(trace[m].slots[k]))
            && (trace[m].requests[r].phase.Kept? ==>
                  if trace[m].requests[r].queued then trace[m].requests[r].runs == 51 && Obstructions(trace, steps, m, r) == 51
                  else trace[m].requests[r].runs == 0)
  {
    var (r, uid) := (|trace[i].requests|, steps[i].uid);
    GivenUpExactly(trace, steps, m, r);
    Marked(trace, steps, i);
    UidAlong(trace, steps, i + 1, m, r);
    UidAlong(trace, steps, i + 1, m - 1, r);
    RequestAt(trace, steps, m - 1, r);
    if trace[m].requests[r].phase.Freed? {
      FreedLeavesNothing(trace[m - 1].slots, uid);
    } else {
      SecuredRun(trace, steps, m);
      AccountedRun(trace, steps, i + 1);
      forall k | 0 <= k < |trace[m].slots| && trace[i + 1].slots[k].inUse && trace[i + 1].slots[k].uid == uid
        ensures StillRevoked(trace[i + 1].slots[k], trace[m].slots[k]) && Detached(trace[m].slots[k])
      {
        MarkedSlotStays(trace, steps, i + 1, m, r, k);
        KeptIsDetached(trace, steps, m, r, k);
      }
    }
  }

  /** The step that ends a request leaves all others as they were. */
  lemma OthersAtEnd(trace: seq<State>, steps: seq<Step>, i: nat, r: nat, q: nat)
    requires IsRun(trace, steps) && i < |steps| && r < |trace[i].requests| && r < |trace[i + 1].requests|
    requires Active(trace[i].requests[r]) && !Active(trace[i + 1].requests[r])
    requires q < |trace[i + 1].requests| && Active(trace[i + 1].requests[q])
    ensures q != r && q < |trace[i].requests| && trace[i].requests[q] == trace[i + 1].requests[q]
  {
    AccountedRun(trace, steps, i);
    StepAt(trace, steps, i);
    RequestKeepsUid(trace[i], steps[i], r);
    if q < |trace[i].requests| { RequestKeepsUid(trace[i], steps[i], q); }
  }

  lemma OneActiveAt(trace: seq<State>, steps: seq<Step>, i: nat, q: nat, r: nat)
    requires IsRun(trace, steps) && ObeysOneRevocation(trace, steps) && i < |trace|
    requires q < |trace[i].requests| && r < |trace[i].requests| && q != r
    requires Active(trace[i].requests[q]) && Active(trace[i].requests[r])
    ensures trace[i].requests[q].uid != trace[i].requests[r].uid
  {
    SecuredRun(trace, steps, i);
  }

  /** With its only request ended, a marked slot has nobody left to wait for. */
  lemma KeptIsDetached(trace: seq<State>, steps: seq<Step>, m: nat, r: nat, k: nat)
    requires IsRun(trace, steps) && ObeysOneRevocation(trace, steps) && 0 < m < |trace|
    requires r < |trace[m - 1].requests| && r < |trace[m].requests| && k < |trace[m].slots|
    requires Active(trace[m - 1].requests[r]) && !Active(trace[m].requests[r])
    requires trace[m].slots[k].inUse && trace[m].slots[k].revoking && trace[m].slots[k].uid == trace[m - 1].requests[r].uid
    ensures Detached(trace[m].slots[k])
  {
    AccountedRun(trace, steps, m);
    if !Detached(trace[m].slots[k]) {
      var q := Awaited(trace[m], k);
      OthersAtEnd(trace, steps, m - 1, r, q);
      OneActiveAt(trace, steps, m - 1, q, r);
    }
  }

  lemma Awaited(s: State, k: nat) returns (q: nat)
    requires DetachPending(s) && k < |s.slots| && s.slots[k].inUse && s.slots[k].revoking && !Detached(s.slots[k])
    ensures q < |s.requests| && Active(s.requests[q]) && s.requests[q].uid == s.slots[k].uid
  {
    q :| 0 <= q < |s.requests| && Active(s.requests[q]) && s.requests[q].uid == s.slots[k].uid && Progress(s.requests[q]) <= k;
  }
}
