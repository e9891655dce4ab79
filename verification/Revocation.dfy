/**
 Slot retention: exactly when every sandboxed task keeps its credential shape and its slot until it exits, in all runs,
 and that it always does when no UID is revoked twice at once.
 */
module Revocation {
  import opened SlotTable
  import opened Credentials
  import opened SandboxSystem
  import opened EntryAccounting

  ghost predicate Sandboxed(task: Task) { task.live && task.origin.Some? }

  /** The credential shape, and what the check of an exec in progress has made sure of. */
  ghost predicate ShapeOk(task: Task) {
    task.origin.Some? ==>
      && SandboxShape(task.cred, task.origin.value)
      && (task.stage.Execing? ==>
            task.stage.checked.groups == [] && task.stage.checked.security.sid == task.origin.value.id.sid)
  }

  /** Every live sandboxed task still has the slot of its identity. */
  ghost predicate Retained(s: State) {
    forall t :: 0 <= t < |s.tasks| && Sandboxed(s.tasks[t]) ==> HasSlot(s.slots, s.tasks[t].origin.value.id)
  }

  ghost predicate OneActive(s: State) {
    forall q, r :: 0 <= q < r < |s.requests| && Active(s.requests[q]) && Active(s.requests[r]) ==>
                     s.requests[q].uid != s.requests[r].uid
  }

  /** No task is inside an entry of a revoked slot of the UID. */
  ghost predicate Quiet(slots: seq<Slot>, uid: nat) {
    forall k :: 0 <= k < |slots| && slots[k].inUse && slots[k].uid == uid && slots[k].revoking ==> slots[k].entrants == 0
  }

  /** A revoked slot of the UID has no live task left. */
  ghost predicate Deserted(s: State, uid: nat) {
    forall k, t | 0 <= k < |s.slots| && s.slots[k].inUse && s.slots[k].uid == uid && s.slots[k].revoking &&
                  0 <= t < |s.tasks| && Sandboxed(s.tasks[t]) :: s.tasks[t].origin.value.id.uid != uid
  }

  /** What the worker has established by the time it is about to scan, and about to release. */
  ghost predicate ScanOk(s: State, req: Request) {
    && (req.queued && (req.phase.Scanning? || req.phase.Releasing?) ==> Quiet(s.slots, req.uid))
    && (req.phase.Releasing? ==> Deserted(s, req.uid))
  }

  /** Every sandboxed task has its shape and its slot, so it is recognised wherever a hook asks. */
  ghost predicate Recognised(s: State) {
    (forall t :: 0 <= t < |s.tasks| ==> ShapeOk(s.tasks[t])) && Retained(s)
  }

  ghost predicate Secured(s: State) {
    && Recognised(s)
    && OneActive(s)
    && (forall r :: 0 <= r < |s.requests| ==> ScanOk(s, s.requests[r]))
  }

  // ----- credentials -----

  /** Whoever has his shape and his slot is recognised. */
  lemma CurrentIfRetained(s: State, t: TaskId)
    requires Retained(s) && t < |s.tasks| && Sandboxed(s.tasks[t]) && ShapeOk(s.tasks[t])
    ensures SandboxCurrent(s.slots, s.tasks[t].cred)
  {
    ShapeIsCurrent(s.slots, s.tasks[t].cred, s.tasks[t].origin.value);
  }

  /** For a task that has its slot, the check lets exactly the credentials of the sandbox's shape go on to the commit. */
  lemma ExecCheckDecides(s: State, t: TaskId, checked: Cred)
    requires Enabled(s, ExecCheck(t, checked)) && Recognised(s)
    ensures var (before, after) := (s.tasks[t], TaskAfter(s, ExecCheck(t, checked)));
            before.origin.Some? &&
            after == if SandboxShape(checked, before.origin.value) then before.(stage := Execing(checked)) else before
  {
    assert ShapeOk(s.tasks[t]);
    CurrentIfRetained(s, t);
    HooksAreExact(s.tasks[t].cred, checked, s.tasks[t].origin.value);
  }

  /** And so do the hooks of set*uid and set*gid. */
  lemma ChangeDecides(s: State, t: TaskId, change: CredChange)
    requires Enabled(s, ChangeCred(t, change)) && Recognised(s)
    ensures var (before, after) := (s.tasks[t], TaskAfter(s, ChangeCred(t, change)));
            before.origin.Some? &&
            after == if SandboxShape(change.after, before.origin.value) then before.(cred := change.after) else before
  {
    assert ShapeOk(s.tasks[t]);
    CurrentIfRetained(s, t);
    AttemptExactly(change, s.tasks[t].cred, s.tasks[t].origin.value);
  }

  /** The check of an exec and its commit each ask again, and each is answered from the slot as it then is. */
  lemma ExecShapeStep(s: State, step: Step)
    requires Enabled(s, step) && (step.ExecCheck? || step.ExecCommit?) && TaskOk(s.tasks[step.t])
    requires ShapeOk(s.tasks[step.t]) && Retained(s)
    ensures ShapeOk(TaskAfter(s, step))
  {
    CurrentIfRetained(s, step.t);
  }

  lemma ChangeShapeStep(s: State, step: Step)
    requires Enabled(s, step) && step.ChangeCred? && ShapeOk(s.tasks[step.t]) && Retained(s)
    ensures ShapeOk(TaskAfter(s, step))
  {
    CurrentIfRetained(s, step.t);
    AttemptKeepsShape(step.change, s.tasks[step.t].cred, s.tasks[step.t].origin.value);
  }

  lemma ShapeStep(s: State, step: Step)
    requires Enabled(s, step) && !OfRequest(step) && TaskOk(s.tasks[step.t]) && ShapeOk(s.tasks[step.t]) && Retained(s)
    ensures ShapeOk(TaskAfter(s, step))
  {
    if step.ExecCheck? || step.ExecCommit? {
      ExecShapeStep(s, step);
    } else if step.ChangeCred? {
      ChangeShapeStep(s, step);
    }
  }

  // ----- slots are kept -----

  ghost predicate KeepsIdentity(slots: seq<Slot>, after: seq<Slot>) {
    && |after| == |slots|
    && forall k :: 0 <= k < |slots| && slots[k].inUse ==>
         after[k].inUse && after[k].uid == slots[k].uid && after[k].sid == slots[k].sid
  }

  lemma KeepsHasSlot(slots: seq<Slot>, after: seq<Slot>, id: Identity)
    requires KeepsIdentity(slots, after) && HasSlot(slots, id)
    ensures HasSlot(after, id)
  {
    var k :| 0 <= k < |slots| && Holds(slots[k], id);
    assert Holds(after[k], id);
  }

  lemma IdentityStep(s: State, step: Step)
    requires Enabled(s, step) && Accounted(s) && !step.Release?
    ensures KeepsIdentity(s.slots, SlotsAfter(s, step))
  {
    SlotMoves(s, step, 0);
    forall k | 0 <= k < |s.slots| && s.slots[k].inUse
      ensures var after := SlotsAfter(s, step)[k];
              after.inUse && after.uid == s.slots[k].uid && after.sid == s.slots[k].sid
    {
      SlotMoves(s, step, k);
    }
  }

  // ----- exactly when a release is safe -----

  ghost predicate NobodyLives(s: State, uid: nat) {
    forall t :: 0 <= t < |s.tasks| && Sandboxed(s.tasks[t]) ==> s.tasks[t].origin.value.id.uid != uid
  }

  /** The worker's two guards, read again where the slots are freed: nobody lives in the UID, or nothing is freed. */
  ghost predicate SafeRelease(s: State, step: Step) {
    step.Release? && step.r < |s.requests| ==>
      var uid := s.requests[step.r].uid;
      NobodyLives(s, uid) || forall k :: 0 <= k < |s.slots| ==> !Releasable(s.slots[k], uid)
  }

  /** Whatever revocations overlap, a release leaves every live sandboxed task its slot if and only if it is safe. */
  lemma ReleaseRetainsExactly(s: State, r: nat)
    requires Enabled(s, Release(r)) && Accounted(s) && Retained(s)
    ensures Retained(Apply(s, Release(r))) <==> SafeRelease(s, Release(r))
  {
    var after := Apply(s, Release(r));
    var uid := s.requests[r].uid;
    if SafeRelease(s, Release(r)) {
      forall t | 0 <= t < |s.tasks| && Sandboxed(s.tasks[t]) ensures HasSlot(after.slots, s.tasks[t].origin.value.id) {
        var k :| 0 <= k < |s.slots| && Holds(s.slots[k], s.tasks[t].origin.value.id);
        assert !Releasable(s.slots[k], uid);
        assert Holds(after.slots[k], s.tasks[t].origin.value.id);
      }
    } else {
      var t :| 0 <= t < |s.tasks| && Sandboxed(s.tasks[t]) && s.tasks[t].origin.value.id.uid == uid;
      var k :| 0 <= k < |s.slots| && Releasable(s.slots[k], uid);
      FreedSlotLost(s.slots, uid, k, s.tasks[t].origin.value.id);
      assert after.tasks[t] == s.tasks[t];
    }
  }

  lemma FreedSlotLost(slots: seq<Slot>, uid: nat, k: nat, id: Identity)
    requires TableOk(slots) && k < |slots| && Releasable(slots[k], uid) && id.uid == uid
    ensures !HasSlot(ReleaseSlots(slots, uid), id)
  {
    var after := ReleaseSlots(slots, uid);
    forall i | 0 <= i < |after| ensures !Holds(after[i], id) {
      assert after[i] == ReleasedSlot(slots[i], uid);
      if slots[i].inUse && slots[i].uid == uid { assert i == k; }
    }
  }

  /** Reading the scan again in the freeing region would do. */
  lemma RescanIsSafe(s: State, r: nat)
    requires Enabled(s, Release(r)) && Recognised(s) && !AnyKillable(s, s.requests[r].uid)
    ensures SafeRelease(s, Release(r))
  {
    ScanDeserts(s, s.requests[r].uid);
  }

  /** No other step takes a slot from anybody. */
  lemma RetainedExactly(s: State, step: Step)
    requires Enabled(s, step) && Accounted(s) && Retained(s)
    ensures Retained(Apply(s, step)) <==> SafeRelease(s, step)
  {
    if step.Release? {
      ReleaseRetainsExactly(s, step.r);
    } else {
      var after := Apply(s, step);
      forall t | 0 <= t < |after.tasks| && Sandboxed(after.tasks[t])
        ensures HasSlot(after.slots, after.tasks[t].origin.value.id)
      {
        IdentityStep(s, step);
        OriginBefore(s, step, t);
        KeepsHasSlot(s.slots, after.slots, after.tasks[t].origin.value.id);
      }
    }
  }

  /** So nobody loses the slot he lives in. */
  lemma ReleaseRetains(s: State, r: nat, t: TaskId)
    requires Enabled(s, Release(r)) && Accounted(s) && Secured(s)
    requires t < |s.tasks| && Sandboxed(s.tasks[t])
    ensures HasSlot(ReleaseSlots(s.slots, s.requests[r].uid), s.tasks[t].origin.value.id)
  {
    SecuredReleases(s, Release(r));
    ReleaseRetainsExactly(s, r);
    assert Apply(s, Release(r)).tasks[t] == s.tasks[t];
  }

  lemma RecognisedStep(s: State, step: Step)
    requires Enabled(s, step) && Accounted(s) && Recognised(s) && SafeRelease(s, step)
    ensures Recognised(Apply(s, step))
  {
    RetainedExactly(s, step);
    ShapesStep(s, step);
  }

  /** Under one revocation at a time the worker has made sure of it: its slots were deserted at the scan. */
  lemma SecuredReleases(s: State, step: Step)
    requires Enabled(s, step) && Accounted(s) && Secured(s)
    ensures SafeRelease(s, step)
  {
    if step.Release? {
      var uid := s.requests[step.r].uid;
      assert ScanOk(s, s.requests[step.r]);
      forall k | 0 <= k < |s.slots| && Releasable(s.slots[k], uid) ensures NobodyLives(s, uid) {
        assert SlotOk(s.slots[k]);
      }
    }
  }

  /** A sandboxed identity after a step had its slot before: it is inherited, or its entry is still counted. */
  lemma OriginBefore(s: State, step: Step, t: TaskId)
    requires Enabled(s, step) && EntrantsOk(s) && Retained(s)
    requires t < |Apply(s, step).tasks| && Sandboxed(Apply(s, step).tasks[t])
    ensures HasSlot(s.slots, Apply(s, step).tasks[t].origin.value.id)
    ensures if step.Commit? && step.t == t then Apply(s, step).tasks[t].origin.value.id == s.tasks[t].stage.id
            else exists u :: 0 <= u < |s.tasks| && Sandboxed(s.tasks[u]) && s.tasks[u].origin == Apply(s, step).tasks[t].origin
  {
    var after := Apply(s, step);
    if OfRequest(step) || (t != step.t && t < |s.tasks|) {
      assert after.tasks[t] == s.tasks[t];
    } else if step.Commit? {
      assert Counted(s.tasks[t].stage);
    } else {
      assert after.tasks[t] == TaskAfter(s, step);
      InheritedOrigin(s, step);
      assert Sandboxed(s.tasks[step.t]);
    }
  }

  lemma InheritedOrigin(s: State, step: Step)
    requires Enabled(s, step) && !OfRequest(step) && !step.Commit?
    ensures TaskAfter(s, step).origin == s.tasks[step.t].origin
    ensures TaskAfter(s, step).live ==> s.tasks[step.t].live
  {
  }

  // ----- one request per UID -----

  lemma OneActiveStep(s: State, step: Step)
    requires Enabled(s, step) && OneActive(s) && OneRevocation(s, step) && |s.slots| == MaxInstances
    requires forall r :: 0 <= r < |s.requests| ==> PhaseOk(s.requests[r])
    ensures OneActive(Apply(s, step))
  {
    if OfRequest(step) && !step.Revoke? {
      RequestAfterOk(s, step);
      assert Active(s.requests[step.r]);
    }
  }

  // ----- the scan -----

  /** A slot only becomes revoked by a mark or a detach of its own UID, and a revoked slot takes no new entry. */
  lemma RevokedBefore(s: State, step: Step, k: nat)
    requires Enabled(s, step) && Accounted(s) && k < |s.slots| == |SlotsAfter(s, step)|
    requires SlotsAfter(s, step)[k].inUse && SlotsAfter(s, step)[k].revoking
    requires step.Revoke? ==> step.uid != SlotsAfter(s, step)[k].uid
    requires step.DetachNext? ==> s.requests[step.r].uid != SlotsAfter(s, step)[k].uid
    ensures s.slots[k].inUse && s.slots[k].revoking && s.slots[k].uid == SlotsAfter(s, step)[k].uid
    ensures SlotsAfter(s, step)[k].entrants <= s.slots[k].entrants
  {
    SlotMoves(s, step, k);
  }

  lemma QuietStep(s: State, step: Step, uid: nat)
    requires Enabled(s, step) && Accounted(s) && Quiet(s.slots, uid) && |SlotsAfter(s, step)| == |s.slots|
    requires step.Revoke? ==> step.uid != uid
    requires step.DetachNext? ==> s.requests[step.r].uid != uid
    ensures Quiet(SlotsAfter(s, step), uid)
  {
    var after := SlotsAfter(s, step);
    forall k | 0 <= k < |after| && after[k].inUse && after[k].uid == uid && after[k].revoking ensures after[k].entrants == 0 {
      RevokedBefore(s, step, k);
    }
  }

  /** A commit into a deserted UID would need an entry, and a fork would need a parent. */
  lemma DesertedStep(s: State, step: Step, uid: nat)
    requires Enabled(s, step) && Accounted(s) && Retained(s) && Quiet(s.slots, uid) && Deserted(s, uid)
    requires |SlotsAfter(s, step)| == |s.slots|
    requires step.Revoke? ==> step.uid != uid
    requires step.DetachNext? ==> s.requests[step.r].uid != uid
    ensures Deserted(Apply(s, step), uid)
  {
    var after := Apply(s, step);
    forall k, t | 0 <= k < |after.slots| && after.slots[k].inUse && after.slots[k].uid == uid && after.slots[k].revoking &&
                  0 <= t < |after.tasks| && Sandboxed(after.tasks[t])
      ensures after.tasks[t].origin.value.id.uid != uid
    {
      RevokedBefore(s, step, k);
      OriginBefore(s, step, t);
      if step.Commit? && step.t == t {
        var h := HomeOf(s, t);
        assert h != k;
      }
    }
  }

  lemma LiverIsKillable(slots: seq<Slot>, task: Task)
    requires Sandboxed(task) && ShapeOk(task) && HasSlot(slots, task.origin.value.id)
    ensures Killable(slots, task, task.origin.value.id.uid)
  {
    assert Identity(task.cred.fsuid, task.cred.security.sid) == task.origin.value.id;
  }

  /** A scan that found nobody to kill leaves every revoked slot of the UID deserted. */
  lemma ScanDeserts(s: State, uid: nat)
    requires Retained(s) && (forall t :: 0 <= t < |s.tasks| ==> ShapeOk(s.tasks[t])) && !AnyKillable(s, uid)
    ensures NobodyLives(s, uid)
  {
    forall t | 0 <= t < |s.tasks| && Sandboxed(s.tasks[t]) ensures s.tasks[t].origin.value.id.uid != uid {
      LiverIsKillable(s.slots, s.tasks[t]);
    }
  }

  /** Nobody outside passes for a sandboxed task: none has root as effective user and the identity of a slot. */
  ghost predicate NoImpostor(s: State) {
    forall t :: 0 <= t < |s.tasks| && s.tasks[t].live && s.tasks[t].origin.None? && s.tasks[t].cred.euid == RootUid ==>
      !HasSlot(s.slots, Identity(s.tasks[t].cred.fsuid, s.tasks[t].cred.security.sid))
  }

  /** The scan signals exactly the live sandboxed tasks of the UID, so it finds somebody if and only if one lives there. */
  lemma ScanKillsExactly(s: State, uid: nat)
    requires Recognised(s) && NoImpostor(s)
    ensures forall t :: 0 <= t < |s.tasks| ==>
              (Killable(s.slots, s.tasks[t], uid) <==> Sandboxed(s.tasks[t]) && s.tasks[t].origin.value.id.uid == uid)
    ensures AnyKillable(s, uid) <==> !NobodyLives(s, uid)
  {
    forall t | 0 <= t < |s.tasks|
      ensures Killable(s.slots, s.tasks[t], uid) <==> Sandboxed(s.tasks[t]) && s.tasks[t].origin.value.id.uid == uid
    {
      assert ShapeOk(s.tasks[t]);
      if Sandboxed(s.tasks[t]) { LiverIsKillable(s.slots, s.tasks[t]); }
    }
  }

  lemma QuietUnlessDead(s: State, step: Step)
    requires Enabled(s, step) && !OfRequest(step)
    ensures s.tasks[step.t].live || !s.tasks[step.t].stage.User?
    ensures step.Exit? ==> !TaskAfter(s, step).live
  {
  }

  /** A task that has exited is not signalled again, and takes no further step. */
  lemma ExitIsFinal(s: State, step: Step, t: TaskId, uid: nat)
    requires Enabled(s, step) && t < |s.tasks| && TaskOk(s.tasks[t])
    ensures !s.tasks[t].live || step == Exit(t) ==> t < |TasksAfter(s, step)| && !TasksAfter(s, step)[t].live
    ensures !s.tasks[t].live ==> !Killable(s.slots, s.tasks[t], uid)
  {
    if !OfRequest(step) { QuietUnlessDead(s, step); }
  }

  lemma NoEntrantsIsQuiet(slots: seq<Slot>, uid: nat)
    requires !HasEntrants(slots, uid)
    ensures Quiet(slots, uid)
  {
    forall k | 0 <= k < |slots| && slots[k].inUse && slots[k].uid == uid ensures slots[k].entrants == 0 {
      assert !BusyFor(uid)(slots[k]);
    }
  }

  lemma ScanOkOther(s: State, step: Step, r: nat)
    requires Enabled(s, step) && Accounted(s) && Secured(s) && OneRevocation(s, step) && |SlotsAfter(s, step)| == |s.slots|
    requires r < |s.requests| && (OfRequest(step) && !step.Revoke? ==> step.r != r)
    ensures ScanOk(Apply(s, step), s.requests[r])
  {
    var req := s.requests[r];
    assert ScanOk(s, req);
    if Active(req) && req.queued && (req.phase.Scanning? || req.phase.Releasing?) {
      assert step.DetachNext? ==> Active(s.requests[step.r]) && s.requests[step.r].uid != req.uid;
      QuietStep(s, step, req.uid);
      if req.phase.Releasing? { DesertedStep(s, step, req.uid); }
    } else {
      assert PhaseOk(req);
    }
  }

  lemma BusyCheckOk(s: State, r: nat)
    requires Enabled(s, CheckBusy(r)) && Secured(s)
    ensures ScanOk(s, RequestAfter(s, CheckBusy(r)))
  {
    if !HasEntrants(s.slots, s.requests[r].uid) { NoEntrantsIsQuiet(s.slots, s.requests[r].uid); }
  }

  lemma ScanStepOk(s: State, r: nat)
    requires Enabled(s, Scan(r)) && Secured(s)
    ensures ScanOk(s, RequestAfter(s, Scan(r)))
  {
    assert ScanOk(s, s.requests[r]);
    if !AnyKillable(s, s.requests[r].uid) { ScanDeserts(s, s.requests[r].uid); }
  }

  /** Only the busy check and the scan lead to a phase that claims anything about the slots. */
  lemma OtherPhases(s: State, step: Step)
    requires Enabled(s, step) && OfRequest(step) && !step.CheckBusy? && !step.Scan?
    requires !step.Revoke? ==> PhaseOk(s.requests[step.r])
    ensures !RequestAfter(s, step).phase.Releasing?
    ensures RequestAfter(s, step).phase.Scanning? ==> !RequestAfter(s, step).queued
  {
  }

  lemma QueriesChangeNothing(s: State, step: Step)
    requires Enabled(s, step) && (step.CheckBusy? || step.Scan?)
    ensures Apply(s, step).slots == s.slots && Apply(s, step).tasks == s.tasks
  {
  }

  lemma ScanOkOwn(s: State, step: Step)
    requires Enabled(s, step) && Accounted(s) && Secured(s) && OfRequest(step)
    ensures ScanOk(Apply(s, step), RequestAfter(s, step))
  {
    if step.CheckBusy? {
      BusyCheckOk(s, step.r);
      QueriesChangeNothing(s, step);
    } else if step.Scan? {
      ScanStepOk(s, step.r);
      QueriesChangeNothing(s, step);
    } else {
      OtherPhases(s, step);
    }
  }

  lemma ScanOkStep(s: State, step: Step)
    requires Enabled(s, step) && Accounted(s) && Secured(s) && OneRevocation(s, step)
    ensures forall r :: 0 <= r < |Apply(s, step).requests| ==> ScanOk(Apply(s, step), Apply(s, step).requests[r])
  {
    TableStep(s, step);
    var after := Apply(s, step);
    forall r | 0 <= r < |after.requests| ensures ScanOk(after, after.requests[r]) {
      if r == |s.requests| || (OfRequest(step) && !step.Revoke? && step.r == r) {
        ScanOkOwn(s, step);
        assert after.requests[r] == RequestAfter(s, step);
      } else {
        ScanOkOther(s, step, r);
        assert after.requests[r] == s.requests[r];
      }
    }
  }

  lemma SecuredStep(s: State, step: Step)
    requires Enabled(s, step) && Accounted(s) && Secured(s) && OneRevocation(s, step)
    ensures Secured(Apply(s, step))
  {
    SecuredReleases(s, step);
    RecognisedStep(s, step);
    OneActiveStep(s, step);
    ScanOkStep(s, step);
  }

  lemma ShapesStep(s: State, step: Step)
    requires Enabled(s, step) && Retained(s)
    requires forall t :: 0 <= t < |s.tasks| ==> TaskOk(s.tasks[t]) && ShapeOk(s.tasks[t])
    ensures forall t :: 0 <= t < |Apply(s, step).tasks| ==> ShapeOk(Apply(s, step).tasks[t])
  {
    var after := Apply(s, step);
    forall t | 0 <= t < |after.tasks| ensures ShapeOk(after.tasks[t]) {
      if !OfRequest(step) && (t == step.t || t == |s.tasks|) {
        ShapeStep(s, step);
        assert after.tasks[t] == if step.Fork? && t == step.t then s.tasks[t] else TaskAfter(s, step);
      } else {
        assert after.tasks[t] == s.tasks[t];
      }
    }
  }

  lemma SecuredNext(trace: seq<State>, steps: seq<Step>, i: nat)
    requires IsRun(trace, steps) && ObeysOneRevocation(trace, steps) && i < |steps| && Secured(trace[i])
    ensures Secured(trace[i + 1])
  {
    AccountedRun(trace, steps, i);
    assert StepOk(trace, steps, i) && OneRevocation(trace[i], steps[i]);
    SecuredStep(trace[i], steps[i]);
  }

  lemma {:induction false} SecuredRun(trace: seq<State>, steps: seq<Step>, n: nat)
    requires IsRun(trace, steps) && ObeysOneRevocation(trace, steps) && n < |trace|
    ensures Accounted(trace[n]) && Secured(trace[n])
  {
    AccountedRun(trace, steps, n);
    if n > 0 {
      SecuredRun(trace, steps, n - 1);
      SecuredNext(trace, steps, n - 1);
    }
  }

  /**
   Slot retention: at every moment of every such run a live task that committed a sandbox credential
   for (uid, sid) still has that exact shape, is recognised as sandboxed, and is a peer of its own UID only.
   */
  lemma SandboxedStaysCurrent(trace: seq<State>, steps: seq<Step>, n: nat, t: TaskId)
    requires IsRun(trace, steps) && ObeysOneRevocation(trace, steps) && n < |trace|
    requires t < |trace[n].tasks| && Sandboxed(trace[n].tasks[t])
    ensures var task := trace[n].tasks[t];
            && SandboxShape(task.cred, task.origin.value)
            && SandboxCurrent(trace[n].slots, task.cred)
            && forall uid :: SandboxPeer(trace[n].slots, task.cred, uid) <==> uid == task.origin.value.id.uid
  {
    SecuredRun(trace, steps, n);
    RecognisedIsCurrent(trace[n], t);
  }

  lemma RecognisedIsCurrent(s: State, t: TaskId)
    requires Recognised(s) && t < |s.tasks| && Sandboxed(s.tasks[t])
    ensures var task := s.tasks[t];
            && SandboxShape(task.cred, task.origin.value) && SandboxCurrent(s.slots, task.cred)
            && forall uid :: SandboxPeer(s.slots, task.cred, uid) <==> uid == task.origin.value.id.uid
  {
    var task := s.tasks[t];
    assert ShapeOk(task);
    ShapeIsCurrent(s.slots, task.cred, task.origin.value);
  }

  // ----- runs with any revocations -----

  ghost predicate SafeAt(trace: seq<State>, steps: seq<Step>, i: nat)
    requires i < |steps| < |trace|
  {
    SafeRelease(trace[i], steps[i])
  }

  ghost predicate SafeReleases(trace: seq<State>, steps: seq<Step>, n: nat)
    requires |trace| == |steps| + 1 && n <= |steps|
  {
    forall i :: 0 <= i < n ==> SafeAt(trace, steps, i)
  }

  lemma RecognisedNext(trace: seq<State>, steps: seq<Step>, i: nat)
    requires IsRun(trace, steps) && i < |steps| && SafeAt(trace, steps, i) && Recognised(trace[i])
    ensures Recognised(trace[i + 1])
  {
    AccountedRun(trace, steps, i);
    assert StepOk(trace, steps, i);
    RecognisedStep(trace[i], steps[i]);
  }

  lemma {:induction false} RecognisedRun(trace: seq<State>, steps: seq<Step>, n: nat)
    requires IsRun(trace, steps) && n < |trace| && SafeReleases(trace, steps, n)
    ensures Accounted(trace[n]) && Recognised(trace[n])
  {
    AccountedRun(trace, steps, n);
    if n > 0 {
      RecognisedRun(trace, steps, n - 1);
      assert SafeAt(trace, steps, n - 1);
      RecognisedNext(trace, steps, n - 1);
    }
  }

  /** The step that loses somebody's slot is an unsafe release. */
  lemma RetainedNext(trace: seq<State>, steps: seq<Step>, i: nat)
    requires IsRun(trace, steps) && i < |steps| && Retained(trace[i])
    ensures Retained(trace[i + 1]) <==> SafeRelease(trace[i], steps[i])
  {
    AccountedRun(trace, steps, i);
    assert StepOk(trace, steps, i);
    RetainedExactly(trace[i], steps[i]);
  }

  /**
   The exact condition, for runs in which revocations overlap at will: up to any point, every sandboxed task has always
   kept its slot, its shape and its recognition if and only if every release so far was safe.
   */
  lemma RecognisedExactly(trace: seq<State>, steps: seq<Step>, n: nat)
    requires IsRun(trace, steps) && n < |trace|
    ensures (forall i :: 0 <= i <= n ==> Recognised(trace[i])) <==> SafeReleases(trace, steps, n)
  {
    if SafeReleases(trace, steps, n) {
      forall i | 0 <= i <= n ensures Recognised(trace[i]) { RecognisedRun(trace, steps, i); }
    }
    if forall i :: 0 <= i <= n ==> Recognised(trace[i]) {
      forall i | 0 <= i < n ensures SafeAt(trace, steps, i) {
        assert Recognised(trace[i]) && Recognised(trace[i + 1]);
        RetainedNext(trace, steps, i);
      }
    }
  }
}
