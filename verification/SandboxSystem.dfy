/**
 The whole protocol as a transition system. A step is one region under the instance mutex, one
 action outside it on references or credentials, or one atomic read of the kill scan; tasks and
 revoke requests interleave freely.
 */
module SandboxSystem {
  import opened Sequences
  import opened SlotTable
  import opened Credentials

  /** What a call into the mount code is about. */
  datatype MountKind = Tmpfs(bytes: nat) | Bind | Unmount(target: Mount)

  /** The places of such a call that compare the caller's namespace: three of a mount, three of an unmount. */
  datatype Check = AtSbMount | AtMayMount | AtBind | AtUmount | AtCanUmount | AtSbUmount

  /**
   Where a task is. `held` records that the call has reserved a ledger record and not yet reported; `checked` is the
   credential an exec has passed through the check hook and not yet committed.
   */
  datatype Stage =
    | User
    | Joining(id: Identity, file: Option<NsFile>)
    | Committing(id: Identity)
    | Aborting(id: Identity)
    | Completing(id: Identity)
    | AskNs(kind: MountKind, at: Check)
    | HoldNs(kind: MountKind, at: Check, file: Option<NsFile>)
    | Reserving(kind: MountKind)
    | Mounting(held: bool)
    | Returning(mnt: Option<Mount>, held: bool)
    | Reporting(mnt: Option<Mount>, held: bool)
    | Dropping(dropped: Mount)
    | Tracking(target: Mount, at: Check)
    | Unmounting(target: Mount)
    | Execing(checked: Cred)

  /** `origin` is set by the commit of a sandbox credential and inherited by fork. */
  datatype Task = Task(live: bool, origin: Option<Origin>, cred: Cred, ns: nat, stage: Stage)

  datatype Phase =
    | Queued
    | Detaching(next: nat)
    | Letting(at: nat, file: Option<NsFile>, mnts: seq<Mount>)
    | Checking
    | Scanning
    | Releasing
    | Freed
    | Kept

  /** A revocation ends by freeing the slots of its UID or by keeping them. `queued` is false when it got no request and runs once, inline. */
  datatype Request = Request(uid: nat, queued: bool, retries: nat, runs: nat, phase: Phase)

  const RevokeRetries: nat := 50

  /** `fileRefs` and `mntRefs` are the references this module has taken and not yet dropped. */
  datatype State = State(
    slots: seq<Slot>,
    tasks: seq<Task>,
    requests: seq<Request>,
    fileRefs: multiset<NsFile>,
    mntRefs: multiset<Mount>)

  datatype Step =
    | Enter(t: TaskId, sid: nat, env: JoinEnv, strayNs: nat)
    | JoinDone(t: TaskId, joined: bool)
    | Commit(t: TaskId)
    | Complete(t: TaskId)
    | Exit(t: TaskId)
    | Fork(t: TaskId)
    | ChangeCred(t: TaskId, change: CredChange)
    | ExecCheck(t: TaskId, checked: Cred)
    | ExecCommit(t: TaskId, rewritten: Cred)
    | ExecFail(t: TaskId)
    | OtherCred(t: TaskId, cred: Cred, ns: nat)
    | MountBegin(t: TaskId, kind: MountKind)
    | Privileged(t: TaskId)
    | NsLock(t: TaskId)
    | NsCompare(t: TaskId, spurious: bool, proceed: bool)
    | Reserve(t: TaskId, proceed: bool)
    | MountDone(t: TaskId, result: Option<Mount>)
    | StartReport(t: TaskId)
    | Report(t: TaskId)
    | DropMount(t: TaskId)
    | CheckTracked(t: TaskId)
    | UmountFail(t: TaskId)
    | Umount(t: TaskId, target: Mount)
    | Revoke(uid: nat, queued: bool)
    | StartRun(r: nat)
    | DetachNext(r: nat)
    | LetGo(r: nat)
    | DetachDone(r: nat)
    | CheckBusy(r: nat)
    | Scan(r: nat)
    | Release(r: nat)

  function Refs<T>(o: Option<T>): multiset<T> {
    if o.Some? then multiset{o.value} else multiset{}
  }

  // ----- what a step does to its task -----

  /** The identity an entering task asks for. */
  function Wanted(s: State, t: TaskId, sid: nat): Identity
    requires t < |s.tasks|
  {
    Identity(s.tasks[t].cred.uid, sid)
  }

  function EnterOutcome(s: State, t: TaskId, sid: nat, env: JoinEnv): JoinOutcome
    requires t < |s.tasks|
  {
    JoinOrCreate(s.slots, s.tasks[t].cred.uid, sid, env).1
  }

  function Entered(task: Task, id: Identity, outcome: JoinOutcome, env: JoinEnv, strayNs: nat): Task {
    match outcome
    case Joined(file) => task.(stage := Joining(id, file))
    case Created => task.(stage := Committing(id), ns := if env.created.Some? then env.created.value.ns else strayNs)
    case CreateFailed => task.(ns := strayNs)
    case _ => task
  }

  function AfterJoin(task: Task, joined: bool): Task
    requires task.stage.Joining?
  {
    if joined && task.stage.file.Some? then task.(stage := Committing(task.stage.id), ns := task.stage.file.value.ns)
    else task.(stage := Aborting(task.stage.id))
  }

  function Committed(task: Task): Task
    requires task.stage.Committing?
  {
    var id := task.stage.id;
    task.(cred := PreparedCred(task.cred, id.uid, task.cred.gid, id.sid), origin := Some(Origin(id, task.cred.gid)),
          stage := Completing(id))
  }

  /** Where a call goes once its namespace comparison has come out. */
  function AfterNs(kind: MountKind, at: Check, matches: bool, proceed: bool): Stage {
    if kind.Unmount? then
      if !matches || !proceed then User
      else if at == AtCanUmount then AskNs(kind, AtSbUmount) else Tracking(kind.target, at)
    else
      match at
      case AtSbMount =>
        if !matches || !proceed then Returning(None, false)
        else if kind.Tmpfs? then Reserving(kind) else AskNs(kind, AtMayMount)
      case AtMayMount =>
        if !matches then User else if kind.Tmpfs? then Mounting(true) else AskNs(kind, AtBind)
      case AtBind =>
        if !matches || !proceed then Returning(None, false) else Reserving(kind)
      case _ => User
  }

  /** The two checks that a caller with capabilities of its own passes without asking for the sandbox. */
  predicate PrivilegeCheck(at: Check) { at == AtMayMount || at == AtCanUmount }

  /** Where it goes when the caller is not recognised as sandboxed: the module's hooks then let everything pass. */
  function AfterUnrecognised(kind: MountKind, at: Check): Stage {
    match at
    case AtBind => Mounting(false)
    case AtUmount => AskNs(kind, AtCanUmount)
    case AtSbUmount => if kind.Unmount? then Unmounting(kind.target) else User
    case _ => User
  }

  function AfterTracking(slots: seq<Slot>, task: Task): Stage
    requires task.stage.Tracking?
  {
    var Tracking(target, at) := task.stage;
    if !MountIsTracked(slots, task.cred.fsuid, target) then User
    else if at == AtUmount then AskNs(Unmount(target), AtCanUmount)
    else Unmounting(target)
  }

  /** The file abk_sandbox_namespace_matches takes a reference on. */
  function NsFileOf(slots: seq<Slot>, uid: nat): Option<NsFile> {
    var k := FindReady(slots, uid);
    if k == |slots| || slots[k].revoking then None else slots[k].file
  }

  ghost function AfterNsLock(slots: seq<Slot>, task: Task): Stage
    requires task.stage.AskNs?
  {
    var AskNs(kind, at) := task.stage;
    if !SandboxCurrent(slots, task.cred) then AfterUnrecognised(kind, at)
    else if NsFileOf(slots, task.cred.fsuid).None? then AfterNs(kind, at, false, false)
    else HoldNs(kind, at, NsFileOf(slots, task.cred.fsuid))
  }

  function AfterCompare(task: Task, spurious: bool, proceed: bool): Stage
    requires task.stage.HoldNs?
  {
    var HoldNs(kind, at, file) := task.stage;
    AfterNs(kind, at, !spurious && file.Some? && file.value.ns == task.ns, proceed)
  }

  function WantedBytes(kind: MountKind): nat { if kind.Tmpfs? then kind.bytes else 0 }

  function AfterReserve(kind: MountKind, error: Option<Errno>, proceed: bool): Stage {
    if error.Some? then Returning(None, false)
    else if !kind.Tmpfs? then Mounting(true)
    else if proceed then AskNs(kind, AtMayMount)
    else Returning(None, true)
  }

  function DropStage(mnt: Option<Mount>): Stage { if mnt.Some? then Dropping(mnt.value) else User }

  /** The check hook lets an exec go on or refuses it. */
  ghost function AfterExecCheck(slots: seq<Slot>, task: Task, checked: Cred): Task {
    if BprmCheck(SandboxCurrent(slots, task.cred), task.cred, checked) then task.(stage := Execing(checked)) else task
  }

  ghost function TaskAfter(s: State, step: Step): Task
    requires Enabled(s, step) && !OfRequest(step)
  {
    var task := s.tasks[step.t];
    match step
    case Enter(t, sid, env, strayNs) => Entered(task, Wanted(s, t, sid), EnterOutcome(s, t, sid, env), env, strayNs)
    case JoinDone(t, joined) => AfterJoin(task, joined)
    case Commit(t) => Committed(task)
    case Complete(t) => task.(stage := User)
    case Exit(t) => task.(live := false)
    case Fork(t) => task
    case ChangeCred(t, change) => task.(cred := Attempt(SandboxCurrent(s.slots, task.cred), change, task.cred))
    case ExecCheck(t, checked) => AfterExecCheck(s.slots, task, checked)
    case ExecCommit(t, rewritten) =>
      task.(cred := BprmCommitting(SandboxCurrent(s.slots, task.cred), task.cred, rewritten), stage := User)
    case ExecFail(t) => task.(stage := User)
    case OtherCred(t, cred, ns) => task.(cred := cred, ns := ns)
    case MountBegin(t, kind) => task.(stage := AskNs(kind, if kind.Unmount? then AtUmount else AtSbMount))
    case Privileged(t) => task.(stage := AfterNs(task.stage.kind, task.stage.at, true, true))
    case NsLock(t) => task.(stage := AfterNsLock(s.slots, task))
    case NsCompare(t, spurious, proceed) => task.(stage := AfterCompare(task, spurious, proceed))
    case Reserve(t, proceed) =>
      var kind := task.stage.kind;
      task.(stage := AfterReserve(kind, MountReserve(s.slots, task.cred.fsuid, t, WantedBytes(kind)).1, proceed))
    case MountDone(t, result) => task.(stage := Returning(result, task.stage.held))
    case StartReport(t) =>
      task.(stage := if SandboxCurrent(s.slots, task.cred) then Reporting(task.stage.mnt, task.stage.held) else User)
    case Report(t) => task.(stage := DropStage(MountResult(s.slots, task.cred.fsuid, t, task.stage.mnt).1))
    case DropMount(t) => task.(stage := User)
    case CheckTracked(t) => task.(stage := AfterTracking(s.slots, task))
    case UmountFail(t) => task.(stage := User)
    case Umount(t, target) => task.(stage := DropStage(UmountResult(s.slots, task.cred.fsuid, target).1))
  }

  // ----- what a step does to its request -----

  /** The worker queues itself again while it has retries left, and otherwise keeps the slots. */
  function Retry(req: Request): Request {
    req.(retries := req.retries + 1, phase := if req.retries < RevokeRetries then Queued else Kept)
  }

  /** Whom one scan of abk_kill_instance_tasks signals. */
  ghost predicate Killable(slots: seq<Slot>, task: Task, uid: nat) {
    && task.live && task.cred.fsuid == uid && task.cred.euid == RootUid
    && HasSlot(slots, Identity(task.cred.fsuid, task.cred.security.sid))
  }

  ghost predicate AnyKillable(s: State, uid: nat) {
    exists t :: 0 <= t < |s.tasks| && Killable(s.slots, s.tasks[t], uid)
  }

  ghost function RequestAfter(s: State, step: Step): Request
    requires Enabled(s, step) && OfRequest(step)
  {
    match step
    case Revoke(uid, queued) => Request(uid, queued, 0, 0, if queued then Queued else Detaching(0))
    case StartRun(r) => s.requests[r].(runs := s.requests[r].runs + 1, phase := Detaching(0))
    case DetachNext(r) =>
      var i := s.requests[r].phase.next;
      var (_, file, mnts) := Detach(s.slots, i, s.requests[r].uid);
      s.requests[r].(phase := Letting(i, file, mnts))
    case LetGo(r) => s.requests[r].(phase := Detaching(s.requests[r].phase.at + 1))
    case DetachDone(r) => s.requests[r].(phase := if s.requests[r].queued then Checking else Scanning)
    case CheckBusy(r) =>
      if HasEntrants(s.slots, s.requests[r].uid) then Retry(s.requests[r]) else s.requests[r].(phase := Scanning)
    case Scan(r) =>
      if !s.requests[r].queued then s.requests[r].(phase := Kept)
      else if AnyKillable(s, s.requests[r].uid) then Retry(s.requests[r])
      else s.requests[r].(phase := Releasing)
    case Release(r) => s.requests[r].(phase := Freed)
  }

  // ----- what a step does to the table and to the references -----

  ghost function SlotsAfter(s: State, step: Step): seq<Slot>
    requires Enabled(s, step)
  {
    match step
    case Enter(t, sid, env, _) => JoinOrCreate(s.slots, s.tasks[t].cred.uid, sid, env).0
    case Complete(t) => EntryComplete(s.slots, s.tasks[t].stage.id.uid, s.tasks[t].stage.id.sid)
    case Reserve(t, _) => MountReserve(s.slots, s.tasks[t].cred.fsuid, t, WantedBytes(s.tasks[t].stage.kind)).0
    case Report(t) => MountResult(s.slots, s.tasks[t].cred.fsuid, t, s.tasks[t].stage.mnt).0
    case Umount(t, target) => UmountResult(s.slots, s.tasks[t].cred.fsuid, target).0
    case Revoke(uid, _) => MarkRevoking(s.slots, uid)
    case DetachNext(r) => Detach(s.slots, s.requests[r].phase.next, s.requests[r].uid).0
    case Release(r) => ReleaseSlots(s.slots, s.requests[r].uid)
    case _ => s.slots
  }

  ghost function FilesTaken(s: State, step: Step): multiset<NsFile>
    requires Enabled(s, step)
  {
    match step
    case Enter(t, sid, env, _) =>
      var outcome := EnterOutcome(s, t, sid, env);
      if outcome.Joined? then Refs(outcome.file) else if outcome.Created? then Refs(env.created) else multiset{}
    case NsLock(t) => if TaskAfter(s, step).stage.HoldNs? then Refs(TaskAfter(s, step).stage.file) else multiset{}
    case _ => multiset{}
  }

  ghost function FilesDropped(s: State, step: Step): multiset<NsFile>
    requires Enabled(s, step)
  {
    match step
    case JoinDone(t, _) => Refs(s.tasks[t].stage.file)
    case NsCompare(t, _, _) => Refs(s.tasks[t].stage.file)
    case LetGo(r) => Refs(s.requests[r].phase.file)
    case _ => multiset{}
  }

  ghost function MountsTaken(s: State, step: Step): multiset<Mount>
    requires Enabled(s, step)
  {
    if step.StartReport? && SandboxCurrent(s.slots, s.tasks[step.t].cred) then Refs(s.tasks[step.t].stage.mnt) else multiset{}
  }

  ghost function MountsDropped(s: State, step: Step): multiset<Mount>
    requires Enabled(s, step)
  {
    match step
    case DropMount(t) => multiset{s.tasks[t].stage.dropped}
    case LetGo(r) => multiset(s.requests[r].phase.mnts)
    case _ => multiset{}
  }

  // ----- the step relation -----

  predicate OfRequest(step: Step) {
    step.Revoke? || step.StartRun? || step.DetachNext? || step.LetGo? || step.DetachDone? || step.CheckBusy? ||
    step.Scan? || step.Release?
  }

  ghost predicate Ready(s: State, t: TaskId) {
    t < |s.tasks| && s.tasks[t].live && s.tasks[t].stage.User?
  }

  ghost predicate Enabled(s: State, step: Step) {
    match step
    case Enter(t, _, _, _) => Ready(s, t) && s.tasks[t].origin.None? && AppidInRange(s.tasks[t].cred.uid)
    case JoinDone(t, _) => t < |s.tasks| && s.tasks[t].stage.Joining?
    case Commit(t) => t < |s.tasks| && s.tasks[t].stage.Committing?
    case Complete(t) => t < |s.tasks| && (s.tasks[t].stage.Completing? || s.tasks[t].stage.Aborting?)
    case Exit(t) => Ready(s, t)
    case Fork(t) => Ready(s, t)
    case ChangeCred(t, change) => Ready(s, t) && s.tasks[t].origin.Some? && Possible(change, s.tasks[t].cred)
    case ExecCheck(t, _) => Ready(s, t) && s.tasks[t].origin.Some?
    case ExecCommit(t, rewritten) =>
      t < |s.tasks| && s.tasks[t].stage.Execing? && ExecRewrite(s.tasks[t].stage.checked, rewritten)
    case ExecFail(t) => t < |s.tasks| && s.tasks[t].stage.Execing?
    case OtherCred(t, _, _) => Ready(s, t) && s.tasks[t].origin.None?
    case MountBegin(t, _) => Ready(s, t) && s.tasks[t].origin.Some? && SandboxCurrent(s.slots, s.tasks[t].cred)
    case Privileged(t) =>
      && t < |s.tasks| && s.tasks[t].stage.AskNs? && PrivilegeCheck(s.tasks[t].stage.at)
      && s.tasks[t].cred.caps.effective != {}
    case NsLock(t) => t < |s.tasks| && s.tasks[t].stage.AskNs?
    case NsCompare(t, _, _) => t < |s.tasks| && s.tasks[t].stage.HoldNs?
    case Reserve(t, _) => t < |s.tasks| && s.tasks[t].stage.Reserving?
    case MountDone(t, _) => t < |s.tasks| && s.tasks[t].stage.Mounting?
    case StartReport(t) => t < |s.tasks| && s.tasks[t].stage.Returning?
    case Report(t) => t < |s.tasks| && s.tasks[t].stage.Reporting?
    case DropMount(t) => t < |s.tasks| && s.tasks[t].stage.Dropping?
    case CheckTracked(t) => t < |s.tasks| && s.tasks[t].stage.Tracking?
    case UmountFail(t) => t < |s.tasks| && s.tasks[t].stage.Unmounting?
    case Umount(t, target) =>
      t < |s.tasks| && s.tasks[t].stage == Unmounting(target) && SandboxCurrent(s.slots, s.tasks[t].cred)
    case Revoke(_, _) => true
    case StartRun(r) => r < |s.requests| && s.requests[r].phase.Queued?
    case DetachNext(r) => r < |s.requests| && s.requests[r].phase.Detaching? && s.requests[r].phase.next < |s.slots|
    case LetGo(r) => r < |s.requests| && s.requests[r].phase.Letting?
    case DetachDone(r) => r < |s.requests| && s.requests[r].phase.Detaching? && s.requests[r].phase.next >= |s.slots|
    case CheckBusy(r) => r < |s.requests| && s.requests[r].phase.Checking?
    case Scan(r) => r < |s.requests| && s.requests[r].phase.Scanning?
    case Release(r) => r < |s.requests| && s.requests[r].phase.Releasing?
  }

  ghost function TasksAfter(s: State, step: Step): seq<Task>
    requires Enabled(s, step)
  {
    if OfRequest(step) then s.tasks
    else if step.Fork? then s.tasks + [TaskAfter(s, step)]
    else s.tasks[step.t := TaskAfter(s, step)]
  }

  ghost function RequestsAfter(s: State, step: Step): seq<Request>
    requires Enabled(s, step)
  {
    if !OfRequest(step) then s.requests
    else if step.Revoke? then s.requests + [RequestAfter(s, step)]
    else s.requests[step.r := RequestAfter(s, step)]
  }

  ghost function Apply(s: State, step: Step): State
    requires Enabled(s, step)
  {
    State(
      SlotsAfter(s, step),
      TasksAfter(s, step),
      RequestsAfter(s, step),
      s.fileRefs + FilesTaken(s, step) - FilesDropped(s, step),
      s.mntRefs + MountsTaken(s, step) - MountsDropped(s, step))
  }

  ghost predicate Init(s: State) {
    && |s.slots| == MaxInstances && (forall i :: 0 <= i < |s.slots| ==> s.slots[i] == BlankSlot)
    && (forall t :: 0 <= t < |s.tasks| ==> s.tasks[t].origin.None? && s.tasks[t].stage.User?)
    && s.requests == [] && s.fileRefs == multiset{} && s.mntRefs == multiset{}
  }

  predicate Active(req: Request) { !req.phase.Freed? && !req.phase.Kept? }

  /** One revocation at a time: a UID is not revoked again while a revocation of it is in flight. */
  ghost predicate OneRevocation(s: State, step: Step) {
    step.Revoke? ==> forall r :: 0 <= r < |s.requests| && Active(s.requests[r]) ==> s.requests[r].uid != step.uid
  }

  /**
   The harmful failure of the comparison behind the mount privilege check, for want of memory or of a path: the call
   has a reservation, and the UID still has a ready slot with its record in it.
   */
  ghost predicate Leaks(s: State, step: Step) {
    && step.NsCompare? && step.spurious && step.t < |s.tasks|
    && var task := s.tasks[step.t];
       && task.stage.HoldNs? && task.stage.at == AtMayMount && task.stage.kind.Tmpfs?
       && FindReady(s.slots, task.cred.fsuid) < |s.slots|
  }

  /** Honest comparison: no step is such a failure. */
  ghost predicate HonestCompare(s: State, step: Step) { !Leaks(s, step) }

  ghost predicate Next(s: State, step: Step, after: State) {
    Enabled(s, step) && after == Apply(s, step)
  }

  ghost predicate StepOk(trace: seq<State>, steps: seq<Step>, i: nat)
    requires i < |steps| < |trace|
  {
    Next(trace[i], steps[i], trace[i + 1])
  }

  /** A run: any interleaving from an empty table. */
  ghost predicate IsRun(trace: seq<State>, steps: seq<Step>) {
    && |trace| == |steps| + 1
    && Init(trace[0])
    && forall i :: 0 <= i < |steps| ==> StepOk(trace, steps, i)
  }

  ghost predicate ObeysOneRevocation(trace: seq<State>, steps: seq<Step>)
    requires |trace| == |steps| + 1
  {
    forall i {:trigger StepOk(trace, steps, i)} :: 0 <= i < |steps| ==> OneRevocation(trace[i], steps[i])
  }

  ghost predicate ObeysHonestCompare(trace: seq<State>, steps: seq<Step>)
    requires |trace| == |steps| + 1
  {
    forall i {:trigger StepOk(trace, steps, i)} :: 0 <= i < |steps| ==> HonestCompare(trace[i], steps[i])
  }
}
