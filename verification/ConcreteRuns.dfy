/** Concrete runs: what is reachable under which hypotheses, and an application whose tasks enter and call mount. */
module ConcreteRuns {
  import opened Sequences
  import opened SlotTable
  import opened SlotTableFacts
  import opened Credentials
  import opened SandboxSystem

  /** A comparison that fails for want of memory or of a path. */
  predicate Spurious(step: Step) { step.NsCompare? && step.spurious }

  ghost predicate RunTo(trace: seq<State>, steps: seq<Step>, s: State, once: bool, genuine: bool) {
    && IsRun(trace, steps) && trace[|trace| - 1] == s
    && (once ==> ObeysOneRevocation(trace, steps))
    && (genuine ==> forall i :: 0 <= i < |steps| ==> !Spurious(steps[i]))
  }

  /** Reachable: `once` with one revocation at a time, `genuine` without any spurious comparison. */
  ghost predicate Reachable(s: State, once: bool, genuine: bool) {
    exists trace, steps :: RunTo(trace, steps, s, once, genuine)
  }

  lemma InitReachable(s: State)
    requires Init(s)
    ensures Reachable(s, true, true)
  {
    assert RunTo([s], [], s, true, true);
  }

  lemma OnceIsReachable(s: State, genuine: bool)
    requires Reachable(s, true, genuine)
    ensures Reachable(s, false, genuine)
  {
    var trace, steps :| RunTo(trace, steps, s, true, genuine);
    assert RunTo(trace, steps, s, false, genuine);
  }

  lemma RunExtended(trace: seq<State>, steps: seq<Step>, step: Step, after: State)
    requires IsRun(trace, steps) && Next(trace[|trace| - 1], step, after)
    ensures IsRun(trace + [after], steps + [step])
  {
    var (trace', steps') := (trace + [after], steps + [step]);
    forall i | 0 <= i < |steps'| ensures StepOk(trace', steps', i) {
      if i < |steps| { assert StepOk(trace, steps, i); }
    }
  }

  lemma ReachableStep(s: State, step: Step, after: State, once: bool, genuine: bool)
    requires Reachable(s, once, genuine) && Next(s, step, after)
    requires (once ==> OneRevocation(s, step)) && (genuine ==> !Spurious(step))
    ensures Reachable(after, once, genuine)
  {
    var trace, steps :| RunTo(trace, steps, s, once, genuine);
    RunExtended(trace, steps, step, after);
    var (trace', steps') := (trace + [after], steps + [step]);
    if once {
      forall i | 0 <= i < |steps'| ensures OneRevocation(trace'[i], steps'[i]) {
        if i < |steps| { assert StepOk(trace, steps, i); }
      }
    }
    assert trace'[|trace'| - 1] == after;
    assert RunTo(trace', steps', after, once, genuine);
  }

  // ----- an application and its slot -----

  const Uid: nat := 10000
  const Sid: nat := 7
  const File := NsFile(1, 2)
  const AppCred := Cred(Uid, Uid, Uid, Uid, Uid, Uid, Uid, Uid, NoCaps, {}, [], Security(3, 0, 0, 0, 0))
  const AppTask := Task(true, None, AppCred, 1, User)
  const Id := Identity(Uid, Sid)

  function EnteringTask(ns: nat): Task { AppTask.(ns := ns, stage := Committing(Id)) }

  function EnteredTask(ns: nat): Task { Task(true, Some(Origin(Id, Uid)), PreparedCred(AppCred, Uid, Uid, Sid), ns, User) }

  function CompletingTask(ns: nat): Task { EnteredTask(ns).(stage := Completing(Id)) }

  function Fresh(file: NsFile): Slot { NewSlot(Uid, Sid, file) }

  /** The slot once its first entry is complete. */
  function Settled(file: NsFile): Slot { Fresh(file).(entrants := 0) }

  /** The table with one slot, in front of blank ones. */
  function Table(slot: Slot): (table: seq<Slot>)
    ensures |table| == MaxInstances && table[0] == slot && forall i :: 0 < i < |table| ==> table[i] == BlankSlot
  {
    [slot] + seq(MaxInstances - 1, _ => BlankSlot)
  }

  ghost function At(slot: Slot, tasks: seq<Task>, requests: seq<Request>, files: multiset<NsFile>): State {
    State(Table(slot), tasks, requests, files, multiset{})
  }

  lemma TableUpdate(before: Slot, after: Slot)
    ensures Table(before)[0 := after] == Table(after)
  {
  }

  /** A slot that an entry can take. */
  ghost predicate Vacant(slot: Slot) { !slot.inUse && SlotOk(slot) }

  lemma FirstEntry(slot: Slot, file: NsFile)
    requires Vacant(slot)
    ensures JoinOrCreate(Table(slot), Uid, Sid, JoinEnv(true, Some(file))) == (Table(Fresh(file)), Created)
    ensures TableOk(Table(Fresh(file)))
  {
    var slots := Table(slot);
    AllFreeSums([]);
    assert TableOk(slots);
    JoinOrCreateOutcome(slots, Uid, Sid, JoinEnv(true, Some(file)));
    UidCases(slots, Uid);
    FirstIndexUnique(slots, Unallocated(), 0);
    TableUpdate(slot, Fresh(file));
  }

  lemma FirstCompletion(file: NsFile)
    ensures EntryComplete(Table(Fresh(file)), Uid, Sid) == Table(Settled(file))
  {
    AllFreeSums([]);
    FirstEntry(BlankSlot, file);
    EntryCompleteOutcome(Table(Fresh(file)), Uid, Sid, 0);
    TableUpdate(Fresh(file), Settled(file));
  }

  lemma EnterNext(slot: Slot, tasks: seq<Task>, t: nat, requests: seq<Request>, files: multiset<NsFile>, file: NsFile)
    requires Vacant(slot) && t < |tasks| && tasks[t] == AppTask
    ensures Next(At(slot, tasks, requests, files), Enter(t, Sid, JoinEnv(true, Some(file)), 1),
                 At(Fresh(file), tasks[t := EnteringTask(file.ns)], requests, files + multiset{file}))
  {
    FirstEntry(slot, file);
  }

  lemma CommitNext(slot: Slot, tasks: seq<Task>, t: nat, requests: seq<Request>, files: multiset<NsFile>, ns: nat)
    requires t < |tasks| && tasks[t] == EnteringTask(ns)
    ensures Next(At(slot, tasks, requests, files), Commit(t), At(slot, tasks[t := CompletingTask(ns)], requests, files))
  {
  }

  lemma CompleteNext(tasks: seq<Task>, t: nat, requests: seq<Request>, files: multiset<NsFile>, file: NsFile)
    requires t < |tasks| && tasks[t] == CompletingTask(file.ns)
    ensures Next(At(Fresh(file), tasks, requests, files), Complete(t),
                 At(Settled(file), tasks[t := EnteredTask(file.ns)], requests, files))
  {
    FirstCompletion(file);
  }

  lemma CompletedReachable(tasks: seq<Task>, t: nat, requests: seq<Request>, files: multiset<NsFile>, file: NsFile,
                           once: bool)
    requires t < |tasks| && tasks[t] == EnteringTask(file.ns)
    requires Reachable(At(Fresh(file), tasks, requests, files), once, true)
    ensures Reachable(At(Settled(file), tasks[t := EnteredTask(file.ns)], requests, files), once, true)
  {
    var completing := tasks[t := CompletingTask(file.ns)];
    assert completing[t := EnteredTask(file.ns)] == tasks[t := EnteredTask(file.ns)];
    CommitNext(Fresh(file), tasks, t, requests, files, file.ns);
    ReachableStep(At(Fresh(file), tasks, requests, files), Commit(t), At(Fresh(file), completing, requests, files),
                  once, true);
    CompleteNext(completing, t, requests, files, file);
    ReachableStep(At(Fresh(file), completing, requests, files), Complete(t),
                  At(Settled(file), tasks[t := EnteredTask(file.ns)], requests, files), once, true);
  }

  /** A task enters, commits and completes; its slot is ready and has no entrants left. */
  lemma EntersReachably(slot: Slot, tasks: seq<Task>, t: nat, requests: seq<Request>, files: multiset<NsFile>, file: NsFile,
                        once: bool)
    requires Vacant(slot) && t < |tasks| && tasks[t] == AppTask && Reachable(At(slot, tasks, requests, files), once, true)
    ensures Reachable(At(Settled(file), tasks[t := EnteredTask(file.ns)], requests, files + multiset{file}), once, true)
  {
    var entering := tasks[t := EnteringTask(file.ns)];
    assert entering[t := EnteredTask(file.ns)] == tasks[t := EnteredTask(file.ns)];
    EnterNext(slot, tasks, t, requests, files, file);
    ReachableStep(At(slot, tasks, requests, files), Enter(t, Sid, JoinEnv(true, Some(file)), 1),
                  At(Fresh(file), entering, requests, files + multiset{file}), once, true);
    CompletedReachable(entering, t, requests, files + multiset{file}, file, once);
  }
}
