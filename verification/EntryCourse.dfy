/** The course of an entry: what is committed is the task's own identity, for the entry it asked for, in the namespace it got. */
module EntryCourse {
  import opened Sequences
  import opened SlotTable
  import opened SlotTableFacts
  import opened Credentials
  import opened SandboxSystem
  import opened EntryAccounting
  import opened Revocation
  import opened CallRoutes

  /** Between the join and the commit, or on the way back. */
  predicate Entering(stage: Stage) { stage.Joining? || stage.Committing? || stage.Aborting? }

  /** The file of the slot joined or created, if the table admitted the entry. */
  function Admitted(outcome: JoinOutcome, env: JoinEnv): Option<NsFile> {
    match outcome
    case Joined(file) => file
    case Created => env.created
    case _ => None
  }

  /** Switching namespaces decides a join: the task goes on in that of the slot, or gives up where it was. */
  lemma JoinDecides(s: State, t: TaskId, joined: bool)
    requires Enabled(s, JoinDone(t, joined)) && TaskOk(s.tasks[t])
    ensures var (before, after) := (s.tasks[t], TaskAfter(s, JoinDone(t, joined)));
            && after.origin == before.origin == None && after.cred == before.cred && after.live == before.live
            && (after.stage.Committing? <==> joined) && (after.stage.Aborting? <==> !joined)
            && after.stage.id == before.stage.id && before.stage.file.Some?
            && after.ns == if joined then before.stage.file.value.ns else before.ns
  {
  }

  /** An entry is begun exactly when the table admits it, and then counted until it completes. */
  lemma EnterDecides(s: State, step: Step)
    requires Enabled(s, step) && step.Enter? && TableOk(s.slots)
    ensures var (before, after) := (s.tasks[step.t], TaskAfter(s, step));
            var outcome := EnterOutcome(s, step.t, step.sid, step.env);
            && after.origin == None && after.cred == before.cred
            && (Entering(after.stage) <==> Admitted(outcome, step.env).Some?)
            && (!Entering(after.stage) ==> after.stage == User)
            && (!outcome.Created? && !outcome.CreateFailed? ==> after.ns == before.ns)
            && (Entering(after.stage) ==> after.stage.id == Identity(before.cred.uid, step.sid))
            && (after.stage.Joining? <==> outcome.Joined?) && (after.stage.Joining? ==> outcome == Joined(after.stage.file))
            && (after.stage.Committing? <==> outcome.Created?)
            && (after.stage.Committing? ==> step.env.created.Some? && after.ns == step.env.created.value.ns)
  {
    JoinOrCreateOutcome(s.slots, s.tasks[step.t].cred.uid, step.sid, step.env);
    UidCases(s.slots, s.tasks[step.t].cred.uid);
    var k := FindReady(s.slots, s.tasks[step.t].cred.uid);
    if k < |s.slots| { assert SlotOk(s.slots[k]); }
  }

  ghost predicate JoinedAt(steps: seq<Step>, e: nat, n: nat, t: TaskId)
    requires n <= |steps|
  {
    exists j :: e < j < n && steps[j] == JoinDone(t, true)
  }

  /** The task has been in this entry since step `e`. */
  ghost predicate EnteredBy(trace: seq<State>, steps: seq<Step>, e: nat, n: nat, t: TaskId)
    requires |trace| == |steps| + 1 && n <= |steps| && t < |trace[n].tasks| && Entering(trace[n].tasks[t].stage)
  {
    && e < n && steps[e].Enter? && steps[e].t == t && t < |trace[e].tasks|
    && var (before, task) := (trace[e].tasks[t], trace[n].tasks[t]);
       var outcome := EnterOutcome(trace[e], t, steps[e].sid, steps[e].env);
       var file := Admitted(outcome, steps[e].env);
       && file.Some? && task.cred == before.cred && task.origin.None?
       && task.stage.id == Identity(before.cred.uid, steps[e].sid)
       && (task.stage.Joining? ==> outcome == Joined(task.stage.file))
       && (task.stage.Committing? ==> task.ns == file.value.ns && (outcome.Created? || JoinedAt(steps, e, n, t)))
  }

  lemma EntryStarts(trace: seq<State>, steps: seq<Step>, n: nat, t: TaskId)
    requires IsRun(trace, steps) && n < |steps| && t < |trace[n + 1].tasks| && Entering(trace[n + 1].tasks[t].stage)
    requires t >= |trace[n].tasks| || !Entering(trace[n].tasks[t].stage)
    ensures EnteredBy(trace, steps, n, n + 1, t)
  {
    TasksAt(trace, steps, n);
    AccountedRun(trace, steps, n);
    TaskKept(trace[n], steps[n], t);
    OnlyEnterStarts(trace[n], steps[n]);
    EnterDecides(trace[n], steps[n]);
  }

  lemma OnlyEnterStarts(s: State, step: Step)
    requires Enabled(s, step) && !OfRequest(step) && !step.Fork?
    ensures Entering(TaskAfter(s, step).stage) ==> step.Enter? || step.JoinDone?
    ensures Entering(s.tasks[step.t].stage) && Entering(TaskAfter(s, step).stage) ==> step.JoinDone?
  {
  }

  lemma EntryNext(trace: seq<State>, steps: seq<Step>, e: nat, n: nat, t: TaskId)
    requires IsRun(trace, steps) && n < |steps| && t < |trace[n].tasks| && Entering(trace[n].tasks[t].stage)
    requires t < |trace[n + 1].tasks| && Entering(trace[n + 1].tasks[t].stage) && EnteredBy(trace, steps, e, n, t)
    ensures EnteredBy(trace, steps, e, n + 1, t)
  {
    TasksAt(trace, steps, n);
    if OfRequest(steps[n]) || steps[n].Fork? || steps[n].t != t {
      OthersPassNothing(trace[n], steps[n], t);
      StillJoined(steps, e, n, t);
    } else {
      TaskKept(trace[n], steps[n], t);
      OnlyEnterStarts(trace[n], steps[n]);
      AccountedRun(trace, steps, n);
      JoinDecides(trace[n], t, steps[n].joined);
      if steps[n].joined { assert steps[n] == JoinDone(t, true); }
    }
  }

  lemma StillJoined(steps: seq<Step>, e: nat, n: nat, t: TaskId)
    requires n < |steps|
    ensures JoinedAt(steps, e, n, t) ==> JoinedAt(steps, e, n + 1, t)
  {
  }

  lemma {:induction false} EntryFollows(trace: seq<State>, steps: seq<Step>, n: nat, t: TaskId) returns (e: nat)
    requires IsRun(trace, steps) && n <= |steps| && t < |trace[n].tasks| && Entering(trace[n].tasks[t].stage)
    ensures EnteredBy(trace, steps, e, n, t)
  {
    if n == 0 {
      assert false;
    } else if t < |trace[n - 1].tasks| && Entering(trace[n - 1].tasks[t].stage) {
      e := EntryFollows(trace, steps, n - 1, t);
      EntryNext(trace, steps, e, n - 1, t);
    } else {
      EntryStarts(trace, steps, n - 1, t);
      e := n - 1;
    }
  }

  lemma CommitShape(s: State, t: TaskId)
    requires Enabled(s, Commit(t)) && TaskOk(s.tasks[t])
    ensures var (before, after) := (s.tasks[t], TaskAfter(s, Commit(t)));
            && after.origin == Some(Origin(before.stage.id, before.cred.gid)) && after.ns == before.ns
            && SandboxShape(after.cred, after.origin.value)
  {
  }

  /**
   In every run what a task commits is a sandbox credential for its own UID and GID at the time it asked to enter, and for
   the SID it asked for; and it is then in the namespace of the slot, which it created or has switched to.
   */
  lemma CommitsItsOwn(trace: seq<State>, steps: seq<Step>, n: nat, t: TaskId) returns (e: nat)
    requires IsRun(trace, steps) && n < |steps| && steps[n] == Commit(t)
    ensures e < n && steps[e].Enter? && steps[e].t == t
    ensures t < |trace[e].tasks| && t < |trace[n + 1].tasks|
    ensures var (before, after) := (trace[e].tasks[t], trace[n + 1].tasks[t]);
            var outcome := EnterOutcome(trace[e], t, steps[e].sid, steps[e].env);
            && after.origin == Some(Origin(Identity(before.cred.uid, steps[e].sid), before.cred.gid))
            && SandboxShape(after.cred, after.origin.value)
            && Admitted(outcome, steps[e].env).Some? && after.ns == Admitted(outcome, steps[e].env).value.ns
            && (outcome.Created? || JoinedAt(steps, e, n, t))
  {
    TasksAt(trace, steps, n);
    AccountedRun(trace, steps, n);
    e := EntryFollows(trace, steps, n, t);
    CommitShape(trace[n], t);
    TaskKept(trace[n], steps[n], t);
  }
}
