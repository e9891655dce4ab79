/** The results over whole runs: what holds in all of them, and exactly when the rest does. */
module SandboxRuns {
  import opened Sequences
  import opened SlotTable
  import opened SlotTableFacts
  import opened SandboxSystem
  import opened EntryAccounting
  import opened Revocation
  import opened References
  import opened MountReferences
  import opened MountCalls
  import opened PendingRecords

  // ----- every run -----

  /**
   In every run: an allocated slot is exactly one of ready and revoking, a free one neither; a full UID has one
   slot at most; entries equal the tasks inside an entry; the ledger counters equal their records and the quota holds.
   */
  lemma TableInEveryRun(trace: seq<State>, steps: seq<Step>, n: nat)
    requires IsRun(trace, steps) && n < |trace|
    ensures TableOk(trace[n].slots) && EntrantsOk(trace[n])
    ensures forall i, j | 0 <= i < |trace[n].slots| && 0 <= j < |trace[n].slots| && trace[n].slots[i].inUse &&
                          trace[n].slots[j].inUse && trace[n].slots[i].uid == trace[n].slots[j].uid :: i == j
  {
    AccountedRun(trace, steps, n);
  }

  /** No completion is unmatched: the slot is there, it is the only one of the UID, and its count is positive. */
  lemma CompletionIsMatched(trace: seq<State>, steps: seq<Step>, n: nat)
    requires IsRun(trace, steps) && n < |steps| && steps[n].Complete?
    ensures Enabled(trace[n], steps[n])
    ensures var id := trace[n].tasks[steps[n].t].stage.id;
            var k := FirstIndex(trace[n].slots, HeldBy(id.uid, id.sid));
            k < |trace[n].slots| && trace[n].slots[k].entrants > 0
  {
    AccountedRun(trace, steps, n);
    assert StepOk(trace, steps, n);
    var h := HomeOf(trace[n], steps[n].t);
    var id := trace[n].tasks[steps[n].t].stage.id;
    EntryCompleteOutcome(trace[n].slots, id.uid, id.sid, h);
    assert HeldBy(id.uid, id.sid)(trace[n].slots[h]);
    var k := FirstIndex(trace[n].slots, HeldBy(id.uid, id.sid));
    assert k <= h;
  }

  // ----- references, in every run -----

  /** Every reference taken and not yet dropped is held by a slot, a record, a task in a call or a worker. */
  ghost predicate Conserved(s: State) { FilesConserved(s) && MountsConserved(s) }

  lemma StartsConserved(s: State)
    requires Init(s)
    ensures Conserved(s) && Shared(s) && PendingOk(s)
  {
    forall k | 0 <= k < |s.slots| ensures SlotFiles(s.slots[k]) == multiset{} && SlotMnts(s.slots[k]) == multiset{} {}
    TotalEmpty(SlotFiles, s.slots);
    TotalEmpty(SlotMnts, s.slots);
    forall t | 0 <= t < |s.tasks| ensures TaskFiles(s.tasks[t]) == multiset{} && TaskMnts(s.tasks[t]) == multiset{} {}
    TotalEmpty(TaskFiles, s.tasks);
    TotalEmpty(TaskMnts, s.tasks);
  }

  /** A step keeps the accounts if and only if it is not a release of a slot that still holds something. */
  lemma ConservesExactly(s: State, step: Step)
    requires Enabled(s, step) && Accounted(s) && Conserved(s)
    ensures Conserved(Apply(s, step)) <==> EmptyRelease(s, step)
  {
    if EmptyRelease(s, step) {
      FilesStep(s, step);
      MountsStep(s, step);
    } else {
      var k :| 0 <= k < |s.slots| && Releasable(s.slots[k], s.requests[step.r].uid) && HoldsReference(s.slots[k]);
      ReleaseLoses(s, step.r, k);
    }
  }

  ghost predicate EmptyAt(trace: seq<State>, steps: seq<Step>, i: nat)
    requires i < |steps| < |trace|
  {
    EmptyRelease(trace[i], steps[i])
  }

  ghost predicate EmptyReleases(trace: seq<State>, steps: seq<Step>, n: nat)
    requires |trace| == |steps| + 1 && n <= |steps|
  {
    forall i :: 0 <= i < n ==> EmptyAt(trace, steps, i)
  }

  lemma ConservedNext(trace: seq<State>, steps: seq<Step>, i: nat)
    requires IsRun(trace, steps) && i < |steps| && Conserved(trace[i])
    ensures Conserved(trace[i + 1]) <==> EmptyAt(trace, steps, i)
  {
    AccountedRun(trace, steps, i);
    assert StepOk(trace, steps, i);
    ConservesExactly(trace[i], steps[i]);
  }

  lemma {:induction false} ConservedUpTo(trace: seq<State>, steps: seq<Step>, n: nat)
    requires IsRun(trace, steps) && n < |trace| && EmptyReleases(trace, steps, n)
    ensures Conserved(trace[n])
  {
    if n == 0 {
      StartsConserved(trace[0]);
    } else {
      ConservedUpTo(trace, steps, n - 1);
      assert EmptyAt(trace, steps, n - 1);
      ConservedNext(trace, steps, n - 1);
    }
  }

  /** Whatever revocations overlap: no reference is ever lost if and only if every release so far freed empty slots. */
  lemma ConservedExactly(trace: seq<State>, steps: seq<Step>, n: nat)
    requires IsRun(trace, steps) && n < |trace|
    ensures (forall i :: 0 <= i <= n ==> Conserved(trace[i])) <==> EmptyReleases(trace, steps, n)
  {
    if EmptyReleases(trace, steps, n) {
      forall i | 0 <= i <= n ensures Conserved(trace[i]) { ConservedUpTo(trace, steps, i); }
    }
    if forall i :: 0 <= i <= n ==> Conserved(trace[i]) {
      forall i | 0 <= i < n ensures EmptyAt(trace, steps, i) {
        assert Conserved(trace[i]) && Conserved(trace[i + 1]);
        ConservedNext(trace, steps, i);
      }
    }
  }

  // ----- the first hypothesis is enough for both -----

  lemma OneRevocationIsSafe(trace: seq<State>, steps: seq<Step>, n: nat)
    requires IsRun(trace, steps) && ObeysOneRevocation(trace, steps) && n < |trace|
    ensures SafeReleases(trace, steps, n) && EmptyReleases(trace, steps, n)
  {
    forall i | 0 <= i < n ensures SafeAt(trace, steps, i) && EmptyAt(trace, steps, i) {
      SecuredRun(trace, steps, i);
      assert StepOk(trace, steps, i);
      SecuredReleases(trace[i], steps[i]);
      SecuredReleasesEmpty(trace[i], steps[i]);
    }
  }

  /** Conservation: with one revocation at a time no reference is lost or dropped twice. */
  lemma ConservedRun(trace: seq<State>, steps: seq<Step>, n: nat)
    requires IsRun(trace, steps) && ObeysOneRevocation(trace, steps) && n < |trace|
    ensures Conserved(trace[n])
  {
    OneRevocationIsSafe(trace, steps, n);
    ConservedUpTo(trace, steps, n);
  }

  /** Nobody is inside a call, no request is unfinished and no slot is in use. */
  ghost predicate AtRest(s: State) {
    && (forall t :: 0 <= t < |s.tasks| ==> s.tasks[t].stage.User?)
    && (forall r :: 0 <= r < |s.requests| ==> !Active(s.requests[r]))
    && (forall k :: 0 <= k < |s.slots| ==> !s.slots[k].inUse)
  }

  lemma NoFileAtRest(s: State)
    requires AtRest(s) && FilesConserved(s)
    ensures s.fileRefs == multiset{}
  {
    forall k | 0 <= k < |s.slots| ensures SlotFiles(s.slots[k]) == multiset{} {}
    TotalEmpty(SlotFiles, s.slots);
    forall t | 0 <= t < |s.tasks| ensures TaskFiles(s.tasks[t]) == multiset{} {}
    TotalEmpty(TaskFiles, s.tasks);
    forall r | 0 <= r < |s.requests| ensures RequestFiles(s.requests[r]) == multiset{} {}
    TotalEmpty(RequestFiles, s.requests);
  }

  lemma NoMountAtRest(s: State)
    requires AtRest(s) && MountsConserved(s) && TableOk(s.slots)
    ensures s.mntRefs == multiset{}
  {
    forall k | 0 <= k < |s.slots| ensures SlotMnts(s.slots[k]) == multiset{} { assert SlotOk(s.slots[k]); }
    TotalEmpty(SlotMnts, s.slots);
    forall t | 0 <= t < |s.tasks| ensures TaskMnts(s.tasks[t]) == multiset{} {}
    TotalEmpty(TaskMnts, s.tasks);
    forall r | 0 <= r < |s.requests| ensures RequestMnts(s.requests[r]) == multiset{} {}
    TotalEmpty(RequestMnts, s.requests);
  }

  /** At rest every reference has been dropped, if releases freed empty slots. */
  lemma NothingLeaks(trace: seq<State>, steps: seq<Step>, n: nat)
    requires IsRun(trace, steps) && n < |trace| && EmptyReleases(trace, steps, n) && AtRest(trace[n])
    ensures trace[n].fileRefs == multiset{} && trace[n].mntRefs == multiset{}
  {
    ConservedUpTo(trace, steps, n);
    AccountedRun(trace, steps, n);
    NoFileAtRest(trace[n]);
    NoMountAtRest(trace[n]);
  }

  // ----- one namespace per UID -----

  lemma SharedNext(trace: seq<State>, steps: seq<Step>, i: nat)
    requires IsRun(trace, steps) && i < |steps| && SafeReleases(trace, steps, i) && Shared(trace[i])
    ensures Shared(trace[i + 1])
  {
    RecognisedRun(trace, steps, i);
    assert StepOk(trace, steps, i);
    SharedStep(trace[i], steps[i]);
  }

  lemma {:induction false} SharedRun(trace: seq<State>, steps: seq<Step>, n: nat)
    requires IsRun(trace, steps) && n < |trace| && SafeReleases(trace, steps, n)
    ensures Shared(trace[n])
  {
    if n == 0 {
      StartsConserved(trace[0]);
    } else {
      SharedRun(trace, steps, n - 1);
      SharedNext(trace, steps, n - 1);
    }
  }

  lemma {:induction false} EntriesShareRun(trace: seq<State>, steps: seq<Step>, n: nat)
    requires IsRun(trace, steps) && n < |trace|
    ensures EntriesShare(trace[n])
  {
    if n > 0 {
      EntriesShareRun(trace, steps, n - 1);
      AccountedRun(trace, steps, n - 1);
      assert StepOk(trace, steps, n - 1);
      EntriesShareStep(trace[n - 1], steps[n - 1]);
    }
  }

  /**
   In every run, whatever revocations overlap: entries in progress for one UID have one identity and are bound for one
   namespace, that of the ready slot of the UID as long as there is one.
   */
  lemma ConcurrentEntriesShare(trace: seq<State>, steps: seq<Step>, n: nat, t: TaskId, u: TaskId)
    requires IsRun(trace, steps) && n < |trace| && t < |trace[n].tasks| && u < |trace[n].tasks|
    requires EntryNs(trace[n].tasks[t]).Some? && EntryNs(trace[n].tasks[u]).Some?
    requires trace[n].tasks[t].stage.id.uid == trace[n].tasks[u].stage.id.uid
    ensures EntryNs(trace[n].tasks[t]) == EntryNs(trace[n].tasks[u])
    ensures trace[n].tasks[t].stage.id == trace[n].tasks[u].stage.id
    ensures forall k :: 0 <= k < |trace[n].slots| && trace[n].slots[k].inUse && trace[n].slots[k].ready &&
                        trace[n].slots[k].uid == trace[n].tasks[t].stage.id.uid ==>
                          trace[n].slots[k].file.Some? && EntryNs(trace[n].tasks[t]) == Some(trace[n].slots[k].file.value.ns)
  {
    var s := trace[n];
    EntriesShareRun(trace, steps, n);
    AccountedRun(trace, steps, n);
    assert SameEntry(s.tasks[t], s.tasks[u]);
    var h := HomeOf(s, t);
    var i := HomeOf(s, u);
    forall k | 0 <= k < |s.slots| ensures EntersSlot(s.slots[k], s.tasks[t]) {}
  }

  /** While releases are safe, all entered tasks of one UID live in one namespace: that of its only ready slot. */
  lemma OneNamespacePerUid(trace: seq<State>, steps: seq<Step>, n: nat, t: TaskId, u: TaskId, k: nat)
    requires IsRun(trace, steps) && n < |trace| && SafeReleases(trace, steps, n)
    requires t < |trace[n].tasks| && u < |trace[n].tasks| && Sandboxed(trace[n].tasks[t]) && Sandboxed(trace[n].tasks[u])
    requires k < |trace[n].slots| && trace[n].slots[k].inUse && trace[n].slots[k].ready
    requires trace[n].tasks[t].origin.value.id.uid == trace[n].slots[k].uid == trace[n].tasks[u].origin.value.id.uid
    ensures trace[n].slots[k].file.Some?
    ensures trace[n].tasks[t].ns == trace[n].tasks[u].ns == trace[n].slots[k].file.value.ns
    ensures trace[n].tasks[t].origin.value.id == trace[n].tasks[u].origin.value.id
  {
    var s := trace[n];
    SharedRun(trace, steps, n);
    RecognisedRun(trace, steps, n);
    SandboxedSlot(s, t, k);
    SandboxedSlot(s, u, k);
    assert InNamespace(s.slots[k], s.tasks[t]) && InNamespace(s.slots[k], s.tasks[u]);
  }

  // ----- pending records -----

  ghost predicate AbandonsAt(trace: seq<State>, steps: seq<Step>, i: nat)
    requires i < |steps| < |trace|
  {
    Abandons(trace[i], steps[i])
  }

  ghost predicate RevivesAt(trace: seq<State>, steps: seq<Step>, i: nat)
    requires i < |steps| < |trace|
  {
    Revives(trace[i], steps[i])
  }

  ghost predicate NothingAbandoned(trace: seq<State>, steps: seq<Step>, n: nat)
    requires |trace| == |steps| + 1 && n <= |steps|
  {
    forall i :: 0 <= i < n ==> !AbandonsAt(trace, steps, i)
  }

  ghost predicate NoRevival(trace: seq<State>, steps: seq<Step>, n: nat)
    requires |trace| == |steps| + 1 && n <= |steps|
  {
    forall i :: 0 <= i < n ==> !RevivesAt(trace, steps, i)
  }

  lemma OrphansNext(trace: seq<State>, steps: seq<Step>, i: nat)
    requires IsRun(trace, steps) && i < |steps| && NoOrphan(trace[i])
    ensures NoOrphan(trace[i + 1]) <==> !AbandonsAt(trace, steps, i)
  {
    AccountedRun(trace, steps, i);
    assert StepOk(trace, steps, i);
    OrphansExactly(trace[i], steps[i]);
  }

  lemma {:induction false} NoOrphanUpTo(trace: seq<State>, steps: seq<Step>, n: nat)
    requires IsRun(trace, steps) && n < |trace| && NothingAbandoned(trace, steps, n)
    ensures NoOrphan(trace[n])
  {
    if n == 0 {
      StartsConserved(trace[0]);
      OneToOneOrphansNone(trace[0]);
    } else {
      NoOrphanUpTo(trace, steps, n - 1);
      assert !AbandonsAt(trace, steps, n - 1);
      OrphansNext(trace, steps, n - 1);
    }
  }

  /**
   Whatever revocations overlap: no ready slot has ever had a pending record without its call if and only if no call so
   far left while it owned one, unrecognised or at a comparison that failed.
   */
  lemma OrphansExactlyInRuns(trace: seq<State>, steps: seq<Step>, n: nat)
    requires IsRun(trace, steps) && n < |trace|
    ensures (forall i :: 0 <= i <= n ==> NoOrphan(trace[i])) <==> NothingAbandoned(trace, steps, n)
  {
    if NothingAbandoned(trace, steps, n) {
      forall i | 0 <= i <= n ensures NoOrphan(trace[i]) { NoOrphanUpTo(trace, steps, i); }
    }
    if forall i :: 0 <= i <= n ==> NoOrphan(trace[i]) {
      forall i | 0 <= i < n ensures !AbandonsAt(trace, steps, i) {
        assert NoOrphan(trace[i]) && NoOrphan(trace[i + 1]);
        OrphansNext(trace, steps, i);
      }
    }
  }

  lemma PendingNext(trace: seq<State>, steps: seq<Step>, i: nat)
    requires IsRun(trace, steps) && i < |steps| && PendingOk(trace[i])
    ensures PendingOk(trace[i + 1]) <==> !AbandonsAt(trace, steps, i) && !RevivesAt(trace, steps, i)
  {
    AccountedRun(trace, steps, i);
    assert StepOk(trace, steps, i);
    PendingExactly(trace[i], steps[i]);
  }

  lemma {:induction false} PendingUpTo(trace: seq<State>, steps: seq<Step>, n: nat)
    requires IsRun(trace, steps) && n < |trace| && NothingAbandoned(trace, steps, n) && NoRevival(trace, steps, n)
    ensures PendingOk(trace[n])
  {
    if n == 0 {
      StartsConserved(trace[0]);
    } else {
      PendingUpTo(trace, steps, n - 1);
      assert !AbandonsAt(trace, steps, n - 1) && !RevivesAt(trace, steps, n - 1);
      PendingNext(trace, steps, n - 1);
    }
  }

  /**
   And the records have always been one-to-one with the calls in progress if and only if, besides, no entry made a new
   slot for a UID with a call whose record went with the old one.
   */
  lemma PendingExactlyInRuns(trace: seq<State>, steps: seq<Step>, n: nat)
    requires IsRun(trace, steps) && n < |trace|
    ensures (forall i :: 0 <= i <= n ==> PendingOk(trace[i])) <==>
              NothingAbandoned(trace, steps, n) && NoRevival(trace, steps, n)
  {
    if NothingAbandoned(trace, steps, n) && NoRevival(trace, steps, n) {
      forall i | 0 <= i <= n ensures PendingOk(trace[i]) { PendingUpTo(trace, steps, i); }
    }
    if forall i :: 0 <= i <= n ==> PendingOk(trace[i]) {
      forall i | 0 <= i < n ensures !AbandonsAt(trace, steps, i) && !RevivesAt(trace, steps, i) {
        assert PendingOk(trace[i]) && PendingOk(trace[i + 1]);
        PendingNext(trace, steps, i);
      }
    }
  }

  // ----- pending records while releases are safe -----

  ghost predicate HonestAt(trace: seq<State>, steps: seq<Step>, i: nat)
    requires i < |steps| < |trace|
  {
    HonestCompare(trace[i], steps[i])
  }

  ghost predicate HonestCompares(trace: seq<State>, steps: seq<Step>, n: nat)
    requires |trace| == |steps| + 1 && n <= |steps|
  {
    forall i :: 0 <= i < n ==> HonestAt(trace, steps, i)
  }

  lemma HonestNext(trace: seq<State>, steps: seq<Step>, i: nat)
    requires IsRun(trace, steps) && i < |steps| && SafeReleases(trace, steps, i) && PendingOk(trace[i])
    ensures PendingOk(trace[i + 1]) <==> HonestAt(trace, steps, i)
  {
    SharedRun(trace, steps, i);
    RecognisedRun(trace, steps, i);
    assert StepOk(trace, steps, i);
    PendingWhenRecognised(trace[i], steps[i]);
  }

  lemma {:induction false} HonestUpTo(trace: seq<State>, steps: seq<Step>, n: nat)
    requires IsRun(trace, steps) && n < |trace| && SafeReleases(trace, steps, n) && HonestCompares(trace, steps, n)
    ensures PendingOk(trace[n])
  {
    if n == 0 {
      StartsConserved(trace[0]);
    } else {
      HonestUpTo(trace, steps, n - 1);
      assert HonestAt(trace, steps, n - 1);
      HonestNext(trace, steps, n - 1);
    }
  }

  /** The case of safe releases: then a spurious comparison is the only way to break the correspondence. */
  lemma PendingWhenSafe(trace: seq<State>, steps: seq<Step>, n: nat)
    requires IsRun(trace, steps) && n < |trace| && SafeReleases(trace, steps, n)
    ensures (forall i :: 0 <= i <= n ==> PendingOk(trace[i])) <==> HonestCompares(trace, steps, n)
  {
    if HonestCompares(trace, steps, n) {
      forall i | 0 <= i <= n ensures PendingOk(trace[i]) { HonestUpTo(trace, steps, i); }
    }
    if forall i :: 0 <= i <= n ==> PendingOk(trace[i]) {
      forall i | 0 <= i < n ensures HonestAt(trace, steps, i) {
        assert PendingOk(trace[i]) && PendingOk(trace[i + 1]);
        HonestNext(trace, steps, i);
      }
    }
  }

  /** Under both hypotheses a ready slot's pending records are the reservations of the calls in progress. */
  lemma PendingRun(trace: seq<State>, steps: seq<Step>, n: nat)
    requires IsRun(trace, steps) && ObeysOneRevocation(trace, steps) && ObeysHonestCompare(trace, steps) && n < |trace|
    ensures PendingOk(trace[n])
  {
    OneRevocationIsSafe(trace, steps, n);
    forall i | 0 <= i < n ensures HonestAt(trace, steps, i) { assert StepOk(trace, steps, i); }
    HonestUpTo(trace, steps, n);
  }

  // ----- what a release that is not empty loses -----

  lemma {:induction false} TotalDrops<T, V>(f: T -> multiset<V>, s: seq<T>, t: seq<T>, k: nat, v: V)
    requires |s| == |t| && k < |s|
    requires forall i :: 0 <= i < |s| ==> f(t[i]) <= f(s[i])
    requires f(t[k])[v] < f(s[k])[v]
    ensures Total(f, t)[v] < Total(f, s)[v]
    decreases |s|
  {
    assert f(t[0]) <= f(s[0]);
    forall i | 0 <= i < |s[1..]| ensures f(t[1..][i]) <= f(s[1..][i]) { assert f(t[i + 1]) <= f(s[i + 1]); }
    if k > 0 {
      TotalDrops(f, s[1..], t[1..], k - 1, v);
    } else {
      TotalBelow(f, s[1..], t[1..]);
    }
  }

  lemma {:induction false} TotalBelow<T, V>(f: T -> multiset<V>, s: seq<T>, t: seq<T>)
    requires |s| == |t|
    requires forall i :: 0 <= i < |s| ==> f(t[i]) <= f(s[i])
    ensures Total(f, t) <= Total(f, s)
    decreases |s|
  {
    if s != [] {
      assert f(t[0]) <= f(s[0]);
      forall i | 0 <= i < |s[1..]| ensures f(t[1..][i]) <= f(s[1..][i]) { assert f(t[i + 1]) <= f(s[i + 1]); }
      TotalBelow(f, s[1..], t[1..]);
    }
  }

  lemma ReleaseOthers(s: State, r: nat)
    requires Enabled(s, Release(r))
    ensures var after := Apply(s, Release(r));
            && after.slots == ReleaseSlots(s.slots, s.requests[r].uid) && after.tasks == s.tasks
            && after.fileRefs == s.fileRefs && after.mntRefs == s.mntRefs
            && Total(RequestFiles, after.requests) == Total(RequestFiles, s.requests)
            && Total(RequestMnts, after.requests) == Total(RequestMnts, s.requests)
  {
    var after := Apply(s, Release(r));
    TotalPointwise(RequestFiles, s.requests, after.requests);
    TotalPointwise(RequestMnts, s.requests, after.requests);
  }

  lemma ReleaseLoses(s: State, r: nat, k: nat)
    requires Enabled(s, Release(r)) && MountsConserved(s)
    requires k < |s.slots| && Releasable(s.slots[k], s.requests[r].uid) && HoldsReference(s.slots[k])
    ensures !Conserved(Apply(s, Release(r)))
  {
    if s.slots[k].file.Some? {
      var after := Apply(s, Release(r));
      assert !after.slots[k].inUse && after.slots[k].file.Some?;
    } else {
      ReleaseLosesMount(s, r, k);
    }
  }

  lemma ReleaseLosesMount(s: State, r: nat, k: nat)
    requires Enabled(s, Release(r)) && MountsConserved(s) && k < |s.slots| && Releasable(s.slots[k], s.requests[r].uid)
    requires s.slots[k].file.None? && HoldsReference(s.slots[k])
    ensures !MountsConserved(Apply(s, Release(r)))
  {
    var after := ReleaseSlots(s.slots, s.requests[r].uid);
    ReleaseOthers(s, r);
    var ms := s.slots[k].mounts.value;
    var j :| 0 <= j < |ms| && ms[j].mnt.Some?;
    var v := ms[j].mnt.value;
    TotalAtLeast(RecordMnt, ms, j);
    assert v in RecordMnt(ms[j]);
    assert SlotMnts(after[k])[v] == 0 < SlotMnts(s.slots[k])[v];
    ReleaseShrinks(s.slots, s.requests[r].uid);
    TotalDrops(SlotMnts, s.slots, after, k, v);
    assert HeldMounts(Apply(s, Release(r)))[v] < HeldMounts(s)[v];
  }

  lemma ReleaseShrinks(slots: seq<Slot>, uid: nat)
    ensures forall i :: 0 <= i < |slots| ==> SlotMnts(ReleaseSlots(slots, uid)[i]) <= SlotMnts(slots[i])
  {
  }
}
