/**
 Task credentials: the credential prepared on entry, the test for a sandboxed caller, and the
 hooks that judge set*uid, set*gid, setgroups and exec.
 */
module Credentials {
  import opened SlotTable

  const AndroidUidRange: nat := 100000
  const AppidMin: nat := 10000
  const AppidMax: nat := 19999
  const RootUid: nat := 0
  const RootGid: nat := 0
  const CapSetgid: nat := 6

  datatype SecureBit =
    | NoRoot | NoRootLocked | NoSetuidFixup | NoSetuidFixupLocked
    | KeepCaps | KeepCapsLocked | NoCapAmbientRaise | NoCapAmbientRaiseLocked

  const SandboxSecureBits: set<SecureBit> :=
    {NoRoot, NoRootLocked, NoSetuidFixup, NoSetuidFixupLocked, KeepCapsLocked, NoCapAmbientRaise, NoCapAmbientRaiseLocked}

  datatype Caps = Caps(inheritable: set<nat>, permitted: set<nat>, effective: set<nat>, bset: set<nat>, ambient: set<nat>)

  const NoCaps := Caps({}, {}, {}, {}, {})

  datatype Security = Security(sid: nat, execSid: nat, createSid: nat, keycreateSid: nat, sockcreateSid: nat)

  datatype Cred = Cred(
    uid: nat, suid: nat, euid: nat, fsuid: nat,
    gid: nat, sgid: nat, egid: nat, fsgid: nat,
    caps: Caps, secureBits: set<SecureBit>, groups: seq<nat>, security: Security)

  /** The application a sandboxed task came from. */
  datatype Origin = Origin(id: Identity, gid: nat)

  predicate AppidInRange(uid: nat) { AppidMin <= uid % AndroidUidRange <= AppidMax }

  /** The credential every sandboxed task carries until it exits. */
  ghost predicate SandboxShape(cred: Cred, origin: Origin) {
    && cred.uid == cred.suid == cred.fsuid == origin.id.uid && cred.euid == RootUid
    && cred.gid == cred.sgid == cred.fsgid == origin.gid && cred.egid == RootGid
    && cred.caps == NoCaps && cred.secureBits == SandboxSecureBits && cred.groups == []
    && cred.security.sid == origin.id.sid
    && AppidInRange(origin.id.uid)
  }

  /** abk_prepare_sandbox_cred with its allocations granted. */
  function PreparedCred(cred: Cred, uid: nat, gid: nat, sid: nat): Cred {
    Cred(uid, uid, RootUid, uid, gid, gid, RootGid, gid, NoCaps, SandboxSecureBits, [], Security(sid, 0, 0, 0, 0))
  }

  /** abk_sandbox_current. */
  ghost predicate SandboxCurrent(slots: seq<Slot>, cred: Cred) {
    && cred.uid == cred.fsuid && cred.suid == cred.fsuid && cred.euid == RootUid
    && cred.gid == cred.fsgid && cred.sgid == cred.fsgid && cred.egid == RootGid
    && AppidInRange(cred.fsuid)
    && HasSlot(slots, Identity(cred.fsuid, cred.security.sid))
  }

  /** abk_cred_is_sandbox_peer: whom a sandboxed task of `uid` may trace and signal. */
  ghost predicate SandboxPeer(slots: seq<Slot>, cred: Cred, uid: nat) {
    && cred.uid == uid && cred.suid == uid && cred.euid == RootUid && cred.fsuid == uid
    && cred.gid == cred.fsgid && cred.sgid == cred.fsgid && cred.egid == RootGid
    && HasSlot(slots, Identity(uid, cred.security.sid))
  }

  // ----- hook verdicts; `current` is the answer of abk_sandbox_current -----

  predicate FixSetuid(current: bool, after: Cred, before: Cred) {
    current ==>
      && after.uid == before.uid && after.euid == before.euid
      && after.suid == before.suid && after.fsuid == before.fsuid
  }

  predicate FixSetgid(current: bool, after: Cred, before: Cred) {
    current ==>
      && after.gid == before.gid && after.egid == before.egid
      && after.sgid == before.sgid && after.fsgid == before.fsgid
  }

  predicate FixSetgroups(current: bool, after: Cred) {
    current ==> after.groups == []
  }

  function BprmCredsForExec(current: bool, caller: Cred, bprm: Cred): Cred {
    if current then bprm.(fsuid := caller.fsuid, fsgid := caller.fsgid, caps := NoCaps) else bprm
  }

  predicate BprmCheck(current: bool, caller: Cred, bprm: Cred) {
    current ==>
      && bprm.uid == caller.uid && bprm.euid == caller.euid && bprm.suid == caller.suid && bprm.fsuid == caller.fsuid
      && bprm.gid == caller.gid && bprm.egid == caller.egid && bprm.sgid == caller.sgid && bprm.fsgid == caller.fsgid
      && bprm.groups == [] && bprm.secureBits == caller.secureBits && bprm.caps == NoCaps
      && caller.security.sid == bprm.security.sid
  }

  function BprmCommitting(current: bool, caller: Cred, bprm: Cred): Cred {
    if current then
      bprm.(uid := caller.fsuid, suid := caller.fsuid, euid := RootUid, fsuid := caller.fsuid,
            gid := caller.fsgid, sgid := caller.fsgid, egid := RootGid, fsgid := caller.fsgid,
            caps := NoCaps, secureBits := SandboxSecureBits)
    else bprm
  }

  // ----- what the kernel may propose -----

  /** set*uid: only the four user IDs move, and the capabilities unless the setuid fixup is switched off. */
  ghost predicate KernelSetuid(before: Cred, after: Cred) {
    && after == before.(uid := after.uid, suid := after.suid, euid := after.euid, fsuid := after.fsuid, caps := after.caps)
    && (NoSetuidFixup in before.secureBits ==> after.caps == before.caps)
  }

  ghost predicate KernelSetgid(before: Cred, after: Cred) {
    after == before.(gid := after.gid, sgid := after.sgid, egid := after.egid, fsgid := after.fsgid)
  }

  ghost predicate KernelSetgroups(before: Cred, after: Cred) {
    after == before.(groups := after.groups) && CapSetgid in before.caps.effective
  }

  /** Between the check and the committing hook exec may rewrite IDs, capabilities and securebits at will. */
  ghost predicate ExecRewrite(checked: Cred, rewritten: Cred) {
    rewritten == checked.(uid := rewritten.uid, suid := rewritten.suid, euid := rewritten.euid, fsuid := rewritten.fsuid,
                          gid := rewritten.gid, sgid := rewritten.sgid, egid := rewritten.egid, fsgid := rewritten.fsgid,
                          caps := rewritten.caps, secureBits := rewritten.secureBits)
  }

  datatype CredChange =
    | Setuid(after: Cred)
    | Setgid(after: Cred)
    | Setgroups(after: Cred, hooked: bool)

  /** The change is one the kernel can attempt. */
  ghost predicate Possible(change: CredChange, before: Cred) {
    match change
    case Setuid(after) => KernelSetuid(before, after)
    case Setgid(after) => KernelSetgid(before, after)
    case Setgroups(after, _) => KernelSetgroups(before, after)
  }

  /** The credential after the attempt: the old one when a hook refuses. Before 6.1 setgroups has no hook. */
  function Attempt(current: bool, change: CredChange, before: Cred): Cred {
    match change
    case Setuid(after) => if FixSetuid(current, after, before) then after else before
    case Setgid(after) => if FixSetgid(current, after, before) then after else before
    case Setgroups(after, hooked) => if hooked && !FixSetgroups(current, after) then before else after
  }

  /** A sandboxed caller keeps its credential shape through every such attempt. */
  lemma AttemptKeepsShape(change: CredChange, before: Cred, origin: Origin)
    requires SandboxShape(before, origin) && Possible(change, before)
    ensures SandboxShape(Attempt(true, change, before), origin)
  {
    match change {
      case Setuid(after) =>
        assert NoSetuidFixup in before.secureBits;
      case _ =>
    }
  }

  /**
   Exec, whose check and commit ask about the sandbox separately: the committed credential has the shape exactly when
   the commit recognises the caller and the check had groups and SID right, which it ensures when it recognised the
   caller too; without a commit hook nothing but the shape itself would do.
   */
  lemma ExecShapeExactly(checkedAs: bool, committedAs: bool, before: Cred, checked: Cred, rewritten: Cred, origin: Origin)
    requires SandboxShape(before, origin) && BprmCheck(checkedAs, before, checked) && ExecRewrite(checked, rewritten)
    ensures SandboxShape(BprmCommitting(committedAs, before, rewritten), origin) <==>
            if committedAs then checked.groups == [] && checked.security.sid == origin.id.sid
            else SandboxShape(rewritten, origin)
    ensures checkedAs ==> checked.groups == [] && checked.security.sid == origin.id.sid
    ensures checkedAs && !committedAs ==>
              (SandboxShape(BprmCommitting(committedAs, before, rewritten), origin) <==>
               rewritten == before.(security := checked.security))
  {
    if SandboxShape(rewritten, origin) && checkedAs {
      assert rewritten.groups == before.groups == [];
      assert rewritten == before.(security := checked.security);
    }
  }

  /** So without the hooks an exec keeps the shape only if it rewrites nothing. */
  lemma UnmediatedExecEscapes(before: Cred, origin: Origin, rewritten: Cred)
    requires SandboxShape(before, origin) && ExecRewrite(before, rewritten)
    ensures SandboxShape(BprmCommitting(false, before, rewritten), origin) <==> rewritten == before
  {
    if SandboxShape(rewritten, origin) {
      assert rewritten.security == before.security && rewritten.groups == before.groups;
    }
  }

  /** An exec that nobody else interferes with passes the check, and changes nothing but what the hook clears. */
  lemma PlainExecAllowed(before: Cred, origin: Origin)
    requires SandboxShape(before, origin)
    ensures var prepared := BprmCredsForExec(true, before, before);
            BprmCheck(true, before, prepared) && BprmCommitting(true, before, prepared) == before
  {
  }

  /** A caller that is not recognised is left alone: every change goes through and every exec is what the kernel made it. */
  lemma UnrecognisedUntouched(change: CredChange, caller: Cred, bprm: Cred)
    ensures Attempt(false, change, caller) == change.after
    ensures BprmCredsForExec(false, caller, bprm) == bprm && BprmCheck(false, caller, bprm)
    ensures BprmCommitting(false, caller, bprm) == bprm
  {
  }

  /** For a sandboxed caller the hooks let a change through if and only if its result still has the shape. */
  lemma HooksAreExact(before: Cred, after: Cred, origin: Origin)
    requires SandboxShape(before, origin)
    ensures KernelSetuid(before, after) ==> (FixSetuid(true, after, before) <==> SandboxShape(after, origin))
    ensures KernelSetgid(before, after) ==> (FixSetgid(true, after, before) <==> SandboxShape(after, origin))
    ensures after == before.(groups := after.groups) ==> (FixSetgroups(true, after) <==> SandboxShape(after, origin))
    ensures BprmCheck(true, before, after) <==> SandboxShape(after, origin)
  {
    assert NoSetuidFixup in before.secureBits;
  }

  /** So an attempt ends with its result if that has the shape, and otherwise changes nothing. */
  lemma AttemptExactly(change: CredChange, before: Cred, origin: Origin)
    requires SandboxShape(before, origin) && Possible(change, before)
    ensures Attempt(true, change, before) == if SandboxShape(change.after, origin) then change.after else before
  {
    HooksAreExact(before, change.after, origin);
  }

  /** What the hooks do not look at. */
  function Bare(cred: Cred): Cred { cred.(caps := NoCaps, secureBits := SandboxSecureBits, groups := []) }

  /**
   Who is recognised: exactly a caller whose credential, apart from capabilities, secure bits and groups, is that of a
   sandbox with a slot.
   */
  lemma RecognisedIff(slots: seq<Slot>, cred: Cred)
    ensures SandboxCurrent(slots, cred) <==>
              exists origin: Origin :: HasSlot(slots, origin.id) && SandboxShape(Bare(cred), origin)
  {
    var origin := Origin(Identity(cred.fsuid, cred.security.sid), cred.fsgid);
    if SandboxCurrent(slots, cred) {
      assert SandboxShape(Bare(cred), origin);
    }
    if other: Origin :| HasSlot(slots, other.id) && SandboxShape(Bare(cred), other) {
      assert other.id == origin.id;
    }
  }

  /** The peers of an application are its own recognised tasks. */
  lemma PeerIff(slots: seq<Slot>, cred: Cred, uid: nat)
    requires AppidInRange(uid)
    ensures SandboxPeer(slots, cred, uid) <==> SandboxCurrent(slots, cred) && cred.fsuid == uid
  {
  }

  lemma ShapeIsCurrent(slots: seq<Slot>, cred: Cred, origin: Origin)
    requires SandboxShape(cred, origin)
    ensures SandboxCurrent(slots, cred) <==> HasSlot(slots, origin.id)
    ensures SandboxPeer(slots, cred, origin.id.uid) <==> HasSlot(slots, origin.id)
    ensures forall uid :: SandboxPeer(slots, cred, uid) ==> uid == origin.id.uid
  {
    assert Identity(cred.fsuid, cred.security.sid) == origin.id;
  }

  /** A credential under construction, written field by field as the kernel code does. */
  class Credential {
    var uid: nat
    var suid: nat
    var euid: nat
    var fsuid: nat
    var gid: nat
    var sgid: nat
    var egid: nat
    var fsgid: nat
    var capInheritable: set<nat>
    var capPermitted: set<nat>
    var capEffective: set<nat>
    var capBset: set<nat>
    var capAmbient: set<nat>
    var secureBits: set<SecureBit>
    var groups: seq<nat>
    var security: Security

    constructor (cred: Cred)
      ensures View() == cred
    {
      uid, suid, euid, fsuid := cred.uid, cred.suid, cred.euid, cred.fsuid;
      gid, sgid, egid, fsgid := cred.gid, cred.sgid, cred.egid, cred.fsgid;
      capInheritable, capPermitted, capEffective := cred.caps.inheritable, cred.caps.permitted, cred.caps.effective;
      capBset, capAmbient := cred.caps.bset, cred.caps.ambient;
      secureBits, groups, security := cred.secureBits, cred.groups, cred.security;
    }

    function View(): Cred
      reads this
    {
      Cred(uid, suid, euid, fsuid, gid, sgid, egid, fsgid,
           Caps(capInheritable, capPermitted, capEffective, capBset, capAmbient), secureBits, groups, security)
    }

    method ClearCaps()
      modifies `capInheritable, `capPermitted, `capEffective, `capBset, `capAmbient
      ensures View() == old(View()).(caps := NoCaps)
    {
      capInheritable := {};
      capPermitted := {};
      capEffective := {};
      capBset := {};
      capAmbient := {};
    }

    method SetUids(originUid: nat)
      modifies `uid, `suid, `euid, `fsuid
      ensures View() == old(View()).(uid := originUid, suid := originUid, euid := RootUid, fsuid := originUid)
    {
      uid := originUid;
      suid := originUid;
      euid := RootUid;
      fsuid := originUid;
    }

    method SetGids(originGid: nat)
      modifies `gid, `sgid, `egid, `fsgid
      ensures View() == old(View()).(gid := originGid, sgid := originGid, egid := RootGid, fsgid := originGid)
    {
      gid := originGid;
      sgid := originGid;
      egid := RootGid;
      fsgid := originGid;
    }

    /**
     abk_prepare_sandbox_cred; without an empty group list or a security blob it fails, and the credential must be thrown
     away. The error numbers are those of ENOMEM and EACCES.
     */
    method PrepareSandbox(originUid: nat, originGid: nat, targetSid: nat, groupsAllocated: bool, blobPresent: bool)
      returns (error: int)
      modifies this
      ensures error == if !groupsAllocated then -12 else if !blobPresent then -13 else 0
      ensures error == 0 ==> View() == PreparedCred(old(View()), originUid, originGid, targetSid)
      ensures error == 0 && AppidInRange(originUid) ==>
                SandboxShape(View(), Origin(Identity(originUid, targetSid), originGid))
    {
      SetUids(originUid);
      SetGids(originGid);
      ClearCaps();
      secureBits := SandboxSecureBits;
      if !groupsAllocated {
        return -12;
      }
      groups := [];
      if !blobPresent {
        return -13;
      }
      security := Security(targetSid, 0, 0, 0, 0);
      return 0;
    }

    /** abk_bprm_creds_for_exec on the credential being built for `old`'s exec. */
    method PrepareExec(current: bool, task: Cred)
      modifies this
      ensures View() == BprmCredsForExec(current, task, old(View()))
    {
      if !current {
        return;
      }
      fsuid := task.fsuid;
      fsgid := task.fsgid;
      ClearCaps();
    }

    /** abk_bprm_committing_creds. */
    method CommitExec(current: bool, task: Cred)
      modifies this
      ensures View() == BprmCommitting(current, task, old(View()))
    {
      if !current {
        return;
      }
      SetUids(task.fsuid);
      SetGids(task.fsgid);
      ClearCaps();
      secureBits := SandboxSecureBits;
    }
  }
}
