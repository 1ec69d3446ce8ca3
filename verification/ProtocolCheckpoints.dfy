/**
 What a checkpoint achieves, from every reachable state: undisturbed it is acknowledged and
 selected, whatever temporaries were left behind, and it fails only for a reason.
 */
module ProtocolCheckpoints {
  import opened Wrappers
  import opened CrashFs
  import opened Protocol
  import opened ProtocolInvariant
  import opened ProtocolPreserved
  import opened ProtocolTheorems
  import opened ProtocolRestores
  import opened ProtocolFallback
  import opened ProtocolProgress
  import ProtocolData
  import MetadataText
  import ImageFormat

  function Other(slot: Slot): Slot {
    if slot == A then B else A
  }

  // ---- The calls that are left ----

  /** How many calls the checkpoint has before it, if all of them succeed. */
  function Left(s: Sys, q: Proc): nat {
    match q
    case CkStart => if Meta in s.fs.entries then 16 else 14
    case CkAccessMeta => if Meta in s.fs.entries then 15 else 13
    case CkOpenMeta => if Meta in s.fs.entries then 14 else 13
    case CkReadMeta(_) => 13
    case CkOpenTmp(_, _) => 12
    case CkWrite(_, _, _) => 11
    case CkFsync(_, _, _, _) => 10
    case CkRename(_, _, _, _) => 9
    case CkFsyncDir(_, _, _) => 8
    case CkManifest(_, _, _) => 7
    case CkOpenMetaTmp(_, _, _) => 6
    case CkWriteMeta(_, _, _, _) => 5
    case CkFsyncMeta(_, _, _, _) => 4
    case CkRenameMeta(_, _, _, _) => 3
    case CkFsyncRoot(_, _, _, _) => 2
    case _ => 1
  }

  /** The slot of the next checkpoint: the one that metadata does not name, and A without metadata. */
  function Target(fs: Fs): Slot {
    if Meta in fs.entries && SelectedSlot(fs) == Some(A) then B else A
  }

  /** Where the checkpoint of capture `n` is, and how far its image `c` has come on its way into `slot`. */
  ghost predicate Reached(s: Sys, q: Proc, slot: Slot, n: nat, c: Content) {
    if q.CkStart? || q.CkAccessMeta? || q.CkOpenMeta? || q.CkReadMeta? then
      s.nextNumber == n && Target(s.fs) == slot && (q.CkStart? ==> s.lock.None?)
    else if q.CkOpenTmp? || q.CkWrite? then s.nextNumber == n && q.slot == slot
    else
      && s.nextNumber == n + 1
      && (Carries(q) || q.CkUnlock?)
      && (Carries(q) ==> q.slot == slot && q.number == n)
      && (q.CkFsync? || q.CkRename? ==> Holds(s.fs, q.ino, c))
      && (!q.CkFsync? && !q.CkRename? ==> InSlot(s.fs, slot) == Some(c))
      && (q.CkFsyncRoot? || q.CkUnlock? ==> SelectedSlot(s.fs) == Some(slot))
      && (q.CkUnlock? ==> s.acked == n)
  }

  predicate Holds(fs: Fs, ino: nat, c: Content) {
    ino in fs.inodes && fs.inodes[ino].content == c
  }

  /** A successful call that is neither the last nor in vain: the checkpoint of `c` has one call less before it. */
  ghost predicate MovesOn(s: Sys, p: Pid, s': Sys, slot: Slot, n: nat, c: Content) {
    && p in s.procs && p in s'.procs && s'.procs == s.procs[p := s'.procs[p]] && s'.lock == Some(p)
    && Reached(s', s'.procs[p], slot, n, c)
    && Left(s', s'.procs[p]) == Left(s, s.procs[p]) - 1
  }

  lemma StartMoves(s: Sys, p: Pid, o: Outcome, s': Sys, slot: Slot, n: nat, c: Content)
    requires p in s.procs && s.procs[p].CkStart? && o.ok && s' == AtLock(s, p, o)
    requires Reached(s, s.procs[p], slot, n, c)
    ensures MovesOn(s, p, s', slot, n, c)
  {
    hide SelectedSlot;
  }

  lemma LookupMoves(s: Sys, p: Pid, o: Outcome, s': Sys, slot: Slot, n: nat, c: Content)
    requires p in s.procs && (s.procs[p].CkAccessMeta? || s.procs[p].CkOpenMeta? || s.procs[p].CkReadMeta?)
    requires o.ok && s' == AtMetaLookup(s, p, s.procs[p], o) && Reached(s, s.procs[p], slot, n, c)
    requires Inv(s)
    ensures MovesOn(s, p, s', slot, n, c)
  {
    hide Inv, SelectedSlot, NextSlot, ReadSlot, InSlot, WriterInv, ReaderInv, History, StoreInv, Contents, Closed,
      Separate, Published, ImageFormat.Complete;
    InvParts(s, p);
    if s.procs[p].CkReadMeta? {
      WriterHolds(s, p);
      assert Lookup(s.fs, Meta) == Some(s.procs[p].ino) by { ReadsMeta(s, s.procs[p]); }
      ReadsTarget(s, o.noise);
    }
    assert NextSlot(None) == A by { NoneIsA(); }
  }

  lemma ReadsMeta(s: Sys, q: Proc)
    requires q.CkReadMeta? && WriterInv(s, q)
    ensures Lookup(s.fs, Meta) == Some(q.ino)
  {
  }

  lemma NoneIsA()
    ensures NextSlot(None) == A
  {
  }

  /** Visible metadata reads back, and leads to the slot that it does not name. */
  lemma ReadsTarget(s: Sys, noise: Option<string>)
    requires Meta in s.fs.entries
    requires Inv(s)
    ensures NextSlot(ReadSlot(s.fs, s.fs.entries[Meta], noise)) == Target(s.fs)
  {
    hide Inv, SelectedSlot, MetadataText.ReadActiveSlot, ImageFormat.Complete;
    MetaSelects(s);
    assert Sound(s.fs.inodes[s.fs.entries[Meta]].content) by {
      assert Contents(s.fs) by { ProtocolData.ContentsHold(s); }
    }
  }

  lemma WritesMove(s: Sys, p: Pid, o: Outcome, s': Sys, slot: Slot, n: nat, file: ImageFile)
    requires Step(s, Call(p, o), s') && (s.procs[p].CkOpenTmp? || s.procs[p].CkWrite? || s.procs[p].CkFsync?)
    requires o.ok && Reached(s, s.procs[p], slot, n, Image(n, file)) && (s.procs[p].CkWrite? ==> o.file == file)
    requires s.lock == Some(p)
    ensures MovesOn(s, p, s', slot, n, Image(n, file))
  {
    hide SelectedSlot, InSlot, OpenTrunc, ImageFormat.Complete;
  }

  lemma PublishMoves(s: Sys, p: Pid, o: Outcome, s': Sys, slot: Slot, n: nat, c: Content)
    requires Step(s, Call(p, o), s') && (s.procs[p].CkRename? || s.procs[p].CkFsyncDir?)
    requires o.ok && Reached(s, s.procs[p], slot, n, c) && s.lock == Some(p)
    requires Inv(s)
    ensures MovesOn(s, p, s', slot, n, c)
  {
    hide Inv, Rename, FsyncDir, SelectedSlot, Newest, Chosen, InSlot, ImageFormat.Complete;
    WriterHolds(s, p);
    InSlotStep(s, Call(p, o), s', slot);
  }

  lemma ManifestMoves(s: Sys, p: Pid, o: Outcome, s': Sys, slot: Slot, n: nat, file: ImageFile)
    requires p in s.procs && s.procs[p].CkManifest? && o.ok && s' == AtManifest(s, p, s.procs[p], o)
    requires Reached(s, s.procs[p], slot, n, Image(n, file)) && s.lock == Some(p) && file.included > 0
    requires WriterInv(s, s.procs[p])
    ensures MovesOn(s, p, s', slot, n, Image(n, file))
  {
    hide SelectedSlot, ImageFormat.Complete;
    assert May(s.fs, Snap(slot), Lookup(s.fs, Snap(slot)));
  }

  lemma MetadataMoves(s: Sys, p: Pid, o: Outcome, s': Sys, slot: Slot, n: nat, c: Content)
    requires Step(s, Call(p, o), s')
    requires s.procs[p].CkOpenMetaTmp? || s.procs[p].CkWriteMeta? || s.procs[p].CkFsyncMeta?
    requires o.ok && Reached(s, s.procs[p], slot, n, c) && s.lock == Some(p)
    requires Inv(s)
    ensures MovesOn(s, p, s', slot, n, c)
  {
    hide Inv, OpenTrunc, Fill, Fsync, SelectedSlot, Settled, InSlot, MetadataText.FormatMetadata, ImageFormat.Complete;
    WriterHolds(s, p);
    InSlotStep(s, Call(p, o), s', slot);
  }

  lemma ActivateMoves(s: Sys, p: Pid, o: Outcome, s': Sys, slot: Slot, n: nat, c: Content)
    requires Step(s, Call(p, o), s') && s.procs[p].CkRenameMeta?
    requires o.ok && Reached(s, s.procs[p], slot, n, c) && s.lock == Some(p)
    requires Inv(s)
    ensures MovesOn(s, p, s', slot, n, c)
  {
    hide Inv, Rename, Settled, InSlot, SelectedSlot, ImageFormat.Complete;
    WriterHolds(s, p);
    InSlotStep(s, Call(p, o), s', slot);
    ActivatesSelects(s, Call(p, o), s', slot);
  }

  lemma AcknowledgeMoves(s: Sys, p: Pid, o: Outcome, s': Sys, slot: Slot, n: nat, c: Content)
    requires p in s.procs && s.procs[p].CkFsyncRoot? && o.ok && s' == AtFsyncRoot(s, p, s.procs[p], o)
    requires Reached(s, s.procs[p], slot, n, c) && s.lock == Some(p)
    ensures MovesOn(s, p, s', slot, n, c)
  {
    hide ImageFormat.Complete;
  }

  // ---- All of them ----

  /** One successful call, wherever the checkpoint is. */
  lemma CallMoves(s: Sys, p: Pid, o: Outcome, s': Sys, slot: Slot, n: nat, file: ImageFile)
    requires Step(s, Call(p, o), s') && IsCheckpoint(s.procs[p]) && !s.procs[p].CkUnlock?
    requires o.ok && Reached(s, s.procs[p], slot, n, Image(n, file)) && file.included > 0
    requires s.procs[p].CkWrite? ==> o.file == file
    requires Inv(s)
    ensures MovesOn(s, p, s', slot, n, Image(n, file))
  {
    hide Inv, StoreInv, Reached, MovesOn, AtLock, AtMetaLookup, AtManifest, AtFsyncRoot, WriterInv, ReaderInv, History,
      Closed, Separate, Published, Contents, ImageFormat.Complete;
    var q := s.procs[p];
    InvParts(s, p);
    match q {
      case CkStart => StartMoves(s, p, o, s', slot, n, Image(n, file));
      case CkAccessMeta => LookupMoves(s, p, o, s', slot, n, Image(n, file));
      case CkOpenMeta => LookupMoves(s, p, o, s', slot, n, Image(n, file));
      case CkReadMeta(_) => LookupMoves(s, p, o, s', slot, n, Image(n, file));
      case CkOpenTmp(_, _) => WritesMove(s, p, o, s', slot, n, file);
      case CkWrite(_, _, _) => WritesMove(s, p, o, s', slot, n, file);
      case CkFsync(_, _, _, _) => WritesMove(s, p, o, s', slot, n, file);
      case CkRename(_, _, _, _) => PublishMoves(s, p, o, s', slot, n, Image(n, file));
      case CkFsyncDir(_, _, _) => PublishMoves(s, p, o, s', slot, n, Image(n, file));
      case CkManifest(_, _, _) => ManifestMoves(s, p, o, s', slot, n, file);
      case CkOpenMetaTmp(_, _, _) => MetadataMoves(s, p, o, s', slot, n, Image(n, file));
      case CkWriteMeta(_, _, _, _) => MetadataMoves(s, p, o, s', slot, n, Image(n, file));
      case CkFsyncMeta(_, _, _, _) => MetadataMoves(s, p, o, s', slot, n, Image(n, file));
      case CkRenameMeta(_, _, _, _) => ActivateMoves(s, p, o, s', slot, n, Image(n, file));
      case CkFsyncRoot(_, _, _, _) => AcknowledgeMoves(s, p, o, s', slot, n, Image(n, file));
      case _ => assert false by { NotReached(s, q, slot, n, Image(n, file)); }
    }
  }

  lemma NotReached(s: Sys, q: Proc, slot: Slot, n: nat, c: Content)
    requires Reached(s, q, slot, n, c)
    ensures !q.CkUnlinkTmp? && IsCheckpoint(q)
  {
    hide SelectedSlot, InSlot;
  }

  /** It creates at most one inode, and leaves the other slot alone. */
  lemma CallSpares(s: Sys, p: Pid, o: Outcome, s': Sys, slot: Slot, n: nat, c: Content)
    requires Step(s, Call(p, o), s') && IsCheckpoint(s.procs[p]) && Reached(s, s.procs[p], slot, n, c)
    requires Inv(s)
    ensures s'.fs.inodes.Keys <= s.fs.inodes.Keys + {o.newInode}
    ensures InSlot(s'.fs, Other(slot)) == InSlot(s.fs, Other(slot))
  {
    hide Inv, Checkpoint, InSlot, SelectedSlot, ImageFormat.Complete;
    InodesGrow(s, p, o);
    InSlotStep(s, Call(p, o), s', Other(slot));
  }

  lemma InodesGrow(s: Sys, p: Pid, o: Outcome)
    requires p in s.procs && IsCheckpoint(s.procs[p])
    requires Inv(s)
    ensures Checkpoint(s, p, o).fs.inodes.Keys <= s.fs.inodes.Keys + {o.newInode}
  {
    hide Inv, Newest, Settled, Chosen, Dumped, ReadSlot, MetadataText.FormatMetadata, ImageFormat.Complete;
    InvParts(s, p);
    forall t | t in s.fs.entries
      ensures s.fs.entries[t] in s.fs.inodes
    {
      assert May(s.fs, t, Lookup(s.fs, t));
    }
  }

  /** What a checkpoint needs from the environment: success, and fresh numbers. */
  ghost predicate AllSucceed(s: Sys, os: seq<Outcome>) {
    && (forall i :: 0 <= i < |os| ==> Succeeds(s, os[i]))
    && (forall i, j :: 0 <= i < j < |os| ==> os[i].newInode != os[j].newInode)
  }

  /** From wherever a checkpoint is to its end. */
  lemma {:induction false} Completes(s: Sys, p: Pid, os: seq<Outcome>, slot: Slot, n: nat, file: ImageFile)
    returns (s': Sys)
    requires p in s.procs && IsCheckpoint(s.procs[p]) && Reached(s, s.procs[p], slot, n, Image(n, file))
    requires |os| == Left(s, s.procs[p]) && (|os| >= 11 ==> os[|os| - 11].file == file) && file.included > 0
    requires AllSucceed(s, os)
    requires Inv(s)
    ensures Leads(s, CallsOf(p, os), s')
    ensures s'.procs == s.procs - {p} && s'.lock.None? && s'.acked == n && s'.nextNumber == n + 1
    ensures InSlot(s'.fs, slot) == Some(Image(n, file)) && SelectedSlot(s'.fs) == Some(slot)
    ensures InSlot(s'.fs, Other(slot)) == InSlot(s.fs, Other(slot))
    decreases |os|
  {
    hide Inv, Checkpoint, Reached, InSlot, SelectedSlot, ImageFormat.Complete;
    var o := os[0];
    LeadsOne(s, Call(p, o));
    var s1 := Apply(s, Call(p, o));
    assert Step(s, Call(p, o), s1);
    assert [Call(p, o)] + CallsOf(p, os[1..]) == CallsOf(p, os);
    if s.procs[p].CkUnlock? {
      s' := s1;
      Released(s, p, o, slot, n, Image(n, file));
    } else {
      CallMoves(s, p, o, s1, slot, n, file);
      CallSpares(s, p, o, s1, slot, n, Image(n, file));
      StepKeeps(s, Call(p, o), s1);
      NotReached(s1, s1.procs[p], slot, n, Image(n, file));
      s' := Completes(s1, p, os[1..], slot, n, file);
      LeadsThen(s, [Call(p, o)], s1, CallsOf(p, os[1..]), s');
    }
  }

  lemma Released(s: Sys, p: Pid, o: Outcome, slot: Slot, n: nat, c: Content)
    requires p in s.procs && s.procs[p].CkUnlock? && Reached(s, s.procs[p], slot, n, c)
    requires Inv(s)
    ensures Left(s, s.procs[p]) == 1
    ensures var s' := Checkpoint(s, p, o);
      && s'.procs == s.procs - {p} && s'.lock.None? && s'.acked == n && s'.nextNumber == n + 1
      && InSlot(s'.fs, slot) == Some(c) && SelectedSlot(s'.fs) == Some(slot)
      && InSlot(s'.fs, Other(slot)) == InSlot(s.fs, Other(slot))
  {
    hide Inv, InSlot, SelectedSlot, ImageFormat.Complete;
    InvParts(s, p);
  }

  /**
   From every state of every run in which the lock is free, whatever temporaries earlier failures
   and kills have left: a new checkpoint whose calls succeed, with no other process in between, and
   that dumps at least one region is acknowledged.  The selected image is then exactly the file
   it wrote, under the next number, in the slot that metadata did not name; the image that was
   selected before is still in its own slot, and no process and no lock is left behind.
   */
  lemma CheckpointCompletes(states: seq<Sys>, actions: seq<Action>, i: nat, p: Pid, os: seq<Outcome>)
    returns (s': Sys)
    requires RunFromInit(states, actions) && i < |states| && states[i].lock.None? && p !in states[i].procs
    requires |os| == (if Meta in states[i].fs.entries then 16 else 14)
    requires AllSucceed(states[i], os) && forall k :: 0 <= k < |os| ==> os[k].child != p
    requires os[|os| - 11].file.included > 0
    ensures var s, file := states[i], os[|os| - 11].file;
      && Leads(s, [Spawn(p, true)] + CallsOf(p, os), s')
      && s'.procs == s.procs && s'.lock.None? && s'.acked == s.nextNumber && s'.nextNumber == s.nextNumber + 1
      && Selected(s'.fs) == Some(Image(s.nextNumber, file))
    ensures var s := states[i];
      if Meta in s.fs.entries then
        && SelectedSlot(s.fs).Some? && SelectedSlot(s'.fs) == Some(Other(SelectedSlot(s.fs).value))
        && InSlot(s'.fs, SelectedSlot(s.fs).value) == Selected(s.fs)
      else SelectedSlot(s'.fs) == Some(A) && InSlot(s'.fs, B) == InSlot(s.fs, B)
  {
    hide Inv, Step, Leads, Left, Reached, SelectedSlot, ImageFormat.Complete;
    var s := states[i];
    InitHolds();
    RunKeeps(states, actions);
    if Meta in s.fs.entries {
      MetaSelects(s);
    }
    var s0 := Goto(s, p, CkStart);
    SpawnsCheckpoint(s, p);
    assert Inv(s0) by { StepKeeps(s, Spawn(p, true), s0); }
    s' := Completes(s0, p, os, Target(s.fs), s.nextNumber, os[|os| - 11].file);
    LeadsThen(s, [Spawn(p, true)], s0, CallsOf(p, os), s');
    assert s0.procs - {p} == s.procs;
  }

  lemma SpawnsCheckpoint(s: Sys, p: Pid)
    requires p !in s.procs && s.lock.None?
    ensures var s0 := Goto(s, p, CkStart);
      && Step(s, Spawn(p, true), s0) && Leads(s, [Spawn(p, true)], s0)
      && (forall c :: Reached(s0, CkStart, Target(s.fs), s.nextNumber, c))
      && Left(s0, CkStart) == if Meta in s.fs.entries then 16 else 14
  {
    hide SelectedSlot, ImageFormat.Complete;
    LeadsOne(s, Spawn(p, true));
  }

  // ---- Why a checkpoint fails ----

  /** The checkpoint looks for active.meta; a failed lookup does not end it. */
  predicate LooksUp(q: Proc) {
    q.CkAccessMeta? || q.CkOpenMeta? || q.CkReadMeta?
  }

  /** It has nothing more to do than to release the lock. */
  predicate Ending(q: Proc) {
    q.CkUnlinkTmp? || q.CkUnlock?
  }

  /** The call fails, or finds the lock taken, or finds that no region was dumped. */
  predicate InVain(s: Sys, p: Pid, o: Outcome) {
    && p in s.procs && !LooksUp(s.procs[p])
    && (!o.ok
        || (s.procs[p].CkStart? && s.lock.Some?)
        || (s.procs[p].CkManifest? && !Dumped(s.fs, Some(s.procs[p].ino))))
  }

  /** The call leads to the end of the checkpoint without an acknowledgement. */
  predicate GivesUp(s: Sys, p: Pid, s': Sys) {
    p in s'.procs ==> Ending(s'.procs[p]) && s'.acked == s.acked
  }

  /** The call leads there with one. */
  predicate Acknowledges(s: Sys, p: Pid, s': Sys) {
    && p in s.procs && s.procs[p].CkFsyncRoot? && p in s'.procs && s'.procs[p].CkUnlock?
    && s'.acked == s.procs[p].number > s.acked
  }

  lemma GivesUpIff(s: Sys, p: Pid, o: Outcome, s': Sys)
    requires Step(s, Call(p, o), s') && IsCheckpoint(s.procs[p]) && !Ending(s.procs[p])
    requires Inv(s)
    ensures GivesUp(s, p, s') <==> InVain(s, p, o)
    ensures !GivesUp(s, p, s') && Ending(s'.procs[p]) ==> Acknowledges(s, p, s')
  {
    hide Inv, ImageFormat.Complete;
    WriterHolds(s, p);
  }

  /** Where the end of a checkpoint came from. */
  lemma {:induction false} EndingOrigin(states: seq<Sys>, actions: seq<Action>, m: nat, p: Pid) returns (k: nat)
    requires RunFromInit(states, actions) && m < |states| && p in states[m].procs && Ending(states[m].procs[p])
    ensures k < m && actions[k].Call? && actions[k].pid == p && p in states[k].procs
    ensures IsCheckpoint(states[k].procs[p]) && !Ending(states[k].procs[p])
    ensures if InVain(states[k], p, actions[k].outcome) then GivesUp(states[k], p, states[k + 1])
            else Acknowledges(states[k], p, states[k + 1])
    ensures forall t :: k < t <= m ==> p in states[t].procs && Ending(states[t].procs[p])
    decreases m
  {
    hide Inv, Apply, Enabled, InVain, GivesUp, Acknowledges, ImageFormat.Complete;
    InitHolds();
    RunKeeps(states, actions);
    assert m > 0 by { NobodyAtFirst(states, actions); }
    assert Step(states[m - 1], actions[m - 1], states[m]);
    EndingStep(states[m - 1], actions[m - 1], states[m], p);
    if Ending(states[m - 1].procs[p]) {
      k := EndingOrigin(states, actions, m - 1, p);
    } else {
      k := m - 1;
    }
  }

  lemma EndingStep(s: Sys, a: Action, s': Sys, p: Pid)
    requires Step(s, a, s') && p in s'.procs && Ending(s'.procs[p])
    requires Inv(s)
    ensures p in s.procs && IsCheckpoint(s.procs[p])
    ensures !Ending(s.procs[p]) ==>
      && a.Call? && a.pid == p
      && if InVain(s, p, a.outcome) then GivesUp(s, p, s') else Acknowledges(s, p, s')
  {
    hide Inv, Checkpoint, InVain, GivesUp, Acknowledges, ReadSlot, ImageFormat.Complete;
    if a.Call? && a.pid == p {
      if IsCheckpoint(s.procs[p]) && !Ending(s.procs[p]) {
        GivesUpIff(s, p, a.outcome, s');
      }
    } else {
      OthersStay(s, a, s', p);
    }
  }

  /**
   In every run, in whatever company: step `m` is the last call of a checkpoint.  Then some call of
   its own, step `k`, decided how it ends: ulcr_checkpoint_latest returns 0 if that call
   was the fsync that acknowledges its capture, and -1 if that call failed, found the lock taken, or
   found that no region was dumped.  From there on it only cleaned up.
   */
  lemma CheckpointReturns(states: seq<Sys>, actions: seq<Action>, m: nat, p: Pid) returns (k: nat)
    requires RunFromInit(states, actions) && m < |actions| && actions[m].Call? && actions[m].pid == p
    requires p in states[m].procs && IsCheckpoint(states[m].procs[p]) && p !in states[m + 1].procs
    ensures k <= m && actions[k].Call? && actions[k].pid == p && p in states[k].procs && !Ending(states[k].procs[p])
    ensures if InVain(states[k], p, actions[k].outcome) then GivesUp(states[k], p, states[k + 1])
            else Acknowledges(states[k], p, states[k + 1])
    ensures forall t :: k < t <= m ==> p in states[t].procs && Ending(states[t].procs[p])
  {
    hide Inv, Apply, Enabled, InVain, GivesUp, Acknowledges, ImageFormat.Complete;
    InitHolds();
    RunKeeps(states, actions);
    assert Step(states[m], actions[m], states[m + 1]);
    if Ending(states[m].procs[p]) {
      k := EndingOrigin(states, actions, m, p);
    } else {
      k := m;
      LeavesAtOnce(states[m], p, actions[m].outcome, states[m + 1]);
    }
  }

  lemma LeavesAtOnce(s: Sys, p: Pid, o: Outcome, s': Sys)
    requires Step(s, Call(p, o), s') && IsCheckpoint(s.procs[p]) && !Ending(s.procs[p]) && p !in s'.procs
    requires Inv(s)
    ensures InVain(s, p, o) && GivesUp(s, p, s')
  {
    hide Inv, Checkpoint, ImageFormat.Complete;
    GivesUpIff(s, p, o, s');
  }

  // ---- What a failed checkpoint leaves ----

  /** The temporary that a checkpoint which fails here removes.  A failed write of snapshot.bin.tmp leaves it. */
  function Removed(q: Proc): Option<Name> {
    match q
    case CkRename(slot, _, _, _) => Some(SnapTmp(slot))
    case CkWriteMeta(_, _, _, _) => Some(MetaTmp)
    case CkFsyncMeta(_, _, _, _) => Some(MetaTmp)
    case CkRenameMeta(_, _, _, _) => Some(MetaTmp)
    case _ => None
  }

  lemma FailingCall(s: Sys, p: Pid, o: Outcome, s': Sys)
    requires Step(s, Call(p, o), s') && IsCheckpoint(s.procs[p]) && !Ending(s.procs[p]) && !s.procs[p].CkStart?
    requires InVain(s, p, o)
    ensures s' == Goto(s, p, if Removed(s.procs[p]).Some? then CkUnlinkTmp(Removed(s.procs[p]).value) else CkUnlock)
  {
    hide OpenTrunc, Fill, Fsync, Rename, FsyncDir, Unlink, MetadataText.FormatMetadata, ImageFormat.Complete;
  }

  lemma CheckpointCall(s: Sys, p: Pid, o: Outcome) returns (s': Sys)
    requires p in s.procs && IsCheckpoint(s.procs[p]) && Possible(s, o)
    ensures s' == Checkpoint(s, p, o) && Step(s, Call(p, o), s') && Leads(s, [Call(p, o)], s')
  {
    hide Restore, Checkpoint, ImageFormat.Complete;
    LeadsOne(s, Call(p, o));
    s' := Checkpoint(s, p, o);
  }

  /**
   From every state of every run: a call of a checkpoint that ends it, followed by the clean-up,
   gives the lock back and acknowledges nothing.  A failed rename or metadata write removes its
   temporary; every other file and name is as it was.
   */
  lemma FailureCleansUp(states: seq<Sys>, actions: seq<Action>, i: nat, p: Pid, os: seq<Outcome>) returns (s': Sys)
    requires RunFromInit(states, actions) && i < |states| && p in states[i].procs && IsCheckpoint(states[i].procs[p])
    requires !Ending(states[i].procs[p]) && !states[i].procs[p].CkStart?
    requires |os| == (if Removed(states[i].procs[p]).Some? then 3 else 2)
    requires forall k :: 0 <= k < |os| ==> Possible(states[i], os[k])
    requires InVain(states[i], p, os[0]) && os[1].ok
    ensures var s := states[i];
      && Leads(s, CallsOf(p, os), s')
      && s'.procs == s.procs - {p} && s'.lock.None? && s'.acked == s.acked && s'.nextNumber == s.nextNumber
      && s'.fs.inodes == s.fs.inodes
      && forall n :: Lookup(s'.fs, n) == if Removed(s.procs[p]) == Some(n) then None else Lookup(s.fs, n)
  {
    hide Inv, InVain, Checkpoint, Leads, ImageFormat.Complete;
    var s := states[i];
    InitHolds();
    RunKeeps(states, actions);
    assert s.lock == Some(p) by { InvParts(s, p); }
    var s1 := CheckpointCall(s, p, os[0]);
    FailingCall(s, p, os[0], s1);
    var s2 := CheckpointCall(s1, p, os[1]);
    LeadsThen(s, [Call(p, os[0])], s1, [Call(p, os[1])], s2);
    if Removed(s.procs[p]).Some? {
      UnlinkCall(s1, p, os[1]);
      s' := CheckpointCall(s2, p, os[2]);
      UnlockCall(s2, p, os[2]);
      LeadsThen(s, [Call(p, os[0])] + [Call(p, os[1])], s2, [Call(p, os[2])], s');
      assert [Call(p, os[0])] + [Call(p, os[1])] + [Call(p, os[2])] == CallsOf(p, os);
    } else {
      s' := s2;
      UnlockCall(s1, p, os[1]);
      assert [Call(p, os[0])] + [Call(p, os[1])] == CallsOf(p, os);
    }
    assert s'.procs == s.procs - {p};
  }

  lemma UnlinkCall(s: Sys, p: Pid, o: Outcome)
    requires p in s.procs && s.procs[p].CkUnlinkTmp? && o.ok
    ensures var s', n := Checkpoint(s, p, o), s.procs[p].name;
      && s' == Goto(s, p, CkUnlock).(fs := s'.fs) && s'.fs.inodes == s.fs.inodes
      && forall m :: Lookup(s'.fs, m) == if m == n then None else Lookup(s.fs, m)
  {
  }

  lemma UnlockCall(s: Sys, p: Pid, o: Outcome)
    requires p in s.procs && s.procs[p].CkUnlock? && s.lock == Some(p)
    ensures Checkpoint(s, p, o) == s.(procs := s.procs - {p}, lock := None)
  {
  }
}
