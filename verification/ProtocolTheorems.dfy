/**
 What the A/B store promises, over every interleaving, failure, kill and power loss.
 */
module ProtocolTheorems {
  import opened Wrappers
  import opened CrashFs
  import opened MetadataText
  import opened Protocol
  import opened ProtocolInvariant
  import opened ProtocolPreserved
  import ImageFormat

  // ---- What a restore selects ----

  /** active_checkpoint_dir, when no call fails. */
  function SelectedSlot(fs: Fs): Option<Slot> {
    var read := if Meta in fs.entries then ReadSlot(fs, fs.entries[Meta], None) else None;
    if read.Some? then SlotForName(read.value)
    else if Snap(A) in fs.entries then Some(A)
    else if Snap(B) in fs.entries then Some(B)
    else None
  }

  /** The image that a restore then opens. */
  function Selected(fs: Fs): Option<Content> {
    var slot := SelectedSlot(fs);
    if slot.Some? && Snap(slot.value) in fs.entries && fs.entries[Snap(slot.value)] in fs.inodes
    then Some(fs.inodes[fs.entries[Snap(slot.value)]].content)
    else None
  }

  /** A complete capture, numbered at least `n`. */
  ghost predicate GoodImage(c: Option<Content>, n: nat) {
    c.Some? && c.value.Image? && c.value.number >= n && ImageFormat.Complete(c.value.file.bytes, c.value.file.included)
  }

  lemma SelectedByMeta(fs: Fs, slot: Slot)
    requires Contents(fs) && Names(fs, Lookup(fs, Meta), slot)
    ensures SelectedSlot(fs) == Some(slot)
  {
    hide ImageFormat.Complete;
    assert Sound(fs.inodes[fs.entries[Meta]].content);
  }

  // ---- Crash safety ----

  /** Visible metadata selects a complete capture at least as new as everything acknowledged. */
  lemma MetaIsGood(s: Sys)
    requires Inv(s) && Meta in s.fs.entries
    ensures GoodImage(Selected(s.fs), s.acked)
    ensures exists slot :: ReadSlot(s.fs, s.fs.entries[Meta], None) == Some(SlotName(slot))
  {
    hide SelectedSlot, Contents, Separate, ReaderInv, WriterInv, History, ReadActiveSlot, ImageFormat.Complete;
    var fs := s.fs;
    assert May(fs, Meta, Lookup(fs, Meta));
    var slot := fs.inodes[fs.entries[Meta]].content.slot;
    var v := Lookup(fs, Snap(slot));
    assert Names(fs, Lookup(fs, Meta), slot) && SlotHolds(fs, slot, s.acked) && May(fs, Snap(slot), v);
    SelectedByMeta(fs, slot);
    SoundHolds(fs, fs.entries[Meta]);
    SoundHolds(fs, v.value);
  }

  lemma SoundHolds(fs: Fs, i: nat)
    requires Contents(fs) && i in fs.inodes
    ensures Sound(fs.inodes[i].content)
  {
    hide ImageFormat.Complete;
  }

  /** In a state that satisfies the invariant, whatever a restore finds is a complete capture. */
  lemma SelectedIsGood(s: Sys)
    requires Inv(s)
    ensures Selected(s.fs).Some? ==> GoodImage(Selected(s.fs), 1)
    ensures s.acked > 0 || Meta in s.fs.entries ==> GoodImage(Selected(s.fs), s.acked)
    ensures Meta in s.fs.entries ==> exists slot :: ReadSlot(s.fs, s.fs.entries[Meta], None) == Some(SlotName(slot))
    ensures s.acked > 0 ==> Meta in s.fs.entries
  {
    hide SelectedSlot, Contents, Separate, ReaderInv, WriterInv, History, ReadSlot, NonEmpty, ImageFormat.Complete;
    var fs := s.fs;
    assert May(fs, Meta, Lookup(fs, Meta));
    if Meta in fs.entries {
      MetaIsGood(s);
    }
    if Selected(fs).Some? {
      var slot := SelectedSlot(fs).value;
      assert May(fs, Snap(slot), Lookup(fs, Snap(slot)));
      SoundHolds(fs, fs.entries[Snap(slot)]);
    }
  }

  /**
   Power is lost after any number of steps of any run.  If active.meta is there afterwards it
   names A or B and that slot's snapshot.bin is a complete capture; without it, any image the
   fallback finds is still complete.
   */
  lemma CrashSafety(states: seq<Sys>, actions: seq<Action>, i: nat, pick: map<Name, nat>)
    requires RunFromInit(states, actions) && i < |states| && Survives(states[i].fs, pick)
    ensures var fs := Reboot(states[i].fs, pick);
      && (Meta in fs.entries ==>
            && GoodImage(Selected(fs), states[i].acked)
            && exists slot :: ReadSlot(fs, fs.entries[Meta], None) == Some(SlotName(slot)))
      && (Selected(fs).Some? ==> GoodImage(Selected(fs), 1))
  {
    hide Inv, Reboot, GoodImage, Survives, SelectedSlot, ReadSlot, ImageFormat.Complete;
    InitHolds();
    RunKeeps(states, actions);
    PowerLossKeeps(states[i], pick);
    SelectedIsGood(Apply(states[i], PowerLoss(pick)));
  }

  // ---- Acknowledged checkpoints ----

  /** Only the directory fsync after the metadata rename acknowledges, and nothing takes that back. */
  lemma AckSet(s: Sys, a: Action, s': Sys)
    requires Step(s, a, s') && s'.acked != s.acked
    ensures a.Call? && a.outcome.ok && a.pid in s.procs && s.procs[a.pid].CkFsyncRoot?
    ensures s'.acked == s.procs[a.pid].number
  {
    hide Rename, OpenTrunc, Fill, Fsync, FsyncDir, Unlink, ReadSlot, FormatMetadata, ImageFormat.Complete;
  }

  lemma AckGrows(s: Sys, a: Action, s': Sys)
    requires Inv(s) && Step(s, a, s')
    ensures s.acked <= s'.acked
  {
    hide Inv, Apply, Enabled, ImageFormat.Complete;
    if s'.acked != s.acked {
      AckSet(s, a, s');
      WriterHolds(s, a.pid);
    }
  }

  lemma {:induction false} AckGrowsAlong(states: seq<Sys>, actions: seq<Action>, i: nat, j: nat)
    requires RunFromInit(states, actions) && i <= j < |states|
    ensures states[i].acked <= states[j].acked
    decreases j - i
  {
    hide Inv, ImageFormat.Complete;
    if i < j {
      InitHolds();
      RunKeeps(states, actions);
      AckGrows(states[i], actions[i], states[i + 1]);
      AckGrowsAlong(states, actions, i + 1, j);
    }
  }

  /**
   Once ulcr_checkpoint_latest is bound to return 0 for capture k, every later restore whose
   calls succeed selects a complete capture numbered k or higher, also after a power loss.
   */
  lemma AcknowledgedNeverLost(states: seq<Sys>, actions: seq<Action>, i: nat, j: nat, pick: map<Name, nat>)
    requires RunFromInit(states, actions) && i <= j < |states| && states[i].acked > 0
    requires Survives(states[j].fs, pick)
    ensures GoodImage(Selected(states[j].fs), states[i].acked)
    ensures GoodImage(Selected(Reboot(states[j].fs, pick)), states[i].acked)
  {
    hide Inv, Reboot, Selected, Survives, ImageFormat.Complete;
    InitHolds();
    RunKeeps(states, actions);
    AckGrowsAlong(states, actions, i, j);
    SelectedIsGood(states[j]);
    PowerLossKeeps(states[j], pick);
    SelectedIsGood(Apply(states[j], PowerLoss(pick)));
  }

  // ---- Restoring without the lock ----

  /**
   Both loads of a restore read one immutable file each, however many checkpoints run
   meanwhile: from the open on, the file keeps the bytes it had, which are those of one
   complete capture; the child's capture is no older than the manager's, and that one is no
   older than the one the restore settled on: the active one when active.meta was opened, or in
   the fallback the one its probe found.
   */
  lemma RestoreNeverTorn(states: seq<Sys>, actions: seq<Action>, i: nat, p: Pid)
    requires RunFromInit(states, actions) && i < |states| && p in states[i].procs
    ensures var s := states[i];
      match s.procs[p]
      case RsLoad(slot, floor, ino, seen) =>
        ino in s.fs.inodes && s.fs.inodes[ino].content == seen && GoodImage(Some(seen), floor)
      case ChLoad(slot, floor, first, ino, seen) =>
        && ino in s.fs.inodes && s.fs.inodes[ino].content == seen && GoodImage(Some(seen), floor)
        && first.Image? && seen.number >= first.number >= floor
      case _ => true
  {
    hide StoreInv, NonEmpty, History, WriterInv, ImageFormat.Complete;
    InitHolds();
    RunKeeps(states, actions);
    var s := states[i];
    assert ReaderInv(s.fs, s.procs[p]);
    match s.procs[p] {
      case RsLoad(_, _, ino, _) => assert Sound(s.fs.inodes[ino].content);
      case ChLoad(_, _, _, ino, _) => assert Sound(s.fs.inodes[ino].content);
      case _ =>
    }
  }

  /** The second load always finds an image to open; the first one does whenever metadata was read. */
  lemma RestoreFindsImage(states: seq<Sys>, actions: seq<Action>, i: nat, p: Pid)
    requires RunFromInit(states, actions) && i < |states| && p in states[i].procs
    requires states[i].procs[p].RsOpen? || states[i].procs[p].ChOpen?
    ensures Snap(states[i].procs[p].slot) in states[i].fs.entries
    ensures states[i].fs.entries[Snap(states[i].procs[p].slot)] in states[i].fs.inodes
  {
    hide ImageFormat.Complete;
    InitHolds();
    RunKeeps(states, actions);
    assert ReaderInv(states[i].fs, states[i].procs[p]);
  }

  // ---- One atomic cell ----

  /** The action makes this process rename a finished temporary, and the rename succeeds. */
  predicate Publishes(s: Sys, a: Action) {
    && a.Call? && a.pid in s.procs && a.outcome.ok
    && (s.procs[a.pid].CkRename? || s.procs[a.pid].CkRenameMeta?)
  }

  lemma MetaSelects(s: Sys)
    requires Inv(s) && Meta in s.fs.entries
    ensures var v := Lookup(s.fs, Meta); Names(s.fs, v, A) || Names(s.fs, v, B)
    ensures forall slot :: Names(s.fs, Lookup(s.fs, Meta), slot) ==>
      SelectedSlot(s.fs) == Some(slot) && IsImage(s.fs, Lookup(s.fs, Snap(slot)))
    ensures Selected(s.fs).Some? && Selected(s.fs).value.Image?
    ensures ReadSlot(s.fs, s.fs.entries[Meta], None).Some?
  {
    hide ImageFormat.Complete;
    var v := Lookup(s.fs, Meta);
    assert May(s.fs, Meta, v);
    var slot := s.fs.inodes[v.value].content.slot;
    assert Names(s.fs, v, slot) && SlotHolds(s.fs, slot, s.acked);
    assert May(s.fs, Snap(slot), Lookup(s.fs, Snap(slot)));
    SelectedByMeta(s.fs, slot);
    assert Sound(s.fs.inodes[s.fs.entries[Meta]].content);
  }

  /** The published names lead to the same files with the same contents. */
  ghost predicate SameVisible(fs: Fs, fs': Fs) {
    forall n :: !IsTmp(n) ==>
      && Lookup(fs', n) == Lookup(fs, n)
      && (n in fs.entries && fs.entries[n] in fs.inodes ==>
            fs.entries[n] in fs'.inodes && fs'.inodes[fs.entries[n]].content == fs.inodes[fs.entries[n]].content)
  }

  lemma SameVisibleSelects(fs: Fs, fs': Fs)
    requires SameVisible(fs, fs') && Closed(fs)
    ensures Selected(fs') == Selected(fs)
  {
    hide ReadActiveSlot, ImageFormat.Complete;
    assert forall n {:trigger Lookup(fs, n)} :: May(fs, n, Lookup(fs, n));
    assert forall n :: n in fs.entries ==> Lookup(fs, n) == Some(fs.entries[n]);
    assert forall n :: n in fs'.entries ==> Lookup(fs', n) == Some(fs'.entries[n]);
    assert forall n :: !IsTmp(n) ==> (n in fs'.entries <==> n in fs.entries);
  }

  lemma OpenTruncInvisible(fs: Fs, t: Name, i: nat)
    requires Closed(fs) && Separate(fs) && IsTmp(t) && i !in fs.inodes
    ensures SameVisible(fs, OpenTrunc(fs, t, i))
  {
    assert forall n {:trigger Lookup(fs, n)} :: May(fs, n, Lookup(fs, n));
    assert forall n :: n in fs.entries ==> Lookup(fs, n) == Some(fs.entries[n]);
  }

  lemma UnlinkInvisible(fs: Fs, t: Name)
    requires IsTmp(t)
    ensures SameVisible(fs, Unlink(fs, t))
  {
  }

  /** Changing the file behind a temporary name. */
  lemma FileInvisible(fs: Fs, t: Name, node: Inode)
    requires Closed(fs) && Separate(fs) && IsTmp(t) && t in fs.entries
    ensures SameVisible(fs, fs.(inodes := fs.inodes[fs.entries[t] := node]))
  {
    assert forall n {:trigger Lookup(fs, n)} :: May(fs, n, Lookup(fs, n));
    assert forall n :: n in fs.entries ==> Lookup(fs, n) == Some(fs.entries[n]);
  }

  lemma TmpCallsInvisible(fs: Fs, t: Name, i: nat, c: Content)
    requires Closed(fs) && Separate(fs) && IsTmp(t)
    ensures i !in fs.inodes ==> SameVisible(fs, OpenTrunc(fs, t, i))
    ensures t in fs.entries ==> SameVisible(fs, Fill(fs, fs.entries[t], c))
    ensures t in fs.entries && fs.entries[t] in fs.inodes ==> SameVisible(fs, Fsync(fs, fs.entries[t]))
    ensures SameVisible(fs, Unlink(fs, t))
  {
    hide SameVisible, Closed, Separate, OpenTrunc, Unlink;
    if i !in fs.inodes {
      OpenTruncInvisible(fs, t, i);
    }
    if t in fs.entries {
      FileInvisible(fs, t, Inode(c, false));
      if fs.entries[t] in fs.inodes {
        FileInvisible(fs, t, fs.inodes[fs.entries[t]].(synced := true));
      }
    }
    UnlinkInvisible(fs, t);
  }

  lemma FsyncDirInvisible(fs: Fs, d: Dir)
    ensures SameVisible(fs, FsyncDir(fs, d))
  {
    hide ImageFormat.Complete;
  }

  lemma CheckpointInvisible(s: Sys, p: Pid, o: Outcome)
    requires Inv(s) && Enabled(s, Call(p, o)) && IsCheckpoint(s.procs[p]) && !Publishes(s, Call(p, o))
    ensures SameVisible(s.fs, Checkpoint(s, p, o).fs)
  {
    hide Separate, Published, Closed, Numbered, Durable, SameVisible, NonEmpty, Contents, History, ReaderInv,
      FormatMetadata, Settled, Newest, Chosen, ImageFormat.Complete;
    var q := s.procs[p];
    assert WriterInv(s, q);
    assert SameVisible(s.fs, s.fs) by { FsyncDirSame(s.fs); }
    match q {
      case CkOpenTmp(slot, _) => TmpCallsInvisible(s.fs, SnapTmp(slot), o.newInode, Torn);
      case CkWrite(slot, _, _) => TmpCallsInvisible(s.fs, SnapTmp(slot), o.newInode, Image(s.nextNumber, o.file));
      case CkFsync(slot, _, _, _) => TmpCallsInvisible(s.fs, SnapTmp(slot), o.newInode, Torn);
      case CkFsyncDir(slot, _, _) => FsyncDirInvisible(s.fs, SlotDir(slot));
      case CkOpenMetaTmp(_, _, _) => TmpCallsInvisible(s.fs, MetaTmp, o.newInode, Torn);
      case CkWriteMeta(slot, _, _, _) =>
        TmpCallsInvisible(s.fs, MetaTmp, o.newInode, MetaFile(slot, FormatMetadata(slot, o.stamp)));
      case CkFsyncMeta(_, _, _, _) => TmpCallsInvisible(s.fs, MetaTmp, o.newInode, Torn);
      case CkFsyncRoot(_, _, _, _) => FsyncDirInvisible(s.fs, Root);
      case CkUnlinkTmp(name) => TmpCallsInvisible(s.fs, name, o.newInode, Torn);
      case _ =>
    }
  }

  lemma FsyncDirSame(fs: Fs)
    ensures SameVisible(fs, fs)
  {
    hide ImageFormat.Complete;
  }

  /** Every step but a publishing rename and a power loss leaves the selected image alone. */
  lemma CellStutters(s: Sys, a: Action, s': Sys)
    requires Inv(s) && Step(s, a, s') && !a.PowerLoss? && !Publishes(s, a)
    ensures Selected(s'.fs) == Selected(s.fs)
    ensures Meta in s.fs.entries ==> Meta in s'.fs.entries
  {
    hide Inv, Checkpoint, Selected, ImageFormat.Complete;
    assert SameVisible(s.fs, s.fs) by { FsyncDirSame(s.fs); }
    if a.Call? && IsCheckpoint(s.procs[a.pid]) {
      CheckpointInvisible(s, a.pid, a.outcome);
    }
    assert Closed(s.fs) by { InvClosed(s); }
    SameVisibleSelects(s.fs, s'.fs);
    assert Lookup(s'.fs, Meta) == Lookup(s.fs, Meta);
  }

  lemma InvClosed(s: Sys)
    requires Inv(s)
    ensures Closed(s.fs)
  {
    hide ImageFormat.Complete;
  }

  lemma WriterHolds(s: Sys, p: Pid)
    requires Inv(s) && p in s.procs
    ensures WriterInv(s, s.procs[p])
  {
    hide ImageFormat.Complete;
  }

  /** In the state after the metadata rename, and until the lock is released, the cell is this capture. */
  lemma CellIsSet(s: Sys, p: Pid)
    requires Inv(s) && p in s.procs && s.procs[p].CkFsyncRoot?
    ensures GoodImage(Selected(s.fs), 1) && Selected(s.fs).value.number == s.procs[p].number
    ensures Meta in s.fs.entries
  {
    hide Inv, GoodImage, Selected, SelectedSlot, Settled, ImageFormat.Complete;
    var q := s.procs[p];
    WriterHolds(s, p);
    SelectedIsGood(s);
    MetaSelects(s);
    SettledSelected(s.fs, q.slot, q.ino, q.number, s.acked);
  }

  /** The rename of active.meta sets the cell to the capture this checkpoint made. */
  lemma CellSet(s: Sys, a: Action, s': Sys)
    requires Inv(s) && Step(s, a, s') && Publishes(s, a) && s.procs[a.pid].CkRenameMeta?
    ensures GoodImage(Selected(s'.fs), 1) && Selected(s'.fs).value.number == s.procs[a.pid].number
    ensures Meta in s'.fs.entries
  {
    hide Inv, GoodImage, Selected, SelectedSlot, Settled, Rename, ImageFormat.Complete;
    StepKeeps(s, a, s');
    WriterHolds(s, a.pid);
    CellIsSet(s', a.pid);
  }

  lemma SettledSelected(fs: Fs, slot: Slot, ino: nat, number: nat, acked: nat)
    requires Settled(fs, slot, ino, number, acked) && SelectedSlot(fs) == Some(slot)
    ensures Selected(fs) == Some(fs.inodes[ino].content) && fs.inodes[ino].content.number == number
  {
    hide SelectedSlot, ImageFormat.Complete;
    assert May(fs, Snap(slot), Lookup(fs, Snap(slot)));
  }

  /**
   The rename of snapshot.bin leaves the cell alone, except when the checkpoint picked the
   active slot itself, which takes a failed call on active.meta; the selected capture then
   becomes this newer one although the checkpoint may still fail.
   */
  lemma CellKeptBySnapshot(s: Sys, a: Action, s': Sys)
    requires Inv(s) && Step(s, a, s') && Publishes(s, a) && s.procs[a.pid].CkRename? && Meta in s.fs.entries
    ensures Meta in s'.fs.entries && Selected(s.fs).Some? && Selected(s.fs).value.Image?
    ensures var q := s.procs[a.pid];
      if SelectedSlot(s.fs) == Some(q.slot) then
        && !q.informed
        && GoodImage(Selected(s'.fs), 1) && Selected(s'.fs).value.number == q.number > Selected(s.fs).value.number
      else Selected(s'.fs) == Selected(s.fs)
  {
    hide Inv, GoodImage, StoreInv, Selected, SelectedSlot, ImageFormat.Complete;
    var q := s.procs[a.pid];
    WriterHolds(s, a.pid);
    MetaSelects(s);
    StepKeeps(s, a, s');
    SelectedIsGood(s');
    SnapRenameSelects(s.fs, s'.fs, q.slot, q.ino, q.number, s.acked);
    if SelectedSlot(s.fs) == Some(q.slot) {
      assert Names(s.fs, Lookup(s.fs, Meta), q.slot);
      TmpApart(s, q.slot);
    }
  }

  lemma SnapRenameSelects(fs: Fs, fs': Fs, slot: Slot, ino: nat, number: nat, acked: nat)
    requires Lookup(fs, SnapTmp(slot)) == Some(ino) && Newest(fs, ino, number, acked) && Meta in fs.entries
    requires ReadSlot(fs, fs.entries[Meta], None).Some?
    requires fs' == Rename(fs, SnapTmp(slot), Snap(slot))
    ensures Meta in fs'.entries && Lookup(fs', Meta) == Lookup(fs, Meta) && fs'.inodes == fs.inodes
    ensures SelectedSlot(fs) == Some(slot) ==> Selected(fs') == Some(fs.inodes[ino].content)
    ensures (Selected(fs).Some? && Selected(fs).value.Image? && SelectedSlot(fs) == Some(slot)
             && fs.entries[Snap(slot)] != ino) ==>
      Selected(fs).value.number < number
    ensures SelectedSlot(fs).Some? && SelectedSlot(fs) != Some(slot) ==> Selected(fs') == Selected(fs)
  {
    hide ReadActiveSlot, ImageFormat.Complete;
    var v := Lookup(fs, Snap(slot));
    assert May(fs, Snap(slot), v);
    assert v != Some(ino) ==> Number(fs, v) < number;
    assert ReadSlot(fs', fs'.entries[Meta], None) == ReadSlot(fs, fs.entries[Meta], None);
    assert SelectedSlot(fs') == SelectedSlot(fs);
  }

  lemma TmpApart(s: Sys, slot: Slot)
    requires Inv(s) && SnapTmp(slot) in s.fs.entries && Snap(slot) in s.fs.entries
    ensures s.fs.entries[Snap(slot)] != s.fs.entries[SnapTmp(slot)]
  {
    hide ImageFormat.Complete;
    assert May(s.fs, Snap(slot), Lookup(s.fs, Snap(slot)));
  }

  /** When the acknowledgement comes, the cell holds the acknowledged capture. */
  lemma AckIsSelected(s: Sys, a: Action, s': Sys)
    requires Inv(s) && Step(s, a, s') && s'.acked != s.acked
    ensures GoodImage(Selected(s'.fs), 1) && Selected(s'.fs).value.number == s'.acked > s.acked
  {
    hide Inv, Apply, Enabled, Selected, GoodImage, SelectedSlot, ImageFormat.Complete;
    AckSet(s, a, s');
    AckGrows(s, a, s');
    CellIsSet(s, a.pid);
    CellStutters(s, a, s');
  }

  /**
   The refinement in one statement.  While metadata is visible, every step but a power loss
   either leaves the selected image alone or sets it to the capture of the checkpoint that took
   the step; that step is its metadata rename, unless it never learned which slot is active.
   */
  lemma StepRefinesCell(s: Sys, a: Action, s': Sys)
    requires Inv(s) && Step(s, a, s') && !a.PowerLoss? && Meta in s.fs.entries
    ensures Meta in s'.fs.entries && GoodImage(Selected(s'.fs), s'.acked)
    ensures Selected(s'.fs) == Selected(s.fs) ||
      (Publishes(s, a)
       && var q := s.procs[a.pid];
          Selected(s'.fs).value.number == q.number && (q.CkRenameMeta? || (q.CkRename? && !q.informed)))
  {
    hide Inv, Apply, Enabled, Selected, SelectedSlot, ImageFormat.Complete;
    StepKeeps(s, a, s');
    if Publishes(s, a) {
      if s.procs[a.pid].CkRenameMeta? {
        CellSet(s, a, s');
      } else {
        CellKeptBySnapshot(s, a, s');
      }
    } else {
      CellStutters(s, a, s');
    }
    SelectedIsGood(s');
  }

  /** The same for every step of every run. */
  lemma CellAlong(states: seq<Sys>, actions: seq<Action>, i: nat)
    requires RunFromInit(states, actions) && i < |actions| && !actions[i].PowerLoss? && Meta in states[i].fs.entries
    ensures Meta in states[i + 1].fs.entries
    ensures Selected(states[i + 1].fs) == Selected(states[i].fs) ||
      (Publishes(states[i], actions[i])
       && Selected(states[i + 1].fs).Some? && Selected(states[i + 1].fs).value.Image?
       && var q := states[i].procs[actions[i].pid];
          Selected(states[i + 1].fs).value.number == q.number && (q.CkRenameMeta? || (q.CkRename? && !q.informed)))
  {
    hide Inv, Apply, Enabled, Publishes, Selected, ImageFormat.Complete;
    InitHolds();
    RunKeeps(states, actions);
    StepRefinesCell(states[i], actions[i], states[i + 1]);
  }

  // ---- Mutual exclusion and history ----

  /** At most one process is between taking and releasing the lock, and only it changes any file. */
  lemma MutualExclusion(states: seq<Sys>, actions: seq<Action>, i: nat)
    requires RunFromInit(states, actions) && i < |actions|
    ensures forall p, q | p in states[i].procs && q in states[i].procs ::
      Holding(states[i].procs[p]) && Holding(states[i].procs[q]) ==> p == q
    ensures states[i + 1].fs != states[i].fs && !actions[i].PowerLoss? ==>
      actions[i].Call? && states[i].lock == Some(actions[i].pid) && Holding(states[i].procs[actions[i].pid])
  {
    hide StoreInv, Contents, NonEmpty, History, WriterInv, ReaderInv, ImageFormat.Complete;
    InitHolds();
    RunKeeps(states, actions);
    assert Step(states[i], actions[i], states[i + 1]);
  }

  /** How many calls a checkpoint has at most before it. */
  function Ahead(q: Proc): nat {
    match q
    case CkStart => 16
    case CkAccessMeta => 15
    case CkOpenMeta => 14
    case CkReadMeta(_) => 13
    case CkOpenTmp(_, _) => 12
    case CkWrite(_, _, _) => 11
    case CkFsync(_, _, _, _) => 10
    case CkRename(_, _, _, _) => 9
    case CkFsyncDir(_, _, _) => 8
    case CkManifest(_, _, _) => 7
    case CkOpenMetaTmp(_, _, _) => 6
    case CkWriteMeta(_, _, _, _) => 5
    case CkFsyncMeta(_, _, _, _) => 4
    case CkRenameMeta(_, _, _, _) => 3
    case CkFsyncRoot(_, _, _, _) => 2
    case CkUnlinkTmp(_) => 1
    case _ => 0
  }

  /** One call takes process `p` from s to s': on through its checkpoint, or to the end without the lock. */
  predicate Advances(s: Sys, p: Pid, s': Sys) {
    p in s.procs
    && if p in s'.procs then
         && s'.procs == s.procs[p := s'.procs[p]] && Holding(s'.procs[p]) && Ahead(s'.procs[p]) < Ahead(s.procs[p])
         && (s'.lock == s.lock || s'.lock == Some(p))
       else s'.procs == s.procs - {p} && s'.lock == if s.lock == Some(p) then None else s.lock
  }

  lemma FirstCallsAdvance(s: Sys, p: Pid, o: Outcome)
    requires p in s.procs && IsCheckpoint(s.procs[p]) && Ahead(s.procs[p]) > 10
    ensures Advances(s, p, Checkpoint(s, p, o))
  {
    hide OpenTrunc, Fill, ReadSlot, NextSlot;
  }

  lemma SnapshotCallsAdvance(s: Sys, p: Pid, o: Outcome)
    requires p in s.procs && IsCheckpoint(s.procs[p]) && 6 < Ahead(s.procs[p]) <= 10
    ensures Advances(s, p, Checkpoint(s, p, o))
  {
    hide AtLock, AtMetaLookup, AtOpenTmp, AtWrite, AtOpenMetaTmp, AtWriteMeta, AtFsyncMeta, AtRenameMeta,
      AtFsyncRoot, AtUnlink;
    hide Fsync, Rename, FsyncDir;
  }

  lemma MetadataCallsAdvance(s: Sys, p: Pid, o: Outcome)
    requires p in s.procs && IsCheckpoint(s.procs[p]) && Ahead(s.procs[p]) <= 6
    ensures Advances(s, p, Checkpoint(s, p, o))
  {
    hide AtLock, AtMetaLookup, AtOpenTmp, AtWrite, AtFsync, AtRename, AtFsyncDir, AtManifest;
    hide OpenTrunc, Fill, Fsync, Rename, FsyncDir, Unlink, FormatMetadata;
  }

  /**
   Every path through a checkpoint, whatever fails, comes to its end and gives the lock back:
   each call either ends the process, with the lock free, or brings it closer to the end.
   */
  lemma CheckpointEnds(s: Sys, p: Pid, o: Outcome)
    requires p in s.procs && IsCheckpoint(s.procs[p])
    ensures Advances(s, p, Checkpoint(s, p, o))
  {
    hide Checkpoint, Advances, Ahead, IsCheckpoint;
    if Ahead(s.procs[p]) > 10 {
      FirstCallsAdvance(s, p, o);
    } else if Ahead(s.procs[p]) > 6 {
      SnapshotCallsAdvance(s, p, o);
    } else {
      MetadataCallsAdvance(s, p, o);
    }
  }

  /** The lock is never left behind: whoever has it is still in its checkpoint. */
  ghost predicate LockHasHolder(s: Sys) {
    s.lock.Some? ==> s.lock.value in s.procs && Holding(s.procs[s.lock.value])
  }

  lemma RestoreApart(s: Sys, p: Pid, o: Outcome, r: Pid)
    requires Enabled(s, Call(p, o)) && !IsCheckpoint(s.procs[p]) && r in s.procs && r != p
    ensures var s' := Restore(s, p, o); r in s'.procs && s'.procs[r] == s.procs[r]
  {
    hide ReadSlot, ImageFormat.Complete;
  }

  lemma LockStays(s: Sys, a: Action, s': Sys)
    requires Step(s, a, s') && LockHasHolder(s)
    ensures LockHasHolder(s')
  {
    hide Checkpoint, Ahead, ReadSlot, ImageFormat.Complete;
    if a.Call? && IsCheckpoint(s.procs[a.pid]) {
      CheckpointEnds(s, a.pid, a.outcome);
    } else if a.Call? && s'.lock.Some? {
      assert s'.lock == s.lock && s.lock != Some(a.pid);
      RestoreApart(s, a.pid, a.outcome, s.lock.value);
    }
  }

  /** In every state of every run. */
  lemma {:induction false} LockIsHeld(states: seq<Sys>, actions: seq<Action>, i: nat)
    requires RunFromInit(states, actions) && i < |states|
    ensures LockHasHolder(states[i])
  {
    hide Apply, Enabled, LockHasHolder, ImageFormat.Complete;
    if i == 0 {
      NoLockAtFirst();
    } else {
      LockIsHeld(states, actions, i - 1);
      LockStays(states[i - 1], actions[i - 1], states[i]);
    }
  }

  lemma NoLockAtFirst()
    ensures LockHasHolder(Init())
  {
  }

  /** Visible metadata never disappears while the power stays on, and acknowledged metadata never at all. */
  lemma MetadataStays(s: Sys, a: Action, s': Sys)
    requires Inv(s) && Step(s, a, s') && Meta in s.fs.entries && (!a.PowerLoss? || s.acked > 0)
    ensures Meta in s'.fs.entries
  {
    hide Inv, Selected, SelectedSlot, ImageFormat.Complete;
    if a.PowerLoss? {
      StepKeeps(s, a, s');
      SelectedIsGood(s');
    } else if Publishes(s, a) {
      if s.procs[a.pid].CkRenameMeta? {
        CellSet(s, a, s');
      } else {
        CellKeptBySnapshot(s, a, s');
      }
    } else {
      CellStutters(s, a, s');
    }
  }

  /** metaEver means what it says: some state of the run so far showed active.meta. */
  lemma {:induction false} MetaEverMeans(states: seq<Sys>, actions: seq<Action>, i: nat)
    requires RunFromInit(states, actions) && i < |states|
    ensures states[i].metaEver <==> exists j :: 0 <= j <= i && Meta in states[j].fs.entries
  {
    hide Inv, Enabled, Apply, ImageFormat.Complete;
    InitHolds();
    RunKeeps(states, actions);
    if i > 0 {
      MetaEverMeans(states, actions, i - 1);
      MetaEverStep(states[i - 1], actions[i - 1], states[i]);
    }
  }

  lemma MetaEverSet(s: Sys, a: Action, s': Sys)
    requires Step(s, a, s')
    ensures s.metaEver ==> s'.metaEver
    ensures s'.metaEver && !s.metaEver ==> Publishes(s, a) && s.procs[a.pid].CkRenameMeta?
  {
    hide Rename, OpenTrunc, Fill, Fsync, FsyncDir, Unlink, ReadSlot, FormatMetadata, ImageFormat.Complete;
  }

  lemma MetaEverStep(s: Sys, a: Action, s': Sys)
    requires Inv(s) && Step(s, a, s') && Inv(s')
    ensures s'.metaEver <==> s.metaEver || Meta in s'.fs.entries
  {
    hide Inv, Apply, Enabled, Publishes, Selected, GoodImage, ImageFormat.Complete;
    HistoryHolds(s');
    MetaEverSet(s, a, s');
    if s'.metaEver && !s.metaEver {
      CellSet(s, a, s');
    }
  }

  lemma HistoryHolds(s: Sys)
    requires Inv(s)
    ensures Meta in s.fs.entries ==> s.metaEver
  {
    hide ImageFormat.Complete;
    assert May(s.fs, Meta, Lookup(s.fs, Meta));
  }

  /** Slot B holds an image only if active.meta was visible before; with the power on, it still is. */
  lemma SlotBNeedsMetadata(states: seq<Sys>, actions: seq<Action>, i: nat)
    requires RunFromInit(states, actions) && i < |states| && Snap(B) in states[i].fs.entries
    ensures exists j :: 0 <= j <= i && Meta in states[j].fs.entries
    ensures (forall j :: 0 <= j < i ==> !actions[j].PowerLoss?) ==> Meta in states[i].fs.entries
  {
    hide ImageFormat.Complete;
    InitHolds();
    RunKeeps(states, actions);
    assert May(states[i].fs, Snap(B), Lookup(states[i].fs, Snap(B)));
    MetaEverMeans(states, actions, i);
    if forall j :: 0 <= j < i ==> !actions[j].PowerLoss? {
      var j :| 0 <= j <= i && Meta in states[j].fs.entries;
      MetadataStaysAlong(states, actions, j, i);
    }
  }

  lemma {:induction false} MetadataStaysAlong(states: seq<Sys>, actions: seq<Action>, j: nat, i: nat)
    requires RunFromInit(states, actions) && j <= i < |states| && Meta in states[j].fs.entries
    requires forall k :: j <= k < i ==> !actions[k].PowerLoss?
    ensures Meta in states[i].fs.entries
    decreases i - j
  {
    hide Inv, ImageFormat.Complete;
    if j < i {
      InitHolds();
      RunKeeps(states, actions);
      MetadataStays(states[j], actions[j], states[j + 1]);
      MetadataStaysAlong(states, actions, j + 1, i);
    }
  }
}
