/**
 What may come back after a power loss, in terms of the calls of a run: the renames that no
 directory fsync has finished.  From that, when a checkpoint's slot is safe to overwrite, and
 when the fallback is as new as an acknowledged capture.
 */
module ProtocolHistory {
  import opened Wrappers
  import opened CrashFs
  import opened Protocol
  import opened ProtocolInvariant
  import opened ProtocolPreserved
  import opened ProtocolTheorems
  import opened ProtocolRestores
  import opened ProtocolData
  import MetadataText
  import ImageFormat

  // ---- Unfinished renames ----

  /** The action renames a new file to the published name `n`. */
  predicate RenamesTo(s: Sys, a: Action, n: Name) {
    match n
    case Snap(slot) => Renames(s, a, slot)
    case Meta => Publishes(s, a) && s.procs[a.pid].CkRenameMeta?
    case _ => false
  }

  /** The action fsyncs the directory. */
  predicate Flushes(s: Sys, a: Action, d: Dir) {
    a.Call? && a.outcome.ok && a.pid in s.procs
    && match d
       case SlotDir(slot) => s.procs[a.pid].CkFsyncDir? && s.procs[a.pid].slot == slot
       case Root => s.procs[a.pid].CkFsyncRoot?
  }

  /** Step `u` renamed a file to `n`, and up to state `i` neither a directory fsync nor a power loss followed. */
  ghost predicate Unfinished(states: seq<Sys>, actions: seq<Action>, u: nat, i: nat, n: Name)
    requires i <= |actions| < |states|
  {
    u < i && RenamesTo(states[u], actions[u], n)
    && forall t :: u < t < i ==> !actions[t].PowerLoss? && !Flushes(states[t], actions[t], DirOf(n))
  }

  /** The value that a published name may have had before the step is in the record after it. */
  ghost predicate PastFollows(s: Sys, a: Action, fs': Fs, n: Name, v: Option<nat>) {
    (n, v) in fs'.past <==>
      !Flushes(s, a, DirOf(n)) && ((n, v) in s.fs.past || (RenamesTo(s, a, n) && v == Lookup(s.fs, n)))
  }

  lemma CapturePast(s: Sys, p: Pid, o: Outcome, n: Name, v: Option<nat>)
    requires Inv(s) && p in s.procs && IsCheckpoint(s.procs[p]) && Ahead(s.procs[p]) > 6 && !IsTmp(n)
    ensures PastFollows(s, Call(p, o), Checkpoint(s, p, o).fs, n, v)
  {
    hide Inv, StoreInv, Chosen, Newest, AtOpenMetaTmp, AtWriteMeta, AtFsyncMeta, AtRenameMeta, AtFsyncRoot, AtUnlink;
    hide Spare, Settled, ReadSlot, ImageFormat.Complete;
    WriterHolds(s, p);
    assert Publishes(s, Call(p, o)) ==> SnapTmp(s.procs[p].slot) in s.fs.entries;
  }

  lemma MetadataPast(s: Sys, p: Pid, o: Outcome, n: Name, v: Option<nat>)
    requires Inv(s) && p in s.procs && IsCheckpoint(s.procs[p]) && Ahead(s.procs[p]) <= 6 && !IsTmp(n)
    ensures PastFollows(s, Call(p, o), Checkpoint(s, p, o).fs, n, v)
  {
    hide Inv, StoreInv, AtLock, AtMetaLookup, AtOpenTmp, AtWrite, AtFsync, AtRename, AtFsyncDir, AtManifest;
    hide Spare, Settled, MetadataText.FormatMetadata, ImageFormat.Complete;
    WriterHolds(s, p);
  }

  lemma PastStep(s: Sys, a: Action, s': Sys, n: Name, v: Option<nat>)
    requires Inv(s) && Step(s, a, s') && !IsTmp(n)
    ensures (n, v) in s'.fs.past <==>
      !a.PowerLoss? && !Flushes(s, a, DirOf(n)) && ((n, v) in s.fs.past || (RenamesTo(s, a, n) && v == Lookup(s.fs, n)))
  {
    hide Inv, Checkpoint, ReadSlot, ImageFormat.Complete;
    if a.Call? && IsCheckpoint(s.procs[a.pid]) {
      if Ahead(s.procs[a.pid]) > 6 {
        CapturePast(s, a.pid, a.outcome, n, v);
      } else {
        MetadataPast(s, a.pid, a.outcome, n, v);
      }
    }
  }

  /** A value of a published entry may come back exactly if an unfinished rename replaced it. */
  lemma {:induction false} PastIff(states: seq<Sys>, actions: seq<Action>, i: nat, n: Name, v: Option<nat>)
    requires RunFromInit(states, actions) && i <= |actions| && !IsTmp(n)
    ensures (n, v) in states[i].fs.past <==>
      exists u :: 0 <= u < i && Unfinished(states, actions, u, i, n) && v == Lookup(states[u].fs, n)
  {
    hide Inv, Apply, Enabled, RenamesTo, Flushes, ImageFormat.Complete;
    if i == 0 {
      NothingPast(states, actions);
    } else {
      var m := i - 1;
      PastIff(states, actions, m, n, v);
      InitHolds();
      RunKeeps(states, actions);
      assert Step(states[m], actions[m], states[i]);
      PastStep(states[m], actions[m], states[i], n, v);
      RenameIsNoFlush(states[m], actions[m], n);
      assert forall u :: 0 <= u < m ==>
        (Unfinished(states, actions, u, i, n) <==>
           Unfinished(states, actions, u, m, n) && !actions[m].PowerLoss? && !Flushes(states[m], actions[m], DirOf(n)));
      assert Unfinished(states, actions, m, i, n) <==> RenamesTo(states[m], actions[m], n);
    }
  }

  lemma NothingPast(states: seq<Sys>, actions: seq<Action>)
    requires RunFromInit(states, actions)
    ensures states[0].fs.past == {}
  {
  }

  lemma RenameIsNoFlush(s: Sys, a: Action, n: Name)
    ensures RenamesTo(s, a, n) ==> !a.PowerLoss? && !Flushes(s, a, DirOf(n))
  {
  }

  // ---- Spare slots, in terms of the run ----

  lemma {:induction false} MetadataKept(states: seq<Sys>, actions: seq<Action>, u: nat, i: nat, ino: nat)
    requires RunFromInit(states, actions) && u <= i <= |actions| && Powered(actions, u, i)
    requires Frozen(states[u].fs, ino)
    ensures Frozen(states[i].fs, ino) && states[i].fs.inodes[ino].content == states[u].fs.inodes[ino].content
    decreases i
  {
    hide Inv, Apply, Enabled, Frozen, ImageFormat.Complete;
    if u < i {
      MetadataKept(states, actions, u, i - 1, ino);
      InitHolds();
      RunKeeps(states, actions);
      assert Step(states[i - 1], actions[i - 1], states[i]);
      StepEvolves(states[i - 1], actions[i - 1], states[i]);
    }
    FrozenExists(states[u].fs, ino);
    FrozenExists(states[i].fs, ino);
  }

  lemma FrozenExists(fs: Fs, ino: nat)
    requires Frozen(fs, ino)
    ensures ino in fs.inodes
  {
  }

  lemma MetaIsFrozen(s: Sys)
    requires Inv(s) && Meta in s.fs.entries
    ensures Frozen(s.fs, s.fs.entries[Meta])
  {
    hide Durable, Contents, ReaderInv, WriterInv, History, ImageFormat.Complete;
    assert May(s.fs, Meta, Lookup(s.fs, Meta));
  }

  /** The metadata that step `u` replaced named the slot. */
  predicate Replaced(s: Sys, slot: Slot) {
    Meta in s.fs.entries && SelectedSlot(s.fs) == Some(slot)
  }

  lemma NamesIff(s: Sys, slot: Slot)
    requires Inv(s)
    ensures Names(s.fs, Lookup(s.fs, Meta), slot) <==> Replaced(s, slot)
  {
    hide Inv, SelectedSlot, ImageFormat.Complete;
    if Meta in s.fs.entries {
      MetaSelects(s);
    }
  }

  lemma NamesLater(states: seq<Sys>, actions: seq<Action>, u: nat, i: nat, slot: Slot)
    requires RunFromInit(states, actions) && i <= |actions| && Unfinished(states, actions, u, i, Meta)
    ensures Names(states[i].fs, Lookup(states[u].fs, Meta), slot) <==> Replaced(states[u], slot)
  {
    hide Inv, Step, Replaced, Flushes, ImageFormat.Complete;
    InitHolds();
    RunKeeps(states, actions);
    NamesIff(states[u], slot);
    RenameIsNoFlush(states[u], actions[u], Meta);
    if Meta in states[u].fs.entries {
      MetaIsFrozen(states[u]);
      MetadataKept(states, actions, u, i, states[u].fs.entries[Meta]);
    }
  }

  /**
   No metadata that may come back names the slot, exactly if the visible one does not, and no
   unfinished rename of active.meta replaced one that does.
   */
  lemma SpareIff(states: seq<Sys>, actions: seq<Action>, i: nat, slot: Slot)
    requires RunFromInit(states, actions) && i <= |actions|
    ensures Spare(states[i].fs, slot) <==>
      !Replaced(states[i], slot)
      && forall u :: 0 <= u < i && Unfinished(states, actions, u, i, Meta) ==> !Replaced(states[u], slot)
  {
    hide Inv, Step, Replaced, Unfinished, ImageFormat.Complete;
    InitHolds();
    RunKeeps(states, actions);
    var fs := states[i].fs;
    NamesIff(states[i], slot);
    forall v: Option<nat>
      ensures (Meta, v) in fs.past <==>
        exists u :: 0 <= u < i && Unfinished(states, actions, u, i, Meta) && v == Lookup(states[u].fs, Meta)
    {
      PastIff(states, actions, i, Meta, v);
    }
    forall u | 0 <= u < i && Unfinished(states, actions, u, i, Meta)
      ensures Names(fs, Lookup(states[u].fs, Meta), slot) <==> Replaced(states[u], slot)
      ensures (Meta, Lookup(states[u].fs, Meta)) in fs.past
    {
      NamesLater(states, actions, u, i, slot);
    }
    assert forall u :: 0 <= u < i && Unfinished(states, actions, u, i, Meta) ==>
      May(fs, Meta, Lookup(states[u].fs, Meta));
    assert May(fs, Meta, Lookup(fs, Meta));
  }

  /** A choice made with active.meta read, if there is one, leaves only the unfinished renames to look at. */
  lemma InformedChoiceSpareIff(states: seq<Sys>, actions: seq<Action>, i: nat, read: Option<string>)
    requires RunFromInit(states, actions) && i <= |actions|
    requires Meta in states[i].fs.entries ==>
      read.Some? && read == ReadSlot(states[i].fs, states[i].fs.entries[Meta], None)
    ensures Spare(states[i].fs, NextSlot(read)) <==>
      forall u :: 0 <= u < i && Unfinished(states, actions, u, i, Meta) ==> !Replaced(states[u], NextSlot(read))
  {
    hide Inv, Step, Unfinished, Spare, MetadataText.ReadActiveSlot, ImageFormat.Complete;
    InitHolds();
    RunKeeps(states, actions);
    SpareIff(states, actions, i, NextSlot(read));
    if Meta in states[i].fs.entries {
      ReadsOtherSlot(states[i], read);
    }
  }

  lemma ReadsOtherSlot(s: Sys, read: Option<string>)
    requires Inv(s) && Meta in s.fs.entries && read == ReadSlot(s.fs, s.fs.entries[Meta], None)
    ensures !Replaced(s, NextSlot(read))
  {
    hide Inv, MetadataText.ReadActiveSlot, ImageFormat.Complete;
    MetaSelects(s);
    ContentsHold(s);
    SoundHolds(s.fs, s.fs.entries[Meta]);
  }

  // ---- Where an unfinished rename comes from ----

  predicate AtRootFsync(s: Sys, p: Pid) {
    p in s.procs && s.procs[p].CkFsyncRoot?
  }

  /** The directory fsync after the metadata rename fails, or its process is killed before it. */
  predicate LosesFsync(s: Sys, a: Action) {
    (a.Kill? || (a.Call? && !a.outcome.ok)) && AtRootFsync(s, a.pid)
  }

  lemma RootFsyncStep(s: Sys, a: Action, s': Sys, p: Pid)
    requires Step(s, a, s') && !a.PowerLoss? && !Flushes(s, a, Root) && AtRootFsync(s, p)
    ensures AtRootFsync(s', p) || (LosesFsync(s, a) && a.pid == p)
  {
    hide Checkpoint, ReadSlot, ImageFormat.Complete;
    if a.Call? && a.pid != p {
      if IsCheckpoint(s.procs[a.pid]) {
        CheckpointEnds(s, a.pid, a.outcome);
      } else {
        RestoreApart(s, a.pid, a.outcome, p);
      }
    }
  }

  lemma RenameGoesToFsync(s: Sys, a: Action, s': Sys)
    requires Inv(s) && Step(s, a, s') && RenamesTo(s, a, Meta)
    ensures a.Call? && AtRootFsync(s', a.pid)
  {
    hide Inv, ImageFormat.Complete;
    WriterHolds(s, a.pid);
  }

  /** A rename of active.meta stays unfinished because its fsync is still to come, failed, or never came. */
  lemma {:induction false} UnfinishedBecause(states: seq<Sys>, actions: seq<Action>, u: nat, i: nat)
    requires RunFromInit(states, actions) && i <= |actions| && Unfinished(states, actions, u, i, Meta)
    ensures actions[u].Call?
    ensures AtRootFsync(states[i], actions[u].pid) || exists t :: u < t < i && LosesFsync(states[t], actions[t])
    decreases i
  {
    hide Inv, Apply, Enabled, AtRootFsync, LosesFsync, Flushes, RenamesTo, ImageFormat.Complete;
    InitHolds();
    RunKeeps(states, actions);
    var m := i - 1;
    assert Step(states[m], actions[m], states[i]);
    if u == m {
      RenameGoesToFsync(states[u], actions[u], states[i]);
    } else {
      assert Unfinished(states, actions, u, m, Meta);
      UnfinishedBecause(states, actions, u, m);
      if AtRootFsync(states[m], actions[u].pid) {
        RootFsyncStep(states[m], actions[m], states[i], actions[u].pid);
      }
    }
  }

  // ---- Runs without lost fsyncs and failed lookups ----

  predicate LooksUp(q: Proc) {
    q.CkAccessMeta? || q.CkOpenMeta? || q.CkReadMeta?
  }

  /** A checkpoint's call on active.meta fails. */
  predicate LosesLookup(s: Sys, a: Action) {
    a.Call? && !a.outcome.ok && a.pid in s.procs && LooksUp(s.procs[a.pid])
  }

  /** The call by which a checkpoint chooses its slot. */
  predicate Chooses(s: Sys, a: Action, s': Sys, p: Pid) {
    a.Call? && a.pid == p && p in s.procs && LooksUp(s.procs[p]) && Capturing(s', p)
  }

  lemma ChoosingStep(s: Sys, a: Action, s': Sys, p: Pid)
    requires Step(s, a, s') && Capturing(s', p)
    ensures Capturing(s, p) || Chooses(s, a, s', p)
  {
    hide Checkpoint, ReadSlot, ImageFormat.Complete;
    if !(a.Call? && a.pid == p) {
      OthersStay(s, a, s', p);
    } else if IsCheckpoint(s.procs[p]) && !Capturing(s, p) {
      OnlyLookupsChoose(s, p, a.outcome);
    }
  }

  lemma OnlyLookupsChoose(s: Sys, p: Pid, o: Outcome)
    requires p in s.procs && IsCheckpoint(s.procs[p]) && !Capturing(s, p) && Capturing(Checkpoint(s, p, o), p)
    ensures LooksUp(s.procs[p])
  {
    hide AtOpenTmp, AtWrite, AtFsync, AtRename, AtMetaLookup, Rename, OpenTrunc, Fill, Fsync, FsyncDir, Unlink;
    hide MetadataText.FormatMetadata;
  }

  /** Back from a checkpoint that has its slot to the choice. */
  lemma {:induction false} ChoiceOrigin(states: seq<Sys>, actions: seq<Action>, m: nat, p: Pid) returns (c: nat)
    requires RunFromInit(states, actions) && m < |states| && Capturing(states[m], p)
    ensures c < m && Chooses(states[c], actions[c], states[c + 1], p)
    ensures forall t :: c < t <= m ==> Capturing(states[t], p)
    decreases m
  {
    hide Apply, Enabled, Chooses, ImageFormat.Complete;
    NobodyAtFirst(states, actions);
    var n := m - 1;
    assert Step(states[n], actions[n], states[m]);
    ChoosingStep(states[n], actions[n], states[m], p);
    if Capturing(states[n], p) {
      c := ChoiceOrigin(states, actions, n, p);
    } else {
      c := n;
    }
  }

  /** What a choice whose call succeeds has read. */
  lemma ChoiceReads(s: Sys, a: Action, s': Sys, p: Pid) returns (read: Option<string>)
    requires Inv(s) && Step(s, a, s') && Chooses(s, a, s', p) && a.outcome.ok
    ensures s'.fs == s.fs && s'.procs[p].slot == NextSlot(read) && Holding(s.procs[p])
    ensures Meta in s.fs.entries ==> read.Some? && read == ReadSlot(s.fs, s.fs.entries[Meta], None)
  {
    hide Inv, MetadataText.ReadActiveSlot, ImageFormat.Complete;
    WriterHolds(s, p);
    read := None;
    if s.procs[p].CkReadMeta? {
      read := ReadSlot(s.fs, s.procs[p].ino, a.outcome.noise);
      MetaSelects(s);
      NamedSlot(s, SelectedSlot(s.fs).value);
    }
  }

  lemma OneHolder(s: Sys, p: Pid, q: Pid)
    requires Inv(s) && p in s.procs && q in s.procs && Holding(s.procs[p]) && Holding(s.procs[q])
    ensures p == q
  {
    hide StoreInv, Contents, ReaderInv, WriterInv, History, ImageFormat.Complete;
  }

  /**
   If no checkpoint's lookup of active.meta ever fails, and no directory fsync after a metadata
   rename fails or is cut off by a kill, then metadata always selects an image with data, now and
   after every power loss, whatever else fails.
   */
  lemma CarefulRunsSelectData(states: seq<Sys>, actions: seq<Action>, i: nat)
    requires RunFromInit(states, actions) && i <= |actions|
    requires forall t :: 0 <= t < i ==> !LosesLookup(states[t], actions[t]) && !LosesFsync(states[t], actions[t])
    ensures forall j :: 0 <= j <= i ==> SelectsData(states[j].fs)
  {
    hide Step, Inv, SelectsData, SafeRename, LosesLookup, LosesFsync, ImageFormat.Complete;
    forall t | 0 <= t < i
      ensures SafeRename(states[t], actions[t])
    {
      CarefulRename(states, actions, t, i);
    }
    SelectsDataIff(states, actions, i);
  }

  lemma CarefulRename(states: seq<Sys>, actions: seq<Action>, t: nat, i: nat)
    requires RunFromInit(states, actions) && t < i <= |actions|
    requires forall k :: 0 <= k < i ==> !LosesLookup(states[k], actions[k]) && !LosesFsync(states[k], actions[k])
    ensures SafeRename(states[t], actions[t])
  {
    hide Step, Inv, Spare, LosesFsync, Unfinished, Chooses, Dumped, ImageFormat.Complete;
    if Publishes(states[t], actions[t]) && states[t].procs[actions[t].pid].CkRename? {
      var p := actions[t].pid;
      var c := ChoiceOrigin(states, actions, t, p);
      InitHolds();
      RunKeeps(states, actions);
      assert Step(states[c], actions[c], states[c + 1]);
      ChoiceSucceeds(states[c], actions[c], states[c + 1], p);
      var read := ChoiceReads(states[c], actions[c], states[c + 1], p);
      InformedChoiceSpareIff(states, actions, c, read);
      forall u | 0 <= u < c && Unfinished(states, actions, u, c, Meta)
        ensures false
      {
        UnfinishedBecause(states, actions, u, c);
        OneHolder(states[c], p, actions[u].pid);
        assert false;
      }
      SpareSinceChoice(states, actions, c + 1, t, p);
    }
  }

  lemma ChoiceSucceeds(s: Sys, a: Action, s': Sys, p: Pid)
    requires Chooses(s, a, s', p) && !LosesLookup(s, a)
    ensures a.outcome.ok && p in s.procs && a.pid == p && LooksUp(s.procs[p]) && Capturing(s', p)
  {
  }

  /**
   Along a run: when no rename of active.meta, nor of the selected slot's snapshot.bin, is
   unfinished, a power loss leaves the selected image as it is.
   */
  lemma FinishedSurvives(states: seq<Sys>, actions: seq<Action>, i: nat, slot: Slot, pick: map<Name, nat>)
    requires RunFromInit(states, actions) && i <= |actions| && Survives(states[i].fs, pick)
    requires Meta in states[i].fs.entries && SelectedSlot(states[i].fs) == Some(slot)
    requires forall u :: 0 <= u < i ==>
      !Unfinished(states, actions, u, i, Meta) && !Unfinished(states, actions, u, i, Snap(slot))
    ensures Selected(Reboot(states[i].fs, pick)) == Selected(states[i].fs)
  {
    hide Inv, Step, SelectedSlot, Selected, Survives, Reboot, Unfinished, ImageFormat.Complete;
    InitHolds();
    RunKeeps(states, actions);
    var fs := states[i].fs;
    NamesIff(states[i], slot);
    forall v | May(fs, Meta, v)
      ensures StillSelects(fs, v, slot)
    {
      PastIff(states, actions, i, Meta, v);
    }
    forall w | May(fs, Snap(slot), w)
      ensures w == Lookup(fs, Snap(slot))
    {
      PastIff(states, actions, i, Snap(slot), w);
    }
    PowerLossKeepsCellIff(states[i], slot);
  }
}
