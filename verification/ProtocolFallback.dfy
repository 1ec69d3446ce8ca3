/**
 How new is what the fallback finds?  Exactly, over every run, in terms of the calls since the
 acknowledged capture.
 */
module ProtocolFallback {
  import opened Wrappers
  import opened CrashFs
  import opened Protocol
  import opened ProtocolInvariant
  import opened ProtocolSteps
  import opened ProtocolPreserved
  import opened ProtocolTheorems
  import opened ProtocolRestores
  import opened ProtocolHistory
  import MetadataText
  import ImageFormat

  // ---- The newest capture is the one in hand ----

  /** The process has written the image of a capture and not yet finished with it. */
  predicate Carries(q: Proc) {
    q.CkFsync? || q.CkRename? || q.CkFsyncDir? || q.CkManifest? || q.CkOpenMetaTmp? || q.CkWriteMeta? || q.CkFsyncMeta?
    || q.CkRenameMeta? || q.CkFsyncRoot?
  }

  /** Whoever carries a capture carries the newest one. */
  ghost predicate CarriesNewest(s: Sys) {
    forall p :: p in s.procs && Carries(s.procs[p]) ==> s.nextNumber == s.procs[p].number + 1
  }

  lemma FirstCallsCarry(s: Sys, p: Pid, o: Outcome)
    requires p in s.procs && IsCheckpoint(s.procs[p]) && Ahead(s.procs[p]) > 10
    ensures var s' := Checkpoint(s, p, o);
      && (s'.nextNumber != s.nextNumber ==> s.procs[p].CkWrite?)
      && (p in s'.procs && Carries(s'.procs[p]) ==> s'.nextNumber == s'.procs[p].number + 1)
  {
    hide OpenTrunc, Fill, ReadSlot, NextSlot;
  }

  lemma LaterCallsCarry(s: Sys, p: Pid, o: Outcome)
    requires p in s.procs && IsCheckpoint(s.procs[p]) && Ahead(s.procs[p]) <= 10
    ensures var s' := Checkpoint(s, p, o);
      && s'.nextNumber == s.nextNumber
      && (p in s'.procs && Carries(s'.procs[p]) ==> Carries(s.procs[p]) && s'.procs[p].number == s.procs[p].number)
  {
    hide AtLock, AtMetaLookup, AtOpenTmp, AtWrite, OpenTrunc, Fill, Fsync, Rename, FsyncDir, Unlink;
    hide MetadataText.FormatMetadata;
  }

  lemma CarriesStep(s: Sys, a: Action, s': Sys)
    requires Inv(s) && Step(s, a, s') && CarriesNewest(s)
    ensures CarriesNewest(s')
  {
    hide Inv, Checkpoint, Restore, Ahead, ReadSlot, ImageFormat.Complete;
    forall p | p in s'.procs && Carries(s'.procs[p])
      ensures s'.nextNumber == s'.procs[p].number + 1
    {
      if a.Call? && a.pid == p {
        if IsCheckpoint(s.procs[p]) {
          if Ahead(s.procs[p]) > 10 { FirstCallsCarry(s, p, a.outcome); } else { LaterCallsCarry(s, p, a.outcome); }
        } else {
          RestoreCarriesNothing(s, p, a.outcome);
        }
      } else {
        OthersStay(s, a, s', p);
        OthersCarryOn(s, a, s', p);
      }
    }
  }

  lemma RestoreCarriesNothing(s: Sys, p: Pid, o: Outcome)
    requires p in s.procs && !IsCheckpoint(s.procs[p])
    ensures p in Restore(s, p, o).procs ==> !Carries(Restore(s, p, o).procs[p])
  {
    hide ReadSlot;
  }

  /** While one process carries a capture, no other starts one. */
  lemma OthersCarryOn(s: Sys, a: Action, s': Sys, p: Pid)
    requires Inv(s) && Step(s, a, s') && !(a.Call? && a.pid == p) && p in s'.procs && Carries(s'.procs[p])
    requires p in s.procs ==> s'.procs[p] == s.procs[p]
    requires p !in s.procs ==> s'.procs[p].CkStart? || s'.procs[p].RsAccessMeta? || s'.procs[p].ChOpen?
    ensures p in s.procs && s'.nextNumber == s.nextNumber
  {
    hide Inv, Checkpoint, ReadSlot, ImageFormat.Complete;
    if a.Call? && IsCheckpoint(s.procs[a.pid]) {
      if Ahead(s.procs[a.pid]) > 10 {
        FirstCallsCarry(s, a.pid, a.outcome);
        if s.procs[a.pid].CkWrite? {
          OneHolder(s, p, a.pid);
        }
      } else {
        LaterCallsCarry(s, a.pid, a.outcome);
      }
    }
  }

  lemma {:induction false} AlwaysCarriesNewest(states: seq<Sys>, actions: seq<Action>, i: nat)
    requires RunFromInit(states, actions) && i <= |actions|
    ensures CarriesNewest(states[i])
  {
    hide Inv, Apply, Enabled, Carries, ImageFormat.Complete;
    if i == 0 {
      NobodyAtFirst(states, actions);
    } else {
      AlwaysCarriesNewest(states, actions, i - 1);
      InitHolds();
      RunKeeps(states, actions);
      assert Step(states[i - 1], actions[i - 1], states[i]);
      CarriesStep(states[i - 1], actions[i - 1], states[i]);
    }
  }

  // ---- Where a slot's image comes from ----

  lemma MayIsFrozen(s: Sys, slot: Slot, ino: nat)
    requires Inv(s) && May(s.fs, Snap(slot), Some(ino))
    ensures Frozen(s.fs, ino)
  {
    hide Durable, Contents, ReaderInv, WriterInv, History, ImageFormat.Complete;
  }

  /** A value that the slot may have after a step, it may have had before, or the step renamed it there. */
  lemma MayStep(s: Sys, a: Action, s': Sys, slot: Slot, v: Option<nat>)
    requires Inv(s) && Step(s, a, s') && May(s'.fs, Snap(slot), v)
    ensures (May(s.fs, Snap(slot), v) && Number(s'.fs, v) == Number(s.fs, v))
      || (Renames(s, a, slot) && Number(s'.fs, v) == s.procs[a.pid].number)
  {
    hide Inv, Apply, Enabled, Renames, SlotNumber, Frozen, ImageFormat.Complete;
    if a.PowerLoss? {
      RebootMayStep(s, a, s', slot, v);
    } else if Renames(s, a, slot) && v == Lookup(s'.fs, Snap(slot)) {
      InSlotStep(s, a, s', slot);
      assert SlotNumber(s'.fs, slot) == Number(s'.fs, v) by { SlotNumberIs(s'.fs, slot); }
    } else {
      PastStep(s, a, s', Snap(slot), v);
      VisibleEntry(s, a, s', slot);
      if v.Some? {
        MayIsFrozen(s, slot, v.value);
        StepEvolves(s, a, s');
        FrozenNumber(s.fs, s'.fs, v.value);
      }
    }
  }

  lemma SlotNumberIs(fs: Fs, slot: Slot)
    ensures SlotNumber(fs, slot) == Number(fs, Lookup(fs, Snap(slot)))
  {
  }

  lemma FrozenNumber(fs: Fs, fs': Fs, ino: nat)
    requires Evolves(fs, fs') && Frozen(fs, ino)
    ensures Number(fs', Some(ino)) == Number(fs, Some(ino))
  {
    assert Frozen(fs', ino);
  }

  lemma VisibleEntry(s: Sys, a: Action, s': Sys, slot: Slot)
    requires Inv(s) && Step(s, a, s') && !a.PowerLoss?
    ensures Renames(s, a, slot) || Lookup(s'.fs, Snap(slot)) == Lookup(s.fs, Snap(slot))
  {
    hide Inv, Checkpoint, ReadSlot, ImageFormat.Complete;
    if Publishes(s, a) {
      PublishedEntry(s, a, s', slot);
    } else {
      VisibleStays(s, a, s');
    }
  }

  lemma PublishedEntry(s: Sys, a: Action, s': Sys, slot: Slot)
    requires Inv(s) && Step(s, a, s') && Publishes(s, a)
    ensures Renames(s, a, slot) || Lookup(s'.fs, Snap(slot)) == Lookup(s.fs, Snap(slot))
  {
    hide Inv, ImageFormat.Complete;
    WriterHolds(s, a.pid);
  }

  lemma RebootMayStep(s: Sys, a: Action, s': Sys, slot: Slot, v: Option<nat>)
    requires Inv(s) && Step(s, a, s') && a.PowerLoss? && May(s'.fs, Snap(slot), v)
    ensures May(s.fs, Snap(slot), v) && Number(s'.fs, v) == Number(s.fs, v)
  {
    hide Separate, Durable, Numbered, Contents, ReaderInv, WriterInv, History, Survives, Reboot, ImageFormat.Complete;
    RebootFiles(s.fs, a.pick);
  }

  /** Along a run: the slot may have had the value in state `b` already, or a step since renamed it there. */
  lemma {:induction false} ValueSince(
    states: seq<Sys>, actions: seq<Action>, b: nat, m: nat, slot: Slot, v: Option<nat>)
    requires RunFromInit(states, actions) && b <= m <= |actions| && May(states[m].fs, Snap(slot), v)
    ensures (May(states[b].fs, Snap(slot), v) && Number(states[m].fs, v) == Number(states[b].fs, v))
      || RenamedNumber(states, actions, b, m, slot, Number(states[m].fs, v))
    decreases m
  {
    hide Inv, Apply, Enabled, May, Number, ImageFormat.Complete;
    if b < m {
      InitHolds();
      RunKeeps(states, actions);
      assert Step(states[m - 1], actions[m - 1], states[m]);
      MayStep(states[m - 1], actions[m - 1], states[m], slot, v);
      if !(Renames(states[m - 1], actions[m - 1], slot)
           && Number(states[m].fs, v) == states[m - 1].procs[actions[m - 1].pid].number) {
        ValueSince(states, actions, b, m - 1, slot, v);
      }
    }
  }

  /** Between states `b` and `m` the capture with this number was renamed into the slot. */
  ghost predicate RenamedNumber(states: seq<Sys>, actions: seq<Action>, b: nat, m: nat, slot: Slot, number: nat)
    requires m <= |actions| < |states|
  {
    exists t :: b <= t < m && Renames(states[t], actions[t], slot) && states[t].procs[actions[t].pid].number == number
  }

  // ---- Against an acknowledged capture ----

  /** The step acknowledges a capture. */
  predicate Acknowledges(s: Sys, a: Action) {
    a.Call? && a.outcome.ok && a.pid in s.procs && s.procs[a.pid].CkFsyncRoot?
  }

  lemma AckSets(s: Sys, a: Action, s': Sys)
    requires Step(s, a, s') && Acknowledges(s, a)
    ensures s'.acked == s.procs[a.pid].number
  {
    hide FsyncDir, ImageFormat.Complete;
  }

  /** What the slots may hold when the capture is acknowledged: its own slot just it, the other one only older ones. */
  lemma SlotsAtAck(s: Sys, a: Action, slot: Slot, v: Option<nat>)
    requires Inv(s) && CarriesNewest(s) && Acknowledges(s, a) && May(s.fs, Snap(slot), v)
    ensures var q := s.procs[a.pid];
      if slot == q.slot then Number(s.fs, v) == q.number else Number(s.fs, v) < q.number
  {
    hide Durable, Published, Closed, Contents, ReaderInv, History, ImageFormat.Complete;
    var q := s.procs[a.pid];
    assert WriterInv(s, q);
    assert May(s.fs, Snap(q.slot), Lookup(s.fs, Snap(q.slot)));
    assert Carries(q);
    assert slot == A || slot == B;
  }

  lemma LaterRenameIsNewer(states: seq<Sys>, actions: seq<Action>, i: nat, t: nat, slot: Slot)
    requires RunFromInit(states, actions) && i < t < |actions|
    requires Acknowledges(states[i], actions[i]) && Renames(states[t], actions[t], slot)
    ensures states[t].procs[actions[t].pid].number > states[i].procs[actions[i].pid].number
  {
    hide Inv, Apply, Enabled, Settled, ImageFormat.Complete;
    InitHolds();
    RunKeeps(states, actions);
    assert Step(states[i], actions[i], states[i + 1]);
    AckSets(states[i], actions[i], states[i + 1]);
    AckGrowsAlong(states, actions, i + 1, t);
    WriterHolds(states[t], actions[t].pid);
  }

  lemma AckIsNoRename(s: Sys, a: Action, slot: Slot)
    ensures Acknowledges(s, a) ==> !Renames(s, a, slot) && !a.PowerLoss?
  {
  }

  /**
   Step `i` acknowledges capture `k` of one slot.  From then on, whatever fails and however often
   the power is lost, a slot holds a capture numbered `k` or more exactly if it is that slot, or
   the capture it holds was renamed into it since.
   */
  lemma HoldsAcknowledgedIff(states: seq<Sys>, actions: seq<Action>, i: nat, m: nat, slot: Slot)
    requires RunFromInit(states, actions) && i < m <= |actions| && Acknowledges(states[i], actions[i])
    ensures var q := states[i].procs[actions[i].pid];
      SlotNumber(states[m].fs, slot) >= q.number <==>
        slot == q.slot || RenamedNumber(states, actions, i + 1, m, slot, SlotNumber(states[m].fs, slot))
  {
    hide Inv, Step, CarriesNewest, Number, May, ImageFormat.Complete;
    InitHolds();
    RunKeeps(states, actions);
    AlwaysCarriesNewest(states, actions, i);
    var v := Lookup(states[m].fs, Snap(slot));
    assert May(states[m].fs, Snap(slot), v) by { VisibleMay(states[m].fs, Snap(slot)); }
    ValueSince(states, actions, i, m, slot, v);
    AckIsNoRename(states[i], actions[i], slot);
    forall t | i < t < m && Renames(states[t], actions[t], slot)
      ensures states[t].procs[actions[t].pid].number > states[i].procs[actions[i].pid].number
    {
      LaterRenameIsNewer(states, actions, i, t, slot);
    }
    if May(states[i].fs, Snap(slot), v) {
      SlotsAtAck(states[i], actions[i], slot, v);
    }
  }

  lemma VisibleMay(fs: Fs, n: Name)
    ensures May(fs, n, Lookup(fs, n))
  {
  }

  /**
   The same while the power stays on, and applied to a restore: the capture that the fallback
   settles on in step `m` is `k` or newer exactly if it is in the slot of `k`, or some snapshot was
   renamed into its slot since.
   */
  lemma FallbackAcknowledgedIff(states: seq<Sys>, actions: seq<Action>, i: nat, m: nat, p: Pid, slot: Slot)
    requires RunFromInit(states, actions) && i < m < |actions| && Acknowledges(states[i], actions[i])
    requires Powered(actions, i, m) && Settles(states[m], actions[m], p, slot) && !states[m].procs[p].RsOpenMeta?
    ensures p in states[m + 1].procs && states[m + 1].procs[p] == RsOpen(slot, SlotNumber(states[m].fs, slot))
    ensures var q := states[i].procs[actions[i].pid];
      states[m + 1].procs[p].floor >= q.number <==> slot == q.slot || RenamedIn(states, actions, i + 1, m, slot)
  {
    hide Inv, Step, Acknowledges, Settles, SlotNumber, InSlot, NewImage, ImageFormat.Complete;
    InitHolds();
    RunKeeps(states, actions);
    assert Step(states[m], actions[m], states[m + 1]);
    ProbeSettles(states[m], actions[m], states[m + 1], p, slot);
    HoldsAcknowledgedIff(states, actions, i, m, slot);
    if RenamedIn(states, actions, i + 1, m, slot) {
      var t := FindLast(states, actions, i + 1, m, slot);
      InSlotStep(states[t], actions[t], states[t + 1], slot) by { assert Step(states[t], actions[t], states[t + 1]); }
      InSlotAlong(states, actions, t + 1, m, slot);
      SameNumber(states[t + 1], states[m], slot);
      assert RenamedNumber(states, actions, i + 1, m, slot, SlotNumber(states[m].fs, slot));
    }
  }

  lemma ProbeSettles(s: Sys, a: Action, s': Sys, p: Pid, slot: Slot)
    requires Step(s, a, s') && Settles(s, a, p, slot) && !s.procs[p].RsOpenMeta?
    ensures p in s'.procs && s'.procs[p] == RsOpen(slot, SlotNumber(s.fs, slot))
  {
    hide SlotNumber, ReadSlot, ImageFormat.Complete;
  }
}
