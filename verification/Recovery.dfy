/**
 The store and the image together: what a restore after a crash puts back is the memory of one
 capture, and that capture is not older than the acknowledged one.
 */
module Recovery {
  import opened ImageFormat
  import opened Capture
  import opened AddressSpace
  import opened RoundTrip
  import opened CrashFs
  import Protocol
  import opened ProtocolTheorems

  /** The layout and the memory of the stopped process at each capture, by number. */
  datatype Captured = Captured(layouts: nat -> ProcLayout, mems: nat -> Memory)

  /** The file is what WriteImage leaves of this capture. */
  ghost predicate IsCapture(file: ImageFile, l: ProcLayout, mem: Memory) {
    Load(file.bytes).Some? && Captures(Load(file.bytes).value, file.bytes, l, mem)
  }

  /** The finished images are those of the captures with their numbers. */
  ghost predicate AllCaptured(fs: Fs, w: Captured) {
    forall i :: i in fs.inodes && fs.inodes[i].content.Image? ==>
      var c := fs.inodes[i].content;
      IsCapture(c.file, w.layouts(c.number), w.mems(c.number))
  }

  /** The action is the end of the writes into snapshot.bin.tmp. */
  predicate Writes(s: Protocol.Sys, a: Protocol.Action) {
    a.Call? && a.outcome.ok && a.pid in s.procs && s.procs[a.pid].CkWrite?
  }

  /** Every write of the run leaves the image of the process as it is captured there. */
  ghost predicate WritesCaptures(states: seq<Protocol.Sys>, actions: seq<Protocol.Action>, w: Captured)
    requires |states| > |actions|
  {
    forall i :: 0 <= i < |actions| && Writes(states[i], actions[i]) ==>
      IsCapture(actions[i].outcome.file, w.layouts(states[i].nextNumber), w.mems(states[i].nextNumber))
  }

  lemma CallCaptured(s: Protocol.Sys, p: Protocol.Pid, o: Protocol.Outcome, w: Captured)
    requires p in s.procs && Protocol.IsCheckpoint(s.procs[p]) && AllCaptured(s.fs, w)
    requires Writes(s, Protocol.Call(p, o)) ==> IsCapture(o.file, w.layouts(s.nextNumber), w.mems(s.nextNumber))
    ensures AllCaptured(Protocol.Checkpoint(s, p, o).fs, w)
  {
    hide IsCapture, Protocol.ReadSlot;
  }

  lemma StepCaptured(s: Protocol.Sys, a: Protocol.Action, s': Protocol.Sys, w: Captured)
    requires Protocol.Step(s, a, s') && AllCaptured(s.fs, w)
    requires Writes(s, a) ==> IsCapture(a.outcome.file, w.layouts(s.nextNumber), w.mems(s.nextNumber))
    ensures AllCaptured(s'.fs, w)
  {
    hide IsCapture, Protocol.Checkpoint, Protocol.ReadSlot, Complete;
    if a.Call? && Protocol.IsCheckpoint(s.procs[a.pid]) {
      CallCaptured(s, a.pid, a.outcome, w);
    }
  }

  lemma {:induction false} AlwaysCaptured(
    states: seq<Protocol.Sys>, actions: seq<Protocol.Action>, i: nat, w: Captured)
    requires Protocol.RunFromInit(states, actions) && WritesCaptures(states, actions, w) && i < |states|
    ensures AllCaptured(states[i].fs, w)
  {
    hide IsCapture, Protocol.Step, AllCaptured;
    if i == 0 {
      NothingCaptured(w);
    } else {
      AlwaysCaptured(states, actions, i - 1, w);
      assert Protocol.Step(states[i - 1], actions[i - 1], states[i]);
      StepCaptured(states[i - 1], actions[i - 1], states[i], w);
    }
  }

  lemma NothingCaptured(w: Captured)
    ensures AllCaptured(Protocol.Init().fs, w)
  {
  }

  lemma RebootCaptured(fs: Fs, pick: map<Name, nat>, w: Captured)
    requires AllCaptured(fs, w)
    ensures AllCaptured(Reboot(fs, pick), w)
  {
    hide IsCapture;
  }

  lemma SelectedCaptured(fs: Fs, w: Captured)
    requires AllCaptured(fs, w) && Selected(fs).Some? && Selected(fs).value.Image?
    ensures var c := Selected(fs).value; IsCapture(c.file, w.layouts(c.number), w.mems(c.number))
  {
    hide IsCapture, SelectedSlot;
  }

  /**
   From crash to memory.  A checkpoint is acknowledged by state `i`; power is lost in state `j`;
   the image then selected is loaded and rebuilt.  Every byte it carries is the byte of one
   capture's stopped process, and that capture is not older than the acknowledged one.
   */
  lemma RecoveredMemory(
    states: seq<Protocol.Sys>, actions: seq<Protocol.Action>, i: nat, j: nat, pick: map<Name, nat>, w: Captured,
    before: Cells, cells: Cells)
    requires Protocol.RunFromInit(states, actions) && WritesCaptures(states, actions, w)
    requires i <= j < |states| && states[i].acked > 0 && Survives(states[j].fs, pick)
    ensures var c := Selected(Reboot(states[j].fs, pick));
      && c.Some? && c.value.Image? && c.value.number >= states[i].acked
      && IsCapture(c.value.file, w.layouts(c.value.number), w.mems(c.value.number))
      && var img := Load(c.value.file.bytes).value;
         Rebuilt(before, cells, img.regions, |img.regions|, c.value.file.bytes) ==>
           forall k: nat, a: nat :: a < U64 && Carried(img, k) && Covers(img.regions[k], a) ==>
             ByteBack(img, w.layouts(c.value.number), w.mems(c.value.number), cells, k, a)
  {
    hide Protocol.Step, Reboot, Survives, Selected, Captures, Rebuilt, Covers, ByteBack, Carried, Complete, Load,
      AllCaptured;
    AcknowledgedNeverLost(states, actions, i, j, pick);
    AlwaysCaptured(states, actions, j, w);
    RebootCaptured(states[j].fs, pick, w);
    SelectedCaptured(Reboot(states[j].fs, pick), w);
    var c := Selected(Reboot(states[j].fs, pick)).value;
    var img := Load(c.file.bytes).value;
    if Rebuilt(before, cells, img.regions, |img.regions|, c.file.bytes) {
      MemoryRoundTrip(img, c.file.bytes, w.layouts(c.number), w.mems(c.number), before, cells);
    }
  }

  /** The same for a restore among running checkpoints: what its child loads is one capture. */
  lemma ChildLoadsCapture(
    states: seq<Protocol.Sys>, actions: seq<Protocol.Action>, i: nat, p: Protocol.Pid, w: Captured)
    requires Protocol.RunFromInit(states, actions) && WritesCaptures(states, actions, w) && i < |states|
    requires p in states[i].procs && states[i].procs[p].ChLoad?
    ensures var c := states[i].procs[p].seen;
      c.Image? && c.number >= states[i].procs[p].floor && IsCapture(c.file, w.layouts(c.number), w.mems(c.number))
  {
    hide Protocol.Step, IsCapture, Complete;
    AlwaysCaptured(states, actions, i, w);
    RestoreNeverTorn(states, actions, i, p);
  }
}
