/**
 The A/B checkpoint store as a transition system.

 Any number of manager processes run `ulcr_checkpoint_latest` or `ulcr_restore_latest`; a
 restored child runs the loading half of `ulcr_runtime_bootstrap`.  One step is one system
 call of one process (or a group of calls that touch nothing the store depends on).  Every
 call may fail, every process may be killed between two calls, and power may be lost.
 */
module Protocol {
  import opened Wrappers
  import opened CrashFs
  import opened MetadataText
  import ImageFormat

  type Pid = nat

  /** Where a process is, with the local variables that matter from there on. */
  datatype Proc =
    // ulcr_checkpoint_latest.  `informed` records that metadata, if any, was read.
    | CkStart                                                // about to flock
    | CkAccessMeta                                           // about to access(active.meta)
    | CkOpenMeta                                             // about to open it
    | CkReadMeta(ino: nat)                                   // about to read it
    | CkOpenTmp(slot: Slot, informed: bool)                  // mkdir, ptrace, /proc, open snapshot.bin.tmp
    | CkWrite(slot: Slot, informed: bool, ino: nat)          // header, tables, data, back-patching
    | CkFsync(slot: Slot, informed: bool, ino: nat, number: nat)
    | CkRename(slot: Slot, informed: bool, ino: nat, number: nat)
    | CkFsyncDir(slot: Slot, ino: nat, number: nat)
    | CkManifest(slot: Slot, ino: nat, number: nat)          // manifest, detach, included_regions > 0
    | CkOpenMetaTmp(slot: Slot, ino: nat, number: nat)
    | CkWriteMeta(slot: Slot, ino: nat, number: nat, mino: nat)
    | CkFsyncMeta(slot: Slot, ino: nat, number: nat, mino: nat)
    | CkRenameMeta(slot: Slot, ino: nat, number: nat, mino: nat)
    | CkFsyncRoot(slot: Slot, ino: nat, number: nat, mino: nat)
    | CkUnlinkTmp(name: Name)                                // failed: about to unlink the temporary
    | CkUnlock                                               // about to release the lock
    // ulcr_restore_latest.  `floor` is the number of the capture that was there when the slot was
    // settled: the active one when active.meta was opened, or the one the fallback found.
    | RsAccessMeta
    | RsOpenMeta
    | RsReadMeta(ino: nat, floor: nat)
    | RsProbeA
    | RsProbeB
    | RsOpen(slot: Slot, floor: nat)
    | RsLoad(slot: Slot, floor: nat, ino: nat, seen: Content)
    | RsFork(slot: Slot, floor: nat, seen: Content)
    // The exec'd child loads the same slot again, through a new descriptor.
    | ChOpen(slot: Slot, floor: nat, first: Content)
    | ChLoad(slot: Slot, floor: nat, first: Content, ino: nat, seen: Content)

  datatype Sys = Sys(
    fs: Fs,
    lock: Option<Pid>,
    procs: map<Pid, Proc>,
    nextNumber: nat,      // number of the next capture
    acked: nat,           // newest capture for which ulcr_checkpoint_latest returns 0; 0 if none
    metaEver: bool)       // active.meta was visible at some time

  /** What the environment contributes to one system call. */
  datatype Outcome = Outcome(
    ok: bool,
    newInode: nat,          // inode number of a file this call creates
    child: Pid,             // pid of a process this call forks
    file: ImageFile,        // what the writes up to the last pwrite left behind
    stamp: Stamp,           // timestamp, interval and run time of the metadata
    noise: Option<string>)  // the slot read out of bytes that are not finished metadata

  datatype Action =
    | Spawn(pid: Pid, checkpoint: bool)
    | Call(pid: Pid, outcome: Outcome)
    | Kill(pid: Pid)
    | PowerLoss(pick: map<Name, nat>)

  function Init(): Sys {
    Sys(Fs(map[], map[], {}), None, map[], 1, 0, false)
  }

  // ---- The code's decisions ----

  /** What read_active_slot returns once the file is open. */
  function ReadSlot(fs: Fs, ino: nat, noise: Option<string>): Option<string> {
    if ino in fs.inodes && fs.inodes[ino].content.MetaFile? then ReadActiveSlot(fs.inodes[ino].content.text)
    else noise
  }

  predicate IsImage(fs: Fs, v: Option<nat>) {
    v.Some? && v.value in fs.inodes && fs.inodes[v.value].content.Image?
  }

  function Number(fs: Fs, v: Option<nat>): nat {
    if IsImage(fs, v) then fs.inodes[v.value].content.number else 0
  }

  /** The number of the capture that the slot holds now; 0 without one. */
  function SlotNumber(fs: Fs, slot: Slot): nat {
    Number(fs, Lookup(fs, Snap(slot)))
  }

  /** The number of the capture that the visible active.meta names. */
  function ActiveNumber(fs: Fs): nat {
    if Meta in fs.entries && fs.entries[Meta] in fs.inodes && fs.inodes[fs.entries[Meta]].content.MetaFile?
    then SlotNumber(fs, fs.inodes[fs.entries[Meta]].content.slot)
    else 0
  }

  /** choose_next_slot */
  function NextSlot(active: Option<string>): Slot {
    if active == Some("A") then B else A
  }

  // ---- Steps ----

  function Goto(s: Sys, p: Pid, q: Proc): Sys {
    s.(procs := s.procs[p := q])
  }

  function Exit(s: Sys, p: Pid): Sys {
    s.(procs := s.procs - {p}, lock := if s.lock == Some(p) then None else s.lock)
  }

  function Choose(s: Sys, p: Pid, read: Option<string>): Sys {
    var informed := Lookup(s.fs, Meta).Some? ==> read.Some?;
    Goto(s, p, CkOpenTmp(NextSlot(read), informed))
  }

  predicate IsCheckpoint(q: Proc) {
    !(q.RsAccessMeta? || q.RsOpenMeta? || q.RsReadMeta? || q.RsProbeA? || q.RsProbeB? || q.RsOpen? || q.RsLoad?
      || q.RsFork? || q.ChOpen? || q.ChLoad?)
  }

  // ulcr_checkpoint_latest, one function for each place in it.

  function AtLock(s: Sys, p: Pid, o: Outcome): Sys {
    if o.ok && s.lock.None? then Goto(s, p, CkAccessMeta).(lock := Some(p)) else Exit(s, p)
  }

  function AtMetaLookup(s: Sys, p: Pid, q: Proc, o: Outcome): Sys
    requires q.CkAccessMeta? || q.CkOpenMeta? || q.CkReadMeta?
  {
    match q
    case CkAccessMeta => if o.ok && Meta in s.fs.entries then Goto(s, p, CkOpenMeta) else Choose(s, p, None)
    case CkOpenMeta =>
      if o.ok && Meta in s.fs.entries then Goto(s, p, CkReadMeta(s.fs.entries[Meta])) else Choose(s, p, None)
    case CkReadMeta(ino) => Choose(s, p, if o.ok then ReadSlot(s.fs, ino, o.noise) else None)
  }

  function AtOpenTmp(s: Sys, p: Pid, q: Proc, o: Outcome): Sys
    requires q.CkOpenTmp?
  {
    if o.ok then
      var fs' := OpenTrunc(s.fs, SnapTmp(q.slot), o.newInode);
      Goto(s, p, CkWrite(q.slot, q.informed, fs'.entries[SnapTmp(q.slot)])).(fs := fs')
    else Goto(s, p, CkUnlock)
  }

  function AtWrite(s: Sys, p: Pid, q: Proc, o: Outcome): Sys
    requires q.CkWrite?
  {
    if o.ok then
      Goto(s, p, CkFsync(q.slot, q.informed, q.ino, s.nextNumber))
        .(fs := Fill(s.fs, q.ino, Image(s.nextNumber, o.file)), nextNumber := s.nextNumber + 1)
    else Goto(s, p, CkUnlock)
  }

  function AtFsync(s: Sys, p: Pid, q: Proc, o: Outcome): Sys
    requires q.CkFsync?
  {
    if o.ok && q.ino in s.fs.inodes then
      Goto(s, p, CkRename(q.slot, q.informed, q.ino, q.number)).(fs := Fsync(s.fs, q.ino))
    else Goto(s, p, CkUnlock)
  }

  function AtRename(s: Sys, p: Pid, q: Proc, o: Outcome): Sys
    requires q.CkRename?
  {
    if o.ok && SnapTmp(q.slot) in s.fs.entries then
      Goto(s, p, CkFsyncDir(q.slot, q.ino, q.number)).(fs := Rename(s.fs, SnapTmp(q.slot), Snap(q.slot)))
    else Goto(s, p, CkUnlinkTmp(SnapTmp(q.slot)))
  }

  function AtFsyncDir(s: Sys, p: Pid, q: Proc, o: Outcome): Sys
    requires q.CkFsyncDir?
  {
    if o.ok then Goto(s, p, CkManifest(q.slot, q.ino, q.number)).(fs := FsyncDir(s.fs, SlotDir(q.slot)))
    else Goto(s, p, CkUnlock)
  }

  function AtManifest(s: Sys, p: Pid, q: Proc, o: Outcome): Sys
    requires q.CkManifest?
  {
    var dumped :=
      q.ino in s.fs.inodes && s.fs.inodes[q.ino].content.Image? && s.fs.inodes[q.ino].content.file.included > 0;
    Goto(s, p, if o.ok && dumped then CkOpenMetaTmp(q.slot, q.ino, q.number) else CkUnlock)
  }

  function AtOpenMetaTmp(s: Sys, p: Pid, q: Proc, o: Outcome): Sys
    requires q.CkOpenMetaTmp?
  {
    if o.ok then
      var fs' := OpenTrunc(s.fs, MetaTmp, o.newInode);
      Goto(s, p, CkWriteMeta(q.slot, q.ino, q.number, fs'.entries[MetaTmp])).(fs := fs')
    else Goto(s, p, CkUnlock)
  }

  function AtWriteMeta(s: Sys, p: Pid, q: Proc, o: Outcome): Sys
    requires q.CkWriteMeta?
  {
    if o.ok then
      Goto(s, p, CkFsyncMeta(q.slot, q.ino, q.number, q.mino))
        .(fs := Fill(s.fs, q.mino, MetaFile(q.slot, FormatMetadata(q.slot, o.stamp))))
    else Goto(s, p, CkUnlinkTmp(MetaTmp))
  }

  function AtFsyncMeta(s: Sys, p: Pid, q: Proc, o: Outcome): Sys
    requires q.CkFsyncMeta?
  {
    if o.ok && q.mino in s.fs.inodes then
      Goto(s, p, CkRenameMeta(q.slot, q.ino, q.number, q.mino)).(fs := Fsync(s.fs, q.mino))
    else Goto(s, p, CkUnlinkTmp(MetaTmp))
  }

  function AtRenameMeta(s: Sys, p: Pid, q: Proc, o: Outcome): Sys
    requires q.CkRenameMeta?
  {
    if o.ok && MetaTmp in s.fs.entries then
      Goto(s, p, CkFsyncRoot(q.slot, q.ino, q.number, q.mino)).(fs := Rename(s.fs, MetaTmp, Meta), metaEver := true)
    else Goto(s, p, CkUnlinkTmp(MetaTmp))
  }

  function AtFsyncRoot(s: Sys, p: Pid, q: Proc, o: Outcome): Sys
    requires q.CkFsyncRoot?
  {
    if o.ok then Goto(s, p, CkUnlock).(fs := FsyncDir(s.fs, Root), acked := q.number)
    else Goto(s, p, CkUnlock)
  }

  function AtUnlink(s: Sys, p: Pid, q: Proc, o: Outcome): Sys
    requires q.CkUnlinkTmp?
  {
    Goto(s, p, CkUnlock).(fs := if o.ok then Unlink(s.fs, q.name) else s.fs)
  }

  function Checkpoint(s: Sys, p: Pid, o: Outcome): Sys
    requires p in s.procs && IsCheckpoint(s.procs[p])
  {
    var q := s.procs[p];
    match q
    case CkStart => AtLock(s, p, o)
    case CkAccessMeta => AtMetaLookup(s, p, q, o)
    case CkOpenMeta => AtMetaLookup(s, p, q, o)
    case CkReadMeta(_) => AtMetaLookup(s, p, q, o)
    case CkOpenTmp(_, _) => AtOpenTmp(s, p, q, o)
    case CkWrite(_, _, _) => AtWrite(s, p, q, o)
    case CkFsync(_, _, _, _) => AtFsync(s, p, q, o)
    case CkRename(_, _, _, _) => AtRename(s, p, q, o)
    case CkFsyncDir(_, _, _) => AtFsyncDir(s, p, q, o)
    case CkManifest(_, _, _) => AtManifest(s, p, q, o)
    case CkOpenMetaTmp(_, _, _) => AtOpenMetaTmp(s, p, q, o)
    case CkWriteMeta(_, _, _, _) => AtWriteMeta(s, p, q, o)
    case CkFsyncMeta(_, _, _, _) => AtFsyncMeta(s, p, q, o)
    case CkRenameMeta(_, _, _, _) => AtRenameMeta(s, p, q, o)
    case CkFsyncRoot(_, _, _, _) => AtFsyncRoot(s, p, q, o)
    case CkUnlinkTmp(_) => AtUnlink(s, p, q, o)
    case CkUnlock => Exit(s, p)
  }

  function Restore(s: Sys, p: Pid, o: Outcome): Sys
    requires p in s.procs
  {
    var fs := s.fs;
    match s.procs[p]
    case RsAccessMeta =>
      Goto(s, p, if o.ok && Meta in fs.entries then RsOpenMeta else RsProbeA)
    case RsOpenMeta =>
      Goto(s, p, if o.ok && Meta in fs.entries then RsReadMeta(fs.entries[Meta], ActiveNumber(fs)) else RsProbeA)
    case RsReadMeta(ino, floor) =>
      var read := if o.ok then ReadSlot(fs, ino, o.noise) else None;
      if read.None? then Goto(s, p, RsProbeA)
      else if SlotForName(read.value).Some? then Goto(s, p, RsOpen(SlotForName(read.value).value, floor))
      else Exit(s, p)
    case RsProbeA =>
      Goto(s, p, if o.ok && Snap(A) in fs.entries then RsOpen(A, SlotNumber(fs, A)) else RsProbeB)
    case RsProbeB =>
      if o.ok && Snap(B) in fs.entries then Goto(s, p, RsOpen(B, SlotNumber(fs, B))) else Exit(s, p)
    case RsOpen(slot, floor) =>
      if o.ok && Snap(slot) in fs.entries && fs.entries[Snap(slot)] in fs.inodes then
        var ino := fs.entries[Snap(slot)];
        Goto(s, p, RsLoad(slot, floor, ino, fs.inodes[ino].content))
      else Exit(s, p)
    case RsLoad(slot, floor, ino, seen) =>
      if o.ok then Goto(s, p, RsFork(slot, floor, seen)) else Exit(s, p)
    case RsFork(slot, floor, seen) =>
      var s' := Exit(s, p);
      if o.ok then Goto(s', o.child, ChOpen(slot, floor, seen)) else s'
    case ChOpen(slot, floor, first) =>
      if o.ok && Snap(slot) in fs.entries && fs.entries[Snap(slot)] in fs.inodes then
        var ino := fs.entries[Snap(slot)];
        Goto(s, p, ChLoad(slot, floor, first, ino, fs.inodes[ino].content))
      else Exit(s, p)
    case ChLoad(_, _, _, _, _) => Exit(s, p)
    case _ => s
  }

  ghost predicate Enabled(s: Sys, a: Action) {
    match a
    case Spawn(p, _) => p !in s.procs
    case Call(p, o) =>
      && p in s.procs
      && o.newInode !in s.fs.inodes
      && o.child !in s.procs
      && ImageFormat.Complete(o.file.bytes, o.file.included)
    case Kill(p) => p in s.procs
    case PowerLoss(pick) => Survives(s.fs, pick)
  }

  function Apply(s: Sys, a: Action): Sys
    requires a.Call? ==> a.pid in s.procs
  {
    match a
    case Spawn(p, checkpoint) => Goto(s, p, if checkpoint then CkStart else RsAccessMeta)
    case Call(p, o) => if IsCheckpoint(s.procs[p]) then Checkpoint(s, p, o) else Restore(s, p, o)
    case Kill(p) => Exit(s, p)
    case PowerLoss(pick) => s.(fs := Reboot(s.fs, pick), lock := None, procs := map[])
  }

  ghost predicate Step(s: Sys, a: Action, s': Sys) {
    Enabled(s, a) && s' == Apply(s, a)
  }

  /** A run: the actions taken and the states between them. */
  ghost predicate Run(states: seq<Sys>, actions: seq<Action>) {
    && |states| == |actions| + 1
    && forall i :: 0 <= i < |actions| ==> Step(states[i], actions[i], states[i + 1])
  }

  ghost predicate RunFromInit(states: seq<Sys>, actions: seq<Action>) {
    Run(states, actions) && states[0] == Init()
  }
}
