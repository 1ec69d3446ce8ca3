/**
 Loading an image and `ulcr_runtime_bootstrap`, the restored process's first steps.
 */
module Bootstrap {
  import opened Wrappers
  import opened Bytes
  import opened ImageFormat
  import opened AddressSpace
  import opened FdTable

  /** A file open for reading. */
  class InFile {
    const bytes: seq<byte>
    var pos: nat

    constructor (bytes: seq<byte>)
      ensures this.bytes == bytes && pos == 0
    {
      this.bytes, pos := bytes, 0;
    }

    /** read: what is left if that is less than `n`; None for an error. */
    method Read(n: nat, ok: bool) returns (data: Option<seq<byte>>)
      requires pos <= |bytes|
      modifies this
      ensures pos <= |bytes|
      ensures !ok ==> data.None? && pos == old(pos)
      ensures ok ==> data.Some? && pos == old(pos) + |data.value| && data.value == bytes[old(pos)..pos]
      ensures ok ==> |data.value| == if old(pos) + n <= |bytes| then n else |bytes| - old(pos)
    {
      if !ok { return None; }
      var to := if pos + n <= |bytes| then pos + n else |bytes|;
      data := Some(bytes[pos..to]);
      pos := to;
    }
  }

  /** ulcr_load_snapshot on an open file; `readsOk` tells which of the three reads get no error. */
  method LoadSnapshot(file: InFile, readsOk: (bool, bool, bool)) returns (img: Option<Image>)
    requires file.pos == 0
    modifies file
    ensures img.Some? ==> img == Load(file.bytes)
    ensures readsOk == (true, true, true) ==> img == Load(file.bytes)
  {
    hide DecodeHeader, DecodeRegions, DecodeFds;
    img := None;
    var data := file.Read(HEADER_SIZE, readsOk.0);
    if data.None? || |data.value| != HEADER_SIZE { return; }
    var h := DecodeHeader(data.value);
    if h.magic != MAGIC || h.version != VERSION { return; }
    if h.regionCount > MAX_REGIONS || h.fdCount > MAX_FDS { return; }
    data := file.Read(REGION_SIZE * h.regionCount, readsOk.1);
    if data.None? || |data.value| != REGION_SIZE * h.regionCount { return; }
    var regions := DecodeRegions(data.value, h.regionCount);
    data := file.Read(FD_SIZE * h.fdCount, readsOk.2);
    if data.None? || |data.value| != FD_SIZE * h.fdCount { return; }
    var fds := DecodeFds(data.value, h.fdCount);
    img := Some(Image(h, regions, fds));
  }

  /** A freshly exec'd child: ULCR_RESTORE_SNAPSHOT, its descriptors and its memory. */
  class Child {
    const snapshotDir: Option<CString>  // None: not set
    const table: Table
    const space: Space
    var restored: bool                  // ULCR_RESTORED is set

    constructor (snapshotDir: Option<CString>, table: Table, space: Space)
      ensures this.snapshotDir == snapshotDir && this.table == table && this.space == space && !restored
    {
      this.snapshotDir, this.table, this.space, restored := snapshotDir, table, space, false;
    }
  }

  /** No entry is placed at the number the snapshot was opened on. */
  ghost predicate NoClash(fds: Fds, snapshotFd: nat, entries: seq<FdEntry>, calls: seq<Calls>, contents: Contents)
    requires |entries| == |calls|
  {
    forall i :: 0 <= i < |entries| && Placed(fds, entries, calls, contents, i) ==> entries[i].fd != snapshotFd
  }

  /** The table once the snapshot is open. */
  function WithSnapshot(fds: Fds, path: CString, bytes: seq<byte>): Fds {
    fds[LowestFree(fds) := OpenFile(path, 0, 0, bytes)]
  }

  /**
   ulcr_runtime_bootstrap.  `snapshot` is what snapshot.bin holds when it is opened, `calls`
   says which system calls of the fd loop succeed.
   */
  method RuntimeBootstrap(
    child: Child, path: CString, snapshot: seq<byte>, opens: bool, readsOk: (bool, bool, bool),
    calls: seq<Calls>, contents: Contents)
    returns (code: int)
    requires Load(snapshot).Some? ==> |calls| == |Load(snapshot).value.fds|
    modifies child, child.table, child.space, child.space.kernel
    ensures code == 0 <==> child.snapshotDir.None? || child.snapshotDir == Some([])
    ensures code in {-1, 0, 1} && child.restored == (old(child.restored) || code == 1)
    ensures code == 0 ==> child.table.fds == old(child.table.fds) && child.space.cells == old(child.space.cells)
    // Success: descriptors and memory as the two loops leave them, and the snapshot's number closed.
    ensures code == 1 ==>
      && Load(snapshot).Some? && child.restored
      && var img := Load(snapshot).value;
         var withIt := WithSnapshot(old(child.table.fds), path, snapshot);
         var snapshotFd := LowestFree(old(child.table.fds));
         var after := After(withIt, img.fds, calls, contents, |img.fds|);
         && child.table.fds == after - {snapshotFd}
         && snapshotFd in after
         && (Sized(img.regions) ==>
               Rebuilt(old(child.space.cells), child.space.cells, img.regions, |img.regions|, after[snapshotFd].data))
    // Failure: the snapshot's number is closed all the same.
    ensures code == -1 ==> LowestFree(old(child.table.fds)) !in child.table.fds
    // It happens only for a reason: a failed call, a file that is no image, or a region out of place.
    ensures child.space.kernel.faults >= old(child.space.kernel.faults)
    ensures (code == -1 && opens && readsOk == (true, true, true) && Load(snapshot).Some?
             && child.space.kernel.faults == old(child.space.kernel.faults)) ==>
      var img := Load(snapshot).value;
      var after := After(WithSnapshot(old(child.table.fds), path, snapshot), img.fds, calls, contents, |img.fds|);
      && LowestFree(old(child.table.fds)) in after
      && exists i :: 0 <= i < |img.regions| && Managed(img.regions[i])
           && !Restorable(img.regions[i], after[LowestFree(old(child.table.fds))].data)
    ensures Load(snapshot).Some? && Sized(Load(snapshot).value.regions) ==>
      SameOutside(old(child.space.cells), child.space.cells)
  {
    hide Load, Rebuilt, SameOutside, Restorable, Managed;
    SameAsBefore(child.space.cells);
    if child.snapshotDir.None? || child.snapshotDir == Some([]) {
      return 0;
    }
    var snapshotFd := child.table.Open(path, 0, snapshot, opens);
    if snapshotFd < 0 {
      return -1;
    }
    var file := new InFile(snapshot);
    var img := LoadSnapshot(file, readsOk);
    if img.None? {
      child.table.Close(snapshotFd);
      return -1;
    }
    ghost var withIt := child.table.fds;
    RestoreSupportedFds(child.table, img.value.fds, calls, contents);
    StaysOpen(withIt, img.value.fds, calls, contents, |img.value.fds|, snapshotFd);
    code := RestoreManagedRegions(child.space, img.value.regions, child.table.fds[snapshotFd].data);
    child.table.Close(snapshotFd);
    if code != 0 {
      return -1;
    }
    child.restored := true;
    code := 1;
  }

  lemma SameAsBefore(cells: Cells)
    ensures SameOutside(cells, cells)
  {
  }

  /** The fd loop closes nothing that was open before. */
  lemma StaysOpen(fds: Fds, entries: seq<FdEntry>, calls: seq<Calls>, contents: Contents, k: nat, n: nat)
    requires k <= |entries| == |calls| && n in fds
    ensures n in After(fds, entries, calls, contents, k)
  {
    TableByNumber(fds, entries, calls, contents, k, n);
  }

  // ---- The descriptor of the snapshot itself ----

  /**
   Region data is read from the snapshot, if no entry is placed at its descriptor's number.
   */
  lemma ReadsTheSnapshot(
    fds: Fds, path: CString, bytes: seq<byte>, entries: seq<FdEntry>, calls: seq<Calls>, contents: Contents)
    requires |entries| == |calls| && NoClash(WithSnapshot(fds, path, bytes), LowestFree(fds), entries, calls, contents)
    ensures DataIsSnapshot(fds, path, bytes, entries, calls, contents)
  {
    var withIt := WithSnapshot(fds, path, bytes);
    TableByNumber(withIt, entries, calls, contents, |entries|, LowestFree(fds));
  }

  /** No entry that the loop does not skip has the snapshot's number: known before the first call. */
  predicate SparesSnapshot(entries: seq<FdEntry>, snapshotFd: nat) {
    forall i :: 0 <= i < |entries| ==> entries[i].supported == 0 || entries[i].fd <= 2 || entries[i].fd != snapshotFd
  }

  function AllSucceed(n: nat): (calls: seq<Calls>)
    ensures |calls| == n && forall i :: 0 <= i < n ==> calls[i] == Calls(true, true, true)
  {
    seq(n, _ => Calls(true, true, true))
  }

  /** Whichever calls succeed, nothing is placed at the snapshot's number. */
  lemma NeverClashesIff(fds: Fds, n: nat, entries: seq<FdEntry>, contents: Contents)
    ensures (forall calls | |calls| == |entries| :: NoClash(fds, n, entries, calls, contents)) <==>
      SparesSnapshot(entries, n)
  {
    if !SparesSnapshot(entries, n) {
      var i :| 0 <= i < |entries| && entries[i].supported != 0 && entries[i].fd > 2 && entries[i].fd == n;
      var calls := AllSucceed(|entries|);
      assert Placed(fds, entries, calls, contents, i);
      assert !NoClash(fds, n, entries, calls, contents);
    }
  }

  /** After the final close, every placed entry is open at its number as the entry describes it. */
  ghost predicate PlacedSurvive(
    fds: Fds, path: CString, bytes: seq<byte>, entries: seq<FdEntry>, calls: seq<Calls>, contents: Contents)
    requires |entries| == |calls|
  {
    var withIt := WithSnapshot(fds, path, bytes);
    var final := After(withIt, entries, calls, contents, |entries|) - {LowestFree(fds)};
    forall i :: 0 <= i < |entries| && Placed(withIt, entries, calls, contents, i) ==>
      entries[i].fd in final && Reopened(final[entries[i].fd], entries[i], calls[i], contents)
  }

  /** Region data is read from the snapshot. */
  ghost predicate DataIsSnapshot(
    fds: Fds, path: CString, bytes: seq<byte>, entries: seq<FdEntry>, calls: seq<Calls>, contents: Contents)
    requires |entries| == |calls|
  {
    var after := After(WithSnapshot(fds, path, bytes), entries, calls, contents, |entries|);
    LowestFree(fds) in after && after[LowestFree(fds)].data == bytes
  }

  lemma PlacedSurviveUnlessClash(
    fds: Fds, path: CString, bytes: seq<byte>, entries: seq<FdEntry>, calls: seq<Calls>, contents: Contents)
    requires |entries| == |calls| && DistinctFds(entries)
    ensures PlacedSurvive(fds, path, bytes, entries, calls, contents) <==>
      NoClash(WithSnapshot(fds, path, bytes), LowestFree(fds), entries, calls, contents)
  {
    FdsRestored(WithSnapshot(fds, path, bytes), entries, calls, contents);
  }

  /**
   Every placed entry survives the final close, whichever calls succeed, exactly if no entry that
   the loop does not skip has the number on which the child will open the snapshot.
   */
  lemma PlacedSurviveIff(fds: Fds, path: CString, bytes: seq<byte>, entries: seq<FdEntry>, contents: Contents)
    requires DistinctFds(entries)
    ensures (forall calls | |calls| == |entries| :: PlacedSurvive(fds, path, bytes, entries, calls, contents))
      <==> SparesSnapshot(entries, LowestFree(fds))
  {
    hide PlacedSurvive, NoClash, WithSnapshot, SparesSnapshot, LowestFree;
    NeverClashesIff(WithSnapshot(fds, path, bytes), LowestFree(fds), entries, contents);
    forall calls: seq<Calls> | |calls| == |entries|
      ensures PlacedSurvive(fds, path, bytes, entries, calls, contents) <==>
        NoClash(WithSnapshot(fds, path, bytes), LowestFree(fds), entries, calls, contents)
    {
      PlacedSurviveUnlessClash(fds, path, bytes, entries, calls, contents);
    }
  }

  /**
   Region data is read from the snapshot, whichever calls succeed and whatever the captured files
   hold now, under exactly the same condition.
   */
  lemma ReadsTheSnapshotIff(fds: Fds, path: CString, bytes: seq<byte>, entries: seq<FdEntry>)
    requires DistinctFds(entries)
    ensures (forall calls, contents | |calls| == |entries| ::
               DataIsSnapshot(fds, path, bytes, entries, calls, contents))
      <==> SparesSnapshot(entries, LowestFree(fds))
  {
    hide LowestFree, DataIsSnapshot;
    if SparesSnapshot(entries, LowestFree(fds)) {
      forall calls: seq<Calls>, contents: Contents | |calls| == |entries|
        ensures DataIsSnapshot(fds, path, bytes, entries, calls, contents)
      {
        NeverClashesIff(WithSnapshot(fds, path, bytes), LowestFree(fds), entries, contents);
        ReadsTheSnapshot(fds, path, bytes, entries, calls, contents);
      }
    } else {
      ReadsAnotherFile(fds, path, bytes, entries);
    }
  }

  lemma ReadsAnotherFile(fds: Fds, path: CString, bytes: seq<byte>, entries: seq<FdEntry>)
    requires DistinctFds(entries) && !SparesSnapshot(entries, LowestFree(fds))
    ensures exists calls, contents | |calls| == |entries| :: !DataIsSnapshot(fds, path, bytes, entries, calls, contents)
  {
    hide LowestFree;
    var n := LowestFree(fds);
    var i :| 0 <= i < |entries| && entries[i].supported != 0 && entries[i].fd > 2 && entries[i].fd == n;
    var calls := AllSucceed(|entries|);
    var contents: Contents := _ => bytes + [0];
    var withIt := WithSnapshot(fds, path, bytes);
    assert Placed(withIt, entries, calls, contents, i);
    FdsRestored(withIt, entries, calls, contents);
    assert !DataIsSnapshot(fds, path, bytes, entries, calls, contents);
  }

  /** Without a clash, every number that no entry was placed at is as it was before the bootstrap. */
  lemma OthersUnchanged(
    fds: Fds, path: CString, bytes: seq<byte>, entries: seq<FdEntry>, calls: seq<Calls>, contents: Contents, m: nat)
    requires |entries| == |calls|
    requires var withIt := WithSnapshot(fds, path, bytes);
      && NoClash(withIt, LowestFree(fds), entries, calls, contents)
      && forall i :: 0 <= i < |entries| && Placed(withIt, entries, calls, contents, i) ==> entries[i].fd != m
    ensures var final := After(WithSnapshot(fds, path, bytes), entries, calls, contents, |entries|) - {LowestFree(fds)};
      (m in final <==> m in fds) && (m in fds ==> final[m] == fds[m])
  {
    TableByNumber(WithSnapshot(fds, path, bytes), entries, calls, contents, |entries|, m);
  }

  /**
   A clash happens: a child with only descriptors 0 to 2 opens the snapshot as 3; an image with
   a file at 3 then reads region data from that file, and ends without it.
   */
  lemma ClashExample(std: OpenFile, path: CString, bytes: seq<byte>, target: CString, contents: Contents)
    ensures var fds := map[0 := std, 1 := std, 2 := std];
      var withIt := WithSnapshot(fds, path, bytes);
      var e := FdEntry(3, 0, 0, 1, target);
      var after := After(withIt, [e], [Calls(true, true, true)], contents, 1);
      && LowestFree(fds) == 3
      && 3 in after && after[3].data == contents(target)
      && 3 !in after - {3}
  {
    var fds: Fds := map[0 := std, 1 := std, 2 := std];
    var n := LowestFree(fds);
    assert n == 3 by {
      assert 0 in fds && 1 in fds && 2 in fds && 3 !in fds;
    }
    var withIt := WithSnapshot(fds, path, bytes);
    var entries, calls := [FdEntry(3, 0, 0, 1, target)], [Calls(true, true, true)];
    assert PlacedIn(After(withIt, entries, calls, contents, 0), entries[0], calls[0]);
  }
}
