/**
 From a stopped process to a restored one: what `ulcr_capture_snapshot` wrote is what
 `ulcr_runtime_bootstrap` puts back.
 */
module RoundTrip {
  import opened Wrappers
  import opened Bytes
  import opened ImageFormat
  import opened FdTable
  import opened AddressSpace
  import opened Capture
  import opened Bootstrap
  import opened Common
  import opened Procfs

  /** Region `i` of the capture was dumped, and restore does not skip it. */
  ghost predicate Carried(img: Image, i: nat) {
    i < |img.regions| && Managed(img.regions[i])
  }

  ghost predicate DisjointRegions(l: ProcLayout) {
    forall i, j, a: nat :: 0 <= i < j < |l.regions| ==>
      !(Covers(SavedRegion(l.regions[i], 0, 0), a) && Covers(SavedRegion(l.regions[j], 0, 0), a))
  }

  /** Address `a` of region `i` holds its old byte, under its region's protection if no other region overlaps. */
  ghost predicate ByteBack(img: Image, l: ProcLayout, mem: Memory, cells: Cells, i: nat, a: nat) {
    && i < |img.regions| && i < |l.regions| && img.regions[i].meta == l.regions[i]
    && a in cells && cells[a].value == mem(a)
    && (DisjointRegions(l) ==> cells[a].prot == l.regions[i].prot)
  }

  lemma CapturedIsSized(img: Image, bytes: seq<byte>, l: ProcLayout, mem: Memory)
    requires Captures(img, bytes, l, mem)
    ensures Sized(img.regions)
  {
    hide RegionSize, HoldsBytes, MemRange;
    forall i | 0 <= i < |img.regions| && Managed(img.regions[i])
      ensures img.regions[i].dataSize == RegionSize(img.regions[i].meta)
    {
      assert Outcome(img.regions[i], l.regions[i], bytes, mem);
    }
  }

  lemma CapturedIsRestorable(img: Image, bytes: seq<byte>, l: ProcLayout, mem: Memory)
    requires Captures(img, bytes, l, mem) && forall i :: 0 <= i < |l.regions| ==> l.regions[i].start <= l.regions[i].end
    ensures forall i :: 0 <= i < |img.regions| && Managed(img.regions[i]) ==> Restorable(img.regions[i], bytes)
  {
    hide HoldsBytes, MemRange;
    forall i | 0 <= i < |img.regions| && Managed(img.regions[i])
      ensures Restorable(img.regions[i], bytes)
    {
      assert Outcome(img.regions[i], l.regions[i], bytes, mem) && ExtentIn(img.regions[i], 0, |bytes|);
    }
  }

  /** One byte of a dumped region: in the file it is the byte that was in memory. */
  lemma ByteInFile(img: Image, bytes: seq<byte>, l: ProcLayout, mem: Memory, i: nat, a: nat)
    requires Captures(img, bytes, l, mem) && Carried(img, i) && Covers(img.regions[i], a) && a < U64
    ensures var r := img.regions[i];
      |l.regions| == |img.regions| && r.meta == l.regions[i] && r.fileOffset + (a - r.meta.start) < |bytes|
      && bytes[r.fileOffset + (a - r.meta.start)] == mem(a)
  {
    var r := img.regions[i];
    assert Outcome(r, l.regions[i], bytes, mem);
    var k := a - r.meta.start;
    assert 0 <= k < r.dataSize;
    assert MemRange(mem, r.meta.start, r.dataSize)[k] == mem(a);
    assert bytes[r.fileOffset..r.fileOffset + r.dataSize][k] == mem(a);
  }

  /**
   Memory that the restore loop rebuilt from a captured image: every address of a carried
   region holds the byte it held in the stopped process, and, if the regions do not overlap,
   the protection its region was captured with; every other address is as it was before.
   */
  lemma MemoryRoundTrip(img: Image, bytes: seq<byte>, l: ProcLayout, mem: Memory, before: Cells, cells: Cells)
    requires Captures(img, bytes, l, mem)
    requires Rebuilt(before, cells, img.regions, |img.regions|, bytes)
    ensures forall i: nat, a: nat :: a < U64 && Carried(img, i) && Covers(img.regions[i], a) ==>
      ByteBack(img, l, mem, cells, i, a)
    ensures forall a: nat :: (forall i: nat :: Carried(img, i) ==> !Covers(img.regions[i], a)) ==>
      (a in cells <==> a in before) && (a in cells ==> cells[a] == before[a])
  {
    hide MemRange, RegionSize, DisjointRegions, Outcome, Extents;
    forall i: nat, a: nat | a < U64 && Carried(img, i) && Covers(img.regions[i], a)
      ensures ByteBack(img, l, mem, cells, i, a)
    {
      var j: int := LastCover(img.regions, |img.regions|, a);
      assert j >= i && Carried(img, j) && Restored(cells, img.regions[j], bytes, a);
      ByteInFile(img, bytes, l, mem, i, a);
      ByteInFile(img, bytes, l, mem, j, a);
      if DisjointRegions(l) {
        CoverIsUnique(img, l, i, j, a);
      }
    }
    forall a: nat | forall i: nat :: Carried(img, i) ==> !Covers(img.regions[i], a)
      ensures (a in cells <==> a in before) && (a in cells ==> cells[a] == before[a])
    {
      var j := LastCover(img.regions, |img.regions|, a);
      assert j >= 0 ==> Carried(img, j);
    }
  }

  /**
   Which mappings a snapshot holds, from the line of /proc/PID/maps alone: among the first 512
   regions it has the bytes of exactly those that the policy wants and whose own dump is not one of
   those with a failing call.
   */
  lemma LineDumpedIff(
    lines: seq<MapsLine>, k: nat, img: Image, bytes: seq<byte>, l: ProcLayout, mem: Memory, faulty: set<nat>)
    requires Captures(img, bytes, l, mem) && DroppedAre(img.regions, l, faulty)
    requires l.regions == Take(Parsed(lines), MAX_REGIONS) && k < |lines| && lines[k].parts >= 6
    ensures var n := |Parsed(lines[..k])|;
      if n < 512 then
        && n < |img.regions| && n < |l.regions| && Describes(l.regions[n], lines[k])
        && (Included(img.regions[n]) <==> Wanted(lines[k]) && n !in faulty)
        && (Included(img.regions[n]) ==>
              img.regions[n].meta == l.regions[n] && HoldsBytes(img.regions[n], bytes, mem)
              && img.regions[n].dataSize == RegionSize(l.regions[n]))
      else forall i :: 0 <= i < |l.regions| ==> l.regions[i] == Parsed(lines[..k])[i]
  {
    hide Contains, Parsed, HoldsBytes, Extents, RegionSize;
    var n := |Parsed(lines[..k])|;
    WhereParsed(lines, k);
    if n < MAX_REGIONS {
      assert Outcome(img.regions[n], l.regions[n], bytes, mem);
    }
  }

  /** A readable and writable mapping inside the window. */
  predicate ManagedState(line: MapsLine) {
    && line.parts >= 6 && line.path !in {"[vvar]", "[vdso]", "[vsyscall]"}
    && |line.perms| >= 3 && line.perms[0] == 'r' && line.perms[1] == 'w'
    && 0x530000000000 <= line.start < line.end <= 0x530000100000
  }

  /**
   The managed state is carried over exactly if it is among the first 512 regions and its own dump
   is not one of those with a failing call.
   */
  lemma ManagedStateCarriedIff(
    lines: seq<MapsLine>, k: nat, img: Image, bytes: seq<byte>, l: ProcLayout, mem: Memory, faulty: set<nat>)
    requires Captures(img, bytes, l, mem) && DroppedAre(img.regions, l, faulty)
    requires l.regions == Take(Parsed(lines), MAX_REGIONS) && k < |lines| && ManagedState(lines[k])
    ensures var n := |Parsed(lines[..k])|;
      if n < 512
      then
        && n < |img.regions| && n < |l.regions| && Describes(l.regions[n], lines[k])
        && (Carried(img, n) <==> n !in faulty)
      else forall i :: 0 <= i < |l.regions| ==> l.regions[i] == Parsed(lines[..k])[i]
  {
    hide Contains, Parsed, HoldsBytes, Extents, Captures, DroppedAre;
    LineDumpedIff(lines, k, img, bytes, l, mem, faulty);
  }

  /**
   What that means for a restored process whose carried bytes are all back: at every address of
   the mapping it finds the byte that the stopped process had there, readable and writable, and
   executable exactly if the mapping was.
   */
  lemma ManagedStateIsBack(
    lines: seq<MapsLine>, k: nat, img: Image, bytes: seq<byte>, l: ProcLayout, mem: Memory, faulty: set<nat>,
    cells: Cells)
    requires Captures(img, bytes, l, mem) && DroppedAre(img.regions, l, faulty)
    requires l.regions == Take(Parsed(lines), MAX_REGIONS) && k < |lines| && ManagedState(lines[k])
    requires |Parsed(lines[..k])| < 512 && |Parsed(lines[..k])| !in faulty && DisjointRegions(l)
    requires forall i: nat, a: nat :: a < U64 && Carried(img, i) && Covers(img.regions[i], a) ==>
      ByteBack(img, l, mem, cells, i, a)
    ensures forall a: nat :: lines[k].start <= a < lines[k].end ==>
      a in cells && cells[a] == Cell(mem(a), if lines[k].perms[2] == 'x' then 7 else 3)
  {
    hide Contains, Parsed, HoldsBytes, Extents, Captures, DroppedAre, DisjointRegions;
    var n := |Parsed(lines[..k])|;
    LineDumpedIff(lines, k, img, bytes, l, mem, faulty);
    ManagedStateCarriedIff(lines, k, img, bytes, l, mem, faulty);
    forall a: nat | lines[k].start <= a < lines[k].end
      ensures a in cells && cells[a] == Cell(mem(a), if lines[k].perms[2] == 'x' then 7 else 3)
    {
      assert Covers(img.regions[n], a);
      assert ByteBack(img, l, mem, cells, n, a);
    }
  }

  lemma CoverIsUnique(img: Image, l: ProcLayout, i: nat, j: nat, a: nat)
    requires DisjointRegions(l) && |img.regions| == |l.regions| && i <= j < |img.regions|
    requires img.regions[i].meta == l.regions[i] && img.regions[j].meta == l.regions[j]
    requires Covers(img.regions[i], a) && Covers(img.regions[j], a)
    ensures i == j
  {
    assert Covers(SavedRegion(l.regions[i], 0, 0), a) && Covers(SavedRegion(l.regions[j], 0, 0), a);
  }

  /**
   The whole way.  A snapshot of a stopped process that CaptureSnapshot published is given to a
   bootstrap that returns 1, and no captured descriptor that the loop would restore has the number
   on which the child opens the snapshot: then every
   carried byte is back under its address, memory outside the window is untouched, every placed
   descriptor leads to its file at its saved position, and all other descriptors are as before.
   */
  method RestoreFromCapture(
    child: Child, path: CString, c: Capturer, l: ProcLayout, mem: Memory, pid: int, name: CString, regs: seq<nat>,
    opens: bool, readsOk: (bool, bool, bool), calls: seq<Calls>, contents: Contents)
    returns (code: int)
    requires c.Published(l, mem, pid, name, regs)
    requires |calls| == |l.fds| && DistinctFds(l.fds)
    requires child.snapshotDir.Some? && child.snapshotDir.value != []
    requires SparesSnapshot(l.fds, LowestFree(child.table.fds))
    modifies child, child.table, child.space, child.space.kernel
    ensures code == 1 || code == -1
    ensures SameOutside(old(child.space.cells), child.space.cells)
    ensures code == 1 ==>
      var img := Load(c.snapshotBin.value).value;
      && (forall i: nat, a: nat :: a < U64 && Carried(img, i) && Covers(img.regions[i], a) ==>
            ByteBack(img, l, mem, child.space.cells, i, a))
      && (forall a: nat :: (forall i: nat :: Carried(img, i) ==> !Covers(img.regions[i], a)) ==>
            (a in child.space.cells <==> a in old(child.space.cells))
            && (a in child.space.cells ==> child.space.cells[a] == old(child.space.cells)[a]))
    ensures code == 1 ==>
      var start := WithSnapshot(old(child.table.fds), path, c.snapshotBin.value);
      FdsAreBack(old(child.table.fds), start, l, calls, contents, child.table.fds)
    // It does return 1 unless some call fails, if no region ends before it starts.
    ensures (code == -1 && opens && readsOk == (true, true, true)
             && (forall i :: 0 <= i < |l.regions| ==> l.regions[i].start <= l.regions[i].end)) ==>
      child.space.kernel.faults > old(child.space.kernel.faults)
  {
    hide After, Placed, WithSnapshot, Reopened, LowestFree, FdsAreBack, Load, Captures, Rebuilt, SameOutside,
      Complete, CountIncluded, Sized, DisjointRegions, Covers, Managed;
    var bytes := c.snapshotBin.value;
    ghost var img := Load(bytes).value;
    ghost var fds0, cells0 := child.table.fds, child.space.cells;
    assert img.fds == l.fds && Captures(img, bytes, l, mem) by { FdsAreCaptured(c, l, mem, pid, name, regs); }
    CapturedIsSized(img, bytes, l, mem);
    code := RuntimeBootstrap(child, path, bytes, opens, readsOk, calls, contents);
    SpareReadsSnapshot(fds0, path, bytes, l, calls, contents);
    if forall i :: 0 <= i < |l.regions| ==> l.regions[i].start <= l.regions[i].end {
      CapturedIsRestorable(img, bytes, l, mem);
    }
    if code == 1 {
      MemoryRoundTrip(img, bytes, l, mem, cells0, child.space.cells);
    }
  }

  /** The descriptor half of a restore. */
  lemma SpareReadsSnapshot(
    fds: Fds, path: CString, bytes: seq<byte>, l: ProcLayout, calls: seq<Calls>, contents: Contents)
    requires |calls| == |l.fds| && DistinctFds(l.fds) && SparesSnapshot(l.fds, LowestFree(fds))
    ensures var start := WithSnapshot(fds, path, bytes);
      var n := LowestFree(fds);
      var after := After(start, l.fds, calls, contents, |l.fds|);
      n in after && after[n].data == bytes && FdsAreBack(fds, start, l, calls, contents, after - {n})
  {
    var start, n := WithSnapshot(fds, path, bytes), LowestFree(fds);
    NeverClashesIff(start, n, l.fds, contents);
    assert NoClash(start, n, l.fds, calls, contents);
    ReadsTheSnapshot(fds, path, bytes, l.fds, calls, contents);
    PlacedSurviveUnlessClash(fds, path, bytes, l.fds, calls, contents);
    var final := After(start, l.fds, calls, contents, |l.fds|) - {n};
    forall m: nat | forall i :: 0 <= i < |l.fds| && Placed(start, l.fds, calls, contents, i) ==> l.fds[i].fd != m
      ensures (m in final <==> m in fds) && (m in final ==> final[m] == fds[m])
    {
      OthersUnchanged(fds, path, bytes, l.fds, calls, contents, m);
    }
  }

  /** Every placed descriptor leads to its file at its saved position; all others are as before. */
  ghost predicate FdsAreBack(
    before: Fds, start: Fds, l: ProcLayout, calls: seq<Calls>, contents: Contents, final: Fds)
    requires |calls| == |l.fds|
  {
    && (forall i :: 0 <= i < |l.fds| && Placed(start, l.fds, calls, contents, i) ==>
          l.fds[i].fd in final && Reopened(final[l.fds[i].fd], l.fds[i], calls[i], contents))
    && (forall i :: 0 <= i < |l.fds| && Restores(l.fds[i], calls[i]) ==> Placed(start, l.fds, calls, contents, i))
    && (forall m: nat ::
          (forall i :: 0 <= i < |l.fds| && Placed(start, l.fds, calls, contents, i) ==> l.fds[i].fd != m) ==>
          (m in final <==> m in before) && (m in final ==> final[m] == before[m]))
  }

  lemma FdsAreCaptured(c: Capturer, l: ProcLayout, mem: Memory, pid: int, name: CString, regs: seq<nat>)
    requires c.Published(l, mem, pid, name, regs)
    ensures var img := Load(c.snapshotBin.value).value; img.fds == l.fds && Captures(img, c.snapshotBin.value, l, mem)
  {
  }

  /** Its link leads to an absolute path. */
  predicate Absolute(d: FdListing) {
    d.link.Some? && d.link.value != [] && d.link.value[0] == '/'
  }

  /** What a placed descriptor is, from its listing. */
  predicate OpenAsListed(f: OpenFile, d: FdListing, c: Calls, contents: Contents) {
    && d.link.Some? && f.path == d.link.value && f.flags == d.flags && f.data == contents(d.link.value)
    && f.position == if d.position > 0 && c.seeks then d.position else 0
  }

  /**
   Descriptors from the listing of /proc/PID/fd to the restored process: number `n`, listed among
   the first 128 with an absolute path, leads to that path with the listed flags and position, if its
   open and its dup succeed.
   */
  lemma {:induction false} ListedIsBack(
    listing: seq<FdListing>, k: nat, before: Fds, start: Fds, l: ProcLayout, calls: seq<Calls>, contents: Contents,
    final: Fds)
    requires l.fds == Take(Entries(listing), MAX_FDS) && |calls| == |l.fds|
    requires FdsAreBack(before, start, l, calls, contents, final)
    requires k < |listing| && listing[k].number.Some? && listing[k].number.value > 2
    requires Absolute(listing[k]) && |Entries(listing[..k])| < 128
    ensures var i, n := |Entries(listing[..k])|, listing[k].number.value;
      && i < |calls|
      && (calls[i].opens && calls[i].dups ==> n in final && OpenAsListed(final[n], listing[k], calls[i], contents))
  {
    hide Placed;
    WhereListed(listing, k);
  }

  /** All other numbers are as before the bootstrap. */
  lemma {:induction false} UnlistedUnchanged(
    listing: seq<FdListing>, before: Fds, start: Fds, l: ProcLayout, calls: seq<Calls>, contents: Contents, final: Fds,
    m: nat)
    requires l.fds == Take(Entries(listing), MAX_FDS) && |calls| == |l.fds|
    requires FdsAreBack(before, start, l, calls, contents, final)
    requires m <= 2 || forall k :: 0 <= k < |listing| && listing[k].number == Some(m) ==> !Absolute(listing[k])
    ensures (m in final <==> m in before) && (m in final ==> final[m] == before[m])
  {
    hide Placed, Records, EntryOf;
    forall i | 0 <= i < |l.fds| && Placed(start, l.fds, calls, contents, i)
      ensures l.fds[i].fd != m
    {
      hide FdsAreBack;
      PlacedIsListed(listing, start, l.fds, calls, contents, i);
    }
  }

  lemma {:induction false} PlacedIsListed(
    listing: seq<FdListing>, start: Fds, fds: seq<FdEntry>, calls: seq<Calls>, contents: Contents, i: nat)
    requires fds == Take(Entries(listing), MAX_FDS) && |calls| == |fds| && i < |fds|
    requires Placed(start, fds, calls, contents, i)
    ensures fds[i].fd > 2
    ensures exists k | 0 <= k < |listing| :: listing[k].number == Some(fds[i].fd) && Absolute(listing[k])
  {
    EntriesFrom(listing);
    assert Lists(listing, fds[i]);
    var k :| 0 <= k < |listing| && Records(fds[i], listing[k]);
    assert listing[k].number == Some(fds[i].fd);
  }
}
