/**
 Writing a snapshot: `dump_region_bytes` and `ulcr_capture_snapshot`.

 The stopped process's memory is a function from addresses to bytes.  Every system call may
 fail, and reads and writes may be short.
 */
module Capture {
  import opened Wrappers
  import opened Common
  import opened Bytes
  import opened ImageFormat

  const CHUNK := 65536
  /** off_t is signed: no file grows beyond this, so no size or offset overflows. */
  const MAX_OFFSET := 0x7FFF_FFFF_FFFF_FFFF

  type Memory = nat -> byte

  /** `n` bytes of memory from address `start` on. */
  function MemRange(mem: Memory, start: nat, n: nat): (b: seq<byte>)
    ensures |b| == n
    ensures forall i :: 0 <= i < n ==> b[i] == mem((start + i) % U64)
  {
    seq(n, i requires 0 <= i < n => mem((start + i) % U64))
  }

  function Overwrite(b: seq<byte>, pos: nat, data: seq<byte>): (r: seq<byte>)
    requires pos <= |b|
    ensures |r| == if pos + |data| <= |b| then |b| else pos + |data|
  {
    b[..pos] + data + if pos + |data| <= |b| then b[pos + |data|..] else []
  }

  /** process_vm_readv: any number of bytes up to `len`; none at all is a fault, like an error. */
  method ReadRemote(kernel: Kernel, mem: Memory, address: nat, len: nat) returns (copied: int, buffer: seq<byte>)
    modifies kernel
    ensures -1 <= copied <= len
    ensures copied >= 0 ==> buffer == MemRange(mem, address, copied)
    ensures kernel.faults == old(kernel.faults) + if copied > 0 then 0 else 1
  {
    copied :| -1 <= copied <= len;
    buffer := if copied >= 0 then MemRange(mem, address, copied) else [];
    kernel.faults := kernel.faults + if copied > 0 then 0 else 1;
  }

  /** A file open for writing. */
  class OutFile {
    const kernel: Kernel
    var bytes: seq<byte>
    var pos: nat
    var synced: bool

    ghost predicate AtEnd()
      reads this
    {
      pos == |bytes| <= MAX_OFFSET
    }

    constructor (kernel: Kernel)
      ensures this.kernel == kernel && bytes == [] && pos == 0 && AtEnd()
    {
      this.kernel, bytes, pos, synced := kernel, [], 0, false;
    }

    /** write: some prefix of the data may get written. */
    method Write(data: seq<byte>) returns (n: int)
      requires AtEnd()
      modifies this, kernel
      ensures AtEnd() && -1 <= n <= |data|
      ensures bytes == old(bytes) + if n >= 0 then data[..n] else []
      ensures kernel.faults == old(kernel.faults) + if n == |data| then 0 else 1
    {
      kernel.faults := kernel.faults + 1;
      n :| -1 <= n <= |data| && (n >= 0 ==> pos + n <= MAX_OFFSET);
      if n >= 0 {
        bytes := Overwrite(bytes, pos, data[..n]);
        pos := pos + n;
        synced := false;
        kernel.faults := kernel.faults - if n == |data| then 1 else 0;
      }
    }

    /** pwrite: like write at `offset`, without moving the position. */
    method PWrite(data: seq<byte>, offset: nat) returns (n: int)
      requires offset + |data| <= |bytes|
      modifies this, kernel
      ensures -1 <= n <= |data| && pos == old(pos)
      ensures bytes == if n >= 0 then Overwrite(old(bytes), offset, data[..n]) else old(bytes)
      ensures kernel.faults == old(kernel.faults) + if n == |data| then 0 else 1
    {
      n :| -1 <= n <= |data|;
      kernel.faults := kernel.faults + if n == |data| then 0 else 1;
      if n >= 0 {
        bytes := Overwrite(bytes, offset, data[..n]);
        synced := false;
      }
    }

    method Fsync() returns (ok: bool)
      modifies this`synced, kernel
      ensures ok ==> synced
      ensures kernel.faults == old(kernel.faults) + if ok then 0 else 1
    {
      ok := kernel.Try();
      synced := synced || ok;
    }
  }

  lemma MemRangeAppend(mem: Memory, start: nat, n: nat, m: nat)
    ensures MemRange(mem, start, n) + MemRange(mem, (start + n) % U64, m) == MemRange(mem, start, n + m)
  {
    var tail := MemRange(mem, (start + n) % U64, m);
    forall i | 0 <= i < |tail|
      ensures tail[i] == mem((start + n + i) % U64)
    {
      ModAdd(start + n, i);
    }
  }

  lemma ModAdd(a: nat, b: nat)
    ensures (a % U64 + b) % U64 == (a + b) % U64
  {
  }

  /**
   dump_region_bytes: on success exactly the region's bytes are appended, once each and in
   order; on failure a proper prefix of them stays behind as orphan bytes.  It fails exactly if
   one of its calls does.
   */
  method DumpRegionBytes(mem: Memory, region: Region, out: OutFile) returns (total: int)
    requires out.AtEnd()
    modifies out, out.kernel
    ensures out.kernel.faults == old(out.kernel.faults) + if total == -1 then 1 else 0
    ensures out.AtEnd()
    ensures total == -1 || total == RegionSize(region)
    ensures total >= 0 ==> out.bytes == old(out.bytes) + MemRange(mem, region.start, RegionSize(region))
    ensures total == -1 ==> exists n: nat | n < RegionSize(region) ::
      out.bytes == old(out.bytes) + MemRange(mem, region.start, n)
  {
    var address := region.start % U64;
    var remaining := RegionSize(region);
    total := 0;
    while remaining > 0
      invariant out.AtEnd() && out.kernel.faults == old(out.kernel.faults)
      invariant 0 <= total && 0 <= remaining && total + remaining == RegionSize(region)
      invariant address == (region.start + total) % U64
      invariant out.bytes == old(out.bytes) + MemRange(mem, region.start, total)
      decreases remaining
    {
      var chunk := if remaining > CHUNK then CHUNK else remaining;
      var copied, buffer := ReadRemote(out.kernel, mem, address, chunk);
      if copied <= 0 {
        return -1;
      }
      var written := out.Write(buffer);
      ghost var kept := if written >= 0 then written else 0;
      assert buffer[..kept] == MemRange(mem, address, kept);
      MemRangeAppend(mem, region.start, total, kept);
      assert out.bytes == old(out.bytes) + MemRange(mem, region.start, total + kept);
      if written != copied {
        return -1;
      }
      ModAdd(region.start + total, copied);
      total := total + copied;
      address := (address + copied) % U64;
      remaining := remaining - copied;
    }
  }

  // ---- What a capture leaves ----

  datatype ProcLayout = ProcLayout(regions: seq<Region>, fds: seq<FdEntry>, exePath: CString, cwd: CString)

  /** What ulcr_collect_proc_layout guarantees. */
  ghost predicate LayoutFits(l: ProcLayout) {
    && |l.regions| <= MAX_REGIONS && |l.fds| <= MAX_FDS
    && (forall i :: 0 <= i < |l.regions| ==> RegionFits(SavedRegion(l.regions[i], 0, 0)))
    && (forall i :: 0 <= i < |l.fds| ==> FdFits(l.fds[i]))
  }

  /** ulcr_copy_string into a zeroed array of `size` chars, its result ignored: cut to fit. */
  function CopyString(s: CString, size: nat): (r: CString)
    requires size > 0
    ensures |r| < size && |r| <= |s| && r == s[..|r|] && (|s| < size ==> r == s)
  {
    Take(s, size - 1)
  }

  function Dropped(m: Region): SavedRegion {
    SavedRegion(m.(included := 0), 0, 0)
  }

  /** The bytes of the region as they were in memory lie where the entry says. */
  ghost predicate HoldsBytes(r: SavedRegion, bytes: seq<byte>, mem: Memory) {
    && r.fileOffset + r.dataSize <= |bytes|
    && bytes[r.fileOffset..r.fileOffset + r.dataSize] == MemRange(mem, r.meta.start, r.dataSize)
  }

  /** What became of the region `m`: never meant to be dumped, dropped because its dump failed, or dumped in full. */
  ghost predicate Outcome(r: SavedRegion, m: Region, bytes: seq<byte>, mem: Memory) {
    if m.included == 0 then r == SavedRegion(m, 0, 0)
    else r == Dropped(m) || (r.meta == m && r.dataSize == RegionSize(m) && HoldsBytes(r, bytes, mem))
  }

  /** The image is the final table of a capture of this layout and memory, and `bytes` its file. */
  ghost predicate Captures(img: Image, bytes: seq<byte>, l: ProcLayout, mem: Memory) {
    && |img.regions| == |l.regions|
    && (forall i :: 0 <= i < |l.regions| ==> Outcome(img.regions[i], l.regions[i], bytes, mem))
    && Extents(img.regions, TablesEnd(|img.regions|, |img.fds|), |bytes|)
    && img.fds == l.fds
    && img.header.exePath == CopyString(l.exePath, 512) && img.header.cwd == CopyString(l.cwd, 512)
  }

  // ---- The region loop ----

  /**
   The first `i` regions are done: the file is the tables as first written plus the dumps so
   far, and orphan bytes of failed ones.
   */
  ghost predicate Dumping(
    regions: seq<SavedRegion>, i: nat, l: ProcLayout, bytes: seq<byte>, tables: nat, mem: Memory) {
    && i <= |regions| == |l.regions|
    && (forall j :: 0 <= j < i ==> Outcome(regions[j], l.regions[j], bytes, mem) && RegionFits(regions[j]))
    && (forall j :: i <= j < |regions| ==> regions[j] == SavedRegion(l.regions[j], 0, 0))
    && tables <= |bytes|
    && Extents(regions[..i], tables, |bytes|)
  }

  lemma OutcomeKept(r: SavedRegion, m: Region, bytes: seq<byte>, more: seq<byte>, mem: Memory)
    requires Outcome(r, m, bytes, mem)
    ensures Outcome(r, m, bytes + more, mem)
  {
    if m.included != 0 && r != Dropped(m) {
      assert (bytes + more)[r.fileOffset..r.fileOffset + r.dataSize] == bytes[r.fileOffset..r.fileOffset + r.dataSize];
    }
  }

  /** The file grew at its end, and region `i` got the entry `r`. */
  lemma DumpingStep(
    regions: seq<SavedRegion>, i: nat, r: SavedRegion, l: ProcLayout, bytes: seq<byte>, more: seq<byte>, tables: nat,
    mem: Memory)
    requires Dumping(regions, i, l, bytes, tables, mem) && i < |regions|
    requires Outcome(r, l.regions[i], bytes + more, mem) && RegionFits(r)
    requires Included(r) ==> r.fileOffset == |bytes|
    ensures Dumping(regions[i := r], i + 1, l, bytes + more, tables, mem)
  {
    hide RegionFits;
    var rs, bytes' := regions[i := r], bytes + more;
    forall j | 0 <= j < i + 1
      ensures Outcome(rs[j], l.regions[j], bytes', mem) && RegionFits(rs[j])
    {
      if j < i {
        OutcomeKept(regions[j], l.regions[j], bytes, more, mem);
      }
    }
    assert forall j :: 0 <= j < i ==> rs[..i + 1][j] == regions[..i][j];
    assert rs[..i + 1][i] == r;
  }

  /** The entry of one region after its turn. */
  lemma TurnOutcome(m: Region, r: SavedRegion, before: seq<byte>, more: seq<byte>, mem: Memory)
    requires if m.included == 0 then r == SavedRegion(m, 0, 0)
      else
        || r == Dropped(m)
        || (r == SavedRegion(m, |before|, RegionSize(m)) && more == MemRange(mem, m.start, RegionSize(m)))
    ensures Outcome(r, m, before + more, mem) && (Included(r) ==> r.fileOffset == |before|)
  {
    hide MemRange, RegionSize;
    assert (before + more)[|before|..|before| + |more|] == more;
  }

  lemma CountStep(rs: seq<SavedRegion>, i: nat, r: SavedRegion)
    requires i < |rs|
    ensures CountIncluded(rs[i := r][..i + 1]) == CountIncluded(rs[..i]) + if Included(r) then 1 else 0
  {
    assert rs[i := r][..i + 1][..i] == rs[..i];
  }

  /** A region entry still fits its struct after its dump. */
  lemma FilledFits(m: Region, offset: nat, size: nat)
    requires RegionFits(SavedRegion(m, 0, 0)) && offset <= MAX_OFFSET && size <= MAX_OFFSET
    ensures RegionFits(SavedRegion(m, offset, size)) && RegionFits(Dropped(m))
  {
    var empty := RegionValues(SavedRegion(m, 0, 0));
    var full := RegionValues(SavedRegion(m, offset, size));
    var dropped := RegionValues(Dropped(m));
    assert Pow256(8) == 0x1_0000_0000_0000_0000 && Pow256(4) == 0x1_0000_0000;
    assert forall i :: 0 <= i < 8 ==> full[i] == empty[i];
    assert forall i :: 0 <= i < 10 && i != 6 ==> dropped[i] == empty[i];
  }

  /** `faulty` are the regions that were meant to be dumped, and were dropped. */
  ghost predicate DroppedAre(regions: seq<SavedRegion>, l: ProcLayout, faulty: set<nat>) {
    && |regions| == |l.regions|
    && forall j: nat :: j in faulty <==>
         j < |regions| && l.regions[j].included != 0 && regions[j] == Dropped(l.regions[j])
  }

  /** The same for the first `i` regions. */
  ghost predicate DroppedBefore(regions: seq<SavedRegion>, i: nat, l: ProcLayout, faulty: set<nat>) {
    && i <= |regions| == |l.regions|
    && forall j: nat :: j in faulty <==>
         j < i && l.regions[j].included != 0 && regions[j] == Dropped(l.regions[j])
  }

  lemma DroppedStep(regions: seq<SavedRegion>, i: nat, r: SavedRegion, l: ProcLayout, faulty: set<nat>)
    requires DroppedBefore(regions, i, l, faulty) && i < |regions|
    ensures var dropped := l.regions[i].included != 0 && r == Dropped(l.regions[i]);
      && DroppedBefore(regions[i := r], i + 1, l, if dropped then faulty + {i} else faulty)
      && i !in faulty
  {
  }

  /** Nothing is left to restore exactly if every region that was meant to be dumped was dropped. */
  lemma NothingDumpedIff(regions: seq<SavedRegion>, bytes: seq<byte>, l: ProcLayout, mem: Memory, faulty: set<nat>)
    requires DroppedAre(regions, l, faulty)
    requires forall i :: 0 <= i < |regions| ==> Outcome(regions[i], l.regions[i], bytes, mem)
    ensures CountIncluded(regions) == 0 <==> forall j: nat :: j < |regions| && l.regions[j].included != 0 ==>
      j in faulty
  {
    hide HoldsBytes, RegionSize;
    CountZeroIff(regions);
    forall i: nat | i < |regions|
      ensures Included(regions[i]) <==> l.regions[i].included != 0 && i !in faulty
    {
      assert Outcome(regions[i], l.regions[i], bytes, mem);
    }
  }

  lemma {:induction false} CountZeroIff(rs: seq<SavedRegion>)
    ensures CountIncluded(rs) == 0 <==> forall i :: 0 <= i < |rs| ==> !Included(rs[i])
  {
    if rs != [] {
      CountZeroIff(rs[..|rs| - 1]);
    }
  }

  lemma NoExtents(tables: nat)
    ensures Extents([], tables, tables)
  {
  }

  /** The loop's body for a region that is meant to be dumped. */
  method DumpRegion(mem: Memory, m: Region, out: OutFile) returns (ok: bool, r: SavedRegion)
    requires out.AtEnd() && m.included != 0 && RegionFits(SavedRegion(m, 0, 0))
    modifies out, out.kernel
    ensures out.AtEnd() && old(out.bytes) <= out.bytes
    ensures ok ==>
      && Outcome(r, m, out.bytes, mem) && RegionFits(r) && (Included(r) ==> r.fileOffset == |old(out.bytes)|)
      && out.kernel.faults == old(out.kernel.faults) + if r == Dropped(m) then 1 else 0
    ensures !ok ==> out.bytes == old(out.bytes) && out.kernel.faults == old(out.kernel.faults) + 1
  {
    hide RegionFits, RegionSize, MemRange;
    r := SavedRegion(m, 0, 0);
    ok := out.kernel.Try();  // lseek(fd, 0, SEEK_CUR)
    if !ok {
      return;
    }
    ghost var before := out.bytes;
    var offset := out.pos;
    var bytes := DumpRegionBytes(mem, m, out);
    r := if bytes < 0 then Dropped(m) else SavedRegion(m, offset, bytes);
    if bytes < 0 {
      ghost var n: nat :| n < RegionSize(m) && out.bytes == before + MemRange(mem, m.start, n);
    }
    ghost var more := out.bytes[|before|..];
    assert out.bytes == before + more;
    TurnOutcome(m, r, before, more, mem);
    FilledFits(m, offset, if bytes < 0 then 0 else bytes);
  }

  /** The loop of ulcr_capture_snapshot over the regions.  It drops one region for each dump with a failing call. */
  method DumpRegions(mem: Memory, l: ProcLayout, out: OutFile, tables: nat)
    returns (ok: bool, regions: seq<SavedRegion>, dumped: nat, ghost faulty: set<nat>)
    requires LayoutFits(l) && out.AtEnd() && |out.bytes| == tables
    modifies out, out.kernel
    ensures ok ==> DroppedAre(regions, l, faulty) && out.kernel.faults == old(out.kernel.faults) + |faulty|
    ensures !ok ==> out.kernel.faults > old(out.kernel.faults)
    ensures out.AtEnd() && tables <= |out.bytes| && out.bytes[..tables] == old(out.bytes)
    ensures ok ==> Dumping(regions, |l.regions|, l, out.bytes, tables, mem) && dumped == CountIncluded(regions)
  {
    hide Outcome, RegionFits, RegionSize, MemRange, Extents;
    regions := seq(|l.regions|, i requires 0 <= i < |l.regions| => SavedRegion(l.regions[i], 0, 0));
    NoExtents(tables);
    dumped, faulty := 0, {};
    var i := 0;
    while i < |regions|
      invariant i <= |regions| && out.AtEnd()
      invariant tables <= |out.bytes| && out.bytes[..tables] == old(out.bytes)
      invariant Dumping(regions, i, l, out.bytes, tables, mem)
      invariant dumped == CountIncluded(regions[..i])
      invariant DroppedBefore(regions, i, l, faulty) && out.kernel.faults == old(out.kernel.faults) + |faulty|
    {
      ghost var before := out.bytes;
      var r := regions[i];
      assert r == SavedRegion(l.regions[i], 0, 0) && RegionFits(r);
      if r.meta.included != 0 {
        ok, r := DumpRegion(mem, r.meta, out);
        if !ok {
          return;
        }
        dumped := dumped + if Included(r) then 1 else 0;
      } else {
        SkippedOutcome(l.regions[i], out.bytes, mem);
      }
      ghost var more := out.bytes[|before|..];
      assert out.bytes == before + more;
      DroppedStep(regions, i, r, l, faulty);
      if l.regions[i].included != 0 && r == Dropped(l.regions[i]) {
        faulty := faulty + {i};
      }
      CountStep(regions, i, r);
      DumpingStep(regions, i, r, l, before, more, tables, mem);
      regions := regions[i := r];
      i := i + 1;
    }
    assert regions[..i] == regions;
    ok := true;
  }

  lemma SkippedOutcome(m: Region, bytes: seq<byte>, mem: Memory)
    requires m.included == 0
    ensures Outcome(SavedRegion(m, 0, 0), m, bytes, mem)
  {
  }

  // ---- Back-patching ----

  /**
   Rewriting the header and the region table in place leaves the fd table and all data alone:
   the file is then the tables of the final image, followed by the same data.
   */
  lemma PatchTables(before: Image, after: Image, data: seq<byte>)
    requires Writable(before) && Writable(after)
    requires |before.regions| == |after.regions| && before.fds == after.fds
    ensures var bytes := EncodeTables(before) + data;
      Overwrite(Overwrite(bytes, 0, EncodeHeader(after.header)), HEADER_SIZE, EncodeRegions(after.regions))
        == EncodeTables(after) + data
  {
    hide EncodeHeader, EncodeRegions, EncodeFds, HeaderFits, RegionFits, FdFits;
    var bytes := EncodeTables(before) + data;
    var h, rs := EncodeHeader(after.header), EncodeRegions(after.regions);
    var patched := Overwrite(bytes, 0, h);
    assert patched == h + EncodeRegions(before.regions) + EncodeFds(before.fds) + data;
    assert patched[HEADER_SIZE + |rs|..] == EncodeFds(before.fds) + data;
    assert patched[..HEADER_SIZE] == h;
  }

  lemma SliceOfSuffix(b: seq<byte>, from: nat, lo: nat, hi: nat)
    requires from <= lo <= hi <= |b|
    ensures b[lo..hi] == b[from..][lo - from..hi - from]
  {
    var suffix := b[from..];
    assert forall i :: 0 <= i < hi - lo ==> b[lo..hi][i] == b[lo + i] == suffix[lo - from + i];
  }

  lemma OutcomePatched(r: SavedRegion, m: Region, bytes: seq<byte>, bytes': seq<byte>, tables: nat, mem: Memory)
    requires Outcome(r, m, bytes, mem) && tables <= |bytes| == |bytes'| && bytes[tables..] == bytes'[tables..]
    requires Included(r) ==> tables <= r.fileOffset
    ensures Outcome(r, m, bytes', mem)
  {
    if Included(r) {
      var lo, hi := r.fileOffset, r.fileOffset + r.dataSize;
      SliceOfSuffix(bytes, tables, lo, hi);
      SliceOfSuffix(bytes', tables, lo, hi);
    }
  }

  /** The finished file: it loads as exactly the image that was written, and that image captures the process. */
  lemma Finished(img: Image, data: seq<byte>, was: seq<byte>, l: ProcLayout, mem: Memory)
    requires Writable(img) && img.fds == l.fds
    requires img.header.exePath == CopyString(l.exePath, 512) && img.header.cwd == CopyString(l.cwd, 512)
    requires var tables := TablesEnd(|img.regions|, |img.fds|);
      && Dumping(img.regions, |l.regions|, l, was, tables, mem)
      && |was| == tables + |data| && was[tables..] == data
    ensures var bytes := EncodeTables(img) + data;
      && Load(bytes) == Some(img)
      && Captures(img, bytes, l, mem)
      && Complete(bytes, CountIncluded(img.regions))
  {
    hide RegionFits, EncodeTables, Load;
    var tables := TablesEnd(|img.regions|, |img.fds|);
    var bytes := EncodeTables(img) + data;
    ImageRoundTrip(img, data);
    assert bytes[tables..] == data;
    assert img.regions[..|l.regions|] == img.regions;
    forall i | 0 <= i < |l.regions|
      ensures Outcome(img.regions[i], l.regions[i], bytes, mem)
    {
      OutcomePatched(img.regions[i], l.regions[i], was, bytes, tables, mem);
    }
  }

  lemma NewHeaderFits(h: Header)
    requires h.magic == MAGIC && h.version == VERSION && IntFits(h.pid, 4)
    requires h.regionCount <= MAX_REGIONS && h.fdCount <= MAX_FDS
    requires |h.regs| == 27 && forall i :: 0 <= i < 27 ==> h.regs[i] < Pow256(8)
    requires |h.processName| < 64 && |h.exePath| < 512 && |h.cwd| < 512
    ensures HeaderFits(h)
  {
    assert Pow256(4) == 0x1_0000_0000;
  }

  // ---- The whole capture ----

  /** The manager during a capture, and the slot directory it works in. */
  class Capturer {
    const kernel: Kernel
    var attached: bool                  // the target is ptrace-attached
    var stopped: bool                   // it was seen to stop
    var openFds: nat                    // the manager's open descriptors
    var snapshotBin: Option<seq<byte>>  // what snapshot.bin leads to
    var dataSynced: bool                // the bytes of snapshot.bin were fsynced before it got its name
    var entrySynced: bool               // the directory was fsynced since
    var manifestDone: bool              // manifest.txt was replaced since

    constructor (kernel: Kernel)
      ensures this.kernel == kernel && !attached && !stopped && openFds == 0 && snapshotBin.None?
    {
      this.kernel := kernel;
      attached, stopped, openFds, snapshotBin := false, false, 0, None;
      dataSynced, entrySynced, manifestDone := false, false, false;
    }

    /** ptrace_attach_and_stop: the wait may fail although the attach succeeded. */
    method AttachAndStop() returns (ok: bool)
      modifies this`attached, this`stopped, kernel
      ensures ok ==> attached && stopped
      ensures !ok ==> !stopped
      ensures kernel.faults == old(kernel.faults) + if ok then 0 else 1
    {
      stopped := false;
      attached := kernel.Try();
      if attached {
        stopped := kernel.Try();
      }
      ok := stopped;
    }

    method Detach()
      modifies this`attached
      ensures !attached
    {
      attached := false;
    }

    /** open(snapshot.bin.tmp, O_WRONLY | O_CREAT | O_TRUNC) */
    method OpenTmp() returns (out: Option<OutFile>)
      modifies this`openFds, kernel
      ensures out.Some? ==>
        && fresh(out.value) && out.value.kernel == kernel && out.value.bytes == [] && out.value.AtEnd()
        && openFds == old(openFds) + 1 && kernel.faults == old(kernel.faults)
      ensures out.None? ==> openFds == old(openFds) && kernel.faults > old(kernel.faults)
    {
      var ok := kernel.Try();
      if ok {
        var file := new OutFile(kernel);
        openFds := openFds + 1;
        out := Some(file);
      } else {
        out := None;
      }
    }

    /** The three writes that put the tables at the start of the file. */
    method WriteTables(img: Image, out: OutFile) returns (ok: bool)
      requires Writable(img) && out.bytes == [] && out.AtEnd()
      modifies out, out.kernel
      ensures out.AtEnd() && (ok ==> out.bytes == EncodeTables(img))
      ensures out.kernel.faults == old(out.kernel.faults) + if ok then 0 else 1
    {
      hide HeaderFits, RegionFits, FdFits, EncodeHeader, EncodeRegions, EncodeFds;
      ok := false;
      var data := EncodeHeader(img.header);
      var n := out.Write(data);
      if n != |data| { return; }
      data := EncodeRegions(img.regions);
      n := out.Write(data);
      if n != |data| { return; }
      data := EncodeFds(img.fds);
      n := out.Write(data);
      ok := n == |data|;
    }

    /** The two pwrites that replace the header and the region table. */
    method RewriteTables(ghost before: Image, img: Image, ghost data: seq<byte>, out: OutFile) returns (ok: bool)
      requires Writable(before) && Writable(img)
      requires |before.regions| == |img.regions| && before.fds == img.fds
      requires out.bytes == EncodeTables(before) + data
      modifies out, out.kernel
      ensures ok ==> out.bytes == EncodeTables(img) + data
      ensures out.kernel.faults == old(out.kernel.faults) + if ok then 0 else 1
    {
      hide HeaderFits, RegionFits, FdFits, EncodeHeader, EncodeRegions, EncodeFds, EncodeTables;
      PatchTables(before, img, data);
      ok := false;
      var bytes := EncodeHeader(img.header);
      var n := out.PWrite(bytes, 0);
      if n != |bytes| { return; }
      assert bytes[..n] == bytes;
      bytes := EncodeRegions(img.regions);
      n := out.PWrite(bytes, HEADER_SIZE);
      assert bytes[..|bytes|] == bytes;
      ok := n == |bytes|;
    }

    /** Everything from the first write to the fsync. */
    method WriteImage(mem: Memory, l: ProcLayout, header: Header, out: OutFile)
      returns (ok: bool, dumped: nat, ghost img: Image, ghost faulty: set<nat>)
      requires LayoutFits(l) && HeaderFits(header)
      requires header.magic == MAGIC && header.version == VERSION
      requires header.regionCount == |l.regions| && header.fdCount == |l.fds|
      requires header.exePath == CopyString(l.exePath, 512) && header.cwd == CopyString(l.cwd, 512)
      requires out.bytes == [] && out.AtEnd()
      modifies out, out.kernel
      // It fails if a call outside the dumps does, and drops one region for each dump with a failing call.
      ensures !ok ==> out.kernel.faults > old(out.kernel.faults) + |faulty|
      ensures ok ==> DroppedAre(img.regions, l, faulty) && out.kernel.faults == old(out.kernel.faults) + |faulty|
      ensures ok ==>
        out.synced && img.header == header && Load(out.bytes) == Some(img) && Captures(img, out.bytes, l, mem)
      ensures ok ==> Complete(out.bytes, dumped) && dumped == CountIncluded(img.regions)
    {
      hide HeaderFits, RegionFits, FdFits, EncodeTables, Load, Captures, Complete, CountIncluded, Outcome, Extents;
      var regions := seq(|l.regions|, i requires 0 <= i < |l.regions| => SavedRegion(l.regions[i], 0, 0));
      var initial := Image(header, regions, l.fds);
      img, dumped, faulty := initial, 0, {};
      ok := WriteTables(initial, out);
      if !ok { return; }

      var tables := TablesEnd(|l.regions|, |l.fds|);
      ghost var dropped;
      ok, regions, dumped, dropped := DumpRegions(mem, l, out, tables);
      if !ok { return; }
      faulty := dropped;
      ghost var was := out.bytes;
      ghost var blobs := was[tables..];
      assert was == EncodeTables(initial) + blobs;

      var final := Image(header, regions, l.fds);
      img := final;
      ok := RewriteTables(initial, final, blobs, out);
      if !ok { return; }
      Finished(img, blobs, was, l, mem);
      ok := out.Fsync();
    }

    /** The snapshot this capture published, if it published one. */
    ghost predicate Published(l: ProcLayout, mem: Memory, pid: int, name: CString, regs: seq<nat>)
      reads this
    {
      && snapshotBin.Some? && dataSynced
      && Load(snapshotBin.value).Some?
      && var img := Load(snapshotBin.value).value;
         && Captures(img, snapshotBin.value, l, mem)
         && img.header.pid == pid && img.header.processName == CopyString(name, 64) && img.header.regs == regs
         && Complete(snapshotBin.value, CountIncluded(img.regions))
    }

    /** snapshot.bin has at least one dumped region. */
    ghost predicate HasData()
      reads this
    {
      snapshotBin.Some? && Load(snapshotBin.value).Some? && CountIncluded(Load(snapshotBin.value).value.regions) > 0
    }

    /** The regions that snapshot.bin lacks although they were meant to be dumped. */
    ghost predicate Drops(l: ProcLayout, faulty: set<nat>)
      reads this
    {
      snapshotBin.Some? && Load(snapshotBin.value).Some? && DroppedAre(Load(snapshotBin.value).value.regions, l, faulty)
    }

    /**
     ulcr_capture_snapshot.  `layout` and `regs` are what /proc and PTRACE_GETREGS give, None
     standing for an error.
     */
    method CaptureSnapshot(
      mem: Memory, pid: int, name: CString, layout: Option<ProcLayout>, regs: Option<seq<nat>>)
      returns (code: int, ghost faulty: set<nat>)
      requires !attached && IntFits(pid, 4)
      requires layout.Some? ==> LayoutFits(layout.value)
      requires regs.Some? ==> |regs.value| == 27 && forall i :: 0 <= i < 27 ==> regs.value[i] < Pow256(8)
      modifies this, kernel
      ensures code == 0 || code == -1
      // It must succeed if no call fails outside the dumps and some region is left.
      ensures (code == -1 && layout.Some? && regs.Some? && kernel.faults <= old(kernel.faults) + |faulty|) ==>
        Published(layout.value, mem, pid, name, regs.value) && !HasData()
      // One region is dropped for each dump with a failing call.
      ensures layout.Some? && (code == 0 || (regs.Some? && kernel.faults <= old(kernel.faults) + |faulty|)) ==>
        Drops(layout.value, faulty) && kernel.faults == old(kernel.faults) + |faulty|
      // Success: a complete, durable snapshot of this process with at least one dumped region.
      ensures code == 0 ==>
        && layout.Some? && regs.Some? && Published(layout.value, mem, pid, name, regs.value)
        && entrySynced && manifestDone && HasData()
      // Failure: snapshot.bin is untouched, or already replaced by a complete snapshot that lacks
      // only the directory fsync, the manifest, or any dumped region.
      ensures code == -1 ==>
        || (snapshotBin == old(snapshotBin) && dataSynced == old(dataSynced) && entrySynced == old(entrySynced))
        || (&& layout.Some? && regs.Some? && Published(layout.value, mem, pid, name, regs.value)
            && (!entrySynced || !manifestDone || !HasData()))
      // Resources: no descriptor stays open, and the target stays attached only if it never stopped.
      ensures openFds == old(openFds)
      ensures attached ==> !stopped && code == -1 && snapshotBin == old(snapshotBin)
    {
      hide Captures, Complete, CountIncluded, DroppedAre, Load, LayoutFits, HeaderFits;
      code, faulty := -1, {};
      var ok := kernel.Try();  // ulcr_ensure_directory
      if !ok { return; }
      ok := AttachAndStop();
      if !ok { return; }
      if layout.None? || regs.None? {
        Detach();
        return;
      }
      var l := layout.value;
      var header := NewHeader(pid, name, l, regs.value);
      var out := OpenTmp();
      if out.None? {
        Detach();
        return;
      }
      var dumped;
      ghost var img;
      ok, dumped, img, faulty := WriteImage(mem, l, header, out.value);
      openFds := openFds - 1;
      if !ok {
        Detach();
        return;
      }
      ok := kernel.Try();  // rename
      if !ok {
        Detach();
        return;
      }
      snapshotBin, dataSynced, entrySynced, manifestDone := Some(out.value.bytes), out.value.synced, false, false;
      ok := kernel.Try();  // fsync of the directory
      if !ok {
        Detach();
        return;
      }
      entrySynced := true;
      ok := kernel.Try();  // ulcr_write_manifest
      if !ok {
        Detach();
        return;
      }
      manifestDone := true;
      Detach();
      code := if dumped > 0 then 0 else -1;
    }
  }

  /** The header a capture starts from. */
  function NewHeader(pid: int, name: CString, l: ProcLayout, regs: seq<nat>): (h: Header)
    requires LayoutFits(l) && IntFits(pid, 4)
    requires |regs| == 27 && forall i :: 0 <= i < 27 ==> regs[i] < Pow256(8)
    ensures HeaderFits(h) && h.magic == MAGIC && h.version == VERSION
    ensures h.regionCount == |l.regions| && h.fdCount == |l.fds|
    ensures h.exePath == CopyString(l.exePath, 512) && h.cwd == CopyString(l.cwd, 512)
    ensures h.pid == pid && h.processName == CopyString(name, 64) && h.regs == regs
  {
    var h := Header(
      MAGIC, VERSION, pid, |l.regions|, |l.fds|, regs,
      CopyString(name, 64), CopyString(l.exePath, 512), CopyString(l.cwd, 512));
    NewHeaderFits(h);
    h
  }
}
