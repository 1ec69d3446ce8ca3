/**
 The snapshot image: header, region table, fd table, then the regions' bytes.  `Load` is what
 `ulcr_load_snapshot` makes of a file; `Complete` is what a published file must be.
 */
module ImageFormat {
  import opened Wrappers
  import opened Bytes

  const MAGIC := 0x554C4352
  const VERSION := 1
  const MAX_REGIONS := 512
  const MAX_FDS := 128

  datatype Region = Region(
    start: nat, end: nat, offset: nat, prot: int, flags: int, isAnonymous: int, included: int, name: CString)

  const U64 := 0x1_0000_0000_0000_0000

  /** region->end - region->start in uint64_t arithmetic. */
  function RegionSize(m: Region): (n: nat)
    ensures n < U64
    ensures m.start <= m.end < U64 ==> n == m.end - m.start
  {
    (m.end - m.start) % U64
  }

  datatype SavedRegion = SavedRegion(meta: Region, fileOffset: nat, dataSize: nat)

  datatype FdEntry = FdEntry(fd: int, flags: int, position: int, supported: int, target: CString)

  datatype Header = Header(
    magic: nat, version: nat, pid: int, regionCount: nat, fdCount: nat,
    regs: seq<nat>, processName: CString, exePath: CString, cwd: CString)

  datatype Image = Image(header: Header, regions: seq<SavedRegion>, fds: seq<FdEntry>)

  // ---- Records ----

  const REGION_FIELDS: seq<Field> := [
    Unsigned(8), Unsigned(8), Unsigned(8), Signed(4), Signed(4), Signed(4), Signed(4), Text(256),
    Unsigned(8), Unsigned(8)]

  const FD_FIELDS: seq<Field> := [Signed(4), Signed(4), Signed(8), Signed(4), Text(512), Padding(4)]

  const HEADER_FIELDS: seq<Field> := [
    Unsigned(4), Unsigned(4), Signed(4), Unsigned(4), Unsigned(4), Padding(4), Words(27), Text(64), Text(512),
    Text(512)]

  function RegionValues(r: SavedRegion): (vs: seq<Value>)
    ensures |vs| == |REGION_FIELDS|
  {
    var m := r.meta;
    [Int(m.start), Int(m.end), Int(m.offset), Int(m.prot), Int(m.flags), Int(m.isAnonymous), Int(m.included),
     Str(m.name), Int(r.fileOffset), Int(r.dataSize)]
  }

  function FdValues(e: FdEntry): (vs: seq<Value>)
    ensures |vs| == |FD_FIELDS|
  {
    [Int(e.fd), Int(e.flags), Int(e.position), Int(e.supported), Str(e.target), Nothing]
  }

  function HeaderValues(h: Header): (vs: seq<Value>)
    ensures |vs| == |HEADER_FIELDS|
  {
    [Int(h.magic), Int(h.version), Int(h.pid), Int(h.regionCount), Int(h.fdCount), Nothing, WordList(h.regs),
     Str(h.processName), Str(h.exePath), Str(h.cwd)]
  }

  function RegionOf(vs: seq<Value>): SavedRegion
    requires Shaped(vs, REGION_FIELDS)
  {
    assert forall i :: 0 <= i < 10 ==> SameShape(vs[i], REGION_FIELDS[i]);
    SavedRegion(
      Region(vs[0].n, vs[1].n, vs[2].n, vs[3].n, vs[4].n, vs[5].n, vs[6].n, vs[7].s),
      vs[8].n, vs[9].n)
  }

  function FdOf(vs: seq<Value>): FdEntry
    requires Shaped(vs, FD_FIELDS)
  {
    assert forall i :: 0 <= i < 6 ==> SameShape(vs[i], FD_FIELDS[i]);
    FdEntry(vs[0].n, vs[1].n, vs[2].n, vs[3].n, vs[4].s)
  }

  function HeaderOf(vs: seq<Value>): Header
    requires Shaped(vs, HEADER_FIELDS)
  {
    assert forall i :: 0 <= i < 10 ==> SameShape(vs[i], HEADER_FIELDS[i]);
    Header(vs[0].n, vs[1].n, vs[2].n, vs[3].n, vs[4].n, vs[6].words, vs[7].s, vs[8].s, vs[9].s)
  }

  ghost predicate RegionFits(r: SavedRegion) {
    AllFit(RegionValues(r), REGION_FIELDS)
  }

  ghost predicate FdFits(e: FdEntry) {
    AllFit(FdValues(e), FD_FIELDS)
  }

  ghost predicate HeaderFits(h: Header) {
    AllFit(HeaderValues(h), HEADER_FIELDS)
  }

  /** sizeof of the three structs. */
  const HEADER_SIZE := 1328
  const REGION_SIZE := 312
  const FD_SIZE := 536

  lemma RecordSizes()
    ensures Size(HEADER_FIELDS) == HEADER_SIZE
    ensures Size(REGION_FIELDS) == REGION_SIZE
    ensures Size(FD_FIELDS) == FD_SIZE
  {
    hide Size;
    FieldOffsets();
    SizeOfPrefix(HEADER_FIELDS, 9);
    SizeOfPrefix(REGION_FIELDS, 9);
    SizeOfPrefix(FD_FIELDS, 5);
    assert HEADER_FIELDS[..10] == HEADER_FIELDS && REGION_FIELDS[..10] == REGION_FIELDS && FD_FIELDS[..6] == FD_FIELDS;
  }

  /** offsetof every field. */
  lemma FieldOffsets()
    ensures var f := HEADER_FIELDS;
      && Size(f[..0]) == 0 && Size(f[..1]) == 4 && Size(f[..2]) == 8 && Size(f[..3]) == 12 && Size(f[..4]) == 16
      && Size(f[..6]) == 24 && Size(f[..7]) == 240 && Size(f[..8]) == 304 && Size(f[..9]) == 816
    ensures var f := REGION_FIELDS;
      && Size(f[..0]) == 0 && Size(f[..1]) == 8 && Size(f[..2]) == 16 && Size(f[..3]) == 24 && Size(f[..4]) == 28
      && Size(f[..5]) == 32 && Size(f[..6]) == 36 && Size(f[..7]) == 40 && Size(f[..8]) == 296 && Size(f[..9]) == 304
    ensures var f := FD_FIELDS;
      && Size(f[..0]) == 0 && Size(f[..1]) == 4 && Size(f[..2]) == 8 && Size(f[..3]) == 16 && Size(f[..4]) == 20
      && Size(f[..5]) == 532
  {
    hide Size;
    FivePrefixes(HEADER_FIELDS);
    FourMore(HEADER_FIELDS);
    FivePrefixes(REGION_FIELDS);
    FourMore(REGION_FIELDS);
    FivePrefixes(FD_FIELDS);
  }

  lemma FivePrefixes(f: seq<Field>)
    requires |f| >= 5
    ensures Size(f[..0]) == 0 && Size(f[..1]) == Width(f[0]) && Size(f[..2]) == Width(f[0]) + Width(f[1])
    ensures Size(f[..3]) == Size(f[..2]) + Width(f[2])
    ensures Size(f[..4]) == Size(f[..3]) + Width(f[3])
    ensures Size(f[..5]) == Size(f[..4]) + Width(f[4])
  {
    hide Size, Width;
    assert Size(f[..0]) == 0 by { assert f[..0] == []; NoFields(); }
    SizeOfPrefix(f, 0);
    SizeOfPrefix(f, 1);
    SizeOfPrefix(f, 2);
    SizeOfPrefix(f, 3);
    SizeOfPrefix(f, 4);
  }

  lemma NoFields()
    ensures Size([]) == 0
  {
  }

  lemma FourMore(f: seq<Field>)
    requires |f| >= 9
    ensures Size(f[..6]) == Size(f[..5]) + Width(f[5]) && Size(f[..7]) == Size(f[..6]) + Width(f[6])
    ensures Size(f[..8]) == Size(f[..7]) + Width(f[7]) && Size(f[..9]) == Size(f[..8]) + Width(f[8])
  {
    hide Size, Width;
    SizeOfPrefix(f, 5);
    SizeOfPrefix(f, 6);
    SizeOfPrefix(f, 7);
    SizeOfPrefix(f, 8);
  }

  // ---- The file ----

  function RegionRows(rs: seq<SavedRegion>): seq<seq<Value>> {
    seq(|rs|, i requires 0 <= i < |rs| => RegionValues(rs[i]))
  }

  function FdRows(es: seq<FdEntry>): seq<seq<Value>> {
    seq(|es|, i requires 0 <= i < |es| => FdValues(es[i]))
  }

  function EncodeHeader(h: Header): (b: seq<byte>)
    requires HeaderFits(h)
    ensures |b| == HEADER_SIZE
  {
    RecordSizes();
    Encode(HeaderValues(h), HEADER_FIELDS)
  }

  lemma RegionRowsFit(rs: seq<SavedRegion>)
    requires forall i :: 0 <= i < |rs| ==> RegionFits(rs[i])
    ensures RowsFit(RegionRows(rs), REGION_FIELDS) && Total(|rs|, Size(REGION_FIELDS)) == REGION_SIZE * |rs|
  {
    hide AllFit, Size, RegionValues;
    TotalSizes(|rs|);
  }

  lemma {:induction false} TotalIs(n: nat, width: nat)
    ensures Total(n, width) == width * n
  {
    if n > 0 {
      TotalIs(n - 1, width);
      assert width * n == width * (n - 1) + width;
    }
  }

  /** The sizes of tables of `n` records. */
  lemma TotalSizes(n: nat)
    ensures Total(n, Size(REGION_FIELDS)) == REGION_SIZE * n && Total(n, Size(FD_FIELDS)) == FD_SIZE * n
  {
    hide Size, Total;
    RecordSizes();
    TotalIs(n, REGION_SIZE);
    TotalIs(n, FD_SIZE);
  }

  function EncodeRegions(rs: seq<SavedRegion>): (b: seq<byte>)
    requires forall i :: 0 <= i < |rs| ==> RegionFits(rs[i])
    ensures |b| == REGION_SIZE * |rs|
  {
    RegionRowsFit(rs);
    EncodeRows(RegionRows(rs), REGION_FIELDS)
  }

  lemma FdRowsFit(es: seq<FdEntry>)
    requires forall i :: 0 <= i < |es| ==> FdFits(es[i])
    ensures RowsFit(FdRows(es), FD_FIELDS) && Total(|es|, Size(FD_FIELDS)) == FD_SIZE * |es|
  {
    hide AllFit, Size, FdValues;
    TotalSizes(|es|);
  }

  function EncodeFds(es: seq<FdEntry>): (b: seq<byte>)
    requires forall i :: 0 <= i < |es| ==> FdFits(es[i])
    ensures |b| == FD_SIZE * |es|
  {
    FdRowsFit(es);
    EncodeRows(FdRows(es), FD_FIELDS)
  }

  function DecodeHeader(b: seq<byte>): Header
    requires |b| == HEADER_SIZE
  {
    RecordSizes();
    HeaderOf(Decode(b, HEADER_FIELDS))
  }

  function DecodeRegions(b: seq<byte>, n: nat): (rs: seq<SavedRegion>)
    requires |b| == REGION_SIZE * n
    ensures |rs| == n
  {
    TotalSizes(n);
    var rows := DecodeRows(b, n, REGION_FIELDS);
    seq(n, i requires 0 <= i < n => RegionOf(rows[i]))
  }

  function DecodeFds(b: seq<byte>, n: nat): (es: seq<FdEntry>)
    requires |b| == FD_SIZE * n
    ensures |es| == n
  {
    TotalSizes(n);
    var rows := DecodeRows(b, n, FD_FIELDS);
    seq(n, i requires 0 <= i < n => FdOf(rows[i]))
  }

  lemma HeaderRoundTrip(h: Header)
    requires HeaderFits(h)
    ensures DecodeHeader(EncodeHeader(h)) == h
  {
    hide Encode, Decode, Size;
    RecordRoundTrip(HeaderValues(h), HEADER_FIELDS);
  }

  lemma RegionsRoundTrip(rs: seq<SavedRegion>)
    requires forall i :: 0 <= i < |rs| ==> RegionFits(rs[i])
    ensures DecodeRegions(EncodeRegions(rs), |rs|) == rs
  {
    hide EncodeRows, DecodeRows, Size;
    RegionRowsFit(rs);
    RowsRoundTrip(RegionRows(rs), REGION_FIELDS);
  }

  lemma FdsRoundTrip(es: seq<FdEntry>)
    requires forall i :: 0 <= i < |es| ==> FdFits(es[i])
    ensures DecodeFds(EncodeFds(es), |es|) == es
  {
    hide EncodeRows, DecodeRows, Size;
    FdRowsFit(es);
    RowsRoundTrip(FdRows(es), FD_FIELDS);
  }

  /** Where the data blobs start. */
  function TablesEnd(regions: nat, fds: nat): nat {
    HEADER_SIZE + REGION_SIZE * regions + FD_SIZE * fds
  }

  /** ulcr_load_snapshot: what it accepts, and the image it then returns. */
  function Load(bytes: seq<byte>): Option<Image> {
    if |bytes| < HEADER_SIZE then None
    else
      var h := DecodeHeader(bytes[..HEADER_SIZE]);
      if h.magic != MAGIC || h.version != VERSION || h.regionCount > MAX_REGIONS || h.fdCount > MAX_FDS then None
      else
        var regionsEnd := HEADER_SIZE + REGION_SIZE * h.regionCount;
        var tablesEnd := regionsEnd + FD_SIZE * h.fdCount;
        if |bytes| < tablesEnd then None
        else
          Some(Image(h,
                     DecodeRegions(bytes[HEADER_SIZE..regionsEnd], h.regionCount),
                     DecodeFds(bytes[regionsEnd..tablesEnd], h.fdCount)))
  }

  /** The image fits its structs, and its header passes every check of the loader. */
  ghost predicate Writable(img: Image) {
    && HeaderFits(img.header)
    && img.header.magic == MAGIC && img.header.version == VERSION
    && img.header.regionCount == |img.regions| <= MAX_REGIONS
    && img.header.fdCount == |img.fds| <= MAX_FDS
    && (forall i :: 0 <= i < |img.regions| ==> RegionFits(img.regions[i]))
    && (forall i :: 0 <= i < |img.fds| ==> FdFits(img.fds[i]))
  }

  function EncodeTables(img: Image): (b: seq<byte>)
    requires Writable(img)
    ensures |b| == TablesEnd(|img.regions|, |img.fds|)
  {
    EncodeHeader(img.header) + EncodeRegions(img.regions) + EncodeFds(img.fds)
  }

  /** Whatever follows the tables, loading returns exactly the image that was written. */
  lemma ImageRoundTrip(img: Image, data: seq<byte>)
    requires Writable(img)
    ensures Load(EncodeTables(img) + data) == Some(img)
  {
    hide EncodeHeader, EncodeRegions, EncodeFds, DecodeHeader, DecodeRegions, DecodeFds, RegionFits, FdFits, HeaderFits;
    var h, rs, es := EncodeHeader(img.header), EncodeRegions(img.regions), EncodeFds(img.fds);
    var bytes := EncodeTables(img) + data;
    HeaderRoundTrip(img.header);
    RegionsRoundTrip(img.regions);
    FdsRoundTrip(img.fds);
    assert bytes[..HEADER_SIZE] == h;
    assert bytes[HEADER_SIZE..HEADER_SIZE + |rs|] == rs;
    assert bytes[HEADER_SIZE + |rs|..HEADER_SIZE + |rs| + |es|] == es;
  }

  /** Whatever the bytes, an image that loads fits the loader's arrays and has all its tables in the file. */
  lemma LoadedIsBounded(bytes: seq<byte>)
    requires Load(bytes).Some?
    ensures var img := Load(bytes).value;
      && |img.regions| == img.header.regionCount <= 512 && |img.fds| == img.header.fdCount <= 128
      && img.header.magic == 0x554C4352 && img.header.version == 1
      && TablesEnd(|img.regions|, |img.fds|) <= |bytes|
  {
    hide DecodeHeader, DecodeRegions, DecodeFds;
  }

  /** An image cut off anywhere in its tables does not load. */
  lemma TruncatedIsRejected(img: Image, k: nat)
    requires Writable(img) && k < TablesEnd(|img.regions|, |img.fds|)
    ensures Load(EncodeTables(img)[..k]).None?
  {
    hide EncodeHeader, EncodeRegions, EncodeFds, DecodeHeader, DecodeRegions, DecodeFds, RegionFits, FdFits, HeaderFits;
    if k >= HEADER_SIZE {
      HeaderRoundTrip(img.header);
      assert EncodeTables(img)[..k][..HEADER_SIZE] == EncodeHeader(img.header);
    }
  }

  // ---- The bytes of the tables ----

  /** The bytes from `o` on are those of the field. */
  predicate FieldBytes(b: seq<byte>, o: nat, v: Value, f: Field) {
    Fits(v, f) && o + Width(f) <= |b| && b[o..o + Width(f)] == EncodeField(v, f)
  }

  /** The header's fields, at the offsets of the struct on x86-64. */
  lemma HeaderLayout(h: Header)
    requires HeaderFits(h)
    ensures var b := EncodeHeader(h);
      && FieldBytes(b, 0, Int(h.magic), Unsigned(4)) && FieldBytes(b, 4, Int(h.version), Unsigned(4))
      && FieldBytes(b, 8, Int(h.pid), Signed(4)) && FieldBytes(b, 12, Int(h.regionCount), Unsigned(4))
      && FieldBytes(b, 16, Int(h.fdCount), Unsigned(4)) && FieldBytes(b, 24, WordList(h.regs), Words(27))
      && FieldBytes(b, 240, Str(h.processName), Text(64)) && FieldBytes(b, 304, Str(h.exePath), Text(512))
      && FieldBytes(b, 816, Str(h.cwd), Text(512))
  {
    hide Encode, Size, EncodeField, Fits, Width, FieldBytes;
    var vs := HeaderValues(h);
    FieldOffsets();
    RecordField(vs, HEADER_FIELDS, 0);
    RecordField(vs, HEADER_FIELDS, 1);
    RecordField(vs, HEADER_FIELDS, 2);
    RecordField(vs, HEADER_FIELDS, 3);
    RecordField(vs, HEADER_FIELDS, 4);
    RecordField(vs, HEADER_FIELDS, 6);
    RecordField(vs, HEADER_FIELDS, 7);
    RecordField(vs, HEADER_FIELDS, 8);
    RecordField(vs, HEADER_FIELDS, 9);
  }

  lemma RecordField(vs: seq<Value>, fields: seq<Field>, i: nat)
    requires AllFit(vs, fields) && i < |vs|
    ensures FieldBytes(Encode(vs, fields), Size(fields[..i]), vs[i], fields[i])
  {
    FieldAt(vs, fields, i);
  }

  /** A record of the region table at `o`, field by field. */
  predicate RegionAt(b: seq<byte>, o: nat, r: SavedRegion) {
    && FieldBytes(b, o, Int(r.meta.start), Unsigned(8)) && FieldBytes(b, o + 8, Int(r.meta.end), Unsigned(8))
    && FieldBytes(b, o + 16, Int(r.meta.offset), Unsigned(8)) && FieldBytes(b, o + 24, Int(r.meta.prot), Signed(4))
    && FieldBytes(b, o + 28, Int(r.meta.flags), Signed(4)) && FieldBytes(b, o + 32, Int(r.meta.isAnonymous), Signed(4))
    && FieldBytes(b, o + 36, Int(r.meta.included), Signed(4)) && FieldBytes(b, o + 40, Str(r.meta.name), Text(256))
    && FieldBytes(b, o + 296, Int(r.fileOffset), Unsigned(8)) && FieldBytes(b, o + 304, Int(r.dataSize), Unsigned(8))
  }

  /** A record of the fd table at `o`. */
  predicate FdAt(b: seq<byte>, o: nat, e: FdEntry) {
    && FieldBytes(b, o, Int(e.fd), Signed(4)) && FieldBytes(b, o + 4, Int(e.flags), Signed(4))
    && FieldBytes(b, o + 8, Int(e.position), Signed(8)) && FieldBytes(b, o + 16, Int(e.supported), Signed(4))
    && FieldBytes(b, o + 20, Str(e.target), Text(512))
  }

  lemma RegionLayout(r: SavedRegion)
    requires RegionFits(r)
    ensures RegionAt(Encode(RegionValues(r), REGION_FIELDS), 0, r)
  {
    hide Encode, Size, EncodeField, Fits, Width, FieldBytes;
    var vs := RegionValues(r);
    FieldOffsets();
    RecordField(vs, REGION_FIELDS, 0);
    RecordField(vs, REGION_FIELDS, 1);
    RecordField(vs, REGION_FIELDS, 2);
    RecordField(vs, REGION_FIELDS, 3);
    RecordField(vs, REGION_FIELDS, 4);
    RecordField(vs, REGION_FIELDS, 5);
    RecordField(vs, REGION_FIELDS, 6);
    RecordField(vs, REGION_FIELDS, 7);
    RecordField(vs, REGION_FIELDS, 8);
    RecordField(vs, REGION_FIELDS, 9);
  }

  lemma FdLayout(e: FdEntry)
    requires FdFits(e)
    ensures FdAt(Encode(FdValues(e), FD_FIELDS), 0, e)
  {
    hide Encode, Size, EncodeField, Fits, Width, FieldBytes;
    var vs := FdValues(e);
    FieldOffsets();
    RecordField(vs, FD_FIELDS, 0);
    RecordField(vs, FD_FIELDS, 1);
    RecordField(vs, FD_FIELDS, 2);
    RecordField(vs, FD_FIELDS, 3);
    RecordField(vs, FD_FIELDS, 4);
  }

  lemma FieldInside(b: seq<byte>, lo: nat, hi: nat)
    requires lo <= hi <= |b|
    ensures forall o: nat, v, f :: FieldBytes(b[lo..hi], o, v, f) ==> FieldBytes(b, lo + o, v, f)
  {
    hide Fits, Width, EncodeField;
    forall o: nat, v, f | FieldBytes(b[lo..hi], o, v, f)
      ensures FieldBytes(b, lo + o, v, f)
    {
      assert b[lo..hi][o..o + Width(f)] == b[lo + o..lo + o + Width(f)];
    }
  }

  lemma RegionRowAt(rs: seq<SavedRegion>, i: nat)
    requires i < |rs| && forall k :: 0 <= k < |rs| ==> RegionFits(rs[k])
    ensures EncodeRegions(rs)[312 * i..312 * i + 312] == Encode(RegionValues(rs[i]), REGION_FIELDS)
  {
    hide Encode, Size, AllFit, Total, RegionValues;
    RecordSizes();
    RegionRowsFit(rs);
    RowAt(RegionRows(rs), REGION_FIELDS, i);
    TotalIs(i, 312);
  }

  lemma FdRowAt(es: seq<FdEntry>, i: nat)
    requires i < |es| && forall k :: 0 <= k < |es| ==> FdFits(es[k])
    ensures EncodeFds(es)[536 * i..536 * i + 536] == Encode(FdValues(es[i]), FD_FIELDS)
  {
    hide Encode, Size, AllFit, Total, FdValues;
    RecordSizes();
    FdRowsFit(es);
    RowAt(FdRows(es), FD_FIELDS, i);
    TotalIs(i, 536);
  }

  /** The whole file: the header, then the records of both tables, one directly behind the other. */
  lemma TablesLayout(img: Image, i: nat)
    requires Writable(img)
    ensures var b := EncodeTables(img);
      && b[..1328] == EncodeHeader(img.header)
      && (i < |img.regions| ==> RegionAt(b, 1328 + 312 * i, img.regions[i]))
      && (i < |img.fds| ==> FdAt(b, 1328 + 312 * |img.regions| + 536 * i, img.fds[i]))
  {
    hide Encode, EncodeHeader, EncodeRegions, EncodeFds, Size, RegionFits, FdFits, HeaderFits, FieldBytes;
    var b, rs, es := EncodeTables(img), EncodeRegions(img.regions), EncodeFds(img.fds);
    if i < |img.regions| {
      RegionRowAt(img.regions, i);
      RegionLayout(img.regions[i]);
      var o := 1328 + 312 * i;
      assert b[o..o + 312] == rs[312 * i..312 * i + 312];
      FieldInside(b, o, o + 312);
    }
    if i < |img.fds| {
      FdRowAt(img.fds, i);
      FdLayout(img.fds[i]);
      var o := 1328 + 312 * |img.regions| + 536 * i;
      assert b[o..o + 536] == es[536 * i..536 * i + 536];
      FieldInside(b, o, o + 536);
    }
  }

  // ---- Extents ----

  /** The truth value of the C int. */
  predicate Included(r: SavedRegion) {
    r.meta.included != 0
  }

  function CountIncluded(rs: seq<SavedRegion>): (n: nat)
    ensures n <= |rs|
  {
    if rs == [] then 0 else CountIncluded(rs[..|rs| - 1]) + if Included(rs[|rs| - 1]) then 1 else 0
  }

  /** r's bytes lie between `lo` and `hi`, one for each byte of the region. */
  predicate ExtentIn(r: SavedRegion, lo: nat, hi: nat) {
    lo <= r.fileOffset && r.fileOffset + r.dataSize <= hi && r.dataSize == RegionSize(r.meta)
  }

  /**
   The included regions' extents lie behind the tables, inside the file, in table order and
   without overlap.
   */
  ghost predicate Extents(rs: seq<SavedRegion>, lo: nat, hi: nat) {
    && (forall i :: 0 <= i < |rs| && Included(rs[i]) ==> ExtentIn(rs[i], lo, hi))
    && (forall i, j :: 0 <= i < j < |rs| && Included(rs[i]) && Included(rs[j]) ==>
          rs[i].fileOffset + rs[i].dataSize <= rs[j].fileOffset)
  }

  /** The file loads, every data extent is inside it, and `included` regions have one. */
  ghost predicate Complete(bytes: seq<byte>, included: nat) {
    var img := Load(bytes);
    && img.Some?
    && Extents(img.value.regions, TablesEnd(|img.value.regions|, |img.value.fds|), |bytes|)
    && CountIncluded(img.value.regions) == included
  }
}
