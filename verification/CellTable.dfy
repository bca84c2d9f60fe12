/** The cell bootstrap table: the image builder that writes it and the boot loader
    that reads it. Source: tools/write-cell-table.py, kernel/src/loader/early.rs and
    kernel/src/loader/disk_layout.rs. */
module CellTable {
  import opened ByteData
  import opened Wrappers

  const SECTOR: nat := 512
  const BASE_LBA: nat := 526_336
  const SNAPSHOT_LBA: nat := 560_000
  const MAGIC: nat := 0x5649_4F53_5F43_454C
  const PATH_LEN: nat := 64
  const MAX_CELLS: nat := 64
  const U64: nat := 0x1_0000_0000_0000_0000

  datatype Cell = Cell(path: seq<Byte>, data: seq<Byte>)

  datatype WriteError = NoCells | TooManyCells | PathTooLong

  datatype ReadError = Io | InvalidInput | NotFound

  datatype Entry = Entry(path: seq<Byte>, lba: nat, size: nat)

  // ---- layout ----------------------------------------------------------

  function SectorsFor(size: nat): nat { (size + SECTOR - 1) / SECTOR }

  /** First sector of the data of cell `k`, the data of cell 0 starting at `start`. */
  function DataLba(cells: seq<Cell>, start: nat, k: nat): nat
    requires k <= |cells|
  {
    if k == 0 then start else DataLba(cells, start, k - 1) + SectorsFor(|cells[k - 1].data|)
  }

  function DataStart(cells: seq<Cell>): nat { BASE_LBA + 1 + |cells| }

  function PackHeader(count: nat): (r: seq<Byte>)
    ensures |r| == SECTOR
  {
    LittleEndian(MAGIC, 8) + LittleEndian(count, 4) + Zeros(500)
  }

  function PackEntry(path: seq<Byte>, lba: nat, size: nat): (r: seq<Byte>)
    requires |path| < PATH_LEN
    ensures |r| == SECTOR
  {
    path + Zeros(PATH_LEN - |path|) + LittleEndian(lba, 8) + LittleEndian(size, 8) + Zeros(432)
  }

  /** Data filled up to whole sectors. */
  function Padded(data: seq<Byte>): (r: seq<Byte>)
    ensures |r| == SECTOR * SectorsFor(|data|)
  {
    data + Zeros(SECTOR * SectorsFor(|data|) - |data|)
  }

  /** The entry sectors of the first `k` cells. */
  function Entries(cells: seq<Cell>, k: nat): (r: seq<Byte>)
    requires k <= |cells| && forall i :: 0 <= i < |cells| ==> |cells[i].path| < PATH_LEN
    ensures |r| == SECTOR * k
  {
    if k == 0 then []
    else Entries(cells, k - 1) + PackEntry(cells[k - 1].path, DataLba(cells, DataStart(cells), k - 1), |cells[k - 1].data|)
  }

  /** The data sectors of the first `k` cells. */
  function Blobs(cells: seq<Cell>, k: nat): (r: seq<Byte>)
    requires k <= |cells|
    ensures |r| == SECTOR * (DataLba(cells, 0, k))
  {
    if k == 0 then [] else Blobs(cells, k - 1) + Padded(cells[k - 1].data)
  }

  lemma {:induction false} DataLbaShift(cells: seq<Cell>, start: nat, k: nat)
    requires k <= |cells|
    ensures DataLba(cells, start, k) == start + DataLba(cells, 0, k)
  {
    if k > 0 { DataLbaShift(cells, start, k - 1); }
  }

  lemma {:induction false} DataLbaMono(cells: seq<Cell>, start: nat, j: nat, k: nat)
    requires j < k <= |cells|
    ensures DataLba(cells, start, j) + SectorsFor(|cells[j].data|) <= DataLba(cells, start, k)
  {
    if j < k - 1 { DataLbaMono(cells, start, j, k - 1); }
  }

  /** Data extents are pairwise disjoint and lie behind the entry sectors. */
  lemma ExtentsDisjoint(cells: seq<Cell>, j: nat, k: nat)
    requires j < k < |cells|
    ensures var start := DataStart(cells);
            && BASE_LBA + 1 + |cells| <= DataLba(cells, start, j)
            && DataLba(cells, start, j) + SectorsFor(|cells[j].data|) <= DataLba(cells, start, k)
  {
    DataLbaMono(cells, DataStart(cells), j, k);
    DataLbaShift(cells, DataStart(cells), j);
  }

  // ---- reading back ----------------------------------------------------

  function ReadSector(img: seq<Byte>, lba: nat): Option<seq<Byte>> {
    if SECTOR * lba + SECTOR <= |img| then Some(img[SECTOR * lba..SECTOR * lba + SECTOR]) else None
  }

  function TrimNul(s: seq<Byte>): seq<Byte> {
    if s == [] || s[|s| - 1] != 0 then s else TrimNul(s[..|s| - 1])
  }

  function UnpackEntry(s: seq<Byte>): Entry
    requires |s| == SECTOR
  {
    Entry(TrimNul(s[..PATH_LEN]), FromLittleEndian(s[64..72]), FromLittleEndian(s[72..80]))
  }

  lemma {:induction false} TrimPadded(path: seq<Byte>, n: nat)
    requires forall k :: 0 <= k < |path| ==> path[k] != 0
    ensures TrimNul(path + Zeros(n)) == path
  {
    var s := path + Zeros(n);
    if n == 0 { assert s == path; }
    else {
      assert s[..|s| - 1] == path + Zeros(n - 1);
      TrimPadded(path, n - 1);
    }
  }

  /** An entry sector reads back as what was packed. */
  lemma EntryRoundTrip(path: seq<Byte>, lba: nat, size: nat)
    requires |path| < PATH_LEN && (forall k :: 0 <= k < |path| ==> path[k] != 0) && lba < U64 && size < U64
    ensures UnpackEntry(PackEntry(path, lba, size)) == Entry(path, lba, size)
  {
    var s := PackEntry(path, lba, size);
    assert s[..PATH_LEN] == path + Zeros(PATH_LEN - |path|);
    assert s[64..72] == LittleEndian(lba, 8) && s[72..80] == LittleEndian(size, 8);
    TrimPadded(path, PATH_LEN - |path|);
    assert Pow256(8) == U64;
    LittleEndianInverse(lba, 8);
    LittleEndianInverse(size, 8);
  }

  lemma {:induction false} EntryAt(cells: seq<Cell>, n: nat, k: nat)
    requires k < n <= |cells| && forall i :: 0 <= i < |cells| ==> |cells[i].path| < PATH_LEN
    ensures Entries(cells, n)[SECTOR * k..SECTOR * k + SECTOR]
         == PackEntry(cells[k].path, DataLba(cells, DataStart(cells), k), |cells[k].data|)
  {
    if k < n - 1 {
      EntryAt(cells, n - 1, k);
      assert Entries(cells, n)[..SECTOR * (n - 1)] == Entries(cells, n - 1);
    }
  }

  lemma {:induction false} BlobAt(cells: seq<Cell>, n: nat, k: nat)
    requires k < n <= |cells|
    ensures SECTOR * DataLba(cells, 0, k) + |Padded(cells[k].data)| <= |Blobs(cells, n)|
    ensures Blobs(cells, n)[SECTOR * DataLba(cells, 0, k)..SECTOR * DataLba(cells, 0, k) + |Padded(cells[k].data)|] == Padded(cells[k].data)
  {
    if k < n - 1 {
      BlobAt(cells, n - 1, k);
      assert Blobs(cells, n)[..|Blobs(cells, n - 1)|] == Blobs(cells, n - 1);
    }
  }

  // ---- the loader ------------------------------------------------------

  /** Entries `0` to `n`, one sector each. */
  function ReadEntries(img: seq<Byte>, n: nat): Result<seq<Entry>, ReadError> {
    if n == 0 then Ok([])
    else
      var rest := ReadEntries(img, n - 1);
      if rest.Err? then rest
      else
        var s := ReadSector(img, BASE_LBA + n);
        if s.None? then Err(Io) else Ok(rest.value + [UnpackEntry(s.value)])
  }

  /** What `probe` finds on a disk. */
  function ProbeResult(img: seq<Byte>): Result<seq<Entry>, ReadError> {
    var h := ReadSector(img, BASE_LBA);
    if h.None? then Err(Io)
    else if FromLittleEndian(h.value[..8]) != MAGIC then Err(InvalidInput)
    else if FromLittleEndian(h.value[8..12]) > MAX_CELLS then Err(InvalidInput)
    else ReadEntries(img, FromLittleEndian(h.value[8..12]))
  }

  method Probe(img: seq<Byte>) returns (r: Result<seq<Entry>, ReadError>)
    ensures r == ProbeResult(img)
  {
    var h := ReadSector(img, BASE_LBA);
    if h.None? { return Err(Io); }
    if FromLittleEndian(h.value[..8]) != MAGIC { return Err(InvalidInput); }
    var count := FromLittleEndian(h.value[8..12]);
    if count > MAX_CELLS { return Err(InvalidInput); }
    var entries := [];
    for i := 0 to count
      invariant ReadEntries(img, i) == Ok(entries)
    {
      var s := ReadSector(img, BASE_LBA + 1 + i);
      if s.None? {
        FirstFailure(img, i + 1, count);
        return Err(Io);
      }
      entries := entries + [UnpackEntry(s.value)];
    }
    return Ok(entries);
  }

  lemma {:induction false} FirstFailure(img: seq<Byte>, k: nat, n: nat)
    requires k <= n && ReadEntries(img, k).Err?
    ensures ReadEntries(img, n) == ReadEntries(img, k)
  {
    if k < n { FirstFailure(img, k, n - 1); }
  }

  /** The first entry with this path. */
  function FindPath(entries: seq<Entry>, path: seq<Byte>, i: nat): Option<nat>
    requires i <= |entries|
    decreases |entries| - i
  {
    if i == |entries| then None else if entries[i].path == path then Some(i) else FindPath(entries, path, i + 1)
  }

  /** `n` sectors from `lba` on. */
  function ReadSectors(img: seq<Byte>, lba: nat, n: nat): Option<seq<Byte>> {
    if n == 0 then Some([])
    else
      var rest, s := ReadSectors(img, lba, n - 1), ReadSector(img, lba + (n - 1));
      if rest.None? || s.None? then None else Some(rest.value + s.value)
  }

  /** What the table path of `read_file` returns. */
  function FileResult(img: seq<Byte>, entries: seq<Entry>, path: seq<Byte>): Result<seq<Byte>, ReadError> {
    var k := FindPath(entries, path, 0);
    if k.None? || k.value >= |entries| then Err(NotFound)
    else if entries[k.value].size == 0 then Err(InvalidInput)
    else
      var d := ReadSectors(img, entries[k.value].lba, SectorsFor(entries[k.value].size));
      if d.None? || |d.value| < entries[k.value].size then Err(Io) else Ok(d.value[..entries[k.value].size])
  }

  lemma {:induction false} ReadSectorsLength(img: seq<Byte>, lba: nat, n: nat)
    ensures ReadSectors(img, lba, n).Some? ==> |ReadSectors(img, lba, n).value| == SECTOR * n
  {
    if n > 0 { ReadSectorsLength(img, lba, n - 1); }
  }

  lemma {:induction false} ReadStops(img: seq<Byte>, lba: nat, k: nat, n: nat)
    requires k <= n && ReadSectors(img, lba, k).None?
    ensures ReadSectors(img, lba, n).None?
  {
    if k < n { ReadStops(img, lba, k, n - 1); }
  }

  /** Reads a file sector by sector into a buffer, then cuts it to size. */
  method ReadFile(img: seq<Byte>, entries: seq<Entry>, path: seq<Byte>) returns (r: Result<seq<Byte>, ReadError>)
    ensures r == FileResult(img, entries, path)
  {
    var i := 0;
    while i < |entries| && entries[i].path != path
      invariant i <= |entries| && FindPath(entries, path, 0) == FindPath(entries, path, i)
    {
      i := i + 1;
    }
    if i == |entries| { return Err(NotFound); }
    var e := entries[i];
    if e.size == 0 { return Err(InvalidInput); }
    var n, buf := SectorsFor(e.size), [];
    for k := 0 to n
      invariant ReadSectors(img, e.lba, k) == Some(buf)
    {
      var s := ReadSector(img, e.lba + k);
      if s.None? {
        ReadStops(img, e.lba, k + 1, n);
        return Err(Io);
      }
      buf := buf + s.value;
    }
    ReadSectorsLength(img, e.lba, n);
    return Ok(buf[..e.size]);
  }

  // ---- the builder -----------------------------------------------------

  lemma PutPut(d: seq<Byte>, o: nat, a: seq<Byte>, b: seq<Byte>)
    requires o + |a| + |b| <= |d|
    ensures Splice(Splice(d, o, a), o + |a|, b) == Splice(d, o, a + b)
  {}

  /** The next sequential write of a file that had `written` put at `base`. */
  method Append(out: seq<Byte>, pos: nat, s: seq<Byte>, ghost d: seq<Byte>, ghost base: nat, ghost written: seq<Byte>)
    returns (out': seq<Byte>)
    requires base + |written| + |s| <= |d| && out == Splice(d, base, written) && pos == base + |written|
    ensures out' == Splice(d, base, written + s)
  {
    PutPut(d, base, written, s);
    out' := Splice(out, pos, s);
  }

  /** The image grown with zeros to at least `n` bytes. */
  function Grown(d: seq<Byte>, n: nat): (r: seq<Byte>)
    ensures |r| >= n && d <= r
  {
    if |d| < n then d + Zeros(n - |d|) else d
  }

  /** Where the table, the entries and the data end. */
  function EndOf(cells: seq<Cell>): nat { SECTOR * DataLba(cells, DataStart(cells), |cells|) }

  ghost predicate PathsFit(cells: seq<Cell>) { forall i :: 0 <= i < |cells| ==> |cells[i].path| < PATH_LEN }

  /** Every byte of the image that is not one of the table or of the data is as it was. */
  ghost predicate Untouched(image: seq<Byte>, out: seq<Byte>, cells: seq<Cell>) {
    && |image| <= |out|
    && forall p :: 0 <= p < |image| && !(SECTOR * BASE_LBA <= p < EndOf(cells)) ==> out[p] == image[p]
  }

  lemma SpliceUntouched(d: seq<Byte>, s: seq<Byte>, cells: seq<Cell>)
    requires SECTOR * BASE_LBA + |s| <= EndOf(cells) <= |d|
    ensures Untouched(d, Splice(d, SECTOR * BASE_LBA, s), cells)
  {}

  lemma UntouchedTrans(image: seq<Byte>, d: seq<Byte>, out: seq<Byte>, cells: seq<Cell>)
    requires image <= d && Untouched(d, out, cells)
    ensures Untouched(image, out, cells)
  {}

  method WriteEntry(out: seq<Byte>, pos: nat, cells: seq<Cell>, k: nat, lba: nat, ghost d: seq<Byte>, ghost base: nat,
                    ghost header: seq<Byte>, ghost written: seq<Byte>)
    returns (out': seq<Byte>, ghost written': seq<Byte>)
    requires k < |cells| && |cells[k].path| < PATH_LEN && lba == DataLba(cells, DataStart(cells), k)
    requires base + |written| + SECTOR <= |d| && out == Splice(d, base, written) && pos == base + |written|
    ensures |written'| == |written| + SECTOR && base + |written'| <= |d| && out' == Splice(d, base, written')
    ensures PathsFit(cells) && written == header + Entries(cells, k) ==> written' == header + Entries(cells, k + 1)
  {
    var e := PackEntry(cells[k].path, lba, |cells[k].data|);
    written' := written + e;
    out' := Append(out, pos, e, d, base, written);
    if PathsFit(cells) { Regroup(header, Entries(cells, k), e); }
  }

  /** Writes header and entries; stops at a path that does not fit. */
  method WriteEntries(d: seq<Byte>, header: seq<Byte>, cells: seq<Cell>) returns (out: seq<Byte>, ok: bool)
    requires |d| >= EndOf(cells) && |header| == SECTOR
    ensures |out| == |d| && SECTOR * DataStart(cells) <= |d| && Untouched(d, out, cells)
    ensures ok <==> PathsFit(cells)
    ensures ok ==> out == Splice(d, SECTOR * BASE_LBA, header + Entries(cells, |cells|))
  {
    DataLbaShift(cells, DataStart(cells), |cells|);
    var base := SECTOR * BASE_LBA;
    out := Splice(d, base, header);
    var lba, pos := DataStart(cells), base + SECTOR;
    ghost var written := header;
    assert header + [] == header;
    for k := 0 to |cells|
      invariant forall i :: 0 <= i < k ==> |cells[i].path| < PATH_LEN
      invariant lba == DataLba(cells, DataStart(cells), k) && pos == base + SECTOR + SECTOR * k
      invariant |written| == SECTOR + SECTOR * k && out == Splice(d, base, written)
      invariant PathsFit(cells) ==> written == header + Entries(cells, k)
    {
      if |cells[k].path| >= PATH_LEN {
        SpliceUntouched(d, written, cells);
        return out, false;
      }
      out, written := WriteEntry(out, pos, cells, k, lba, d, base, header, written);
      pos := pos + SECTOR;
      lba := lba + SectorsFor(|cells[k].data|);
    }
    SpliceUntouched(d, written, cells);
    return out, true;
  }

  /** Writes the data of every cell, filled up to whole sectors. */
  method WriteData(d: seq<Byte>, cells: seq<Cell>, ghost image: seq<Byte>, ghost front: seq<Byte>)
    returns (out: seq<Byte>)
    requires |image| >= EndOf(cells) && |front| == SECTOR + SECTOR * |cells|
    requires SECTOR * DataStart(cells) <= |image| && d == Splice(image, SECTOR * BASE_LBA, front)
    ensures SECTOR * BASE_LBA + |front + Blobs(cells, |cells|)| <= |image|
    ensures out == Splice(image, SECTOR * BASE_LBA, front + Blobs(cells, |cells|))
  {
    DataLbaShift(cells, DataStart(cells), |cells|);
    ghost var base := SECTOR * BASE_LBA;
    out := d;
    var pos := SECTOR * DataStart(cells);
    ghost var written := front;
    assert front + Blobs(cells, 0) == front;
    for k := 0 to |cells|
      invariant written == front + Blobs(cells, k) && pos == base + |written| <= |image|
      invariant out == Splice(image, base, written)
    {
      RoomFor(cells, k);
      var chunk := Padded(cells[k].data);
      Regroup(front, Blobs(cells, k), chunk);
      out := Append(out, pos, chunk, image, base, written);
      written := written + chunk;
      pos := pos + |chunk|;
    }
  }

  lemma RoomFor(cells: seq<Cell>, k: nat)
    requires k < |cells|
    ensures SECTOR * DataStart(cells) + |Blobs(cells, k)| + |Padded(cells[k].data)| <= EndOf(cells)
  {
    DataLbaShift(cells, DataStart(cells), |cells|);
    if k + 1 < |cells| { DataLbaMono(cells, 0, k, |cells|); }
  }

  /** The image as long as the builder makes it. */
  function Enlarged(image: seq<Byte>, cells: seq<Cell>): (d: seq<Byte>)
    ensures image <= d && EndOf(cells) <= |d|
  {
    Grown(Grown(image, SECTOR * (BASE_LBA + 1 + MAX_CELLS)), EndOf(cells))
  }

  method Enlarge(image: seq<Byte>, cells: seq<Cell>) returns (d: seq<Byte>)
    ensures d == Enlarged(image, cells)
  {
    d := Grown(image, SECTOR * (BASE_LBA + 1 + MAX_CELLS));
    var lba := DataStart(cells);
    for k := 0 to |cells|
      invariant lba == DataLba(cells, DataStart(cells), k)
    {
      lba := lba + SectorsFor(|cells[k].data|);
    }
    d := Grown(d, SECTOR * lba);
  }

  /** Header, entries and data, one after the other. */
  ghost function Table(cells: seq<Cell>): (t: seq<Byte>)
    requires PathsFit(cells)
    ensures SECTOR * BASE_LBA + |t| == EndOf(cells)
  {
    DataLbaShift(cells, DataStart(cells), |cells|);
    PackHeader(|cells|) + Entries(cells, |cells|) + Blobs(cells, |cells|)
  }

  /** The image with the table on it. */
  ghost function Written(image: seq<Byte>, cells: seq<Cell>): seq<Byte>
    requires PathsFit(cells)
  {
    Splice(Enlarged(image, cells), SECTOR * BASE_LBA, Table(cells))
  }

  lemma WrittenUntouched(image: seq<Byte>, cells: seq<Cell>)
    requires PathsFit(cells)
    ensures Untouched(image, Written(image, cells), cells)
  {
    SpliceUntouched(Enlarged(image, cells), Table(cells), cells);
    UntouchedTrans(image, Enlarged(image, cells), Written(image, cells), cells);
  }

  /** The table and the data on an image that is long enough; stops at a path that does
      not fit. */
  method WriteParts(d: seq<Byte>, cells: seq<Cell>) returns (out: seq<Byte>, ok: bool)
    requires EndOf(cells) <= |d|
    ensures ok <==> PathsFit(cells)
    ensures Untouched(d, out, cells)
    ensures ok ==> out == Splice(d, SECTOR * BASE_LBA, Table(cells))
  {
    out, ok := WriteEntries(d, PackHeader(|cells|), cells);
    if ok {
      out := WriteData(out, cells, d, PackHeader(|cells|) + Entries(cells, |cells|));
      SpliceUntouched(d, Table(cells), cells);
    }
  }

  /** Puts the table on a disk image. Bytes outside the table and the data are never
      touched, even when a path is refused half-way. */
  method WriteTable(image: seq<Byte>, cells: seq<Cell>) returns (out: seq<Byte>, err: Option<WriteError>)
    ensures Untouched(image, out, cells)
    ensures err == Some(NoCells) <==> |cells| == 0
    ensures err == Some(TooManyCells) <==> |cells| > MAX_CELLS
    ensures err == Some(PathTooLong) <==> 0 < |cells| <= MAX_CELLS && !PathsFit(cells)
    ensures err.None? <==> 0 < |cells| <= MAX_CELLS && PathsFit(cells)
    ensures err.None? ==> out == Written(image, cells) && HasTable(out, PackHeader(|cells|), cells)
  {
    if |cells| == 0 { return image, Some(NoCells); }
    if |cells| > MAX_CELLS { return image, Some(TooManyCells); }
    var d := Enlarge(image, cells);
    var ok;
    out, ok := WriteParts(d, cells);
    UntouchedTrans(image, d, out, cells);
    if !ok { return out, Some(PathTooLong); }
    Holds(d, out, PackHeader(|cells|), cells);
    return out, None;
  }

  /** Every byte of the snapshot partition is as it was. */
  ghost predicate SnapshotKept(image: seq<Byte>, out: seq<Byte>) {
    |image| <= |out| && forall p :: SECTOR * SNAPSHOT_LBA <= p < |image| ==> out[p] == image[p]
  }

  /** The builder does not look where its partition ends: it leaves every snapshot
      partition alone if and only if the data ends in front of it. */
  lemma SnapshotSpared(cells: seq<Cell>)
    requires PathsFit(cells)
    ensures EndOf(cells) <= SECTOR * SNAPSHOT_LBA <==> forall image: seq<Byte> :: SnapshotKept(image, Written(image, cells))
  {
    if EndOf(cells) <= SECTOR * SNAPSHOT_LBA {
      forall image: seq<Byte> ensures SnapshotKept(image, Written(image, cells)) { WrittenUntouched(image, cells); }
    } else {
      var image := SnapshotLost(cells);
    }
  }

  lemma SnapshotLost(cells: seq<Cell>) returns (image: seq<Byte>)
    requires PathsFit(cells) && EndOf(cells) > SECTOR * SNAPSHOT_LBA
    ensures !SnapshotKept(image, Written(image, cells))
  {
    var p := SECTOR * SNAPSHOT_LBA;
    var b: Byte := if Table(cells)[p - SECTOR * BASE_LBA] == 0 then 1 else 0;
    image := seq(EndOf(cells), _ => b);
    assert Written(image, cells)[p] == Table(cells)[p - SECTOR * BASE_LBA] && image[p] == b;
  }

  /** The disk holds the header, the entry sectors and the data sectors, one after the
      other. */
  ghost predicate HasTable(img: seq<Byte>, header: seq<Byte>, cells: seq<Cell>)
    requires PathsFit(cells)
  {
    && |header| == SECTOR && EndOf(cells) <= |img| && SECTOR * DataStart(cells) <= EndOf(cells)
    && Slice(img, SECTOR * BASE_LBA, SECTOR) == header
    && Slice(img, SECTOR * (BASE_LBA + 1), SECTOR * |cells|) == Entries(cells, |cells|)
    && Slice(img, SECTOR * DataStart(cells), |Blobs(cells, |cells|)|) == Blobs(cells, |cells|)
  }

  function Slice(d: seq<Byte>, o: nat, n: nat): seq<Byte> { if o + n <= |d| then d[o..o + n] else [] }

  /** A part of a part. */
  lemma SubSlice(d: seq<Byte>, o: nat, n: nat, i: nat, m: nat)
    requires o + n <= |d| && i + m <= n
    ensures Slice(d, o + i, m) == Slice(d, o, n)[i..i + m]
  {}

  lemma PutParts(d: seq<Byte>, o: nat, a: seq<Byte>, b: seq<Byte>, c: seq<Byte>)
    requires o + |a + b + c| <= |d|
    ensures var r := Splice(d, o, a + b + c);
            Slice(r, o, |a|) == a && Slice(r, o + |a|, |b|) == b && Slice(r, o + |a| + |b|, |c|) == c
  {}

  lemma Holds(d: seq<Byte>, out: seq<Byte>, header: seq<Byte>, cells: seq<Cell>)
    requires PathsFit(cells) && |header| == SECTOR && EndOf(cells) <= |d|
    requires SECTOR * BASE_LBA + |header + Entries(cells, |cells|) + Blobs(cells, |cells|)| <= |d|
    requires out == Splice(d, SECTOR * BASE_LBA, header + Entries(cells, |cells|) + Blobs(cells, |cells|))
    ensures HasTable(out, header, cells)
  {
    DataLbaShift(cells, DataStart(cells), |cells|);
    PutParts(d, SECTOR * BASE_LBA, header, Entries(cells, |cells|), Blobs(cells, |cells|));
  }

  // ---- what is written reads back --------------------------------------

  /** Cells the format is made for: distinct NUL-free paths, no empty image. */
  ghost predicate CellsOk(cells: seq<Cell>) {
    && 0 < |cells| <= MAX_CELLS && PathsFit(cells) && EndOf(cells) < U64
    && (forall i, k :: 0 <= i < |cells| && 0 <= k < |cells[i].path| ==> cells[i].path[k] != 0)
    && (forall i :: 0 <= i < |cells| ==> 0 < |cells[i].data|)
    && (forall i, j :: 0 <= i < j < |cells| ==> cells[i].path != cells[j].path)
  }

  ghost function EntryOf(cells: seq<Cell>, k: nat): Entry
    requires k < |cells|
  {
    Entry(cells[k].path, DataLba(cells, DataStart(cells), k), |cells[k].data|)
  }

  ghost function EntryList(cells: seq<Cell>, n: nat): (r: seq<Entry>)
    requires n <= |cells|
    ensures |r| == n && forall k :: 0 <= k < n ==> r[k] == EntryOf(cells, k)
  {
    if n == 0 then [] else EntryList(cells, n - 1) + [EntryOf(cells, n - 1)]
  }

  lemma SectorIs(img: seq<Byte>, lba: nat)
    requires SECTOR * lba + SECTOR <= |img|
    ensures ReadSector(img, lba) == Some(Slice(img, SECTOR * lba, SECTOR))
  {}

  lemma SectorOfPart(img: seq<Byte>, lba: nat, part: seq<Byte>, k: nat)
    requires SECTOR * lba + |part| <= |img| && Slice(img, SECTOR * lba, |part|) == part && SECTOR * k + SECTOR <= |part|
    ensures ReadSector(img, lba + k) == Some(part[SECTOR * k..SECTOR * k + SECTOR])
  {
    SubSlice(img, SECTOR * lba, |part|, SECTOR * k, SECTOR);
    SectorIs(img, lba + k);
  }

  lemma EntrySector(img: seq<Byte>, header: seq<Byte>, cells: seq<Cell>, k: nat)
    requires PathsFit(cells) && HasTable(img, header, cells) && k < |cells|
    ensures ReadSector(img, BASE_LBA + 1 + k)
         == Some(PackEntry(cells[k].path, DataLba(cells, DataStart(cells), k), |cells[k].data|))
  {
    SectorOfPart(img, BASE_LBA + 1, Entries(cells, |cells|), k);
    EntryAt(cells, |cells|, k);
  }

  lemma LbaBelowEnd(cells: seq<Cell>, k: nat)
    requires k < |cells| && EndOf(cells) < U64
    ensures DataLba(cells, DataStart(cells), k) < U64 && |cells[k].data| < U64
  {
    DataLbaMono(cells, DataStart(cells), k, |cells|);
  }

  lemma {:induction false} ReadsEntries(img: seq<Byte>, header: seq<Byte>, cells: seq<Cell>, n: nat)
    requires CellsOk(cells) && HasTable(img, header, cells) && n <= |cells|
    ensures ReadEntries(img, n) == Ok(EntryList(cells, n))
  {
    if n > 0 {
      ReadsEntries(img, header, cells, n - 1);
      EntryReads(img, header, cells, n - 1);
    }
  }

  lemma EntryReads(img: seq<Byte>, header: seq<Byte>, cells: seq<Cell>, k: nat)
    requires CellsOk(cells) && HasTable(img, header, cells) && k < |cells|
    ensures var s := ReadSector(img, BASE_LBA + 1 + k); s.Some? && UnpackEntry(s.value) == EntryOf(cells, k)
  {
    EntrySector(img, header, cells, k);
    LbaBelowEnd(cells, k);
    EntryRoundTrip(cells[k].path, DataLba(cells, DataStart(cells), k), |cells[k].data|);
  }

  lemma HeaderRoundTrip(count: nat)
    requires count <= MAX_CELLS
    ensures var h := PackHeader(count); FromLittleEndian(h[..8]) == MAGIC && FromLittleEndian(h[8..12]) == count
  {
    var h := PackHeader(count);
    assert h[..8] == LittleEndian(MAGIC, 8) && h[8..12] == LittleEndian(count, 4);
    assert Pow256(8) == U64 && Pow256(4) == 0x1_0000_0000;
    LittleEndianInverse(MAGIC, 8);
    LittleEndianInverse(count, 4);
  }

  /** A header sector that names the magic number and the count. */
  ghost predicate HeaderOk(header: seq<Byte>, count: nat) {
    |header| == SECTOR && FromLittleEndian(header[..8]) == MAGIC && FromLittleEndian(header[8..12]) == count
  }

  /** Probing a written disk finds every cell. */
  lemma ProbesTable(img: seq<Byte>, header: seq<Byte>, cells: seq<Cell>)
    requires CellsOk(cells) && HasTable(img, header, cells) && HeaderOk(header, |cells|)
    ensures ProbeResult(img) == Ok(EntryList(cells, |cells|))
  {
    SectorIs(img, BASE_LBA);
    ReadsEntries(img, header, cells, |cells|);
  }

  lemma {:induction false} FindsPath(cells: seq<Cell>, k: nat, i: nat)
    requires CellsOk(cells) && i <= k < |cells|
    ensures FindPath(EntryList(cells, |cells|), cells[k].path, i) == Some(k)
    decreases k - i
  {
    if i < k { FindsPath(cells, k, i + 1); }
  }

  lemma {:induction false} ReadSectorsIs(img: seq<Byte>, lba: nat, n: nat)
    requires SECTOR * (lba + n) <= |img|
    ensures ReadSectors(img, lba, n) == Some(Slice(img, SECTOR * lba, SECTOR * n))
  {
    if n == 0 {
      assert Slice(img, SECTOR * lba, 0) == [];
    } else {
      ReadSectorsIs(img, lba, n - 1);
      var o := SECTOR * lba;
      assert img[o..o + SECTOR * (n - 1)] + img[o + SECTOR * (n - 1)..o + SECTOR * n] == img[o..o + SECTOR * n];
    }
  }

  lemma DataSectors(img: seq<Byte>, header: seq<Byte>, cells: seq<Cell>, k: nat)
    requires PathsFit(cells) && HasTable(img, header, cells) && k < |cells|
    ensures ReadSectors(img, DataLba(cells, DataStart(cells), k), SectorsFor(|cells[k].data|)) == Some(Padded(cells[k].data))
  {
    var start, n, o := DataStart(cells), SectorsFor(|cells[k].data|), SECTOR * DataLba(cells, 0, k);
    DataLbaShift(cells, start, k);
    DataLbaShift(cells, start, |cells|);
    BlobAt(cells, |cells|, k);
    SubSlice(img, SECTOR * start, |Blobs(cells, |cells|)|, o, SECTOR * n);
    ReadSectorsIs(img, DataLba(cells, start, k), n);
  }

  lemma FileIs(img: seq<Byte>, header: seq<Byte>, cells: seq<Cell>, k: nat)
    requires CellsOk(cells) && HasTable(img, header, cells) && k < |cells|
    ensures FileResult(img, EntryList(cells, |cells|), cells[k].path) == Ok(cells[k].data)
  {
    FindsPath(cells, k, 0);
    DataSectors(img, header, cells, k);
    assert Padded(cells[k].data)[..|cells[k].data|] == cells[k].data;
  }

  /** Reading any path of a written disk returns exactly that cell's bytes. */
  lemma ReadsBack(img: seq<Byte>, cells: seq<Cell>, k: nat)
    requires CellsOk(cells) && HasTable(img, PackHeader(|cells|), cells) && k < |cells|
    ensures LoadResult(img, cells[k].path) == Ok(cells[k].data)
  {
    HeaderRoundTrip(|cells|);
    ProbesTable(img, PackHeader(|cells|), cells);
    FileIs(img, PackHeader(|cells|), cells, k);
  }

  function LoadResult(img: seq<Byte>, path: seq<Byte>): Result<seq<Byte>, ReadError> {
    match ProbeResult(img)
    case Err(e) => Err(e)
    case Ok(entries) => FileResult(img, entries, path)
  }

  /** The loader as it is used: probe, then read. */
  method ProbeAndRead(img: seq<Byte>, path: seq<Byte>) returns (r: Result<seq<Byte>, ReadError>)
    ensures r == LoadResult(img, path)
  {
    var entries := Probe(img);
    if entries.Err? { return Err(entries.error); }
    r := ReadFile(img, entries.value, path);
  }

  /** Builder and loader together, over any image. */
  method WriteThenRead(image: seq<Byte>, cells: seq<Cell>, k: nat) returns (r: Result<seq<Byte>, ReadError>)
    requires CellsOk(cells) && k < |cells|
    ensures r == Ok(cells[k].data)
  {
    var img, err := WriteTable(image, cells);
    ReadsBack(img, cells, k);
    r := ProbeAndRead(img, cells[k].path);
  }
}
