/** The bytes of a FAT16 image: where the table copies, the root directory and the
    clusters lie, and how writes to them change the volume they show.
    Source: tools/fat16_insert.py. */
module Fat16Image {
  import opened ByteData
  import opened Wrappers
  import opened Fat16Volume

  const BPB_END: nat := 0x24

  // ---- geometry --------------------------------------------------------

  datatype Geo = Geo(fatStart: nat, fatBytes: nat, nfat: nat, rootStart: nat, rootent: nat,
                     dataStart: nat, clusBytes: nat, maxCluster: int)

  /** The fields of the boot sector the builder reads. */
  datatype Bpb = Bpb(bps: nat, spc: nat, rsvd: nat, nfat: nat, rootent: nat, spf: nat, sectors: nat)

  function ReadBpb(d: seq<Byte>): Bpb
    requires |d| >= BPB_END
  {
    Bpb(U16(d, 0x0B), d[0x0D], U16(d, 0x0E), d[0x10], U16(d, 0x11), U16(d, 0x16),
        if U16(d, 0x13) != 0 then U16(d, 0x13) else U32(d, 0x20))
  }

  function Times(a: nat, b: nat): (r: nat)
    ensures r == a * b
  {
    assert a * b >= 0;
    a * b
  }

  /** The builder's arithmetic on them. */
  function GeoOf(b: Bpb): Result<Geo, InsertError> {
    if b.bps == 0 || b.spc == 0 then Err(NotFat)
    else
      var meta := b.rsvd + Times(b.nfat, b.spf);
      var rootStart := Times(meta, b.bps);
      var rootSectors: nat := (b.rootent * DIR_ENTRY + b.bps - 1) / b.bps;
      var dataSectors: int := b.sectors - meta - rootSectors;
      Ok(Geo(Times(b.rsvd, b.bps), Times(b.spf, b.bps), b.nfat, rootStart, b.rootent,
             rootStart + Times(rootSectors, b.bps), Times(b.spc, b.bps), dataSectors / b.spc + 1))
  }

  function ReadGeo(d: seq<Byte>): Result<Geo, InsertError>
    requires |d| >= BPB_END
  {
    GeoOf(ReadBpb(d))
  }

  /** Byte offset of table copy `fi`. */
  function FatBase(g: Geo, fi: nat): nat {
    if fi == 0 then g.fatStart else FatBase(g, fi - 1) + g.fatBytes
  }

  /** Byte offset of cluster `c`. */
  function ClusOff(g: Geo, c: nat): nat {
    if c <= 2 then g.dataStart else ClusOff(g, c - 1) + g.clusBytes
  }

  /** The regions follow each other inside the image, the table covers every cluster,
      and cluster numbers are below the end marks. */
  ghost predicate GeoOk(g: Geo, len: nat) {
    && BPB_END <= g.fatStart && 0 < g.nfat && 0 < g.clusBytes
    && 1 <= g.maxCluster && g.maxCluster + 1 < EOC_MIN && 2 * (g.maxCluster + 1) <= g.fatBytes
    && FatBase(g, g.nfat) == g.rootStart && g.rootStart + DIR_ENTRY * g.rootent <= g.dataStart
    && ClusOff(g, g.maxCluster + 1) <= len
  }

  /** The builder multiplies where `FatBase` and `ClusOff` add up. */
  lemma {:induction false} FatBaseFormula(g: Geo, fi: nat)
    ensures FatBase(g, fi) == g.fatStart + fi * g.fatBytes
  {
    if fi > 0 {
      FatBaseFormula(g, fi - 1);
      assert fi * g.fatBytes == (fi - 1) * g.fatBytes + g.fatBytes;
    }
  }

  lemma {:induction false} ClusOffFormula(g: Geo, c: nat)
    requires c >= 2
    ensures ClusOff(g, c) == g.dataStart + (c - 2) * g.clusBytes
  {
    if c > 2 {
      ClusOffFormula(g, c - 1);
      assert (c - 2) * g.clusBytes == (c - 1 - 2) * g.clusBytes + g.clusBytes;
    }
  }

  lemma {:induction false} FatBaseMono(g: Geo, i: nat, j: nat)
    requires i < j
    ensures FatBase(g, i) + g.fatBytes <= FatBase(g, j)
    decreases j
  {
    if i < j - 1 { FatBaseMono(g, i, j - 1); }
  }

  lemma {:induction false} ClusOffMono(g: Geo, a: nat, b: nat)
    requires 2 <= a < b
    ensures ClusOff(g, a) + g.clusBytes <= ClusOff(g, b)
    decreases b
  {
    if a < b - 1 { ClusOffMono(g, a, b - 1); }
  }

  lemma {:induction false} ClusOffFrom(g: Geo, c: nat)
    ensures g.dataStart <= ClusOff(g, c)
  {
    if c > 2 { ClusOffFrom(g, c - 1); }
  }

  /** Every table copy lies between the reserved sectors and the root directory. */
  lemma CopyInside(g: Geo, len: nat, fi: nat)
    requires GeoOk(g, len) && fi < g.nfat
    ensures g.fatStart <= FatBase(g, fi) && FatBase(g, fi) + g.fatBytes <= g.rootStart
  {
    FatBaseMono(g, fi, g.nfat);
    if fi > 0 { FatBaseMono(g, 0, fi); }
  }

  lemma ClusterInside(g: Geo, len: nat, c: nat)
    requires GeoOk(g, len) && 2 <= c <= g.maxCluster
    ensures g.dataStart <= ClusOff(g, c) && ClusOff(g, c) + g.clusBytes <= len
  {
    ClusOffFrom(g, c);
    ClusOffMono(g, c, g.maxCluster + 1);
  }

  // ---- what an image shows ---------------------------------------------

  function WordAt(d: seq<Byte>, o: nat): nat {
    if o + 2 <= |d| then U16(d, o) else 0
  }

  function Slice(d: seq<Byte>, a: nat, n: nat): seq<Byte> {
    if a + n <= |d| then d[a..a + n] else Zeros(n)
  }

  ghost function CopyFat(d: seq<Byte>, g: Geo, fi: nat): seq<nat>
    requires g.maxCluster >= 1
  {
    seq(g.maxCluster + 1, c requires 0 <= c <= g.maxCluster => WordAt(d, FatBase(g, fi) + 2 * c))
  }

  ghost function RootOf(d: seq<Byte>, g: Geo): seq<seq<Byte>> {
    seq(g.rootent, i requires 0 <= i < g.rootent => Slice(d, g.rootStart + DIR_ENTRY * i, DIR_ENTRY))
  }

  ghost function DataOf(d: seq<Byte>, g: Geo): seq<seq<Byte>>
    requires g.maxCluster >= 1
  {
    seq(g.maxCluster + 1, c requires 0 <= c <= g.maxCluster => if c < 2 then [] else Slice(d, ClusOff(g, c), g.clusBytes))
  }

  ghost function View(d: seq<Byte>, g: Geo): Vol
    requires g.maxCluster >= 1
  {
    Vol(CopyFat(d, g, 0), RootOf(d, g), DataOf(d, g))
  }

  /** All table copies agree. */
  ghost predicate CopiesEqual(d: seq<Byte>, g: Geo)
    requires g.maxCluster >= 1
  {
    forall fi :: 0 <= fi < g.nfat ==> CopyFat(d, g, fi) == CopyFat(d, g, 0)
  }

  /** In every table copy the words of the clusters in `w` are those of the first copy,
      and all other words are as they were in `from`. */
  ghost predicate Mirrored(from: seq<Byte>, d: seq<Byte>, g: Geo, w: set<nat>)
    requires g.maxCluster >= 1
  {
    forall fi, c :: 0 <= fi < g.nfat && 0 <= c <= g.maxCluster ==> MirroredAt(from, d, g, w, fi, c)
  }

  ghost predicate MirroredAt(from: seq<Byte>, d: seq<Byte>, g: Geo, w: set<nat>, fi: nat, c: nat)
    requires g.maxCluster >= 1 && c <= g.maxCluster
  {
    CopyFat(d, g, fi)[c] == if c in w then CopyFat(d, g, 0)[c] else CopyFat(from, g, fi)[c]
  }

  /** Copies that agreed before still agree. */
  lemma MirrorKeepsEqual(from: seq<Byte>, d: seq<Byte>, g: Geo, w: set<nat>)
    requires g.maxCluster >= 1 && 0 < g.nfat && Mirrored(from, d, g, w) && CopiesEqual(from, g)
    ensures CopiesEqual(d, g)
  {
    forall fi | 0 <= fi < g.nfat
      ensures CopyFat(d, g, fi) == CopyFat(d, g, 0)
    {
      forall c | 0 <= c <= g.maxCluster
        ensures CopyFat(d, g, fi)[c] == CopyFat(d, g, 0)[c]
      {
        assert MirroredAt(from, d, g, w, fi, c) && MirroredAt(from, d, g, w, 0, c);
        assert CopyFat(from, g, fi) == CopyFat(from, g, 0);
      }
    }
  }

  /** The table copies of `d'` are those of `d`. */
  ghost predicate SameCopies(d: seq<Byte>, d': seq<Byte>, g: Geo)
    requires g.maxCluster >= 1
  {
    forall fi :: 0 <= fi < g.nfat ==> CopyFat(d', g, fi) == CopyFat(d, g, fi)
  }

  lemma MirrorSame(from: seq<Byte>, d: seq<Byte>, d': seq<Byte>, g: Geo, w: set<nat>)
    requires g.maxCluster >= 1 && 0 < g.nfat && Mirrored(from, d, g, w) && SameCopies(d, d', g)
    ensures Mirrored(from, d', g, w)
  {
    forall fi, c | 0 <= fi < g.nfat && 0 <= c <= g.maxCluster
      ensures MirroredAt(from, d', g, w, fi, c)
    {
      assert MirroredAt(from, d, g, w, fi, c);
      assert CopyFat(d', g, fi) == CopyFat(d, g, fi) && CopyFat(d', g, 0) == CopyFat(d, g, 0);
    }
  }

  /** A word written in every copy. */
  lemma MirrorSet(from: seq<Byte>, d: seq<Byte>, d': seq<Byte>, g: Geo, w: set<nat>, c: nat, x: nat)
    requires g.maxCluster >= 1 && 0 < g.nfat && c <= g.maxCluster && Mirrored(from, d, g, w)
    requires forall fi :: 0 <= fi < g.nfat ==> CopyFat(d', g, fi) == CopyFat(d, g, fi)[c := x]
    ensures Mirrored(from, d', g, w + {c})
  {
    forall fi, k | 0 <= fi < g.nfat && 0 <= k <= g.maxCluster
      ensures MirroredAt(from, d', g, w + {c}, fi, k)
    {
      assert MirroredAt(from, d, g, w, fi, k);
      assert CopyFat(d', g, fi) == CopyFat(d, g, fi)[c := x] && CopyFat(d', g, 0) == CopyFat(d, g, 0)[c := x];
    }
  }

  lemma ViewOk(d: seq<Byte>, g: Geo)
    requires GeoOk(g, |d|)
    ensures VolOk(View(d, g), g.clusBytes)
  {
    forall i | 0 <= i < |RootOf(d, g)| ensures |RootOf(d, g)[i]| == DIR_ENTRY {}
  }

  ghost predicate SameRegion(d: seq<Byte>, d': seq<Byte>, lo: nat, hi: nat) {
    |d'| == |d| && forall p :: lo <= p < hi && p < |d| ==> d'[p] == d[p]
  }

  /** The bytes that show no part of the volume: reserved sectors, the unused ends of
      the table copies, the gap after the root directory, the bytes after the last cluster. */
  ghost predicate SameRest(d: seq<Byte>, d': seq<Byte>, g: Geo)
    requires g.maxCluster >= 1
  {
    && SameRegion(d, d', 0, g.fatStart)
    && (forall fi :: 0 <= fi < g.nfat ==>
          SameRegion(d, d', FatBase(g, fi) + 2 * (g.maxCluster + 1), FatBase(g, fi) + g.fatBytes))
    && SameRegion(d, d', g.rootStart + DIR_ENTRY * g.rootent, g.dataStart)
    && SameRegion(d, d', ClusOff(g, g.maxCluster + 1), |d|)
  }

  lemma SameRestTrans(d: seq<Byte>, d1: seq<Byte>, d2: seq<Byte>, g: Geo)
    requires g.maxCluster >= 1 && SameRest(d, d1, g) && SameRest(d1, d2, g)
    ensures SameRest(d, d2, g)
  {
    forall fi | 0 <= fi < g.nfat
      ensures SameRegion(d, d2, FatBase(g, fi) + 2 * (g.maxCluster + 1), FatBase(g, fi) + g.fatBytes)
    {
      assert SameRegion(d, d1, FatBase(g, fi) + 2 * (g.maxCluster + 1), FatBase(g, fi) + g.fatBytes);
      assert SameRegion(d1, d2, FatBase(g, fi) + 2 * (g.maxCluster + 1), FatBase(g, fi) + g.fatBytes);
    }
  }

  // ---- unchanged parts -------------------------------------------------

  lemma FatUnchanged(d: seq<Byte>, d': seq<Byte>, g: Geo, fi: nat)
    requires GeoOk(g, |d|) && SameRegion(d, d', g.fatStart, g.rootStart) && fi < g.nfat
    ensures CopyFat(d', g, fi) == CopyFat(d, g, fi)
  {
    CopyInside(g, |d|, fi);
    ClusOffFrom(g, g.maxCluster + 1);
    forall c | 0 <= c <= g.maxCluster
      ensures WordAt(d', FatBase(g, fi) + 2 * c) == WordAt(d, FatBase(g, fi) + 2 * c)
    {}
  }

  lemma RootUnchanged(d: seq<Byte>, d': seq<Byte>, g: Geo)
    requires GeoOk(g, |d|) && SameRegion(d, d', g.rootStart, g.dataStart)
    ensures RootOf(d', g) == RootOf(d, g)
  {
    forall i | 0 <= i < g.rootent
      ensures RootOf(d', g)[i] == RootOf(d, g)[i]
    {
      SliceSame(d, d', g.rootStart + DIR_ENTRY * i, DIR_ENTRY);
    }
  }

  lemma DataUnchanged(d: seq<Byte>, d': seq<Byte>, g: Geo)
    requires GeoOk(g, |d|) && SameRegion(d, d', g.dataStart, |d|)
    ensures DataOf(d', g) == DataOf(d, g)
  {
    forall c | 0 <= c <= g.maxCluster
      ensures DataOf(d', g)[c] == DataOf(d, g)[c]
    {
      if c >= 2 {
        ClusterInside(g, |d|, c);
        SliceSame(d, d', ClusOff(g, c), g.clusBytes);
      }
    }
  }

  lemma SliceSame(d: seq<Byte>, d': seq<Byte>, a: nat, n: nat)
    requires |d'| == |d| && forall p :: a <= p < a + n && p < |d| ==> d'[p] == d[p]
    ensures Slice(d', a, n) == Slice(d, a, n)
  {}

  // ---- writing a table word --------------------------------------------

  function PutWord(d: seq<Byte>, o: nat, x: nat): (r: seq<Byte>)
    requires x < 0x1_0000
    ensures |r| == |d|
    ensures o + 2 <= |d| ==> WordAt(r, o) == x
    ensures forall p :: 0 <= p < |d| && p != o && p != o + 1 ==> r[p] == d[p]
  {
    WordIs(x % 0x100, x / 0x100);
    if o + 2 <= |d| then d[o := x % 0x100][o + 1 := x / 0x100] else d
  }

  /** Writes the word of cluster `c` in the first `fi` copies. */
  function PutCopies(d: seq<Byte>, g: Geo, c: nat, x: nat, fi: nat): (r: seq<Byte>)
    requires x < 0x1_0000
    ensures |r| == |d|
  {
    if fi == 0 then d else PutWord(PutCopies(d, g, c, x, fi - 1), FatBase(g, fi - 1) + 2 * c, x)
  }

  lemma {:induction false} PutCopiesElse(d: seq<Byte>, g: Geo, c: nat, x: nat, fi: nat, p: nat)
    requires x < 0x1_0000 && p < |d|
    requires forall j :: 0 <= j < fi ==> p != FatBase(g, j) + 2 * c && p != FatBase(g, j) + 2 * c + 1
    ensures PutCopies(d, g, c, x, fi)[p] == d[p]
  {
    if fi > 0 { PutCopiesElse(d, g, c, x, fi - 1, p); }
  }

  /** A byte of copy `j` other than the word written is untouched. */
  lemma PutCopiesOffWord(d: seq<Byte>, g: Geo, c: nat, x: nat, fi: nat, j: nat, o: nat)
    requires GeoOk(g, |d|) && c <= g.maxCluster && x < 0x1_0000 && fi <= g.nfat && j < g.nfat
    requires o < g.fatBytes && o != 2 * c && o != 2 * c + 1 && FatBase(g, j) + o < |d|
    ensures PutCopies(d, g, c, x, fi)[FatBase(g, j) + o] == d[FatBase(g, j) + o]
  {
    var p := FatBase(g, j) + o;
    forall k | 0 <= k < fi
      ensures p != FatBase(g, k) + 2 * c && p != FatBase(g, k) + 2 * c + 1
    {
      if k < j { FatBaseMono(g, k, j); } else if j < k { FatBaseMono(g, j, k); }
    }
    PutCopiesElse(d, g, c, x, fi, p);
  }

  lemma {:induction false} PutCopiesWord(d: seq<Byte>, g: Geo, c: nat, x: nat, fi: nat, j: nat)
    requires GeoOk(g, |d|) && c <= g.maxCluster && x < 0x1_0000 && j < fi <= g.nfat
    ensures WordAt(PutCopies(d, g, c, x, fi), FatBase(g, j) + 2 * c) == x
  {
    CopyInside(g, |d|, j);
    ClusOffFrom(g, g.maxCluster + 1);
    if j < fi - 1 {
      PutCopiesWord(d, g, c, x, fi - 1, j);
      FatBaseMono(g, j, fi - 1);
    }
  }

  lemma PutCopiesCopy(d: seq<Byte>, g: Geo, c: nat, x: nat, j: nat)
    requires GeoOk(g, |d|) && c <= g.maxCluster && x < 0x1_0000 && j < g.nfat
    ensures CopyFat(PutCopies(d, g, c, x, g.nfat), g, j) == CopyFat(d, g, j)[c := x]
  {
    var d' := PutCopies(d, g, c, x, g.nfat);
    CopyInside(g, |d|, j);
    ClusOffFrom(g, g.maxCluster + 1);
    var old_, new_ := CopyFat(d, g, j), CopyFat(d', g, j);
    forall k | 0 <= k < |new_|
      ensures new_[k] == old_[c := x][k]
    {
      assert new_[k] == WordAt(d', FatBase(g, j) + 2 * k) && old_[k] == WordAt(d, FatBase(g, j) + 2 * k);
      if k == c { PutCopiesWord(d, g, c, x, g.nfat, j); } else { PutCopiesOther(d, g, c, x, j, k); }
    }
  }

  /** The words of other clusters stay. */
  lemma PutCopiesOther(d: seq<Byte>, g: Geo, c: nat, x: nat, j: nat, k: nat)
    requires GeoOk(g, |d|) && c <= g.maxCluster && x < 0x1_0000 && j < g.nfat && k <= g.maxCluster && k != c
    requires FatBase(g, j) + g.fatBytes <= |d|
    ensures WordAt(PutCopies(d, g, c, x, g.nfat), FatBase(g, j) + 2 * k) == WordAt(d, FatBase(g, j) + 2 * k)
  {
    PutCopiesOffWord(d, g, c, x, g.nfat, j, 2 * k);
    PutCopiesOffWord(d, g, c, x, g.nfat, j, 2 * k + 1);
  }

  /** Bytes outside the table region are untouched. */
  lemma PutCopiesRegion(d: seq<Byte>, g: Geo, c: nat, x: nat)
    requires GeoOk(g, |d|) && c <= g.maxCluster && x < 0x1_0000
    ensures SameRegion(d, PutCopies(d, g, c, x, g.nfat), 0, g.fatStart)
    ensures SameRegion(d, PutCopies(d, g, c, x, g.nfat), g.rootStart, |d|)
  {
    var d' := PutCopies(d, g, c, x, g.nfat);
    forall p | 0 <= p < |d| && (p < g.fatStart || g.rootStart <= p)
      ensures d'[p] == d[p]
    {
      forall k | 0 <= k < g.nfat
        ensures p != FatBase(g, k) + 2 * c && p != FatBase(g, k) + 2 * c + 1
      {
        CopyInside(g, |d|, k);
      }
      PutCopiesElse(d, g, c, x, g.nfat, p);
    }
  }

  /** Setting a word in every copy sets that table entry and nothing else. */
  lemma SetFatShows(d: seq<Byte>, g: Geo, c: nat, x: nat)
    requires GeoOk(g, |d|) && c <= g.maxCluster && x < 0x1_0000
    ensures var d' := PutCopies(d, g, c, x, g.nfat);
            && View(d', g) == View(d, g).(fat := View(d, g).fat[c := x])
            && (forall fi :: 0 <= fi < g.nfat ==> CopyFat(d', g, fi) == CopyFat(d, g, fi)[c := x])
            && SameRest(d, d', g)
  {
    var d' := PutCopies(d, g, c, x, g.nfat);
    PutCopiesRegion(d, g, c, x);
    RootUnchanged(d, d', g);
    DataUnchanged(d, d', g);
    PutCopiesRest(d, g, c, x);
    forall fi | 0 <= fi < g.nfat ensures CopyFat(d', g, fi) == CopyFat(d, g, fi)[c := x] { PutCopiesCopy(d, g, c, x, fi); }
  }

  lemma PutCopiesRest(d: seq<Byte>, g: Geo, c: nat, x: nat)
    requires GeoOk(g, |d|) && c <= g.maxCluster && x < 0x1_0000
    ensures SameRest(d, PutCopies(d, g, c, x, g.nfat), g)
  {
    var d' := PutCopies(d, g, c, x, g.nfat);
    PutCopiesRegion(d, g, c, x);
    forall fi | 0 <= fi < g.nfat
      ensures SameRegion(d, d', FatBase(g, fi) + 2 * (g.maxCluster + 1), FatBase(g, fi) + g.fatBytes)
    {
      forall p | FatBase(g, fi) + 2 * (g.maxCluster + 1) <= p < FatBase(g, fi) + g.fatBytes && p < |d|
        ensures d'[p] == d[p]
      {
        PutCopiesOffWord(d, g, c, x, g.nfat, fi, p - FatBase(g, fi));
      }
    }
    ClusOffFrom(g, g.maxCluster + 1);
  }

  // ---- writing a run of bytes ------------------------------------------

  lemma ClusterData(d: seq<Byte>, g: Geo, c: nat, s: seq<Byte>)
    requires GeoOk(g, |d|) && 2 <= c <= g.maxCluster && |s| == g.clusBytes && ClusOff(g, c) + |s| <= |d|
    ensures DataOf(Splice(d, ClusOff(g, c), s), g) == DataOf(d, g)[c := s]
  {
    var d' := Splice(d, ClusOff(g, c), s);
    forall k | 0 <= k <= g.maxCluster
      ensures DataOf(d', g)[k] == if k == c then s else DataOf(d, g)[k]
    {
      if k == c { assert Slice(d', ClusOff(g, c), g.clusBytes) == s; }
      else if k >= 2 {
        if k < c { ClusOffMono(g, k, c); } else { ClusOffMono(g, c, k); }
        SliceSame(d, d', ClusOff(g, k), g.clusBytes);
      }
    }
  }

  /** A write behind the root directory. */
  lemma OnlyData(d: seq<Byte>, d': seq<Byte>, g: Geo)
    requires GeoOk(g, |d|) && SameRegion(d, d', 0, g.dataStart) && SameRegion(d, d', ClusOff(g, g.maxCluster + 1), |d|)
    ensures View(d', g) == View(d, g).(data := DataOf(d', g)) && SameRest(d, d', g)
    ensures SameCopies(d, d', g)
  {
    CopyInside(g, |d|, 0);
    forall fi | 0 <= fi < g.nfat
      ensures CopyFat(d', g, fi) == CopyFat(d, g, fi)
      ensures SameRegion(d, d', FatBase(g, fi) + 2 * (g.maxCluster + 1), FatBase(g, fi) + g.fatBytes)
    {
      CopyInside(g, |d|, fi);
      FatUnchanged(d, d', g, fi);
    }
    RootUnchanged(d, d', g);
  }

  /** Overwriting a cluster changes that cluster and nothing else. */
  lemma ClusterShows(d: seq<Byte>, g: Geo, c: nat, s: seq<Byte>)
    requires GeoOk(g, |d|) && 2 <= c <= g.maxCluster && |s| == g.clusBytes
    ensures ClusOff(g, c) + |s| <= |d|
    ensures var d' := Splice(d, ClusOff(g, c), s);
            View(d', g) == View(d, g).(data := View(d, g).data[c := s]) && SameRest(d, d', g)
    ensures SameCopies(d, Splice(d, ClusOff(g, c), s), g)
  {
    ClusterRegions(d, g, c, s);
    OnlyData(d, Splice(d, ClusOff(g, c), s), g);
    ClusterData(d, g, c, s);
  }

  lemma ClusterRegions(d: seq<Byte>, g: Geo, c: nat, s: seq<Byte>)
    requires GeoOk(g, |d|) && 2 <= c <= g.maxCluster && |s| == g.clusBytes
    ensures ClusOff(g, c) + |s| <= |d|
    ensures SameRegion(d, Splice(d, ClusOff(g, c), s), 0, g.dataStart)
    ensures SameRegion(d, Splice(d, ClusOff(g, c), s), ClusOff(g, g.maxCluster + 1), |d|)
  {
    ClusterInside(g, |d|, c);
    ClusOffMono(g, c, g.maxCluster + 1);
  }

  /** Overwriting a root entry changes that entry and nothing else. */
  lemma EntryShows(d: seq<Byte>, g: Geo, i: nat, e: seq<Byte>)
    requires GeoOk(g, |d|) && i < g.rootent && |e| == DIR_ENTRY
    ensures g.rootStart + DIR_ENTRY * i + |e| <= |d|
    ensures var d' := Splice(d, g.rootStart + DIR_ENTRY * i, e);
            View(d', g) == View(d, g).(root := View(d, g).root[i := e]) && SameRest(d, d', g)
    ensures SameCopies(d, Splice(d, g.rootStart + DIR_ENTRY * i, e), g)
  {
    ClusOffFrom(g, g.maxCluster + 1);
    var o := g.rootStart + DIR_ENTRY * i;
    var d' := Splice(d, o, e);
    forall fi | 0 <= fi < g.nfat
      ensures CopyFat(d', g, fi) == CopyFat(d, g, fi) && FatBase(g, fi) + g.fatBytes <= g.rootStart
    {
      CopyInside(g, |d|, fi);
      FatUnchanged(d, d', g, fi);
    }
    DataUnchanged(d, d', g);
    EntryRoot(d, g, i, e);
  }

  lemma EntryRoot(d: seq<Byte>, g: Geo, i: nat, e: seq<Byte>)
    requires i < g.rootent && |e| == DIR_ENTRY && g.rootStart + DIR_ENTRY * g.rootent <= |d|
    ensures RootOf(Splice(d, g.rootStart + DIR_ENTRY * i, e), g) == RootOf(d, g)[i := e]
  {
    var d' := Splice(d, g.rootStart + DIR_ENTRY * i, e);
    forall k | 0 <= k < g.rootent
      ensures RootOf(d', g)[k] == if k == i then e else RootOf(d, g)[k]
    {
      if k == i { assert Slice(d', g.rootStart + DIR_ENTRY * i, DIR_ENTRY) == e; }
      else { SliceSame(d, d', g.rootStart + DIR_ENTRY * k, DIR_ENTRY); }
    }
    assert RootOf(d', g) == RootOf(d, g)[i := e];
  }

  // ---- the volume and the rest determine the bytes ---------------------

  lemma {:induction false} FindCopy(g: Geo, n: nat, p: nat) returns (fi: nat)
    requires g.fatStart <= p < FatBase(g, n)
    ensures fi < n && FatBase(g, fi) <= p < FatBase(g, fi) + g.fatBytes
  {
    if p >= FatBase(g, n - 1) { fi := n - 1; } else { fi := FindCopy(g, n - 1, p); }
  }

  lemma {:induction false} FindCluster(g: Geo, n: nat, p: nat) returns (c: nat)
    requires n >= 2 && g.dataStart <= p < ClusOff(g, n)
    ensures 2 <= c < n && ClusOff(g, c) <= p < ClusOff(g, c) + g.clusBytes
  {
    if p >= ClusOff(g, n - 1) { c := n - 1; } else { c := FindCluster(g, n - 1, p); }
  }

  lemma SameWordBytes(d: seq<Byte>, d': seq<Byte>, o: nat)
    requires |d'| == |d| && o + 2 <= |d| && WordAt(d, o) == WordAt(d', o)
    ensures d'[o] == d[o] && d'[o + 1] == d[o + 1]
  {
    WordIs(d[o], d[o + 1]);
    WordIs(d'[o], d'[o + 1]);
  }

  lemma CopyByte(d: seq<Byte>, d': seq<Byte>, g: Geo, fi: nat, o: nat)
    requires g.maxCluster >= 1 && |d'| == |d| && CopyFat(d, g, fi) == CopyFat(d', g, fi)
    requires o < 2 * (g.maxCluster + 1) && FatBase(g, fi) + 2 * (g.maxCluster + 1) <= |d|
    ensures d'[FatBase(g, fi) + o] == d[FatBase(g, fi) + o]
  {
    var c := o / 2;
    assert CopyFat(d, g, fi)[c] == CopyFat(d', g, fi)[c];
    SameWordBytes(d, d', FatBase(g, fi) + 2 * c);
    assert o == 2 * c || o == 2 * c + 1;
  }

  lemma TableByte(d: seq<Byte>, d': seq<Byte>, g: Geo, p: nat)
    requires GeoOk(g, |d|) && |d'| == |d| && SameCopies(d, d', g)
    requires SameRest(d, d', g) && g.fatStart <= p < g.rootStart
    ensures p < |d| && d'[p] == d[p]
  {
    ClusOffFrom(g, g.maxCluster + 1);
    var fi := FindCopy(g, g.nfat, p);
    CopyInside(g, |d|, fi);
    assert CopyFat(d, g, fi) == CopyFat(d', g, fi);
    if p < FatBase(g, fi) + 2 * (g.maxCluster + 1) {
      CopyByte(d, d', g, fi, p - FatBase(g, fi));
    } else {
      assert SameRegion(d, d', FatBase(g, fi) + 2 * (g.maxCluster + 1), FatBase(g, fi) + g.fatBytes);
    }
  }

  lemma SliceByte(d: seq<Byte>, d': seq<Byte>, a: nat, n: nat, p: nat)
    requires |d'| == |d| && a + n <= |d| && Slice(d, a, n) == Slice(d', a, n) && a <= p < a + n
    ensures d'[p] == d[p]
  {
    assert d[a..a + n][p - a] == d'[a..a + n][p - a];
  }

  lemma RootByte(d: seq<Byte>, d': seq<Byte>, g: Geo, p: nat)
    requires GeoOk(g, |d|) && |d'| == |d| && RootOf(d, g) == RootOf(d', g)
    requires g.rootStart <= p < g.rootStart + DIR_ENTRY * g.rootent
    ensures p < |d| && d'[p] == d[p]
  {
    ClusOffFrom(g, g.maxCluster + 1);
    var i := (p - g.rootStart) / DIR_ENTRY;
    var a := g.rootStart + DIR_ENTRY * i;
    assert RootOf(d, g)[i] == RootOf(d', g)[i];
    SliceByte(d, d', a, DIR_ENTRY, p);
  }

  lemma DataByte(d: seq<Byte>, d': seq<Byte>, g: Geo, p: nat)
    requires GeoOk(g, |d|) && |d'| == |d| && DataOf(d, g) == DataOf(d', g)
    requires g.dataStart <= p < ClusOff(g, g.maxCluster + 1)
    ensures p < |d| && d'[p] == d[p]
  {
    var c := FindCluster(g, g.maxCluster + 1, p);
    ClusterInside(g, |d|, c);
    var a := ClusOff(g, c);
    assert DataOf(d, g)[c] == DataOf(d', g)[c];
    SliceByte(d, d', a, g.clusBytes, p);
  }

  /** Two images that show the same volume and the same table copies and agree elsewhere
      are the same bytes. */
  lemma SameBytes(d: seq<Byte>, d': seq<Byte>, g: Geo)
    requires GeoOk(g, |d|) && |d'| == |d| && SameCopies(d, d', g)
    requires View(d, g) == View(d', g) && SameRest(d, d', g)
    ensures d' == d
  {
    forall p | 0 <= p < |d|
      ensures d'[p] == d[p]
    {
      if g.fatStart <= p < g.rootStart { TableByte(d, d', g, p); }
      else if g.rootStart <= p < g.rootStart + DIR_ENTRY * g.rootent { RootByte(d, d', g, p); }
      else if g.dataStart <= p < ClusOff(g, g.maxCluster + 1) { DataByte(d, d', g, p); }
    }
  }
}
