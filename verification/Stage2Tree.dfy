/** ARM64 Stage-2 (guest IPA to host PA) translation tables: a three-level radix
    tree of 512-entry tables under two concatenated level-1 frames, built in
    physical memory with frames taken from the frame allocator.
    Source: kernel/src/memory/stage2.rs; descriptor layout of section D8.3 of
    ARM DDI 0487. Addresses are byte addresses; a page is named by its page
    number, a frame by its page frame number. */
module Stage2Tree {
  import opened Wrappers
  import opened Bits
  import opened Frames

  // ---- constants -------------------------------------------------------

  const DESC_VALID: nat := 0x1
  const DESC_TABLE: nat := 0x2
  const TABLE_BITS: nat := DESC_VALID + DESC_TABLE
  const S2_MEMATTR_NORMAL: nat := 0x3C
  const S2_S2AP_RW: nat := 0xC0
  const S2_S2AP_RO: nat := 0x40
  const S2_SH_INNER: nat := 0x300
  const S2_AF: nat := 0x400
  const PA_MASK: nat := 0x0000_FFFF_FFFF_F000
  const IPA_LIMIT: nat := 0x100_0000_0000
  const U64_LIMIT: nat := 0x1_0000_0000_0000_0000
  /** Number of guest pages below the 40-bit limit. */
  const PAGES: nat := 0x1000_0000
  /** Number of frames whose address fits the descriptor's output field. */
  const FRAMES: nat := 0x10_0000_0000

  datatype S2MapError =
    Overflow | OutOfBounds | SasViolation | BlockConflict | OutOfMemory | MmioHole

  // ---- index and descriptor helpers ------------------------------------

  function L1Idx(ipa: nat): nat { And(Shr(ipa, 30), 0x3FF) }
  function L2Idx(ipa: nat): nat { And(Shr(ipa, 21), 0x1FF) }
  function L3Idx(ipa: nat): nat { And(Shr(ipa, 12), 0x1FF) }

  function DescPa(desc: nat): nat { And(desc, PA_MASK) }

  function TableDesc(pa: nat): nat {
    Or(And(pa, PA_MASK), TABLE_BITS)
  }

  function PageDesc(pa: nat, writable: bool): nat {
    Or(And(pa, PA_MASK), NormalFlags(writable))
  }

  function PageDescDevice(pa: nat, writable: bool): nat {
    Or(And(pa, PA_MASK), DeviceFlags(writable))
  }

  /** Flag fields of a final descriptor. The fields are disjoint bits, so their
      bitwise union is their sum. */
  function NormalFlags(writable: bool): nat {
    S2_MEMATTR_NORMAL + AccessBits(writable) + S2_SH_INNER + S2_AF + TABLE_BITS
  }

  function DeviceFlags(writable: bool): nat {
    AccessBits(writable) + S2_AF + TABLE_BITS
  }

  function AccessBits(writable: bool): nat {
    if writable then S2_S2AP_RW else S2_S2AP_RO
  }

  predicate IsTable(desc: nat) {
    And(desc, TABLE_BITS) == TABLE_BITS
  }

  /** A bit field of an address, as a digit. */
  lemma FieldDigit(a: nat, shift: nat, width: nat)
    ensures And(Shr(a, shift), Pow2(width) - 1) == a / Pow2(shift) % Pow2(width)
  {
    AndLow(Shr(a, shift), width);
    ShrIsDiv(a, shift);
    ShrIsDiv(Shr(a, shift), width);
  }

  lemma IndexFields(ipa: nat)
    ensures L1Idx(ipa) == ipa / 0x4000_0000 % 0x400
    ensures L2Idx(ipa) == ipa / 0x20_0000 % 0x200
    ensures L3Idx(ipa) == ipa / 0x1000 % 0x200
  {
    FieldWidths();
    FieldDigit(ipa, 30, 10);
    FieldDigit(ipa, 21, 9);
    FieldDigit(ipa, 12, 9);
  }

  lemma PageDigits(ipa: nat)
    ensures var p := ipa / PAGE_SIZE % PAGES;
            && ipa / 0x4000_0000 % 0x400 == p / 0x4_0000
            && ipa / 0x20_0000 % 0x200 == p / 0x200 % 0x200
            && ipa / 0x1000 % 0x200 == p % 0x200
  {
    var p := ipa / 0x1000;
    var a := p / 0x200;
    var b := a / 0x200;
    assert ipa / 0x20_0000 == a;
    assert ipa / 0x4000_0000 == b;
    var q := 0x4_0000 * (b % 0x400) + 0x200 * (a % 0x200) + p % 0x200;
    assert p == PAGES * (b / 0x400) + q;
    assert p % PAGES == q;
    assert q / 0x200 == 0x200 * (b % 0x400) + a % 0x200;
    assert q / 0x4_0000 == b % 0x400;
  }

  /** The three indices are the digits of the page number, taken modulo 2^28. */
  lemma IndexDigits(ipa: nat)
    ensures var p := ipa / PAGE_SIZE % PAGES;
            && L1Idx(ipa) == p / 0x4_0000
            && L2Idx(ipa) == p / 0x200 % 0x200
            && L3Idx(ipa) == p % 0x200
  {
    IndexFields(ipa);
    PageDigits(ipa);
  }

  /** Bits 47..12 of a word, in place. */
  lemma OutputField(w: nat)
    ensures And(w, PA_MASK) == w / PAGE_SIZE % FRAMES * PAGE_SIZE
    ensures And(w, PA_MASK) == Shl(w / PAGE_SIZE % FRAMES, 12)
  {
    FieldWidths();
    var m := Pow2(36) - 1;
    ShlIsMul(m, 12);
    AndShifted(w, m, 12);
    AndLow(Shr(w, 12), 36);
    ShrIsDiv(w, 12);
    ShrIsDiv(Shr(w, 12), 36);
    ShlIsMul(w / PAGE_SIZE % FRAMES, 12);
  }

  lemma FlagsBelowField(hi: nat, flags: nat)
    requires flags < 0x1000
    ensures Or(Shl(hi, 12), flags) == hi * PAGE_SIZE + flags
  {
    FieldWidths();
    OrDisjoint(hi, flags, 12);
    ShlIsMul(hi, 12);
  }

  lemma TableDescForm(pa: nat)
    ensures TableDesc(pa) == pa / PAGE_SIZE % FRAMES * PAGE_SIZE + 3
  {
    OutputField(pa);
    FlagsBelowField(pa / PAGE_SIZE % FRAMES, TABLE_BITS);
  }

  lemma PageDescForm(pa: nat, writable: bool)
    ensures PageDesc(pa, writable) == pa / PAGE_SIZE % FRAMES * PAGE_SIZE + NormalFlags(writable)
  {
    OutputField(pa);
    FlagsBelowField(pa / PAGE_SIZE % FRAMES, NormalFlags(writable));
  }

  lemma PageDescDeviceForm(pa: nat, writable: bool)
    ensures PageDescDevice(pa, writable) == pa / PAGE_SIZE % FRAMES * PAGE_SIZE + DeviceFlags(writable)
  {
    OutputField(pa);
    FlagsBelowField(pa / PAGE_SIZE % FRAMES, DeviceFlags(writable));
  }

  lemma TypeBits(desc: nat)
    ensures IsTable(desc) <==> desc % 4 == 3
    ensures And(desc, DESC_VALID) == desc % 2
  {
    AndLow(desc, 2);
    AndLow(desc, 1);
    assert Pow2(2) == 4 && Pow2(1) == 2;
    assert Low(desc, 2) == 2 * Low(desc / 2, 1) + desc % 2;
    assert Low(desc / 2, 1) == desc / 2 % 2;
    assert Low(desc, 1) == desc % 2;
  }

  // ---- physical memory and the hardware walk ---------------------------

  /** Physical memory as 64-bit words, named by frame and index in the frame. */
  type Words = map<(nat, nat), nat>

  function Read(m: Words, f: nat, i: nat): nat {
    if (f, i) in m then m[(f, i)] else 0
  }

  /** Memory with all 512 words of frame `f` cleared. */
  function Zeroed(m: Words, f: nat): (r: Words)
    ensures forall g: nat, i: nat :: Read(r, g, i) == if g == f && i < 512 then 0 else Read(m, g, i)
  {
    m + map i: nat | i < 512 :: (f, i) := 0
  }

  /** What a page translates to: output frame, write permission, and whether it
      is Device memory (a hardware passthrough) or Normal memory. */
  datatype Leaf = Leaf(pfn: nat, writable: bool, device: bool)

  /** The final descriptor of a leaf. */
  function LeafWord(l: Leaf): nat {
    l.pfn * PAGE_SIZE + if l.device then DeviceFlags(l.writable) else NormalFlags(l.writable)
  }

  /** Reads a page descriptor back: output address, S2AP and MemAttr fields. */
  function DecodeLeaf(d: nat): Leaf {
    Leaf(d / PAGE_SIZE % FRAMES, d / 0x40 % 4 == 3, d / 4 % 16 == 0)
  }

  lemma FlagDigits(pfn: nat, flags: nat)
    requires flags < PAGE_SIZE
    ensures var d := pfn * PAGE_SIZE + flags;
            && d / PAGE_SIZE == pfn && d % 4 == flags % 4
            && d / 0x40 % 4 == flags / 0x40 % 4 && d / 4 % 16 == flags / 4 % 16
  {
    FlagHigh(pfn, flags);
    FlagLow(pfn, flags);
  }

  lemma FlagHigh(pfn: nat, flags: nat)
    requires flags < PAGE_SIZE
    ensures var d := pfn * PAGE_SIZE + flags; d / PAGE_SIZE == pfn && d / 0x40 % 4 == flags / 0x40 % 4
  {
    var d := pfn * PAGE_SIZE + flags;
    QuotientUnique(d, PAGE_SIZE, pfn, flags);
    QuotientUnique(d, 0x40, pfn * 0x40 + flags / 0x40, flags % 0x40);
    DropMultiple(pfn * 0x10, flags / 0x40, 4);
  }

  lemma FlagLow(pfn: nat, flags: nat)
    ensures var d := pfn * PAGE_SIZE + flags; d % 4 == flags % 4 && d / 4 % 16 == flags / 4 % 16
  {
    var d := pfn * PAGE_SIZE + flags;
    QuotientUnique(d, 4, pfn * 0x400 + flags / 4, flags % 4);
    DropMultiple(pfn * 0x40, flags / 4, 16);
  }

  /** A multiple of the modulus does not show in the remainder. */
  lemma DropMultiple(q: nat, x: nat, m: nat)
    requires m > 0
    ensures (q * m + x) % m == x % m
  {
    assert q * m + x == (q + x / m) * m + x % m;
    QuotientUnique(q * m + x, m, q + x / m, x % m);
  }

  lemma LeafRoundTrip(l: Leaf)
    requires l.pfn < FRAMES
    ensures DecodeLeaf(LeafWord(l)) == l
    ensures LeafWord(l) % 4 == 3
  {
    FlagDigits(l.pfn, if l.device then DeviceFlags(l.writable) else NormalFlags(l.writable));
  }

  /** The three-step walk the MMU makes for a page below the 40-bit limit, from
      the two concatenated level-1 frames at `root`. A descriptor whose two low
      bits are not 0b11 ends the walk. */
  function Walk(m: Words, root: nat, p: nat): Option<Leaf>
    requires p < PAGES
  {
    var d1 := Read(m, root + p / 0x800_0000, p / 0x4_0000 % 0x200);
    if d1 % 4 != 3 then None else
    var d2 := Read(m, d1 / PAGE_SIZE % FRAMES, p / 0x200 % 0x200);
    if d2 % 4 != 3 then None else
    var d3 := Read(m, d2 / PAGE_SIZE % FRAMES, p % 0x200);
    if d3 % 4 != 3 then None else Some(DecodeLeaf(d3))
  }

  class PhysMem {
    var words: Words

    constructor ()
      ensures words == map[]
    {
      words := map[];
    }
  }

  // ---- the flat map the tables stand for -------------------------------

  type Flat = map<nat, Leaf>

  function Lookup(flat: Flat, p: nat): Option<Leaf> {
    if p in flat then Some(flat[p]) else None
  }

  /** `k` consecutive pages from `p` mapped to consecutive frames from `f`. */
  ghost function MapRange(flat: Flat, p: nat, f: nat, k: nat, writable: bool, device: bool): Flat {
    if k == 0 then flat
    else MapRange(flat, p, f, k - 1, writable, device)[p + k - 1 := Leaf(f + k - 1, writable, device)]
  }

  lemma {:induction false} MapRangeAt(flat: Flat, p: nat, f: nat, k: nat, writable: bool, device: bool, q: nat)
    ensures Lookup(MapRange(flat, p, f, k, writable, device), q) ==
            if p <= q < p + k then Some(Leaf(f + (q - p), writable, device)) else Lookup(flat, q)
  {
    if k > 0 { MapRangeAt(flat, p, f, k - 1, writable, device, q); }
  }

  /** `k` consecutive pages from `p` unmapped; page numbers wrap at 2^28, as the
      table indices do. */
  ghost function UnmapRange(flat: Flat, p: nat, k: nat): Flat {
    if k == 0 then flat else UnmapRange(flat, p, k - 1) - {(p + k - 1) % PAGES}
  }

  lemma {:induction false} UnmapRangeAt(flat: Flat, p: nat, k: nat, q: nat)
    requires p + k <= PAGES
    ensures Lookup(UnmapRange(flat, p, k), q) == if p <= q < p + k then None else Lookup(flat, q)
  {
    if k > 0 { UnmapRangeAt(flat, p, k - 1, q); }
  }

  // ---- MMIO holes ------------------------------------------------------

  /** IPA ranges that ordinary maps must leave unmapped. */
  const MMIO_HOLES: seq<(nat, nat)> := [
    (0x0800_0000, 0x0802_0000),
    (0x0900_0000, 0x0900_1000),
    (0x0a00_0000, 0x0a00_4000)
  ]

  predicate InHole(p: nat) {
    exists h :: h in MMIO_HOLES && h.0 <= p * PAGE_SIZE < h.1
  }

  method TouchesHole(ipa: nat, end: nat) returns (b: bool)
    ensures b <==> exists k :: 0 <= k < |MMIO_HOLES| && ipa < MMIO_HOLES[k].1 && end > MMIO_HOLES[k].0
  {
    for k := 0 to |MMIO_HOLES|
      invariant forall j :: 0 <= j < k ==> !(ipa < MMIO_HOLES[j].1 && end > MMIO_HOLES[j].0)
    {
      if ipa < MMIO_HOLES[k].1 && end > MMIO_HOLES[k].0 {
        return true;
      }
    }
    return false;
  }

  /** Pages of a range that clears every hole are outside every hole, whether or
      not the range is page-aligned. */
  lemma ClearOfHoles(ipa: nat, n: nat, p: nat)
    requires ipa / PAGE_SIZE <= p < ipa / PAGE_SIZE + n
    requires !exists j :: 0 <= j < |MMIO_HOLES| && ipa < MMIO_HOLES[j].1 && ipa + n * PAGE_SIZE > MMIO_HOLES[j].0
    ensures !InHole(p)
  {
    forall h | h in MMIO_HOLES
      ensures !(h.0 <= p * PAGE_SIZE < h.1)
    {
      var j :| 0 <= j < |MMIO_HOLES| && MMIO_HOLES[j] == h;
      assert !(ipa < MMIO_HOLES[j].1 && ipa + n * PAGE_SIZE > MMIO_HOLES[j].0);
      assert h.0 % PAGE_SIZE == 0 && h.1 % PAGE_SIZE == 0;
    }
  }

  // ---- the radix tree in memory ----------------------------------------

  /** What a sub-table frame is used for: the level-2 table of level-1 slot `i`,
      or the level-3 table of the 2 MiB region `q`. */
  datatype Role = L2Role(i: nat) | L3Role(q: nat)

  /** The tree a root stands for: which frame holds each sub-table, and the
      flat map its leaves spell out. */
  datatype Tree = Tree(root: nat, role: map<nat, Role>, l2: map<nat, nat>, l3: map<nat, nat>, flat: Flat)

  function Link(f: nat): nat { f * PAGE_SIZE + 3 }

  function L1Word(t: Tree, i: nat): nat { if i in t.l2 then Link(t.l2[i]) else 0 }
  function L2Word(t: Tree, q: nat): nat { if q in t.l3 then Link(t.l3[q]) else 0 }
  function L3Word(t: Tree, p: nat): nat { if p in t.flat then LeafWord(t.flat[p]) else 0 }

  /** Sub-tables occupy distinct frames, none of them a root frame, and hang
      together: the role map inverts both directory maps. */
  ghost predicate Separated(t: Tree) {
    && t.root !in t.role && t.root + 1 !in t.role
    && (forall f :: f in t.role ==> f < FRAMES)
    && (forall i :: i in t.l2 ==> i < 1024 && t.l2[i] in t.role && t.role[t.l2[i]] == L2Role(i))
    && (forall q :: q in t.l3 ==> q / 512 in t.l2 && t.l3[q] in t.role && t.role[t.l3[q]] == L3Role(q))
    && (forall p :: p in t.flat ==> p < PAGES && p / 512 in t.l3 && t.flat[p].pfn < FRAMES)
  }

  ghost predicate L1HalfHolds(m: Words, t: Tree, f: nat, base: nat) {
    forall j: nat :: j < 512 ==> Read(m, f, j) == L1Word(t, base + j)
  }

  ghost predicate L1Holds(m: Words, t: Tree) {
    L1HalfHolds(m, t, t.root, 0) && L1HalfHolds(m, t, t.root + 1, 512)
  }

  ghost predicate L2Holds(m: Words, t: Tree) {
    forall i, j: nat :: i in t.l2 && j < 512 ==> Read(m, t.l2[i], j) == L2Word(t, 512 * i + j)
  }

  ghost predicate L3Holds(m: Words, t: Tree) {
    forall q, j: nat :: q in t.l3 && j < 512 ==> Read(m, t.l3[q], j) == L3Word(t, 512 * q + j)
  }

  /** Memory `m` holds the tree `t`. */
  ghost predicate Represents(m: Words, t: Tree) {
    Separated(t) && L1Holds(m, t) && L2Holds(m, t) && L3Holds(m, t)
  }

  lemma L1At(m: Words, t: Tree, h: nat, j: nat)
    requires L1Holds(m, t) && h < 2 && j < 512
    ensures Read(m, t.root + h, j) == L1Word(t, 512 * h + j)
  {
    if h == 0 { assert t.root + h == t.root; }
  }

  lemma LinkBack(f: nat)
    requires f < FRAMES
    ensures Link(f) % 4 == 3 && Link(f) / PAGE_SIZE % FRAMES == f
  {}

  /** The hardware walk of every page is the flat map's answer. */
  lemma WalkIsFlat(m: Words, t: Tree, p: nat)
    requires Represents(m, t) && p < PAGES
    ensures Walk(m, t.root, p) == Lookup(t.flat, p)
  {
    var i, q := p / 0x4_0000, p / 0x200;
    assert q / 512 == i && i / 512 == p / 0x800_0000;
    assert q == 512 * i + q % 512 && p == 512 * q + p % 512;
    L1At(m, t, i / 512, i % 512);
    if i in t.l2 {
      LinkBack(t.l2[i]);
      assert Read(m, t.l2[i], q % 512) == L2Word(t, 512 * i + q % 512);
      if q in t.l3 {
        LinkBack(t.l3[q]);
        assert Read(m, t.l3[q], p % 512) == L3Word(t, 512 * q + p % 512);
        if p in t.flat {
          LeafRoundTrip(t.flat[p]);
        }
      }
    }
  }

  /** Two cleared root frames are the empty tree. */
  lemma EmptyRoot(m: Words, root: nat)
    ensures Represents(Zeroed(Zeroed(m, root), root + 1), Tree(root, map[], map[], map[], map[]))
  {}

  function WithL2(t: Tree, i: nat, f: nat): Tree {
    t.(role := t.role[f := L2Role(i)], l2 := t.l2[i := f])
  }

  function WithL3(t: Tree, q: nat, f: nat): Tree {
    t.(role := t.role[f := L3Role(q)], l3 := t.l3[q := f])
  }

  /** The words of frame `f` are the same in both memories. */
  ghost predicate Agree(m: Words, m': Words, f: nat) {
    forall j: nat :: Read(m', f, j) == Read(m, f, j)
  }

  lemma WriteElsewhere(m: Words, g: nat, k: nat, w: nat, f: nat)
    requires f != g
    ensures Agree(m, m[(g, k) := w], f)
  {}

  lemma KeepL1(m: Words, m': Words, t: Tree, t': Tree)
    requires L1Holds(m, t) && t'.root == t.root && t'.l2 == t.l2
    requires Agree(m, m', t.root) && Agree(m, m', t.root + 1)
    ensures L1Holds(m', t')
  {}

  lemma KeepL2(m: Words, m': Words, t: Tree, t': Tree)
    requires L2Holds(m, t) && t'.l2 == t.l2 && t'.l3 == t.l3
    requires forall i :: i in t.l2 ==> Agree(m, m', t.l2[i])
    ensures L2Holds(m', t')
  {}

  lemma KeepL3(m: Words, m': Words, t: Tree, t': Tree)
    requires L3Holds(m, t) && t'.l3 == t.l3 && t'.flat == t.flat
    requires forall q :: q in t.l3 ==> Agree(m, m', t.l3[q])
    ensures L3Holds(m', t')
  {}

  /** A frame that is not part of the tree may be cleared. */
  lemma ClearOutside(m: Words, t: Tree, f: nat)
    requires Represents(m, t) && f !in t.role && f != t.root && f != t.root + 1
    ensures Represents(Zeroed(m, f), t)
  {
    var z := Zeroed(m, f);
    KeepL1(m, z, t, t);
    KeepL2(m, z, t, t);
    KeepL3(m, z, t, t);
  }

  lemma SeparatedWithL2(t: Tree, i: nat, f: nat)
    requires Separated(t) && i < 1024 && i !in t.l2
    requires f !in t.role && f != t.root && f != t.root + 1 && f < FRAMES
    ensures Separated(WithL2(t, i, f))
  {}

  lemma SeparatedWithL3(t: Tree, q: nat, f: nat)
    requires Separated(t) && q / 512 in t.l2 && q !in t.l3
    requires f !in t.role && f != t.root && f != t.root + 1 && f < FRAMES
    ensures Separated(WithL3(t, q, f))
  {}

  lemma LinkL2Half(z: Words, t: Tree, g: nat, j: nat, f: nat, base: nat)
    requires L1HalfHolds(z, t, g, base) && j < 512
    ensures L1HalfHolds(z[(g, j) := Link(f)], WithL2(t, base + j, f), g, base)
  {
    var m' := z[(g, j) := Link(f)];
    var t' := WithL2(t, base + j, f);
    forall k: nat | k < 512
      ensures Read(m', g, k) == L1Word(t', base + k)
    {
      assert Read(z, g, k) == L1Word(t, base + k);
    }
  }

  lemma LinkL2Upper(z: Words, t: Tree, h: nat, j: nat, f: nat)
    requires L1Holds(z, t) && h < 2 && j < 512
    ensures L1Holds(z[(t.root + h, j) := Link(f)], WithL2(t, 512 * h + j, f))
  {
    var g, base := t.root + h, 512 * h;
    var other, otherBase := t.root + (1 - h), 512 * (1 - h);
    var m' := z[(g, j) := Link(f)];
    var t' := WithL2(t, base + j, f);
    LinkL2Half(z, t, g, j, f, base);
    WriteElsewhere(z, g, j, Link(f), other);
    assert L1HalfHolds(m', t', other, otherBase);
  }

  lemma LinkL2Lower(z: Words, t: Tree, h: nat, j: nat, f: nat)
    requires Represents(z, t) && h < 2 && j < 512 && 512 * h + j !in t.l2
    requires f !in t.role && f != t.root && f != t.root + 1
    requires forall k: nat :: k < 512 ==> Read(z, f, k) == 0
    ensures L2Holds(z[(t.root + h, j) := Link(f)], WithL2(t, 512 * h + j, f))
  {
    var m' := z[(t.root + h, j) := Link(f)];
    var i := 512 * h + j;
    var t' := WithL2(t, i, f);
    forall k, b: nat | k in t'.l2 && b < 512
      ensures Read(m', t'.l2[k], b) == L2Word(t', 512 * k + b)
    {
      WriteElsewhere(z, t.root + h, j, Link(f), t'.l2[k]);
      if k == i {
        assert (512 * i + b) / 512 == i;
      }
    }
  }

  /** Linking a cleared, unused frame under an empty level-1 slot. */
  lemma LinkL2(z: Words, t: Tree, h: nat, j: nat, f: nat)
    requires Represents(z, t) && h < 2 && j < 512 && 512 * h + j !in t.l2
    requires f !in t.role && f != t.root && f != t.root + 1 && f < FRAMES
    requires forall k: nat :: k < 512 ==> Read(z, f, k) == 0
    ensures Represents(z[(t.root + h, j) := Link(f)], WithL2(t, 512 * h + j, f))
  {
    var m' := z[(t.root + h, j) := Link(f)];
    SeparatedWithL2(t, 512 * h + j, f);
    LinkL2Upper(z, t, h, j, f);
    LinkL2Lower(z, t, h, j, f);
    forall q | q in t.l3
      ensures Agree(z, m', t.l3[q])
    {
      WriteElsewhere(z, t.root + h, j, Link(f), t.l3[q]);
    }
    KeepL3(z, m', t, WithL2(t, 512 * h + j, f));
  }

  lemma LinkL3Upper(z: Words, t: Tree, i: nat, j: nat, f: nat)
    requires Separated(t) && L2Holds(z, t) && i in t.l2 && j < 512
    ensures L2Holds(z[(t.l2[i], j) := Link(f)], WithL3(t, 512 * i + j, f))
  {
    var m' := z[(t.l2[i], j) := Link(f)];
    var t' := WithL3(t, 512 * i + j, f);
    forall k, b: nat | k in t'.l2 && b < 512
      ensures Read(m', t'.l2[k], b) == L2Word(t', 512 * k + b)
    {
      assert Read(z, t.l2[k], b) == L2Word(t, 512 * k + b);
      assert t.role[t.l2[k]] == L2Role(k) && t.role[t.l2[i]] == L2Role(i);
    }
  }

  lemma LinkL3Lower(z: Words, t: Tree, i: nat, j: nat, f: nat)
    requires Separated(t) && L3Holds(z, t) && i in t.l2 && j < 512 && 512 * i + j !in t.l3
    requires f !in t.role
    requires forall k: nat :: k < 512 ==> Read(z, f, k) == 0
    ensures L3Holds(z[(t.l2[i], j) := Link(f)], WithL3(t, 512 * i + j, f))
  {
    var q := 512 * i + j;
    var m' := z[(t.l2[i], j) := Link(f)];
    var t' := WithL3(t, q, f);
    forall k, b: nat | k in t'.l3 && b < 512
      ensures Read(m', t'.l3[k], b) == L3Word(t', 512 * k + b)
    {
      WriteElsewhere(z, t.l2[i], j, Link(f), t'.l3[k]);
      if k == q {
        assert (512 * q + b) / 512 == q;
      }
    }
  }

  /** Linking a cleared, unused frame under an empty level-2 slot. */
  lemma LinkL3(z: Words, t: Tree, i: nat, j: nat, f: nat)
    requires Represents(z, t) && i in t.l2 && j < 512 && 512 * i + j !in t.l3
    requires f !in t.role && f != t.root && f != t.root + 1 && f < FRAMES
    requires forall k: nat :: k < 512 ==> Read(z, f, k) == 0
    ensures Represents(z[(t.l2[i], j) := Link(f)], WithL3(t, 512 * i + j, f))
  {
    var q := 512 * i + j;
    assert q / 512 == i;
    var m' := z[(t.l2[i], j) := Link(f)];
    SeparatedWithL3(t, q, f);
    WriteElsewhere(z, t.l2[i], j, Link(f), t.root);
    WriteElsewhere(z, t.l2[i], j, Link(f), t.root + 1);
    KeepL1(z, m', t, WithL3(t, q, f));
    LinkL3Upper(z, t, i, j, f);
    LinkL3Lower(z, t, i, j, f);
  }

  lemma SetSlotLeaf(m: Words, t: Tree, q: nat, j: nat, w: nat, flat: Flat)
    requires Separated(t) && L3Holds(m, t) && q in t.l3 && j < 512
    requires forall p :: p != 512 * q + j ==> Lookup(flat, p) == Lookup(t.flat, p)
    requires w == L3Word(t.(flat := flat), 512 * q + j)
    ensures L3Holds(m[(t.l3[q], j) := w], t.(flat := flat))
  {
    var m' := m[(t.l3[q], j) := w];
    var t' := t.(flat := flat);
    forall k, b: nat | k in t'.l3 && b < 512
      ensures Read(m', t'.l3[k], b) == L3Word(t', 512 * k + b)
    {
      assert Read(m, t.l3[k], b) == L3Word(t, 512 * k + b);
      assert t.role[t.l3[k]] == L3Role(k) && t.role[t.l3[q]] == L3Role(q);
      assert Lookup(flat, 512 * k + b) == Lookup(t.flat, 512 * k + b) || (k == q && b == j);
    }
  }

  /** Writing one level-3 slot changes one page of the flat map. */
  lemma SetSlot(m: Words, t: Tree, q: nat, j: nat, w: nat, flat: Flat)
    requires Represents(m, t) && q in t.l3 && j < 512
    requires Separated(t.(flat := flat))
    requires forall p :: p != 512 * q + j ==> Lookup(flat, p) == Lookup(t.flat, p)
    requires w == L3Word(t.(flat := flat), 512 * q + j)
    ensures Represents(m[(t.l3[q], j) := w], t.(flat := flat))
  {
    var m' := m[(t.l3[q], j) := w];
    WriteElsewhere(m, t.l3[q], j, w, t.root);
    WriteElsewhere(m, t.l3[q], j, w, t.root + 1);
    KeepL1(m, m', t, t.(flat := flat));
    forall i | i in t.l2
      ensures Agree(m, m', t.l2[i])
    {
      WriteElsewhere(m, t.l3[q], j, w, t.l2[i]);
    }
    KeepL2(m, m', t, t.(flat := flat));
    SetSlotLeaf(m, t, q, j, w, flat);
  }

  // ---- sealed interface ------------------------------------------------
  // `Holds` is `Represents` behind a counter the verifier does not count down on
  // its own: the table class carries it as one fact and steps it with the
  // lemmas below.

  ghost predicate HoldsTo(m: Words, t: Tree, depth: nat) {
    if depth == 0 then Represents(m, t) else HoldsTo(m, t, depth - 1)
  }

  ghost predicate Holds(m: Words, t: Tree) {
    HoldsTo(m, t, Depth(t))
  }

  ghost function Depth(t: Tree): nat {
    t.root + 3
  }

  lemma {:induction false} HoldsToMeans(m: Words, t: Tree, depth: nat)
    ensures HoldsTo(m, t, depth) <==> Represents(m, t)
  {
    if depth > 0 { HoldsToMeans(m, t, depth - 1); }
  }

  lemma HoldsMeans(m: Words, t: Tree)
    ensures Holds(m, t) <==> Represents(m, t)
  {
    HoldsToMeans(m, t, Depth(t));
  }

  /** The hardware walk of every page is the flat map's answer. */
  lemma HoldsWalk(m: Words, t: Tree, p: nat)
    requires Holds(m, t) && p < PAGES
    ensures Walk(m, t.root, p) == Lookup(t.flat, p)
  {
    HoldsMeans(m, t);
    WalkIsFlat(m, t, p);
  }

  lemma HoldsEmpty(m: Words, root: nat)
    ensures Holds(Zeroed(Zeroed(m, root), root + 1), Tree(root, map[], map[], map[], map[]))
  {
    EmptyRoot(m, root);
    HoldsMeans(Zeroed(Zeroed(m, root), root + 1), Tree(root, map[], map[], map[], map[]));
  }

  /** What the level-1 slot of a tree reads as. */
  lemma HoldsL1(m: Words, t: Tree, h: nat, b: nat)
    requires Holds(m, t) && h < 2 && b < 512
    ensures Read(m, t.root + h, b) == L1Word(t, 512 * h + b)
    ensures 512 * h + b in t.l2 ==> t.l2[512 * h + b] < FRAMES
  {
    HoldsMeans(m, t);
    L1At(m, t, h, b);
  }

  lemma HoldsL2(m: Words, t: Tree, i: nat, j: nat)
    requires Holds(m, t) && i in t.l2 && j < 512
    ensures Read(m, t.l2[i], j) == L2Word(t, 512 * i + j)
    ensures 512 * i + j in t.l3 ==> t.l3[512 * i + j] < FRAMES
  {
    HoldsMeans(m, t);
  }

  /** Mapped pages are in range and below a level-3 table. */
  lemma HoldsFlat(m: Words, t: Tree, p: nat)
    requires Holds(m, t) && p in t.flat
    ensures p < PAGES && p / 512 in t.l3 && p / 512 / 512 in t.l2
  {
    HoldsMeans(m, t);
  }

  lemma HoldsLinkL2(m: Words, t: Tree, h: nat, b: nat, f: nat)
    requires Holds(m, t) && h < 2 && b < 512 && 512 * h + b !in t.l2
    requires f !in t.role && f != t.root && f != t.root + 1 && f < FRAMES
    ensures Holds(Zeroed(m, f)[(t.root + h, b) := Link(f)], WithL2(t, 512 * h + b, f))
  {
    HoldsMeans(m, t);
    ClearOutside(m, t, f);
    LinkL2(Zeroed(m, f), t, h, b, f);
    HoldsMeans(Zeroed(m, f)[(t.root + h, b) := Link(f)], WithL2(t, 512 * h + b, f));
  }

  lemma HoldsLinkL3(m: Words, t: Tree, i: nat, j: nat, f: nat)
    requires Holds(m, t) && i in t.l2 && j < 512 && 512 * i + j !in t.l3
    requires f !in t.role && f != t.root && f != t.root + 1 && f < FRAMES
    ensures Holds(Zeroed(m, f)[(t.l2[i], j) := Link(f)], WithL3(t, 512 * i + j, f))
  {
    HoldsMeans(m, t);
    ClearOutside(m, t, f);
    LinkL3(Zeroed(m, f), t, i, j, f);
    HoldsMeans(Zeroed(m, f)[(t.l2[i], j) := Link(f)], WithL3(t, 512 * i + j, f));
  }

  lemma HoldsSet(m: Words, t: Tree, q: nat, j: nat, l: Leaf)
    requires Holds(m, t) && q in t.l3 && j < 512 && 512 * q + j < PAGES && l.pfn < FRAMES
    ensures Holds(m[(t.l3[q], j) := LeafWord(l)], t.(flat := t.flat[512 * q + j := l]))
  {
    HoldsMeans(m, t);
    var p := 512 * q + j;
    assert p / 512 == q;
    SetSlot(m, t, q, j, LeafWord(l), t.flat[p := l]);
    HoldsMeans(m[(t.l3[q], j) := LeafWord(l)], t.(flat := t.flat[p := l]));
  }

  lemma HoldsClear(m: Words, t: Tree, q: nat, j: nat)
    requires Holds(m, t) && q in t.l3 && j < 512
    ensures Holds(m[(t.l3[q], j) := 0], t.(flat := t.flat - {512 * q + j}))
  {
    HoldsMeans(m, t);
    SetSlot(m, t, q, j, 0, t.flat - {512 * q + j});
    HoldsMeans(m[(t.l3[q], j) := 0], t.(flat := t.flat - {512 * q + j}));
  }
}
