/** The Stage-2 table of one VM: map, passthrough map, unmap, guest-RAM carve and
    teardown, over the frame allocator and physical memory.
    Source: kernel/src/memory/stage2.rs. */
module Stage2 {
  import opened Wrappers
  import opened Bits
  import opened Frames
  import opened Stage2Tree

  /** The frames holding the tables of `t`. */
  ghost function TableFrames(t: Tree): set<nat> {
    {t.root, t.root + 1} + t.role.Keys
  }

  /** Page frame numbers of recorded physical addresses. */
  ghost function FrameSet(s: seq<nat>): set<nat> {
    if s == [] then {} else FrameSet(s[..|s| - 1]) + {s[|s| - 1] / PAGE_SIZE}
  }

  lemma FrameSetAppend(s: seq<nat>, pa: nat)
    ensures FrameSet(s + [pa]) == FrameSet(s) + {pa / PAGE_SIZE}
  {
    assert (s + [pa])[..|s|] == s;
  }

  /** The allocated frames split without overlap into a VM's tables, its guest
      RAM, its forgotten RAM, and everything else. */
  ghost predicate Splits(used: set<nat>, tables: set<nat>, guest: set<nat>, lost: set<nat>, others: set<nat>) {
    && used == tables + guest + lost + others
    && guest !! tables && lost !! tables && lost !! guest
    && others !! tables && others !! guest && others !! lost
  }

  /** A VM's bookkeeping: the split above, and the recorded sub-table addresses
      are exactly the sub-table frames. */
  ghost predicate Balanced(used: set<nat>, t: Tree, guest: set<nat>, lost: set<nat>, others: set<nat>, subs: seq<nat>) {
    Splits(used, TableFrames(t), guest, lost, others) && FrameSet(subs) == t.role.Keys
  }

  /** `Balanced` behind a counter, as one fact to carry (see `Stage2Tree.Holds`). */
  ghost predicate BooksTo(used: set<nat>, t: Tree, guest: set<nat>, lost: set<nat>, others: set<nat>, subs: seq<nat>,
                          depth: nat)
  {
    if depth == 0 then Balanced(used, t, guest, lost, others, subs)
    else BooksTo(used, t, guest, lost, others, subs, depth - 1)
  }

  ghost predicate Books(used: set<nat>, t: Tree, guest: set<nat>, lost: set<nat>, others: set<nat>, subs: seq<nat>) {
    BooksTo(used, t, guest, lost, others, subs, Depth(t))
  }

  lemma {:induction false} BooksToMeans(used: set<nat>, t: Tree, guest: set<nat>, lost: set<nat>, others: set<nat>,
                                        subs: seq<nat>, depth: nat)
    ensures BooksTo(used, t, guest, lost, others, subs, depth) <==> Balanced(used, t, guest, lost, others, subs)
  {
    if depth > 0 { BooksToMeans(used, t, guest, lost, others, subs, depth - 1); }
  }

  lemma BooksMeans(used: set<nat>, t: Tree, guest: set<nat>, lost: set<nat>, others: set<nat>, subs: seq<nat>)
    ensures Books(used, t, guest, lost, others, subs) <==> Balanced(used, t, guest, lost, others, subs)
  {
    BooksToMeans(used, t, guest, lost, others, subs, Depth(t));
  }

  /** A frame that is not allocated is none of the VM's. */
  lemma FreshFrame(used: set<nat>, t: Tree, guest: set<nat>, lost: set<nat>, others: set<nat>, subs: seq<nat>, f: nat)
    requires Books(used, t, guest, lost, others, subs) && f !in used
    ensures f !in t.role && f != t.root && f != t.root + 1
  {
    BooksMeans(used, t, guest, lost, others, subs);
  }

  /** The books after a table gains one fresh frame. */
  lemma BooksLink(used: set<nat>, t: Tree, t': Tree, guest: set<nat>, lost: set<nat>, others: set<nat>,
                  subs: seq<nat>, pa: nat)
    requires Books(used, t, guest, lost, others, subs)
    requires pa / PAGE_SIZE !in used
    requires t'.root == t.root && t'.role.Keys == t.role.Keys + {pa / PAGE_SIZE}
    ensures Books(used + {pa / PAGE_SIZE}, t', guest, lost, others, subs + [pa])
  {
    BooksMeans(used, t, guest, lost, others, subs);
    assert TableFrames(t') == TableFrames(t) + {pa / PAGE_SIZE};
    FrameSetAppend(subs, pa);
    BooksMeans(used + {pa / PAGE_SIZE}, t', guest, lost, others, subs + [pa]);
  }

  /** The books do not look at the leaves. */
  lemma BooksLeaves(used: set<nat>, t: Tree, t': Tree, guest: set<nat>, lost: set<nat>, others: set<nat>,
                    subs: seq<nat>)
    requires Books(used, t, guest, lost, others, subs) && t'.root == t.root && t'.role == t.role
    ensures Books(used, t', guest, lost, others, subs)
  {
    BooksMeans(used, t, guest, lost, others, subs);
    BooksMeans(used, t', guest, lost, others, subs);
  }

  /** The books when other tasks changed the rest of the bitmap. */
  lemma BooksRefresh(used: set<nat>, used': set<nat>, t: Tree, guest: set<nat>, lost: set<nat>, others: set<nat>,
                     subs: seq<nat>)
    requires Books(used, t, guest, lost, others, subs)
    requires TableFrames(t) + guest + lost <= used'
    ensures Books(used', t, guest, lost, used' - TableFrames(t) - guest - lost, subs)
    ensures used' == used ==> used' - TableFrames(t) - guest - lost == others
  {
    BooksMeans(used, t, guest, lost, others, subs);
    BooksMeans(used', t, guest, lost, used' - TableFrames(t) - guest - lost, subs);
  }

  /** The books after the lock drops of a search. */
  lemma CarveBooks(base: nat, was: seq<bool>, before: seq<bool>, env: nat -> seq<Interference>, drops: nat,
                   t: Tree, guest: set<nat>, lost: set<nat>, others: set<nat>, subs: seq<nat>)
    requires Books(UsedSet(base, was), t, guest, lost, others, subs) && before == DisturbRun(was, env, drops)
    requires forall i: nat :: i < |was| && base + i in TableFrames(t) + guest + lost ==> Spared(env, i)
    ensures Books(UsedSet(base, before), t, guest, lost, UsedSet(base, before) - TableFrames(t) - guest - lost, subs)
    ensures before == was ==> UsedSet(base, before) - TableFrames(t) - guest - lost == others
  {
    BooksMeans(UsedSet(base, was), t, guest, lost, others, subs);
    StillUsed(base, was, before, TableFrames(t) + guest + lost, env, drops);
    BooksRefresh(UsedSet(base, was), UsedSet(base, before), t, guest, lost, others, subs);
  }

  /** The books when a fresh region replaces the recorded guest RAM. */
  lemma BooksCarve(used: set<nat>, t: Tree, guest: set<nat>, lost: set<nat>, others: set<nat>, subs: seq<nat>,
                   region: set<nat>)
    requires Books(used, t, guest, lost, others, subs) && region !! used
    ensures Books(used + region, t, region, lost + guest, others, subs)
  {
    BooksMeans(used, t, guest, lost, others, subs);
    BooksMeans(used + region, t, region, lost + guest, others, subs);
  }

  /** The books of a table that was just created. */
  lemma BooksNew(used: set<nat>, root: nat)
    requires root !in used && root + 1 !in used
    ensures var t := Tree(root, map[], map[], map[], map[]);
            Books(used + {root, root + 1}, t, {}, {}, used, [])
  {
    var t := Tree(root, map[], map[], map[], map[]);
    BooksMeans(used + {root, root + 1}, t, {}, {}, used, []);
  }

  /** Ordinary mappings never cover an MMIO hole. */
  ghost predicate HolesUnmapped(flat: Flat) {
    forall p :: p in flat && InHole(p) ==> flat[p].device
  }

  /** Every ordinary mapping targets the guest RAM. */
  ghost predicate Isolated(flat: Flat, guest: set<nat>) {
    forall p :: p in flat && !flat[p].device ==> flat[p].pfn in guest
  }

  lemma HolesAfterMap(flat: Flat, p: nat, f: nat, k: nat, writable: bool, device: bool)
    requires HolesUnmapped(flat)
    requires device || forall q :: p <= q < p + k ==> !InHole(q)
    ensures HolesUnmapped(MapRange(flat, p, f, k, writable, device))
  {
    var flat' := MapRange(flat, p, f, k, writable, device);
    forall q | q in flat' && InHole(q)
      ensures flat'[q].device
    {
      MapRangeAt(flat, p, f, k, writable, device, q);
    }
  }

  lemma IsolatedAfterMap(flat: Flat, p: nat, f: nat, k: nat, writable: bool, device: bool, guest: set<nat>)
    requires Isolated(flat, guest)
    requires device || Interval(f, f + k) <= guest
    ensures Isolated(MapRange(flat, p, f, k, writable, device), guest)
  {
    var flat' := MapRange(flat, p, f, k, writable, device);
    forall q | q in flat' && !flat'[q].device
      ensures flat'[q].pfn in guest
    {
      MapRangeAt(flat, p, f, k, writable, device, q);
      if p <= q < p + k && !device { assert f + (q - p) in Interval(f, f + k); }
    }
  }

  /** With no guest frame recorded, a Normal leaf is already an escape. */
  lemma EscapesAfterMap(flat: Flat, p: nat, f: nat, k: nat, writable: bool)
    requires k > 0
    ensures !Isolated(MapRange(flat, p, f, k, writable, false), {})
  {
    MapRangeAt(flat, p, f, k, writable, false, p);
  }

  /** A guest without RAM: the call that a guest with RAM elsewhere is refused passes
      every guard and maps a frame that is not the guest's. */
  lemma EmptyGuestEscapes(ramPa: nat)
    ensures MapGuard(0x4000_0000, 0x5000, 1, ramPa, 0, false) == None
    ensures ramPa >= 0x6000 ==> MapGuard(0x4000_0000, 0x5000, 1, ramPa, 1, false) == Some(SasViolation)
    ensures !Isolated(MapRange(map[], 0x4000_0000 / PAGE_SIZE, 0x5000 / PAGE_SIZE, 1, true, false), {})
  {
    EscapesAfterMap(map[], 0x4000_0000 / PAGE_SIZE, 0x5000 / PAGE_SIZE, 1, true);
  }

  lemma {:induction false} UnmapShrinks(flat: Flat, p: nat, k: nat)
    ensures forall q :: q in UnmapRange(flat, p, k) ==> q in flat && UnmapRange(flat, p, k)[q] == flat[q]
  {
    if k > 0 { UnmapShrinks(flat, p, k - 1); }
  }

  /** The guards of an ordinary map, in the order they are tried. */
  function MapGuard(ipa: nat, hpa: nat, n: nat, ramPa: nat, ramPages: nat, hole: bool): Option<S2MapError> {
    if ipa + n * PAGE_SIZE >= U64_LIMIT || hpa + n * PAGE_SIZE >= U64_LIMIT then Some(Overflow)
    else if ipa + n * PAGE_SIZE > IPA_LIMIT || hpa + n * PAGE_SIZE > IPA_LIMIT then Some(OutOfBounds)
    else if hole then Some(MmioHole)
    else if ramPages > 0 && (hpa < ramPa || hpa + n * PAGE_SIZE > ramPa + ramPages * PAGE_SIZE) then Some(SasViolation)
    else None
  }

  class Stage2Table {
    const frames: FrameAllocator
    const mem: PhysMem
    const rootPa: nat
    var subFrames: seq<nat>
    var guestRamPa: nat
    var guestRamPages: nat
    /** The tree the table words spell out. */
    ghost var tree: Tree
    /** Page frame numbers of the recorded guest RAM. */
    ghost var guest: set<nat>
    /** Guest RAM forgotten by a later carve: still allocated, never freed. */
    ghost var lost: set<nat>
    /** Every other allocated frame of the machine. */
    ghost var others: set<nat>

    /** The frames `Drop` gives back. */
    ghost function Reclaimable(): set<nat>
      reads this
    {
      TableFrames(tree) + guest
    }

    ghost predicate Valid()
      reads this, frames, frames.bitmap, mem
    {
      && frames.Valid()
      && frames.Base() + frames.totalFrames <= FRAMES
      && rootPa % PAGE_SIZE == 0 && guestRamPa % PAGE_SIZE == 0
      && guest == Interval(guestRamPa / PAGE_SIZE, guestRamPa / PAGE_SIZE + guestRamPages)
      && tree.root == rootPa / PAGE_SIZE
      && Holds(mem.words, tree)
      && Books(frames.Used(), tree, guest, lost, others, subFrames)
    }

    /** What the hardware walk of page `p` finds. */
    ghost function Translate(p: nat): Option<Leaf>
      reads this, mem
      requires p < PAGES
    {
      Walk(mem.words, rootPa / PAGE_SIZE, p)
    }

    /** The walk of every page is the flat map. */
    lemma TranslateIsFlat()
      requires Valid()
      ensures forall p: nat :: p < PAGES ==> Translate(p) == Lookup(tree.flat, p)
    {
      forall p: nat | p < PAGES
        ensures Translate(p) == Lookup(tree.flat, p)
      {
        HoldsWalk(mem.words, tree, p);
      }
    }

    /** A table whose two root frames were just allocated, still uncleared. */
    constructor (frames: FrameAllocator, mem: PhysMem, rootPa: nat)
      ensures this.frames == frames && this.mem == mem && this.rootPa == rootPa
      ensures subFrames == [] && guestRamPa == 0 && guestRamPages == 0 && guest == lost == {}
      ensures tree == Tree(rootPa / PAGE_SIZE, map[], map[], map[], map[])
    {
      this.frames, this.mem, this.rootPa := frames, mem, rootPa;
      subFrames, guestRamPa, guestRamPages := [], 0, 0;
      tree := Tree(rootPa / PAGE_SIZE, map[], map[], map[], map[]);
      guest, lost, others := {}, {}, {};
    }

    /** Takes one frame, clears it and records it for teardown. */
    method AllocSubtable() returns (r: Option<nat>)
      requires frames.Valid() && frames.Base() + frames.totalFrames <= FRAMES
      modifies this`subFrames, frames, frames.bitmap, mem
      ensures frames.Valid()
      ensures r.None? ==>
                frames.Used() == old(frames.Used()) && mem.words == old(mem.words) && subFrames == old(subFrames)
      ensures r.Some? ==>
                && r.value % PAGE_SIZE == 0
                && var f := r.value / PAGE_SIZE;
                && f !in old(frames.Used()) && f < FRAMES
                && frames.Used() == old(frames.Used()) + {f}
                && mem.words == Zeroed(old(mem.words), f)
                && subFrames == old(subFrames) + [r.value]
    {
      ghost var before := frames.used;
      ghost var idx;
      r, idx := frames.AllocateFrame();
      if r.Some? {
        UsedSetUpdate(frames.Base(), before, idx, true);
        frames.FrameAddress(idx);
        var f := r.value / PAGE_SIZE;
        mem.words := Zeroed(mem.words, f);
        subFrames := subFrames + [r.value];
      }
    }

    /** Level-1 step of a map: the level-2 table of word `b` of root frame `h`,
        linked if missing. */
    method DescendL1(h: nat, b: nat) returns (r: Result<nat, S2MapError>)
      requires Valid() && h < 2 && b < 512
      modifies this`subFrames, this`tree, frames, frames.bitmap, mem
      ensures Valid() && tree.flat == old(tree.flat)
      ensures r.Err? ==> r.error == OutOfMemory
      ensures r.Ok? ==> 512 * h + b in tree.l2 && tree.l2[512 * h + b] == r.value / PAGE_SIZE
    {
      HoldsL1(mem.words, tree, h, b);
      var entry := Classify(Read(mem.words, rootPa / PAGE_SIZE + h, b));
      match entry
      case ToTable(pa) =>
        LinkBack(tree.l2[512 * h + b]);
        return Ok(pa);
      case Empty =>
        var pa := AddL2(h, b);
        return if pa.Some? then Ok(pa.value) else Err(OutOfMemory);
      case Block =>
        return Err(BlockConflict);
    }

    method AddL2(h: nat, b: nat) returns (r: Option<nat>)
      requires Valid() && h < 2 && b < 512 && 512 * h + b !in tree.l2
      modifies this`subFrames, this`tree, frames, frames.bitmap, mem
      ensures Valid() && tree.flat == old(tree.flat)
      ensures r.Some? ==> 512 * h + b in tree.l2 && tree.l2[512 * h + b] == r.value / PAGE_SIZE
    {
      ghost var m0, used0, subs0 := mem.words, frames.Used(), subFrames;
      r := AllocSubtable();
      if r.Some? {
        ghost var g := r.value / PAGE_SIZE;
        ghost var t' := WithL2(tree, 512 * h + b, g);
        FreshFrame(used0, tree, guest, lost, others, subs0, g);
        BooksLink(used0, tree, t', guest, lost, others, subs0, r.value);
        HoldsLinkL2(m0, tree, h, b, g);
        var link := TableWord(r.value);
        mem.words := mem.words[(rootPa / PAGE_SIZE + h, b) := link];
        tree := t';
      }
    }

    /** Level-2 step of a map: the level-3 table of slot `j` of the level-2 table
        at `pa`, linked if missing. */
    method DescendL2(i: nat, j: nat, pa: nat) returns (r: Result<nat, S2MapError>)
      requires Valid() && j < 512 && i in tree.l2 && tree.l2[i] == pa / PAGE_SIZE
      modifies this`subFrames, this`tree, frames, frames.bitmap, mem
      ensures Valid() && tree.flat == old(tree.flat)
      ensures r.Err? ==> r.error == OutOfMemory
      ensures r.Ok? ==> 512 * i + j in tree.l3 && tree.l3[512 * i + j] == r.value / PAGE_SIZE
    {
      HoldsL2(mem.words, tree, i, j);
      var entry := Classify(Read(mem.words, pa / PAGE_SIZE, j));
      match entry
      case ToTable(next) =>
        LinkBack(tree.l3[512 * i + j]);
        return Ok(next);
      case Empty =>
        var next := AddL3(i, j, pa);
        return if next.Some? then Ok(next.value) else Err(OutOfMemory);
      case Block =>
        return Err(BlockConflict);
    }

    method AddL3(i: nat, j: nat, pa: nat) returns (r: Option<nat>)
      requires Valid() && j < 512 && i in tree.l2 && tree.l2[i] == pa / PAGE_SIZE && 512 * i + j !in tree.l3
      modifies this`subFrames, this`tree, frames, frames.bitmap, mem
      ensures Valid() && tree.flat == old(tree.flat)
      ensures r.Some? ==> 512 * i + j in tree.l3 && tree.l3[512 * i + j] == r.value / PAGE_SIZE
    {
      ghost var m0, used0, subs0 := mem.words, frames.Used(), subFrames;
      r := AllocSubtable();
      if r.Some? {
        ghost var g := r.value / PAGE_SIZE;
        ghost var t' := WithL3(tree, 512 * i + j, g);
        FreshFrame(used0, tree, guest, lost, others, subs0, g);
        BooksLink(used0, tree, t', guest, lost, others, subs0, r.value);
        HoldsLinkL3(m0, tree, i, j, g);
        var link := TableWord(r.value);
        mem.words := mem.words[(pa / PAGE_SIZE, j) := link];
        tree := t';
      }
    }

    /** Maps one page; `device` selects the passthrough descriptor. Slots are
        never block descriptors, so `BlockConflict` cannot arise. */
    method MapSingle(ipa: nat, hpa: nat, writable: bool, device: bool) returns (r: Result<(), S2MapError>)
      requires Valid() && hpa < IPA_LIMIT
      modifies this`subFrames, this`tree, frames, frames.bitmap, mem
      ensures Valid()
      ensures r.Err? ==> r.error == OutOfMemory && tree.flat == old(tree.flat)
      ensures r.Ok? ==>
                tree.flat == old(tree.flat)[ipa / PAGE_SIZE % PAGES := Leaf(hpa / PAGE_SIZE, writable, device)]
    {
      var i, j, k := Indices(ipa);
      ghost var p := ipa / PAGE_SIZE % PAGES;
      var l2 := DescendL1(i / 512, i % 512);
      if l2.Err? {
        return Err(l2.error);
      }
      var l3 := DescendL2(i, j, l2.value);
      if l3.Err? {
        return Err(l3.error);
      }
      var w := LeafDescriptor(hpa, writable, device);
      ghost var leaf := Leaf(hpa / PAGE_SIZE, writable, device);
      HoldsSet(mem.words, tree, 512 * i + j, k, leaf);
      BooksLeaves(frames.Used(), tree, tree.(flat := tree.flat[p := leaf]), guest, lost, others, subFrames);
      mem.words := mem.words[(l3.value / PAGE_SIZE, k) := w];
      tree := tree.(flat := tree.flat[p := leaf]);
      return Ok(());
    }

    /** The level-2 table behind a level-1 slot, if there is one. */
    method FindL2(h: nat, b: nat) returns (r: Option<nat>)
      requires Valid() && h < 2 && b < 512
      ensures r.Some? <==> 512 * h + b in tree.l2
      ensures r.Some? ==> tree.l2[512 * h + b] == r.value / PAGE_SIZE
    {
      HoldsL1(mem.words, tree, h, b);
      ghost var i := 512 * h + b;
      r := TableBehind(Read(mem.words, rootPa / PAGE_SIZE + h, b), if i in tree.l2 then Some(tree.l2[i]) else None);
    }

    /** The level-3 table behind slot `j` of the level-2 table at `pa`. */
    method FindL3(i: nat, j: nat, pa: nat) returns (r: Option<nat>)
      requires Valid() && j < 512 && i in tree.l2 && tree.l2[i] == pa / PAGE_SIZE
      ensures r.Some? <==> 512 * i + j in tree.l3
      ensures r.Some? ==> tree.l3[512 * i + j] == r.value / PAGE_SIZE
    {
      HoldsL2(mem.words, tree, i, j);
      ghost var q := 512 * i + j;
      r := TableBehind(Read(mem.words, pa / PAGE_SIZE, j), if q in tree.l3 then Some(tree.l3[q]) else None);
    }

    /** Unmaps one page; silent when it is not mapped. Tables stay. */
    method UnmapSingle(ipa: nat)
      requires Valid()
      modifies this`tree, mem
      ensures Valid()
      ensures tree.flat == old(tree.flat) - {ipa / PAGE_SIZE % PAGES}
    {
      var i, j, k := Indices(ipa);
      ghost var p := ipa / PAGE_SIZE % PAGES;
      if p in tree.flat { HoldsFlat(mem.words, tree, p); }
      var l2 := FindL2(i / 512, i % 512);
      if l2.None? {
        return;
      }
      var table := FindL3(i, j, l2.value);
      if table.None? {
        return;
      }
      HoldsClear(mem.words, tree, 512 * i + j, k);
      BooksLeaves(frames.Used(), tree, tree.(flat := tree.flat - {p}), guest, lost, others, subFrames);
      mem.words := mem.words[(table.value / PAGE_SIZE, k) := 0];
      tree := tree.(flat := tree.flat - {p});
    }

    /** The page loop shared by both kinds of map: stops at the first page for
        which no table frame is left, keeping the pages done so far. */
    method MapPages(ipa: nat, hpa: nat, n: nat, writable: bool, device: bool)
      returns (r: Result<(), S2MapError>, ghost done: nat)
      requires Valid() && ipa + n * PAGE_SIZE <= IPA_LIMIT && hpa + n * PAGE_SIZE <= IPA_LIMIT
      modifies this`subFrames, this`tree, frames, frames.bitmap, mem
      ensures Valid()
      ensures r.Ok? ==> done == n
      ensures r.Err? ==> r.error == OutOfMemory && done < n
      ensures tree.flat == MapRange(old(tree.flat), ipa / PAGE_SIZE, hpa / PAGE_SIZE, done, writable, device)
    {
      for k := 0 to n
        invariant Valid()
        invariant tree.flat == MapRange(old(tree.flat), ipa / PAGE_SIZE, hpa / PAGE_SIZE, k, writable, device)
      {
        var curIpa, curHpa := ipa + k * PAGE_SIZE, hpa + k * PAGE_SIZE;
        PageOfOffset(ipa, k);
        PageOfOffset(hpa, k);
        r := MapSingle(curIpa, curHpa, writable, device);
        if r.Err? {
          return r, k;
        }
      }
      return Ok(()), n;
    }

    /** Maps guest pages onto host frames. `done` pages were mapped: all of them on
        success, none when a guard refused, a prefix when table frames ran out. */
    method Map(ipa: nat, hpa: nat, n: nat, writable: bool) returns (r: Result<(), S2MapError>, ghost done: nat)
      requires Valid() && ipa < U64_LIMIT && hpa < U64_LIMIT && n * PAGE_SIZE < U64_LIMIT
      modifies this`subFrames, this`tree, frames, frames.bitmap, mem
      ensures Valid()
      ensures var guard := MapGuard(ipa, hpa, n, guestRamPa, guestRamPages, HitsHole(ipa, ipa + n * PAGE_SIZE));
              if guard.Some? then r == Err(guard.value) && done == 0
              else if r.Ok? then done == n else r == Err(OutOfMemory) && done < n
      ensures tree.flat == MapRange(old(tree.flat), ipa / PAGE_SIZE, hpa / PAGE_SIZE, done, writable, false)
      ensures HolesUnmapped(old(tree.flat)) ==> HolesUnmapped(tree.flat)
      ensures Isolated(old(tree.flat), guest) ==> (Isolated(tree.flat, guest) <==> guestRamPages > 0 || done == 0)
    {
      var hole := TouchesHole(ipa, ipa + n * PAGE_SIZE);
      var guard := MapGuard(ipa, hpa, n, guestRamPa, guestRamPages, hole);
      if guard.Some? {
        return Err(guard.value), 0;
      }
      r, done := MapPages(ipa, hpa, n, writable, false);
      if HolesUnmapped(old(tree.flat)) {
        forall q | ipa / PAGE_SIZE <= q < ipa / PAGE_SIZE + done
          ensures !InHole(q)
        {
          ClearOfHoles(ipa, n, q);
        }
        HolesAfterMap(old(tree.flat), ipa / PAGE_SIZE, hpa / PAGE_SIZE, done, writable, false);
      }
      if guestRamPages > 0 && Isolated(old(tree.flat), guest) {
        FramesInside(hpa, n, guestRamPa, guestRamPages);
        IsolatedAfterMap(old(tree.flat), ipa / PAGE_SIZE, hpa / PAGE_SIZE, done, writable, false, guest);
      } else if done > 0 && guestRamPages == 0 {
        assert guest == {};
        EscapesAfterMap(old(tree.flat), ipa / PAGE_SIZE, hpa / PAGE_SIZE, done, writable);
      }
    }

    /** Hardware passthrough: only range guards, Device attributes. */
    method MapMmioPassthrough(ipa: nat, hpa: nat, n: nat, writable: bool)
      returns (r: Result<(), S2MapError>, ghost done: nat)
      requires Valid() && ipa < U64_LIMIT && hpa < U64_LIMIT && n * PAGE_SIZE < U64_LIMIT
      modifies this`subFrames, this`tree, frames, frames.bitmap, mem
      ensures Valid()
      ensures var guard := MapGuard(ipa, hpa, n, 0, 0, false);
              if guard.Some? then r == Err(guard.value) && done == 0
              else if r.Ok? then done == n else r == Err(OutOfMemory) && done < n
      ensures tree.flat == MapRange(old(tree.flat), ipa / PAGE_SIZE, hpa / PAGE_SIZE, done, writable, true)
      ensures HolesUnmapped(old(tree.flat)) ==> HolesUnmapped(tree.flat)
      ensures Isolated(old(tree.flat), guest) ==> Isolated(tree.flat, guest)
    {
      var guard := MapGuard(ipa, hpa, n, 0, 0, false);
      if guard.Some? {
        return Err(guard.value), 0;
      }
      r, done := MapPages(ipa, hpa, n, writable, true);
      if HolesUnmapped(old(tree.flat)) {
        HolesAfterMap(old(tree.flat), ipa / PAGE_SIZE, hpa / PAGE_SIZE, done, writable, true);
      }
      if Isolated(old(tree.flat), guest) {
        IsolatedAfterMap(old(tree.flat), ipa / PAGE_SIZE, hpa / PAGE_SIZE, done, writable, true, guest);
      }
    }

    /** Unmaps a range; pages above the 40-bit limit alias modulo 2^28. */
    method Unmap(ipa: nat, n: nat)
      requires Valid() && ipa + n * PAGE_SIZE < U64_LIMIT
      modifies this`tree, mem
      ensures Valid()
      ensures tree.flat == UnmapRange(old(tree.flat), ipa / PAGE_SIZE, n)
      ensures ipa + n * PAGE_SIZE <= IPA_LIMIT ==>
                forall q: nat :: Lookup(tree.flat, q) ==
                                 if ipa / PAGE_SIZE <= q < ipa / PAGE_SIZE + n then None else Lookup(old(tree.flat), q)
      ensures HolesUnmapped(old(tree.flat)) ==> HolesUnmapped(tree.flat)
      ensures Isolated(old(tree.flat), guest) ==> Isolated(tree.flat, guest)
    {
      for k := 0 to n
        invariant Valid()
        invariant tree.flat == UnmapRange(old(tree.flat), ipa / PAGE_SIZE, k)
      {
        PageOfOffset(ipa, k);
        UnmapSingle(ipa + k * PAGE_SIZE);
      }
      UnmapShrinks(old(tree.flat), ipa / PAGE_SIZE, n);
      if ipa + n * PAGE_SIZE <= IPA_LIMIT {
        forall q: nat
          ensures Lookup(tree.flat, q) ==
                  if ipa / PAGE_SIZE <= q < ipa / PAGE_SIZE + n then None else Lookup(old(tree.flat), q)
        {
          UnmapRangeAt(old(tree.flat), ipa / PAGE_SIZE, n, q);
        }
      }
    }

    /** Carves guest RAM out of free frames. The table's own frames must not be
        freed by the tasks that run between lock drops. A second carve forgets
        the first region, which is then `lost`. */
    method CarveGuestRam(n: nat, env: nat -> seq<Interference>) returns (r: Option<nat>)
      requires Valid()
      requires forall i: nat :: i < frames.totalFrames && frames.Base() + i in Reclaimable() + lost ==> Spared(env, i)
      modifies this, frames`used, frames.bitmap
      ensures Valid() && tree == old(tree) && subFrames == old(subFrames)
      ensures r.None? ==>
                guest == old(guest) && lost == old(lost) && guestRamPa == old(guestRamPa) && guestRamPages == old(guestRamPages)
      ensures r.Some? ==> guestRamPa == r.value && guestRamPages == n && lost == old(lost) + old(guest)
      ensures Quiet(env) ==> others == old(others)
      ensures Quiet(env) ==>
                (r.Some? <==> n <= frames.totalFrames && 0 < frames.totalFrames && HasRun(old(frames.used), n))
      ensures r.Some? && (forall p :: p in tree.flat ==> tree.flat[p].device) ==> Isolated(tree.flat, guest)
    {
      ghost var region;
      r, region := CarveRegion(n, env);
      if r.Some? {
        guestRamPa, guestRamPages := r.value, n;
        lost, guest := lost + guest, region;
      }
    }

    /** Finds the region and books it as the guest's, with what it had before as lost. */
    method CarveRegion(n: nat, env: nat -> seq<Interference>) returns (r: Option<nat>, ghost region: set<nat>)
      requires Valid()
      requires forall i: nat :: i < frames.totalFrames && frames.Base() + i in Reclaimable() + lost ==> Spared(env, i)
      modifies `others, frames`used, frames.bitmap
      ensures frames.Valid() && (r.None? ==> Valid())
      ensures r.Some? ==>
                && r.value % PAGE_SIZE == 0 && region == Interval(r.value / PAGE_SIZE, r.value / PAGE_SIZE + n)
                && Books(frames.Used(), tree, region, lost + guest, others, subFrames)
      ensures Quiet(env) ==> others == old(others)
      ensures Quiet(env) ==>
                (r.Some? <==> n <= frames.totalFrames && 0 < frames.totalFrames && HasRun(old(frames.used), n))
    {
      ghost var was := frames.used;
      ghost var before, s, drops;
      r, before, s, drops := frames.AllocateGuestRam(n, env);
      ghost var base := frames.Base();
      CarveBooks(base, was, before, env, drops, tree, guest, lost, others, subFrames);
      others := UsedSet(base, before) - TableFrames(tree) - guest - lost;
      region := {};
      if r.Some? {
        region := Run(base, s, n);
        UsedSetMarked(base, before, s, n);
        frames.FrameAddress(s);
        BooksCarve(UsedSet(base, before), tree, guest, lost, others, subFrames, region);
      }
    }

    /** Gives back every table frame and the recorded guest RAM. */
    method Drop()
      requires Valid()
      modifies frames`used, frames.bitmap
      ensures frames.Valid() && frames.Used() == old(frames.Used()) - Reclaimable() == others + lost
    {
      BooksMeans(frames.Used(), tree, guest, lost, others, subFrames);
      DropTables();
      DropGuestRam();
    }

    method DropTables()
      requires frames.Valid()
      modifies frames`used, frames.bitmap
      ensures frames.Valid()
      ensures frames.Used() == old(frames.Used()) - FrameSet(subFrames) - {rootPa / PAGE_SIZE, rootPa / PAGE_SIZE + 1}
    {
      for k := 0 to |subFrames|
        invariant frames.Valid()
        invariant frames.Used() == old(frames.Used()) - FrameSet(subFrames[..k])
      {
        FrameSetAppend(subFrames[..k], subFrames[k]);
        assert subFrames[..k] + [subFrames[k]] == subFrames[..k + 1];
        frames.DeallocateFrame(subFrames[k]);
      }
      assert subFrames[..|subFrames|] == subFrames;
      frames.DeallocateFrame(rootPa);
      frames.DeallocateFrame(rootPa + PAGE_SIZE);
    }

    method DropGuestRam()
      requires frames.Valid()
      modifies frames`used, frames.bitmap
      ensures frames.Valid()
      ensures frames.Used() ==
              old(frames.Used()) - Interval(guestRamPa / PAGE_SIZE, guestRamPa / PAGE_SIZE + guestRamPages)
    {
      for k := 0 to guestRamPages
        invariant frames.Valid()
        invariant frames.Used() == old(frames.Used()) - Interval(guestRamPa / PAGE_SIZE, guestRamPa / PAGE_SIZE + k)
      {
        PageOfOffset(guestRamPa, k);
        frames.DeallocateFrame(guestRamPa + k * PAGE_SIZE);
      }
    }
  }

  lemma RootParity(base: nat, s: nat)
    ensures ((base + s) * PAGE_SIZE) % (2 * PAGE_SIZE) == 0 <==> (base + s) % 2 == 0
  {}

  /** Allocates and clears the two adjacent root frames. */
  method NewTable(frames: FrameAllocator, mem: PhysMem) returns (t: Stage2Table?)
    requires frames.Valid() && frames.totalFrames >= 2 && frames.Base() + frames.totalFrames <= FRAMES
    modifies frames, frames.bitmap, mem
    ensures frames.Valid()
    ensures t == null <==> !HasRun(old(frames.used), 2)
    ensures t == null ==> frames.used == old(frames.used)
    ensures t != null ==> fresh(t) && t.frames == frames && t.mem == mem && t.Valid()
    ensures t != null ==> t.tree.flat == map[] && t.guest == t.lost == {} && t.guestRamPages == 0
    ensures t != null ==> t.others == old(frames.Used())
    ensures t != null ==>
              exists s: nat ::
                && IsLeftmostRun(old(frames.used), 2, s) && t.rootPa == frames.memoryStart + s * PAGE_SIZE
                && (t.rootPa % (2 * PAGE_SIZE) == 0 <==> (frames.Base() + s) % 2 == 0)
  {
    ghost var before := frames.used;
    var root, s := frames.AllocateContiguous(2);
    if root.None? {
      return null;
    }
    LeftmostRunInRange(before, 2, s);
    frames.FrameAddress(s);
    RootParity(frames.Base(), s);
    UsedSetMarked(frames.Base(), before, s, 2);
    var f := root.value / PAGE_SIZE;
    assert Run(frames.Base(), s, 2) == {f, f + 1};
    HoldsEmpty(mem.words, f);
    BooksNew(UsedSet(frames.Base(), before), f);
    mem.words := Zeroed(Zeroed(mem.words, f), f + 1);
    t := new Stage2Table(frames, mem, root.value);
    t.others := UsedSet(frames.Base(), before);
  }

  /** The root the hardware wants on an 8 KB boundary can land on an odd frame:
      the bitmap page is in use, the pair behind it is the leftmost free one. */
  lemma OddRoot()
    ensures var used := [true, false, false];
            && IsLeftmostRun(used, 2, 1)
            && forall start: nat :: start % (2 * PAGE_SIZE) == 0 ==> (start + 1 * PAGE_SIZE) % (2 * PAGE_SIZE) != 0
  {
    var used := [true, false, false];
    assert !FreeRun(used, 0, 2) by { assert used[0]; }
  }

  // ---- whole runs ------------------------------------------------------

  /** A call on a table. */
  datatype Op =
    | MapOp(ipa: nat, hpa: nat, n: nat, writable: bool)
    | PassthroughOp(ipa: nat, hpa: nat, n: nat, writable: bool)
    | UnmapOp(ipa: nat, n: nat)

  /** The arguments are 64-bit and the page count's byte size does not wrap. */
  predicate Callable(op: Op) {
    match op
    case UnmapOp(ipa, n) => ipa + n * PAGE_SIZE < U64_LIMIT
    case _ => op.ipa < U64_LIMIT && op.hpa < U64_LIMIT && op.n * PAGE_SIZE < U64_LIMIT
  }

  /** The flat map after one call that got `done` pages far. */
  ghost function FlatStep(flat: Flat, op: Op, done: nat): Flat {
    match op
    case MapOp(ipa, hpa, _, w) => MapRange(flat, ipa / PAGE_SIZE, hpa / PAGE_SIZE, done, w, false)
    case PassthroughOp(ipa, hpa, _, w) => MapRange(flat, ipa / PAGE_SIZE, hpa / PAGE_SIZE, done, w, true)
    case UnmapOp(ipa, n) => UnmapRange(flat, ipa / PAGE_SIZE, n)
  }

  ghost function FlatRun(flat: Flat, ops: seq<Op>, done: seq<nat>): Flat
    requires |done| == |ops|
    decreases |ops|
  {
    if ops == [] then flat
    else
      var k := |ops| - 1;
      FlatStep(FlatRun(flat, ops[..k], done[..k]), ops[k], done[k])
  }

  /** The guard that refuses a call, if one does. */
  ghost function OpGuard(op: Op, ramPa: nat, ramPages: nat): Option<S2MapError> {
    match op
    case MapOp(ipa, hpa, n, _) => MapGuard(ipa, hpa, n, ramPa, ramPages, HitsHole(ipa, ipa + n * PAGE_SIZE))
    case PassthroughOp(ipa, hpa, n, _) => MapGuard(ipa, hpa, n, 0, 0, false)
    case UnmapOp(_, _) => None
  }

  /** How a call ends: refused by its guard with nothing done, complete, or out of
      table frames after a proper prefix. */
  ghost predicate Outcome(op: Op, ramPa: nat, ramPages: nat, r: Result<(), S2MapError>, done: nat) {
    var guard := OpGuard(op, ramPa, ramPages);
    if guard.Some? then r == Err(guard.value) && done == 0
    else (r.Ok? && done == op.n) || (r == Err(OutOfMemory) && done < op.n && !op.UnmapOp?)
  }

  method Execute(t: Stage2Table, op: Op) returns (r: Result<(), S2MapError>, ghost done: nat)
    requires t.Valid() && Callable(op)
    modifies t`subFrames, t`tree, t.frames, t.frames.bitmap, t.mem
    ensures t.Valid() && t.tree.flat == FlatStep(old(t.tree.flat), op, done)
    ensures Outcome(op, t.guestRamPa, t.guestRamPages, r, done)
    ensures HolesUnmapped(old(t.tree.flat)) ==> HolesUnmapped(t.tree.flat)
    ensures Isolated(old(t.tree.flat), t.guest) ==>
              (Isolated(t.tree.flat, t.guest) <==> t.guestRamPages > 0 || !op.MapOp? || done == 0)
  {
    match op
    case MapOp(ipa, hpa, n, w) => r, done := t.Map(ipa, hpa, n, w);
    case PassthroughOp(ipa, hpa, n, w) => r, done := t.MapMmioPassthrough(ipa, hpa, n, w);
    case UnmapOp(ipa, n) =>
      t.Unmap(ipa, n);
      r, done := Ok(()), n;
  }

  /** Isolation held after every call of a run. */
  ghost predicate AlwaysIsolated(flat: Flat, ops: seq<Op>, done: seq<nat>, guest: set<nat>)
    requires |done| == |ops|
    decreases |ops|
  {
    && Isolated(FlatRun(flat, ops, done), guest)
    && (ops != [] ==> AlwaysIsolated(flat, ops[..|ops| - 1], done[..|ops| - 1], guest))
  }

  /** No ordinary map of the run mapped a page. */
  ghost predicate MapsNothing(ops: seq<Op>, done: seq<nat>)
    requires |done| == |ops|
  {
    forall k :: 0 <= k < |ops| && ops[k].MapOp? ==> done[k] == 0
  }

  /** A run that starts isolated stays so if and only if the guest has RAM or no
      ordinary map mapped a page. */
  ghost predicate IsolationExact(flat: Flat, ops: seq<Op>, done: seq<nat>, guest: set<nat>, ramPages: nat)
    requires |done| == |ops|
  {
    Isolated(flat, guest) ==> (AlwaysIsolated(flat, ops, done, guest) <==> ramPages > 0 || MapsNothing(ops, done))
  }

  /** Every call of the run ended as its guard says. */
  ghost predicate Outcomes(ops: seq<Op>, ramPa: nat, ramPages: nat, results: seq<Result<(), S2MapError>>,
                           done: seq<nat>)
    requires |results| == |done| == |ops|
  {
    forall k :: 0 <= k < |ops| ==> Outcome(ops[k], ramPa, ramPages, results[k], done[k])
  }

  lemma OutcomesNext(ops: seq<Op>, ramPa: nat, ramPages: nat, results: seq<Result<(), S2MapError>>, done: seq<nat>,
                     op: Op, r: Result<(), S2MapError>, d: nat)
    requires |results| == |done| == |ops| && Outcomes(ops, ramPa, ramPages, results, done)
    requires Outcome(op, ramPa, ramPages, r, d)
    ensures Outcomes(ops + [op], ramPa, ramPages, results + [r], done + [d])
  {}

  lemma FlatRunNext(flat: Flat, ops: seq<Op>, done: seq<nat>, op: Op, d: nat)
    requires |done| == |ops|
    ensures FlatRun(flat, ops + [op], done + [d]) == FlatStep(FlatRun(flat, ops, done), op, d)
  {
    assert (ops + [op])[..|ops|] == ops && (done + [d])[..|ops|] == done;
  }

  lemma IsolationNext(flat: Flat, ops: seq<Op>, done: seq<nat>, op: Op, d: nat, guest: set<nat>, ramPages: nat)
    requires |done| == |ops| && IsolationExact(flat, ops, done, guest, ramPages)
    requires var flat1 := FlatRun(flat, ops, done);
             Isolated(flat1, guest) ==> (Isolated(FlatStep(flat1, op, d), guest) <==> ramPages > 0 || !op.MapOp? || d == 0)
    ensures IsolationExact(flat, ops + [op], done + [d], guest, ramPages)
  {
    FlatRunNext(flat, ops, done, op, d);
    MapsNothingNext(ops, done, op, d);
    assert (ops + [op])[..|ops|] == ops && (done + [d])[..|ops|] == done;
  }

  /** A refused call never reports a block descriptor. */
  lemma NoBlocks(ops: seq<Op>, ramPa: nat, ramPages: nat, results: seq<Result<(), S2MapError>>, done: seq<nat>)
    requires |results| == |done| == |ops| && Outcomes(ops, ramPa, ramPages, results, done)
    ensures forall k :: 0 <= k < |ops| ==> results[k] != Err(BlockConflict)
  {
    forall k | 0 <= k < |ops|
      ensures results[k] != Err(BlockConflict)
    {
      assert Outcome(ops[k], ramPa, ramPages, results[k], done[k]);
    }
  }

  /** Any run of calls: the hardware walk of every page equals the flat map
      updated the same way, each call ends as its guard says, no call ever meets a
      block descriptor, and isolation holds throughout if and only if the guest has
      RAM or nothing was mapped. */
  method RunCalls(t: Stage2Table, ops: seq<Op>) returns (results: seq<Result<(), S2MapError>>, ghost done: seq<nat>)
    requires t.Valid() && forall k :: 0 <= k < |ops| ==> Callable(ops[k])
    modifies t`subFrames, t`tree, t.frames, t.frames.bitmap, t.mem
    ensures t.Valid() && |results| == |done| == |ops|
    ensures forall p: nat :: p < PAGES ==> t.Translate(p) == Lookup(FlatRun(old(t.tree.flat), ops, done), p)
    ensures forall k :: 0 <= k < |ops| ==> results[k] != Err(BlockConflict)
    ensures Outcomes(ops, t.guestRamPa, t.guestRamPages, results, done)
    ensures HolesUnmapped(old(t.tree.flat)) ==> HolesUnmapped(t.tree.flat)
    ensures IsolationExact(old(t.tree.flat), ops, done, t.guest, t.guestRamPages)
  {
    results, done := [], [];
    for k := 0 to |ops|
      invariant t.Valid() && |results| == |done| == k
      invariant t.tree.flat == FlatRun(old(t.tree.flat), ops[..k], done)
      invariant Outcomes(ops[..k], t.guestRamPa, t.guestRamPages, results, done)
      invariant HolesUnmapped(old(t.tree.flat)) ==> HolesUnmapped(t.tree.flat)
      invariant IsolationExact(old(t.tree.flat), ops[..k], done, t.guest, t.guestRamPages)
    {
      ghost var before := done;
      var r, d := Execute(t, ops[k]);
      FlatRunNext(old(t.tree.flat), ops[..k], before, ops[k], d);
      IsolationNext(old(t.tree.flat), ops[..k], before, ops[k], d, t.guest, t.guestRamPages);
      OutcomesNext(ops[..k], t.guestRamPa, t.guestRamPages, results, before, ops[k], r, d);
      results, done := results + [r], done + [d];
      assert ops[..k + 1] == ops[..k] + [ops[k]];
    }
    assert ops[..|ops|] == ops;
    NoBlocks(ops, t.guestRamPa, t.guestRamPages, results, done);
    t.TranslateIsFlat();
  }

  lemma MapsNothingNext(ops: seq<Op>, done: seq<nat>, op: Op, d: nat)
    requires |done| == |ops|
    ensures MapsNothing(ops + [op], done + [d]) <==> MapsNothing(ops, done) && (op.MapOp? ==> d == 0)
  {
    if MapsNothing(ops + [op], done + [d]) {
      forall k | 0 <= k < |ops| && ops[k].MapOp?
        ensures done[k] == 0
      {
        assert (ops + [op])[k] == ops[k];
      }
      assert (ops + [op])[|ops|] == op;
    }
  }

  /** A VM's whole life with one carve, any calls in between (failing or not) and
      teardown leaves the allocator's used set as it was. */
  method Lifetime(frames: FrameAllocator, mem: PhysMem, ram: nat, ops: seq<Op>) returns (created: bool)
    requires frames.Valid() && frames.totalFrames >= 2 && frames.Base() + frames.totalFrames <= FRAMES
    requires forall k :: 0 <= k < |ops| ==> Callable(ops[k])
    modifies frames, frames.bitmap, mem
    ensures frames.Valid() && frames.Used() == old(frames.Used())
    ensures created <==> HasRun(old(frames.used), 2)
  {
    var t := NewTable(frames, mem);
    created := t != null;
    if created {
      var env: nat -> seq<Interference> := _ => [];
      var carved := t.CarveGuestRam(ram, env);
      var results, done := RunCalls(t, ops);
      t.Drop();
    }
  }

  /** The same through the calls: carving no pages succeeds, and then a map of any host
      frame below the limit is not refused. */
  method EmptyGuest(t: Stage2Table, hpa: nat) returns (carved: Option<nat>, r: Result<(), S2MapError>)
    requires t.Valid() && t.frames.totalFrames > 0 && t.tree.flat == map[] && hpa + PAGE_SIZE <= IPA_LIMIT
    modifies t, t.frames, t.frames.bitmap, t.mem
    ensures t.Valid() && carved.Some? && t.guestRamPages == 0
    ensures r.Ok? || r == Err(OutOfMemory)
    ensures r.Ok? ==> !Isolated(t.tree.flat, t.guest)
  {
    var env: nat -> seq<Interference> := _ => [];
    assert FreeRun(t.frames.used, 0, 0);
    carved := t.CarveGuestRam(0, env);
    ghost var done;
    r, done := t.Map(0x4000_0000, hpa, 1, true);
  }

  ghost predicate HitsHole(ipa: nat, end: nat) {
    exists k :: 0 <= k < |MMIO_HOLES| && ipa < MMIO_HOLES[k].1 && end > MMIO_HOLES[k].0
  }

  /** A byte range inside the guest RAM covers only guest frames, aligned or not. */
  lemma FramesInside(hpa: nat, n: nat, ramPa: nat, ramPages: nat)
    requires ramPa % PAGE_SIZE == 0 && ramPa <= hpa && hpa + n * PAGE_SIZE <= ramPa + ramPages * PAGE_SIZE
    ensures Interval(hpa / PAGE_SIZE, hpa / PAGE_SIZE + n) <= Interval(ramPa / PAGE_SIZE, ramPa / PAGE_SIZE + ramPages)
  {
    assert hpa / PAGE_SIZE >= ramPa / PAGE_SIZE;
    assert hpa / PAGE_SIZE + n <= ramPa / PAGE_SIZE + ramPages;
  }

  /** Frames no other task frees are still in use after the guest-RAM search. */
  lemma StillUsed(base: nat, was: seq<bool>, now: seq<bool>, mine: set<nat>, env: nat -> seq<Interference>, drops: nat)
    requires now == DisturbRun(was, env, drops) && mine <= UsedSet(base, was)
    requires forall i: nat :: i < |was| && base + i in mine ==> Spared(env, i)
    ensures mine <= UsedSet(base, now)
  {
    forall f | f in mine
      ensures f in UsedSet(base, now)
    {
      assert FrameInUse(base, was, f);
      var i := f - base;
      assert base + i in mine;
      DisturbRunKeeps(was, env, drops, i);
      assert FrameInUse(base, now, f);
    }
  }

  lemma PageOfOffset(a: nat, k: nat)
    ensures (a + k * PAGE_SIZE) / PAGE_SIZE == a / PAGE_SIZE + k
  {}

  /** Table indices of an address: the base-512 digits of its page number. */
  method Indices(ipa: nat) returns (i: nat, j: nat, k: nat)
    ensures i < 1024 && j < 512 && k < 512
    ensures ipa / PAGE_SIZE % PAGES == 512 * (512 * i + j) + k
    ensures ipa / PAGE_SIZE % PAGES / 512 == 512 * i + j && (512 * i + j) / 512 == i
  {
    IndexDigits(ipa);
    i, j, k := L1Idx(ipa), L2Idx(ipa), L3Idx(ipa);
  }

  /** The final descriptor of a page. */
  method LeafDescriptor(hpa: nat, writable: bool, device: bool) returns (w: nat)
    ensures hpa < IPA_LIMIT ==> w == LeafWord(Leaf(hpa / PAGE_SIZE, writable, device))
  {
    PageDescForm(hpa, writable);
    PageDescDeviceForm(hpa, writable);
    w := if device then PageDescDevice(hpa, writable) else PageDesc(hpa, writable);
  }

  /** How the builder reads a level-1 or level-2 descriptor. */
  datatype Entry = ToTable(pa: nat) | Empty | Block

  method Classify(desc: nat) returns (e: Entry)
    ensures desc % 4 == 3 ==> e == ToTable(desc / PAGE_SIZE % FRAMES * PAGE_SIZE)
    ensures desc % 2 == 0 ==> e == Empty
    ensures desc % 4 == 1 ==> e == Block
  {
    TypeBits(desc);
    if IsTable(desc) {
      OutputField(desc);
      e := ToTable(DescPa(desc));
    } else if And(desc, DESC_VALID) == 0 {
      e := Empty;
    } else {
      e := Block;
    }
  }

  /** The table a descriptor links, where the word links frame `f` or is empty. */
  method TableBehind(desc: nat, ghost f: Option<nat>) returns (r: Option<nat>)
    requires f.Some? ==> f.value < FRAMES && desc == Link(f.value)
    requires f.None? ==> desc == 0
    ensures r.Some? <==> f.Some?
    ensures r.Some? ==> r.value / PAGE_SIZE == f.value
  {
    if f.Some? { LinkBack(f.value); }
    var e := Classify(desc);
    r := if e.ToTable? then Some(e.pa) else None;
  }

  /** The descriptor linking a sub-table. */
  method TableWord(pa: nat) returns (w: nat)
    ensures pa / PAGE_SIZE < FRAMES ==> w == Link(pa / PAGE_SIZE)
  {
    TableDescForm(pa);
    w := TableDesc(pa);
  }
}
