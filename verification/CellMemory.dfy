/** Memory of cells over their whole life: stacks with guard pages, loaded
    segments, the unmapping at death and the later freeing of frames, all on one
    identity-mapped page table.
    Source: kernel/src/task/stack.rs and kernel/src/loader/elf.rs. */
module CellMemory {
  import opened ByteData
  import opened Wrappers
  import opened CellPages

  /** A stack of `pages` usable pages above one guard page; addresses in pages. */
  datatype Stack = Stack(base: nat, pages: nat)

  datatype PageFrame = PageFrame(page: nat, frame: nat)

  /** The segment pages of one cell. `id` tells instances apart. */
  datatype CellSegments = CellSegments(id: nat, pages: seq<PageFrame>)

  /** Who holds an allocated frame. A stack whose allocation failed half-way keeps its
      frames allocated for good. */
  datatype Owner = InStack(st: Stack) | InCell(cell: CellSegments, k: nat) | Lost

  const KERNEL_RWX: set<Flag> := {Valid, Read, Write, Execute, Accessed, Dirty}

  function StackFlags(user: bool): set<Flag> {
    {Valid, Read, Write, Accessed, Dirty} + if user then {User} else {}
  }

  predicate OfStack(st: Stack, f: nat) { st.base <= f < st.base + st.pages + 1 }

  /** The frames `base` to `base + n`. */
  function Range(base: nat, n: nat): (r: set<nat>)
    ensures forall f: nat :: f in r <==> base <= f < base + n
  {
    if n == 0 then {} else Range(base, n - 1) + {base + n - 1}
  }

  function FramesOf(pages: seq<PageFrame>): (r: set<nat>)
    ensures forall k :: 0 <= k < |pages| ==> pages[k].frame in r
    ensures forall f :: f in r ==> exists k :: 0 <= k < |pages| && pages[k].frame == f
  {
    if pages == [] then {} else FramesOf(pages[..|pages| - 1]) + {pages[|pages| - 1].frame}
  }

  /** The entry of a page is the same in both tables. */
  ghost predicate SamePte(pt: map<nat, Pte>, pt': map<nat, Pte>, page: nat) {
    (page in pt' <==> page in pt) && (page in pt ==> pt'[page] == pt[page])
  }

  /** `n` frames from `base` on lie in RAM and are free. */
  predicate FreeAt(lo: nat, hi: nat, used: set<nat>, base: nat, n: nat) {
    lo <= base && base + n <= hi && forall f :: base <= f < base + n ==> f !in used
  }

  ghost predicate NoRun(lo: nat, hi: nat, used: set<nat>, n: nat) {
    forall b: nat :: !FreeAt(lo, hi, used, b, n)
  }

  function Identity(f: nat): Pte { Pte(f, KERNEL_RWX) }

  function Translate(pt: map<nat, Pte>, page: nat): Option<nat> {
    if page in pt then Some(pt[page].frame) else None
  }

  // ---- unmapping a cell's pages ----------------------------------------

  /** Unmaps the first `n` pages of a cell, each only while it shows the cell's frame. */
  function UnmapEach(pt: map<nat, Pte>, pages: seq<PageFrame>, n: nat): map<nat, Pte>
    requires n <= |pages|
  {
    if n == 0 then pt
    else
      var p1, pf := UnmapEach(pt, pages, n - 1), pages[n - 1];
      if Translate(p1, pf.page) == Some(pf.frame) then p1 - {pf.page} else p1
  }

  /** Pages are only taken away, and only ones that showed a frame of this cell. */
  lemma {:induction false} UnmapEachFrame(pt: map<nat, Pte>, pages: seq<PageFrame>, n: nat)
    requires n <= |pages|
    ensures var pt' := UnmapEach(pt, pages, n);
            && (forall page :: page in pt' ==> page in pt && pt'[page] == pt[page])
            && (forall page :: page in pt && page !in pt' ==> exists k :: 0 <= k < n && pages[k] == PageFrame(page, pt[page].frame))
  {
    if n > 0 {
      UnmapEachFrame(pt, pages, n - 1);
      var p1, pt' := UnmapEach(pt, pages, n - 1), UnmapEach(pt, pages, n);
      forall page | page in pt && page !in pt'
        ensures exists k :: 0 <= k < n && pages[k] == PageFrame(page, pt[page].frame)
      {
        if page !in p1 {
          var k :| 0 <= k < n - 1 && pages[k] == PageFrame(page, pt[page].frame);
        } else {
          assert pages[n - 1] == PageFrame(page, pt[page].frame);
        }
      }
    }
  }

  /** The page table finds room for every page of a run but the first. */
  ghost predicate RoomFor(room: nat -> bool, base: nat, total: nat) {
    forall f: nat :: base < f < base + total ==> room(f)
  }

  /** A contiguous allocation: a free run that is now in use, or none where there is none. */
  ghost predicate TookRun(lo: nat, hi: nat, used: set<nat>, used': set<nat>, run: Option<nat>, n: nat) {
    if run.None? then NoRun(lo, hi, used, n) && used' == used
    else FreeAt(lo, hi, used, run.value, n) && used' == used + Range(run.value, n)
  }

  lemma TookMeans(lo: nat, hi: nat, used: set<nat>, used': set<nat>, run: Option<nat>, n: nat)
    requires n > 0 && TookRun(lo, hi, used, used', run, n)
    ensures used' == used <==> NoRun(lo, hi, used, n)
  {
    if run.Some? { assert run.value in Range(run.value, n); }
  }

  class Machine {
    /** Managed RAM is the frames `lo` to `hi`. */
    const lo: nat
    const hi: nat
    var pt: map<nat, Pte>
    var used: set<nat>
    var bytes: map<nat, seq<Byte>>
    var nextCell: nat
    ghost var stacks: set<Stack>
    /** Cells whose segments are not dropped yet, and those of them still mapped. */
    ghost var cells: set<CellSegments>
    ghost var live: set<CellSegments>
    ghost var owner: map<nat, Owner>

    ghost predicate Ram(f: nat) { lo <= f < hi }

    ghost predicate OnStack(f: nat)
      reads this`owner
    {
      f in owner && !owner[f].InCell?
    }

    /** Frames are held by one owner each. */
    ghost predicate Owned()
      reads this`stacks, this`cells, this`owner, this`used, this`nextCell
    {
      && (forall f :: f in used ==> Ram(f))
      && owner.Keys <= used
      && (forall st, f :: st in stacks && OfStack(st, f) ==> f in owner && owner[f] == InStack(st))
      && (forall c, k :: c in cells && 0 <= k < |c.pages| ==> c.pages[k].frame in owner && owner[c.pages[k].frame] == InCell(c, k))
      && (forall c, k :: c in cells && 0 <= k < |c.pages| ==> !Ram(c.pages[k].page))
      && (forall c :: c in cells ==> c.id < nextCell)
    }

    /** Every frame that is not part of a stack is identity-mapped, kernel RWX. */
    ghost predicate IdentityMapped()
      reads this`pt, this`owner
    {
      forall f :: Ram(f) && !OnStack(f) ==> f in pt && pt[f] == Identity(f)
    }

    /** Every page of a cell still mapped shows that cell's own frame. */
    ghost predicate LiveMapped()
      reads this`pt, this`live, this`cells
    {
      && live <= cells
      && forall c, k :: c in live && 0 <= k < |c.pages| ==> Translate(pt, c.pages[k].page) == Some(c.pages[k].frame)
    }

    ghost predicate Stored()
      reads this`bytes
    {
      forall f :: Ram(f) ==> f in bytes && |bytes[f]| == PAGE
    }

    ghost predicate Valid()
      reads this
    {
      Owned() && IdentityMapped() && LiveMapped() && Stored()
    }

    /** What the loader and every other user of a fresh frame rely on. */
    lemma FreeFramesUsable()
      requires Valid()
      ensures forall f :: Ram(f) && f !in used ==> f in pt && pt[f] == Identity(f)
    {}

    constructor (ramLo: nat, ramHi: nat, boot: map<nat, Pte>, content: map<nat, seq<Byte>>)
      requires forall f :: ramLo <= f < ramHi ==> f in boot && boot[f] == Identity(f)
      requires forall f :: ramLo <= f < ramHi ==> f in content && |content[f]| == PAGE
      ensures Valid() && lo == ramLo && hi == ramHi && pt == boot && used == {} && cells == {} && stacks == {}
    {
      lo, hi, pt, used, bytes, nextCell := ramLo, ramHi, boot, {}, content, 0;
      stacks, cells, live, owner := {}, {}, {}, map[];
    }

    // ---- stacks --------------------------------------------------------

    /** Some free run of `n` frames, when there is one. */
    method AllocateContiguous(n: nat) returns (r: Option<nat>)
      modifies `used
      ensures r.None? ==> used == old(used) && NoRun(lo, hi, used, n)
      ensures r.Some? ==> FreeAt(lo, hi, old(used), r.value, n) && used == old(used) + Range(r.value, n)
    {
      var b := lo;
      while b + n <= hi
        invariant lo <= b && forall x: nat :: x < b ==> !FreeAt(lo, hi, used, x, n)
      {
        if forall f :: b <= f < b + n ==> f !in used {
          used := used + Range(b, n);
          return Some(b);
        }
        b := b + 1;
      }
      return None;
    }

    /** The frames of a stack under construction. */
    ghost predicate Pending(base: nat, total: nat)
      reads this`owner
    {
      forall f :: base <= f < base + total ==> Ram(f) && f in owner && owner[f] == Lost
    }

    method TakeRun(total: nat) returns (run: Option<nat>)
      requires Valid()
      modifies `used, `owner
      ensures Valid() && (run.Some? ==> Pending(run.value, total))
      ensures TookRun(lo, hi, old(used), used, run, total)
    {
      run := AllocateContiguous(total);
      if run.Some? {
        ghost var mine := Range(run.value, total);
        owner := map f | f in owner.Keys + mine :: if f in mine then Lost else owner[f];
      }
    }

    /** Maps the pages above the guard page; stops where the table finds no room. */
    method MapUsable(base: nat, total: nat, user: bool, room: nat -> bool) returns (ok: bool)
      requires total > 0 && IdentityMapped() && Pending(base, total)
      modifies `pt
      ensures IdentityMapped()
      ensures forall page: nat :: !(base < page < base + total) ==> SamePte(old(pt), pt, page)
      ensures ok ==> forall f :: base < f < base + total ==> f in pt && pt[f] == Pte(f, StackFlags(user))
      ensures ok <==> RoomFor(room, base, total)
    {
      var i := 1;
      while i < total
        invariant 1 <= i <= total && IdentityMapped()
        invariant forall page: nat :: !(base < page < base + total) ==> SamePte(old(pt), pt, page)
        invariant forall f :: base < f < base + i ==> f in pt && pt[f] == Pte(f, StackFlags(user))
        invariant RoomFor(room, base, i)
      {
        if !room(base + i) { return false; }
        ghost var pt1 := pt;
        pt := pt[base + i := Pte(base + i, StackFlags(user))];
        forall page: nat | !(base < page < base + total)
          ensures SamePte(old(pt), pt, page)
        {
          assert SamePte(old(pt), pt1, page);
        }
        i := i + 1;
      }
      return true;
    }

    /** The finished stack takes over its frames. */
    ghost method Adopt(st: Stack)
      requires Valid() && Pending(st.base, st.pages + 1)
      modifies `owner, `stacks
      ensures Valid() && stacks == old(stacks) + {st} && st !in old(stacks)
    {
      assert OfStack(st, st.base);
      owner := map f | f in owner.Keys :: if OfStack(st, f) then InStack(st) else owner[f];
      stacks := stacks + {st};
    }

    /** Maps the usable pages, then drops the guard page. `room` says for which pages
        the page table finds room. It fails when there is no free run, which leaves the
        allocator as it was, or when the table has no room for a usable page, which
        leaves the whole run allocated for good. */
    method AllocateStack(pages: nat, user: bool, room: nat -> bool)
      returns (r: Result<Stack, LoadError>, ghost base: Option<nat>)
      requires Valid()
      modifies this
      ensures Valid() && cells == old(cells) && live == old(live) && bytes == old(bytes)
      ensures r.Ok? ==> base == Some(r.value.base) && r.value.pages == pages
      ensures r.Ok? ==> stacks == old(stacks) + {r.value} && r.value !in old(stacks)
      ensures r.Ok? ==> r.value.base !in pt
                        && forall f :: r.value.base < f < r.value.base + pages + 1 ==> f in pt && pt[f] == Pte(f, StackFlags(user))
      ensures r.Err? ==> stacks == old(stacks)
      ensures TookRun(lo, hi, old(used), used, base, pages + 1)
      ensures used == old(used) <==> NoRun(lo, hi, old(used), pages + 1)
      ensures r.Ok? <==> base.Some? && RoomFor(room, base.value, pages + 1)
      ensures forall page: nat :: !Ram(page) ==> SamePte(old(pt), pt, page)
    {
      var run := TakeRun(pages + 1);
      base, r := run, Err(OutOfMemory);
      TookMeans(lo, hi, old(used), used, run, pages + 1);
      if run.Some? {
        var ok := BuildStack(run.value, pages, user, room);
        if ok { r := Ok(Stack(run.value, pages)); }
      }
    }

    /** Turns a run of frames into a stack, unless a usable page finds no room. */
    method BuildStack(base: nat, pages: nat, user: bool, room: nat -> bool) returns (ok: bool)
      requires Valid() && Pending(base, pages + 1)
      modifies `pt, `owner, `stacks
      ensures Valid()
      ensures ok <==> RoomFor(room, base, pages + 1)
      ensures ok ==> stacks == old(stacks) + {Stack(base, pages)} && Stack(base, pages) !in old(stacks)
      ensures ok ==> base !in pt && forall f :: base < f < base + pages + 1 ==>
                f in pt && pt[f] == Pte(f, StackFlags(user))
      ensures !ok ==> stacks == old(stacks)
      ensures forall page: nat :: !Ram(page) ==> SamePte(old(pt), pt, page)
    {
      ghost var pt0 := pt;
      ok := MapUsable(base, pages + 1, user, room);
      assert forall page: nat :: !Ram(page) ==> SamePte(pt0, pt, page);
      LiveElsewhere(pt0);
      if ok {
        DropGuard(base, pt0);
        Adopt(Stack(base, pages));
      }
    }

    method DropGuard(base: nat, ghost pt0: map<nat, Pte>)
      requires Valid() && OnStack(base) && Ram(base) && forall page: nat :: !Ram(page) ==> SamePte(pt0, pt, page)
      modifies `pt
      ensures Valid() && pt == old(pt) - {base} && forall page: nat :: !Ram(page) ==> SamePte(pt0, pt, page)
    {
      ghost var pt1 := pt;
      pt := pt - {base};
      forall page: nat | !Ram(page)
        ensures SamePte(pt0, pt, page) && SamePte(pt1, pt, page)
      {
        assert SamePte(pt0, pt1, page);
      }
      LiveElsewhere(pt1);
    }

    /** Changes to the mappings of RAM pages leave every cell's pages alone. */
    lemma LiveElsewhere(pt0: map<nat, Pte>)
      requires live <= cells && (forall c, k :: c in cells && 0 <= k < |c.pages| ==> !Ram(c.pages[k].page))
      requires forall page: nat :: !Ram(page) ==> SamePte(pt0, pt, page)
      requires forall c, k :: c in live && 0 <= k < |c.pages| ==>
                 Translate(pt0, c.pages[k].page) == Some(c.pages[k].frame)
      ensures LiveMapped()
    {
      forall c, k | c in live && 0 <= k < |c.pages|
        ensures Translate(pt, c.pages[k].page) == Some(c.pages[k].frame)
      {
        assert SamePte(pt0, pt, c.pages[k].page);
      }
    }

    method RestoreFrames(st: Stack)
      modifies `pt, `used
      ensures used == old(used) - Range(st.base, st.pages + 1)
      ensures forall f :: OfStack(st, f) ==> f in pt && pt[f] == Identity(f)
      ensures forall page :: !OfStack(st, page) ==> SamePte(old(pt), pt, page)
    {
      for i := 0 to st.pages + 1
        invariant used == old(used) - Range(st.base, i)
        invariant forall f :: st.base <= f < st.base + i ==> f in pt && pt[f] == Identity(f)
        invariant forall page :: !OfStack(st, page) ==> SamePte(old(pt), pt, page)
      {
        var frame := st.base + i;
        pt := pt - {frame};
        pt := pt[frame := Identity(frame)];
        used := used - {frame};
      }
    }

    /** Nobody holds these frames any more. */
    ghost method Release(mine: set<nat>)
      modifies `owner
      ensures owner.Keys == old(owner).Keys - mine
      ensures forall f :: f in owner ==> owner[f] == old(owner)[f]
    {
      owner := map f | f in owner.Keys - mine :: owner[f];
    }

    /** Restores every frame to its boot mapping and gives it back. */
    method DropStack(st: Stack)
      requires Valid() && st in stacks
      modifies this
      ensures Valid() && cells == old(cells) && live == old(live) && stacks == old(stacks) - {st}
      ensures used == old(used) - Range(st.base, st.pages + 1)
      ensures forall page: nat :: !Ram(page) ==> SamePte(old(pt), pt, page)
    {
      Disown(st);
      RestoreFrames(st);
      LiveElsewhere(old(pt));
    }

    ghost method Disown(st: Stack)
      requires Valid() && st in stacks
      modifies `owner, `stacks
      ensures Owned() && LiveMapped() && stacks == old(stacks) - {st}
      ensures owner.Keys !! Range(st.base, st.pages + 1) && forall f :: OfStack(st, f) ==> Ram(f)
      ensures forall f :: Ram(f) && !OnStack(f) && !OfStack(st, f) ==> f in pt && pt[f] == Identity(f)
    {
      assert forall f :: OfStack(st, f) ==> f in owner && owner[f] == InStack(st);
      Release(Range(st.base, st.pages + 1));
      stacks := stacks - {st};
    }

    // ---- cells ---------------------------------------------------------

    /** At death: unmap what still shows our frames, free nothing. */
    method EagerUnmap(c: CellSegments)
      requires Valid() && c in cells
      modifies `pt, `live
      ensures Valid() && live == old(live) - {c}
      ensures pt == UnmapEach(old(pt), c.pages, |c.pages|)
    {
      UnmapPages(c);
      live := live - {c};
    }

    method UnmapPages(c: CellSegments)
      requires Valid() && c in cells
      modifies `pt
      ensures pt == UnmapEach(old(pt), c.pages, |c.pages|) && IdentityMapped()
      ensures forall d, k :: d in live - {c} && 0 <= k < |d.pages| ==>
                Translate(pt, d.pages[k].page) == Some(d.pages[k].frame)
    {
      ghost var pt0 := pt;
      for i := 0 to |c.pages|
        invariant pt == UnmapEach(pt0, c.pages, i)
      {
        if Translate(pt, c.pages[i].page) == Some(c.pages[i].frame) { pt := pt - {c.pages[i].page}; }
      }
      UnmapEachFrame(pt0, c.pages, |c.pages|);
      forall f | Ram(f) && !OnStack(f)
        ensures f in pt && pt[f] == Identity(f)
      {
        assert f in pt0 && pt0[f] == Identity(f);
        assert forall k :: 0 <= k < |c.pages| ==> !Ram(c.pages[k].page);
      }
      forall d, k | d in live - {c} && 0 <= k < |d.pages|
        ensures Translate(pt, d.pages[k].page) == Some(d.pages[k].frame)
      {
        OthersNotOurs(c, d, k);
      }
    }

    /** No frame of this cell is a frame of another. */
    lemma OthersNotOurs(c: CellSegments, d: CellSegments, k: nat)
      requires Owned() && c in cells && d in cells && d != c && k < |d.pages|
      ensures forall j :: 0 <= j < |c.pages| ==> c.pages[j].frame != d.pages[k].frame
    {
      forall j | 0 <= j < |c.pages|
        ensures c.pages[j].frame != d.pages[k].frame
      {
        assert owner[c.pages[j].frame] == InCell(c, j) && owner[d.pages[k].frame] == InCell(d, k);
      }
    }

    /** When the zombie is reaped: unmap what is still ours, free every frame. The
        mappings of every other cell stay, in particular those of a respawn at the
        same addresses. */
    method DropSegments(c: CellSegments)
      requires Valid() && c in cells
      modifies this
      ensures Valid() && cells == old(cells) - {c} && live == old(live) - {c} && stacks == old(stacks)
      ensures pt == UnmapEach(old(pt), c.pages, |c.pages|)
      ensures used == old(used) - FramesOf(c.pages)
      ensures forall d, k :: d in live && 0 <= k < |d.pages| ==>
                Translate(pt, d.pages[k].page) == old(Translate(pt, d.pages[k].page))
    {
      UnmapPages(c);
      FreeFrames(c);
      Release(FramesOf(c.pages));
      cells := cells - {c};
      live := live - {c};
    }

    method FreeFrames(c: CellSegments)
      modifies `used
      ensures used == old(used) - FramesOf(c.pages)
    {
      for i := 0 to |c.pages|
        invariant used == old(used) - FramesOf(c.pages[..i])
      {
        assert c.pages[..i + 1][..i] == c.pages[..i];
        used := used - {c.pages[i].frame};
      }
      assert c.pages[..|c.pages|] == c.pages;
    }
  }
}
