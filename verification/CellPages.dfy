/** What loading the PT_LOAD segments of a cell must put where: the byte wanted at
    every address and the flags wanted on every page.
    Source: kernel/src/loader/elf.rs, `load_segments`. */
module CellPages {
  import opened ByteData
  import opened Wrappers

  const PAGE: nat := 4096
  const USER_VADDR_MAX: nat := 0x40_0000_0000
  const USIZE: nat := 0x1_0000_0000_0000_0000

  datatype Flag = Valid | Read | Write | Execute | User | Accessed | Dirty

  /** A page-table entry: the frame a page shows, and its permissions. */
  datatype Pte = Pte(frame: nat, flags: set<Flag>)

  /** The loader reports the middle two as the same `PermissionDenied`. */
  datatype LoadError = InvalidInput | OutsideUserSpace | Collision | OutOfMemory

  /** A PT_LOAD program header, with `vaddr` already relocated. */
  datatype Segment = Segment(vaddr: nat, memSize: nat, fileSize: nat, offset: nat, read: bool, write: bool, exec: bool)

  /** A page mapped for the cell being loaded. */
  datatype Mapped = Mapped(page: nat, frame: nat, flags: set<Flag>)

  function PermBits(s: Segment): set<Flag> {
    {Valid, User, Accessed} + (if s.read then {Read} else {}) + (if s.write then {Write, Dirty} else {})
    + (if s.exec then {Execute} else {})
  }

  /** First page, and page after the last, touched by a segment. */
  function StartPage(s: Segment): nat { s.vaddr / PAGE }

  function EndPage(s: Segment): nat { (s.vaddr + s.memSize + PAGE - 1) / PAGE }

  predicate Touches(s: Segment, page: nat) { StartPage(s) <= page < EndPage(s) }

  /** The header checks of the loader, in order. */
  function CheckSegment(s: Segment, len: nat): Option<LoadError> {
    if s.fileSize > s.memSize then Some(InvalidInput)
    else if s.offset + s.fileSize >= USIZE || s.offset + s.fileSize > len then Some(InvalidInput)
    else if s.vaddr + s.memSize >= USIZE then Some(InvalidInput)
    else if s.vaddr >= USER_VADDR_MAX || s.vaddr + s.memSize > USER_VADDR_MAX then Some(OutsideUserSpace)
    else None
  }

  ghost predicate Fits(s: Segment, len: nat) {
    s.fileSize <= s.memSize && s.offset + s.fileSize <= len
  }

  // ---- wanted bytes ----------------------------------------------------

  predicate InFile(s: Segment, a: nat) { s.vaddr <= a < s.vaddr + s.fileSize }

  predicate InSegment(s: Segment, a: nat) { s.vaddr <= a < s.vaddr + s.memSize }

  /** The byte at address `a` once the first `n` segments are loaded: from the file
      where one of them has it there, else zero. */
  ghost function Want(data: seq<Byte>, segs: seq<Segment>, n: nat, a: nat): Byte
    requires n <= |segs| && forall k :: 0 <= k < n ==> Fits(segs[k], |data|)
  {
    if n == 0 then 0
    else if InFile(segs[n - 1], a) then
      assert Fits(segs[n - 1], |data|);
      data[segs[n - 1].offset + (a - segs[n - 1].vaddr)]
    else Want(data, segs, n - 1, a)
  }

  ghost function ByteWant(data: seq<Byte>, segs: seq<Segment>, n: nat, page: nat, o: nat): Byte
    requires n <= |segs| && forall k :: 0 <= k < n ==> Fits(segs[k], |data|)
  {
    Want(data, segs, n, page * PAGE + o)
  }

  ghost function PageWant(data: seq<Byte>, segs: seq<Segment>, n: nat, page: nat): (r: seq<Byte>)
    requires n <= |segs| && forall k :: 0 <= k < n ==> Fits(segs[k], |data|)
    ensures |r| == PAGE
  {
    seq(PAGE, (o: nat) => ByteWant(data, segs, n, page, o))
  }

  /** The permissions wanted on a page: those of every segment that touches it. */
  ghost function FlagsWant(segs: seq<Segment>, n: nat, page: nat): set<Flag>
    requires n <= |segs|
  {
    if n == 0 then {}
    else FlagsWant(segs, n - 1, page) + if Touches(segs[n - 1], page) then PermBits(segs[n - 1]) else {}
  }

  ghost predicate Disjoint(segs: seq<Segment>) {
    forall i, j, a: nat :: 0 <= i < j < |segs| && InSegment(segs[i], a) ==> !InSegment(segs[j], a)
  }

  /** For disjoint segments the wanted byte of an address is its own segment's: file
      bytes in the file range, zero in the rest. */
  lemma {:induction false} WantIsOwn(data: seq<Byte>, segs: seq<Segment>, n: nat, i: nat, a: nat)
    requires i < n <= |segs| && (forall k :: 0 <= k < n ==> Fits(segs[k], |data|)) && Disjoint(segs)
    requires InSegment(segs[i], a)
    ensures Want(data, segs, n, a) == if InFile(segs[i], a) then data[segs[i].offset + (a - segs[i].vaddr)] else 0
  {
    if i == n - 1 {
      if !InFile(segs[i], a) { WantNothing(data, segs, i, i, a); }
    } else {
      assert !InSegment(segs[n - 1], a);
      WantIsOwn(data, segs, n - 1, i, a);
    }
  }

  lemma NotBoth(segs: seq<Segment>, i: nat, j: nat, a: nat)
    requires i < j < |segs| && Disjoint(segs)
    ensures !(InSegment(segs[i], a) && InSegment(segs[j], a))
  {}

  lemma {:induction false} WantNothing(data: seq<Byte>, segs: seq<Segment>, n: nat, i: nat, a: nat)
    requires n <= i < |segs| && (forall k :: 0 <= k < n ==> Fits(segs[k], |data|)) && Disjoint(segs)
    requires InSegment(segs[i], a)
    ensures Want(data, segs, n, a) == 0
  {
    if n > 0 {
      NotBoth(segs, n - 1, i, a);
      WantNothing(data, segs, n - 1, i, a);
    }
  }

  // ---- pages and addresses ---------------------------------------------

  /** An address of a segment lies on a page the segment touches. */
  lemma AddressTouches(s: Segment, page: nat, o: nat)
    requires o < PAGE && InSegment(s, page * PAGE + o)
    ensures Touches(s, page)
  {
    var a, e := page * PAGE + o, s.vaddr + s.memSize + PAGE - 1;
    assert a / PAGE == page;
    assert s.vaddr / PAGE <= page;
    assert e / PAGE >= (page * PAGE + PAGE) / PAGE;
  }

  /** A page no segment touched so far wants nothing but zeros. */
  lemma {:induction false} UntouchedZero(data: seq<Byte>, segs: seq<Segment>, n: nat, page: nat, o: nat)
    requires n <= |segs| && (forall k :: 0 <= k < n ==> Fits(segs[k], |data|)) && o < PAGE
    requires forall k :: 0 <= k < n ==> !Touches(segs[k], page)
    ensures Want(data, segs, n, page * PAGE + o) == 0
  {
    if n > 0 {
      UntouchedZero(data, segs, n - 1, page, o);
      if InFile(segs[n - 1], page * PAGE + o) { AddressTouches(segs[n - 1], page, o); }
    }
  }

  /** A page the last segment does not touch is as wanted already. */
  lemma UntouchedSame(data: seq<Byte>, segs: seq<Segment>, n: nat, page: nat)
    requires 0 < n <= |segs| && (forall k :: 0 <= k < n ==> Fits(segs[k], |data|)) && !Touches(segs[n - 1], page)
    ensures PageWant(data, segs, n, page) == PageWant(data, segs, n - 1, page)
  {
    forall o: nat | o < PAGE
      ensures ByteWant(data, segs, n, page, o) == ByteWant(data, segs, n - 1, page, o)
    {
      if InFile(segs[n - 1], page * PAGE + o) { AddressTouches(segs[n - 1], page, o); }
    }
  }

  // ---- copying one page ------------------------------------------------

  /** The part of a segment's file range that lies on a page, as addresses. */
  function CopyFrom(s: Segment, page: nat): nat { Max(page * PAGE, s.vaddr) }

  function CopyTo(s: Segment, page: nat): nat { Min(page * PAGE + PAGE, s.vaddr + s.fileSize) }

  /** Copying that part turns a page that is right for the earlier segments into one
      that is right for this segment too. */
  lemma CopyPage(data: seq<Byte>, segs: seq<Segment>, n: nat, page: nat)
    requires 0 < n <= |segs| && (forall k :: 0 <= k < n ==> Fits(segs[k], |data|))
    ensures var s := segs[n - 1];
            var (from, to) := (CopyFrom(s, page), CopyTo(s, page));
            if from < to then
              && page * PAGE <= from && to <= page * PAGE + PAGE && s.vaddr <= from
              && s.offset + (to - s.vaddr) <= |data|
              && PageWant(data, segs, n, page)
                 == Splice(PageWant(data, segs, n - 1, page), from - page * PAGE,
                              data[s.offset + (from - s.vaddr)..s.offset + (to - s.vaddr)])
            else PageWant(data, segs, n, page) == PageWant(data, segs, n - 1, page)
  {
    var s := segs[n - 1];
    assert Fits(s, |data|);
    var from, to := CopyFrom(s, page), CopyTo(s, page);
    forall o: nat | o < PAGE
      ensures PageWant(data, segs, n, page)[o]
           == if from <= page * PAGE + o < to then data[s.offset + (page * PAGE + o - s.vaddr)] else PageWant(data, segs, n - 1, page)[o]
    {
      assert ByteWant(data, segs, n, page, o) == Want(data, segs, n, page * PAGE + o);
    }
  }
}
