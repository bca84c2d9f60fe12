/** Loading the PT_LOAD segments of a cell, page by page, into fresh frames.
    Source: kernel/src/loader/elf.rs, `load_segments`. */
module CellLoad {
  import opened ByteData
  import opened Wrappers
  import opened CellPages
  import opened CellMemory

  // ---- bookkeeping -----------------------------------------------------

  ghost predicate HasPage(mapped: seq<Mapped>, page: nat) {
    exists k :: 0 <= k < |mapped| && mapped[k].page == page
  }

  ghost predicate HasFrame(mapped: seq<Mapped>, frame: nat) {
    exists k :: 0 <= k < |mapped| && mapped[k].frame == frame
  }

  /** The pages mapped so far are new, each tracked once with its own new frame, and
      nothing else in the page table or the allocator has changed. */
  ghost predicate Tracked(pt: map<nat, Pte>, used: set<nat>, pt0: map<nat, Pte>, used0: set<nat>, mapped: seq<Mapped>) {
    && (forall k :: 0 <= k < |mapped| ==>
          && mapped[k].page in pt && pt[mapped[k].page] == Pte(mapped[k].frame, mapped[k].flags)
          && mapped[k].page !in pt0 && mapped[k].frame !in used0 && mapped[k].frame in used)
    && (forall j, k :: 0 <= j < k < |mapped| ==> mapped[j].page != mapped[k].page && mapped[j].frame != mapped[k].frame)
    && (forall page :: page in pt0 ==> page in pt && pt[page] == pt0[page])
    && (forall page :: page in pt && page !in pt0 ==> HasPage(mapped, page))
    && used0 <= used && (forall f :: f in used && f !in used0 ==> HasFrame(mapped, f))
  }

  /** What an interrupted load leaves behind: the pages it mapped, and a frame it took
      and could not map. */
  datatype Residue = Residue(mapped: seq<Mapped>, spare: set<nat>)

  ghost predicate Left(pt: map<nat, Pte>, used: set<nat>, pt0: map<nat, Pte>, used0: set<nat>, left: Residue) {
    left.spare <= used && |left.spare| <= 1 && Tracked(pt, used - left.spare, pt0, used0, left.mapped)
  }

  const NOTHING := Residue([], {})

  /** The state is as before the load if and only if nothing is left behind. */
  lemma LeftNothing(pt: map<nat, Pte>, used: set<nat>, pt0: map<nat, Pte>, used0: set<nat>, left: Residue)
    requires Left(pt, used, pt0, used0, left)
    ensures pt == pt0 && used == used0 <==> left == NOTHING
  {
    if left == NOTHING {
      assert forall x: nat :: !HasPage([], x) && !HasFrame([], x);
      assert pt == pt0;
      assert used - {} == used;
    } else if left.mapped != [] {
      assert left.mapped[0].page in pt && left.mapped[0].page !in pt0;
    } else {
      var f :| f in left.spare;
      assert f !in used0;
    }
  }

  /** How many segments page `page` is finished for, when segment `i` is being loaded
      and has reached page `p`. */
  ghost function Progress(segs: seq<Segment>, i: nat, p: nat, page: nat): nat {
    if i < |segs| && StartPage(segs[i]) <= page < p then i + 1 else i
  }

  ghost predicate FitTo(segs: seq<Segment>, n: nat, len: nat) {
    forall k :: 0 <= k < n && k < |segs| ==> Fits(segs[k], len)
  }

  ghost predicate EntryOk(bytes: map<nat, seq<Byte>>, m: Mapped, data: seq<Byte>, segs: seq<Segment>, nb: nat, nf: nat)
    requires nb <= |segs| && nf <= |segs| && FitTo(segs, nb, |data|)
  {
    m.frame in bytes && bytes[m.frame] == PageWant(data, segs, nb, m.page) && m.flags == FlagsWant(segs, nf, m.page)
  }

  /** Every mapped page holds the bytes and flags wanted for the segments it is
      finished for; `half` marks page `p` as mapped but not copied yet. */
  ghost predicate Filled(bytes: map<nat, seq<Byte>>, mapped: seq<Mapped>, data: seq<Byte>, segs: seq<Segment>, i: nat,
                         p: nat, half: bool)
    requires i < |segs| && FitTo(segs, i + 1, |data|)
  {
    forall k :: 0 <= k < |mapped| ==>
      if half && mapped[k].page == p then EntryOk(bytes, mapped[k], data, segs, i, i + 1)
      else EntryOk(bytes, mapped[k], data, segs, Progress(segs, i, p, mapped[k].page),
                   Progress(segs, i, p, mapped[k].page))
  }

  /** Every page touched so far is mapped. */
  ghost predicate Covers(mapped: seq<Mapped>, segs: seq<Segment>, i: nat, p: nat) {
    && (forall j, page :: 0 <= j < i && j < |segs| && Touches(segs[j], page) ==> HasPage(mapped, page))
    && (forall page: nat :: i < |segs| && Touches(segs[i], page) && page < p ==> HasPage(mapped, page))
  }

  // ---- one page --------------------------------------------------------

  method FindMapped(mapped: seq<Mapped>, page: nat) returns (r: Option<nat>)
    ensures r.Some? ==> r.value < |mapped| && mapped[r.value].page == page
    ensures r.None? ==> !HasPage(mapped, page)
  {
    for k := 0 to |mapped|
      invariant forall j :: 0 <= j < k ==> mapped[j].page != page
    {
      if mapped[k].page == page { return Some(k); }
    }
    return None;
  }

  lemma HasUpdate(mapped: seq<Mapped>, k: nat, flags: set<Flag>, x: nat)
    requires k < |mapped|
    ensures var m' := mapped[k := mapped[k].(flags := flags)];
            (HasPage(mapped, x) ==> HasPage(m', x)) && (HasFrame(mapped, x) ==> HasFrame(m', x))
  {
    var m' := mapped[k := mapped[k].(flags := flags)];
    if HasPage(mapped, x) { var j :| 0 <= j < |mapped| && mapped[j].page == x; assert m'[j].page == x; }
    if HasFrame(mapped, x) { var j :| 0 <= j < |mapped| && mapped[j].frame == x; assert m'[j].frame == x; }
  }

  lemma HasPush(mapped: seq<Mapped>, m: Mapped, x: nat)
    ensures HasPage(mapped, x) || x == m.page ==> HasPage(mapped + [m], x)
    ensures HasFrame(mapped, x) || x == m.frame ==> HasFrame(mapped + [m], x)
  {
    var m' := mapped + [m];
    assert m'[|mapped|] == m;
    if HasPage(mapped, x) { var j :| 0 <= j < |mapped| && mapped[j].page == x; assert m'[j].page == x; }
    if HasFrame(mapped, x) { var j :| 0 <= j < |mapped| && mapped[j].frame == x; assert m'[j].frame == x; }
  }

  /** Merging the flags of a page this cell already has. */
  lemma ShareTracked(pt: map<nat, Pte>, used: set<nat>, pt0: map<nat, Pte>, used0: set<nat>, mapped: seq<Mapped>,
                     k: nat, flags: set<Flag>)
    requires Tracked(pt, used, pt0, used0, mapped) && k < |mapped|
    ensures Tracked(pt[mapped[k].page := Pte(mapped[k].frame, flags)], used, pt0, used0,
                    mapped[k := mapped[k].(flags := flags)])
  {
    var mapped' := mapped[k := mapped[k].(flags := flags)];
    forall x: nat ensures HasPage(mapped, x) ==> HasPage(mapped', x) { HasUpdate(mapped, k, flags, x); }
    forall x: nat ensures HasFrame(mapped, x) ==> HasFrame(mapped', x) { HasUpdate(mapped, k, flags, x); }
  }

  /** Mapping a fresh frame at a page nobody has. */
  lemma FreshTracked(pt: map<nat, Pte>, used: set<nat>, pt0: map<nat, Pte>, used0: set<nat>, mapped: seq<Mapped>,
                     m: Mapped)
    requires Tracked(pt, used, pt0, used0, mapped) && m.page !in pt && m.frame !in used
    ensures Tracked(pt[m.page := Pte(m.frame, m.flags)], used + {m.frame}, pt0, used0, mapped + [m])
  {
    forall x: nat ensures HasPage(mapped, x) || x == m.page ==> HasPage(mapped + [m], x) { HasPush(mapped, m, x); }
    forall x: nat ensures HasFrame(mapped, x) || x == m.frame ==> HasFrame(mapped + [m], x) { HasPush(mapped, m, x); }
  }

  lemma {:induction false} NoFlags(segs: seq<Segment>, n: nat, page: nat)
    requires n <= |segs| && forall k :: 0 <= k < n ==> !Touches(segs[k], page)
    ensures FlagsWant(segs, n, page) == {}
  {
    if n > 0 { NoFlags(segs, n - 1, page); }
  }

  /** A fresh zeroed frame is right for the segments before this one. */
  lemma FreshFilled(bytes: map<nat, seq<Byte>>, mapped: seq<Mapped>, data: seq<Byte>, segs: seq<Segment>, i: nat,
                    page: nat, frame: nat)
    requires i < |segs| && FitTo(segs, i + 1, |data|) && Touches(segs[i], page)
    requires Filled(bytes, mapped, data, segs, i, page, false) && Covers(mapped, segs, i, page)
    requires !HasPage(mapped, page) && !HasFrame(mapped, frame)
    ensures Filled(bytes[frame := Zero()], mapped + [Mapped(page, frame, PermBits(segs[i]))], data, segs, i, page, true)
  {
    var bytes', mapped' := bytes[frame := Zero()], mapped + [Mapped(page, frame, PermBits(segs[i]))];
    NoFlags(segs, i, page);
    forall o: nat | o < PAGE ensures ByteWant(data, segs, i, page, o) == 0 { UntouchedZero(data, segs, i, page, o); }
    assert Zero() == PageWant(data, segs, i, page);
    forall k | 0 <= k < |mapped|
      ensures mapped'[k] == mapped[k] && mapped[k].page != page && mapped[k].frame != frame
    {}
  }

  function Zero(): (r: seq<Byte>)
    ensures |r| == PAGE && forall o :: 0 <= o < PAGE ==> r[o] == 0
  {
    seq(PAGE, (o: nat) => 0)
  }

  /** Merged flags are right for this segment too. */
  lemma ShareFilled(bytes: map<nat, seq<Byte>>, mapped: seq<Mapped>, data: seq<Byte>, segs: seq<Segment>, i: nat,
                    page: nat, k: nat)
    requires i < |segs| && FitTo(segs, i + 1, |data|) && Touches(segs[i], page)
    requires Filled(bytes, mapped, data, segs, i, page, false) && k < |mapped| && mapped[k].page == page
    requires forall j :: 0 <= j < |mapped| && j != k ==> mapped[j].page != page
    ensures Filled(bytes, mapped[k := mapped[k].(flags := mapped[k].flags + PermBits(segs[i]))], data, segs, i, page,
                   true)
  {
    var mapped' := mapped[k := mapped[k].(flags := mapped[k].flags + PermBits(segs[i]))];
    assert EntryOk(bytes, mapped[k], data, segs, i, i);
    forall j | 0 <= j < |mapped| && j != k ensures mapped'[j] == mapped[j] {}
  }

  /** Copying the page's part of the segment finishes the page. */
  lemma CopyFilled(bytes: map<nat, seq<Byte>>, mapped: seq<Mapped>, data: seq<Byte>, segs: seq<Segment>, i: nat,
                   page: nat, k: nat, content: seq<Byte>)
    requires i < |segs| && FitTo(segs, i + 1, |data|) && Touches(segs[i], page)
    requires Filled(bytes, mapped, data, segs, i, page, true) && k < |mapped| && mapped[k].page == page
    requires forall j :: 0 <= j < |mapped| && j != k ==> mapped[j].page != page && mapped[j].frame != mapped[k].frame
    requires content == PageWant(data, segs, i + 1, page)
    ensures Filled(bytes[mapped[k].frame := content], mapped, data, segs, i, page + 1, false)
  {
    var bytes' := bytes[mapped[k].frame := content];
    assert EntryOk(bytes, mapped[k], data, segs, i, i + 1);
    forall j | 0 <= j < |mapped|
      ensures EntryOk(bytes', mapped[j], data, segs, Progress(segs, i, page + 1, mapped[j].page),
                      Progress(segs, i, page + 1, mapped[j].page))
    {
      if j != k {
        assert EntryOk(bytes, mapped[j], data, segs, Progress(segs, i, page, mapped[j].page),
                       Progress(segs, i, page, mapped[j].page));
      }
    }
  }

  /** The next segment starts where this one ended. */
  lemma NextSegment(bytes: map<nat, seq<Byte>>, mapped: seq<Mapped>, data: seq<Byte>, segs: seq<Segment>, i: nat,
                    p: nat)
    requires i < |segs| && FitTo(segs, i + 1, |data|) && p >= EndPage(segs[i])
    requires Filled(bytes, mapped, data, segs, i, p, false) && Covers(mapped, segs, i, p)
    requires forall k :: 0 <= k < |mapped| ==> mapped[k].page < p || !Touches(segs[i], mapped[k].page)
    ensures forall k :: 0 <= k < |mapped| ==> EntryOk(bytes, mapped[k], data, segs, i + 1, i + 1)
  {
    forall k | 0 <= k < |mapped|
      ensures EntryOk(bytes, mapped[k], data, segs, i + 1, i + 1)
    {
      var n := Progress(segs, i, p, mapped[k].page);
      assert EntryOk(bytes, mapped[k], data, segs, n, n);
      if n == i { UntouchedSame(data, segs, i + 1, mapped[k].page); }
    }
  }

  // ---- the loader ------------------------------------------------------

  /** The books in the middle of a load. */
  ghost predicate Mid(pt: map<nat, Pte>, used: set<nat>, bytes: map<nat, seq<Byte>>, data: seq<Byte>,
                      segs: seq<Segment>, i: nat, p: nat, half: bool, mapped: seq<Mapped>, pt0: map<nat, Pte>,
                      used0: set<nat>) {
    && i < |segs| && FitTo(segs, i + 1, |data|)
    && Tracked(pt, used, pt0, used0, mapped)
    && Filled(bytes, mapped, data, segs, i, p, half) && Covers(mapped, segs, i, p)
  }

  // Carried behind a counter that the verifier does not count down by itself.
  ghost predicate MidTo(pt: map<nat, Pte>, used: set<nat>, bytes: map<nat, seq<Byte>>, data: seq<Byte>,
                        segs: seq<Segment>, i: nat, p: nat, half: bool, mapped: seq<Mapped>, pt0: map<nat, Pte>,
                        used0: set<nat>, depth: nat) {
    if depth == 0 then Mid(pt, used, bytes, data, segs, i, p, half, mapped, pt0, used0)
    else MidTo(pt, used, bytes, data, segs, i, p, half, mapped, pt0, used0, depth - 1)
  }

  lemma {:induction false} MidMeans(pt: map<nat, Pte>, used: set<nat>, bytes: map<nat, seq<Byte>>, data: seq<Byte>,
                                    segs: seq<Segment>, i: nat, p: nat, half: bool, mapped: seq<Mapped>,
                                    pt0: map<nat, Pte>, used0: set<nat>, depth: nat)
    ensures MidTo(pt, used, bytes, data, segs, i, p, half, mapped, pt0, used0, depth)
       <==> Mid(pt, used, bytes, data, segs, i, p, half, mapped, pt0, used0)
  {
    if depth > 0 { MidMeans(pt, used, bytes, data, segs, i, p, half, mapped, pt0, used0, depth - 1); }
  }

  /** The state in the middle of a load. */
  ghost predicate Loading(m: Machine, data: seq<Byte>, segs: seq<Segment>, i: nat, p: nat, half: bool,
                          mapped: seq<Mapped>, pt0: map<nat, Pte>, used0: set<nat>)
    reads m`pt, m`used, m`bytes
  {
    && i < |segs| && MidTo(m.pt, m.used, m.bytes, data, segs, i, p, half, mapped, pt0, used0, i + 3)
    && (forall k :: 0 <= k < |mapped| ==> !m.Ram(mapped[k].page) && mapped[k].flags != {})
    && m.Stored() && (forall f :: f in m.used ==> m.Ram(f))
  }

  /** Nothing that was there before is disturbed. */
  ghost predicate Undisturbed(m: Machine, pt0: map<nat, Pte>, used0: set<nat>)
    reads m`pt, m`used, m`bytes
  {
    && (forall page :: page in pt0 ==> page in m.pt && m.pt[page] == pt0[page])
    && used0 <= m.used && (forall f :: f in m.used ==> m.Ram(f)) && m.Stored()
  }

  method AllocateFrame(m: Machine) returns (r: Option<nat>)
    modifies m`used
    ensures r.None? ==> m.used == old(m.used) && forall f :: m.Ram(f) ==> f in m.used
    ensures r.Some? ==> m.Ram(r.value) && r.value !in old(m.used) && m.used == old(m.used) + {r.value}
  {
    var f := m.lo;
    while f < m.hi
      invariant m.lo <= f && forall x :: m.lo <= x < f ==> x in m.used
    {
      if f !in m.used {
        m.used := m.used + {f};
        return Some(f);
      }
      f := f + 1;
    }
    return None;
  }

  /** The rollback after a VA collision. */
  method Rollback(m: Machine, mapped: seq<Mapped>, ghost pt0: map<nat, Pte>, ghost used0: set<nat>)
    requires Tracked(m.pt, m.used, pt0, used0, mapped)
    modifies m`pt, m`used
    ensures m.pt == pt0 && m.used == used0
  {
    for i := 0 to |mapped|
      invariant Tracked(m.pt, m.used, pt0, used0, mapped[i..])
    {
      ghost var pt1, used1 := m.pt, m.used;
      m.pt := m.pt - {mapped[i].page};
      m.used := m.used - {mapped[i].frame};
      RollOne(pt1, used1, pt0, used0, mapped[i..]);
      assert mapped[i..][1..] == mapped[i + 1..] && mapped[i..][0] == mapped[i];
    }
    assert mapped[|mapped|..] == [];
  }

  lemma RollOne(pt: map<nat, Pte>, used: set<nat>, pt0: map<nat, Pte>, used0: set<nat>, rest: seq<Mapped>)
    requires Tracked(pt, used, pt0, used0, rest) && rest != []
    ensures Tracked(pt - {rest[0].page}, used - {rest[0].frame}, pt0, used0, rest[1..])
  {
    forall x: nat
      ensures HasPage(rest, x) && x != rest[0].page ==> HasPage(rest[1..], x)
      ensures HasFrame(rest, x) && x != rest[0].frame ==> HasFrame(rest[1..], x)
    {
      HasRest(rest, x);
    }
    forall k | 0 <= k < |rest[1..]| ensures rest[1..][k] == rest[k + 1] {}
  }

  lemma HasRest(rest: seq<Mapped>, x: nat)
    requires rest != []
    ensures HasPage(rest, x) && x != rest[0].page ==> HasPage(rest[1..], x)
    ensures HasFrame(rest, x) && x != rest[0].frame ==> HasFrame(rest[1..], x)
  {
    if HasPage(rest, x) && x != rest[0].page {
      var k :| 0 <= k < |rest| && rest[k].page == x;
      assert rest[1..][k - 1].page == x;
    }
    if HasFrame(rest, x) && x != rest[0].frame {
      var k :| 0 <= k < |rest| && rest[k].frame == x;
      assert rest[1..][k - 1].frame == x;
    }
  }

  lemma NothingTracked(pt: map<nat, Pte>, used: set<nat>)
    ensures Left(pt, used, pt, used, NOTHING)
  {
    assert used - {} == used;
  }

  /** Why a page of a segment fails, and what is left then: the page was mapped before
      the load and everything is undone, or no frame is left, or the table has no room
      for the page and the frame just taken stays taken. */
  ghost predicate PageFails(m: Machine, page: nat, room: nat -> bool, pt0: map<nat, Pte>, used0: set<nat>,
                            error: LoadError, left: Residue)
    reads m`pt, m`used
  {
    && Left(m.pt, m.used, pt0, used0, left)
    && (error == Collision || error == OutOfMemory)
    && (error == Collision ==> page in pt0 && left == NOTHING)
    && (error == OutOfMemory ==> if left.spare == {} then forall f :: m.Ram(f) ==> f in m.used else !room(page))
  }

  /** Finds or makes the frame behind a page: shares the cell's own page, refuses a
      page mapped by anyone else, or maps a zeroed fresh frame. */
  method ObtainPage(m: Machine, data: seq<Byte>, segs: seq<Segment>, i: nat, page: nat, mapped: seq<Mapped>,
                    room: nat -> bool, ghost pt0: map<nat, Pte>, ghost used0: set<nat>)
    returns (r: Result<(seq<Mapped>, nat), LoadError>, ghost left: Residue)
    requires Loading(m, data, segs, i, page, false, mapped, pt0, used0) && Touches(segs[i], page) && !m.Ram(page)
    modifies m`pt, m`used, m`bytes
    ensures r.Ok? ==> Loading(m, data, segs, i, page, true, r.value.0, pt0, used0)
    ensures r.Ok? ==> r.value.1 < |r.value.0| && r.value.0[r.value.1].page == page
    ensures r.Err? ==> Undisturbed(m, pt0, used0) && PageFails(m, page, room, pt0, used0, r.error, left)
  {
    left := NOTHING;
    var at := FindMapped(mapped, page);
    if at.Some? {
      var mapped' := SharePage(m, data, segs, i, page, mapped, at.value, pt0, used0);
      return Ok((mapped', at.value)), left;
    }
    if page in m.pt {
      MidMeans(m.pt, m.used, m.bytes, data, segs, i, page, false, mapped, pt0, used0, i + 3);
      assert page in pt0;
      Rollback(m, mapped, pt0, used0);
      NothingTracked(m.pt, m.used);
      return Err(Collision), left;
    }
    r, left := MapFresh(m, data, segs, i, page, mapped, room, pt0, used0);
  }

  /** Adds this segment's flags to a page the cell already has. */
  method SharePage(m: Machine, data: seq<Byte>, segs: seq<Segment>, i: nat, page: nat, mapped: seq<Mapped>, k: nat,
                   ghost pt0: map<nat, Pte>, ghost used0: set<nat>) returns (mapped': seq<Mapped>)
    requires Loading(m, data, segs, i, page, false, mapped, pt0, used0) && Touches(segs[i], page)
    requires k < |mapped| && mapped[k].page == page
    modifies m`pt
    ensures Loading(m, data, segs, i, page, true, mapped', pt0, used0) && k < |mapped'| && mapped'[k].page == page
  {
    var merged := mapped[k].flags + PermBits(segs[i]);
    ShareStep(m.pt, m.used, m.bytes, data, segs, i, page, mapped, k, pt0, used0);
    m.pt := m.pt[page := Pte(m.pt[page].frame, merged)];
    mapped' := mapped[k := mapped[k].(flags := merged)];
  }

  lemma ShareStep(pt: map<nat, Pte>, used: set<nat>, bytes: map<nat, seq<Byte>>, data: seq<Byte>, segs: seq<Segment>,
                  i: nat, page: nat, mapped: seq<Mapped>, k: nat, pt0: map<nat, Pte>, used0: set<nat>)
    requires MidTo(pt, used, bytes, data, segs, i, page, false, mapped, pt0, used0, i + 3)
    requires i < |segs| && Touches(segs[i], page) && k < |mapped| && mapped[k].page == page
    ensures page in pt && pt[page].frame == mapped[k].frame
    ensures var merged := mapped[k].flags + PermBits(segs[i]);
            MidTo(pt[page := Pte(pt[page].frame, merged)], used, bytes, data, segs, i, page, true,
                  mapped[k := mapped[k].(flags := merged)], pt0, used0, i + 3)
  {
    MidMeans(pt, used, bytes, data, segs, i, page, false, mapped, pt0, used0, i + 3);
    var merged := mapped[k].flags + PermBits(segs[i]);
    ShareTracked(pt, used, pt0, used0, mapped, k, merged);
    ShareFilled(bytes, mapped, data, segs, i, page, k);
    ShareCovers(mapped, k, merged, segs, i, page);
    MidMeans(pt[page := Pte(pt[page].frame, merged)], used, bytes, data, segs, i, page, true,
             mapped[k := mapped[k].(flags := merged)], pt0, used0, i + 3);
  }

  lemma ShareCovers(mapped: seq<Mapped>, k: nat, flags: set<Flag>, segs: seq<Segment>, i: nat, p: nat)
    requires k < |mapped| && Covers(mapped, segs, i, p)
    ensures Covers(mapped[k := mapped[k].(flags := flags)], segs, i, p)
  {
    var mapped' := mapped[k := mapped[k].(flags := flags)];
    forall j, page | 0 <= j < i && j < |segs| && Touches(segs[j], page)
      ensures HasPage(mapped', page)
    {
      HasUpdate(mapped, k, flags, page);
    }
    forall page: nat | i < |segs| && Touches(segs[i], page) && page < p
      ensures HasPage(mapped', page)
    {
      HasUpdate(mapped, k, flags, page);
    }
  }

  /** A frame for the page, if there is one and the table has room for the page. */
  method TakeFrame(m: Machine, data: seq<Byte>, segs: seq<Segment>, i: nat, page: nat, ghost mapped: seq<Mapped>,
                   room: nat -> bool, ghost pt0: map<nat, Pte>, ghost used0: set<nat>)
    returns (r: Option<nat>, ghost left: Residue)
    requires Loading(m, data, segs, i, page, false, mapped, pt0, used0)
    modifies m`used
    ensures r.Some? ==> m.Ram(r.value) && r.value !in old(m.used) && m.used == old(m.used) + {r.value}
    ensures r.None? ==> Undisturbed(m, pt0, used0) && PageFails(m, page, room, pt0, used0, OutOfMemory, left)
  {
    ghost var used1 := m.used;
    r := AllocateFrame(m);
    left := NOTHING;
    if r.None? || !room(page) {
      ghost var spare := if r.Some? then {r.value} else {};
      MidLeft(m.pt, used1, m.bytes, data, segs, i, page, mapped, pt0, used0, spare, m.used);
      return None, Residue(mapped, spare);
    }
  }

  method MapFresh(m: Machine, data: seq<Byte>, segs: seq<Segment>, i: nat, page: nat, mapped: seq<Mapped>,
                  room: nat -> bool, ghost pt0: map<nat, Pte>, ghost used0: set<nat>)
    returns (r: Result<(seq<Mapped>, nat), LoadError>, ghost left: Residue)
    requires Loading(m, data, segs, i, page, false, mapped, pt0, used0) && Touches(segs[i], page) && !m.Ram(page)
    requires !HasPage(mapped, page) && page !in m.pt
    modifies m`pt, m`used, m`bytes
    ensures r.Ok? ==> Loading(m, data, segs, i, page, true, r.value.0, pt0, used0)
    ensures r.Ok? ==> r.value.1 < |r.value.0| && r.value.0[r.value.1].page == page
    ensures r.Err? ==> r.error == OutOfMemory && Undisturbed(m, pt0, used0)
    ensures r.Err? ==> PageFails(m, page, room, pt0, used0, r.error, left)
  {
    left := NOTHING;
    ghost var used1 := m.used;
    var got;
    got, left := TakeFrame(m, data, segs, i, page, mapped, room, pt0, used0);
    if got.None? { return Err(OutOfMemory), left; }
    var frame := got.value;
    var flags := PermBits(segs[i]);
    FreshStep(m.pt, used1, m.bytes, data, segs, i, page, mapped, frame, pt0, used0);
    m.pt := m.pt[page := Pte(frame, flags)];
    m.bytes := m.bytes[frame := Zero()];
    return Ok((mapped + [Mapped(page, frame, flags)], |mapped|)), left;
  }

  /** What has been mapped so far, and a frame just taken, are what an error leaves. */
  lemma MidLeft(pt: map<nat, Pte>, used: set<nat>, bytes: map<nat, seq<Byte>>, data: seq<Byte>, segs: seq<Segment>,
                i: nat, page: nat, mapped: seq<Mapped>, pt0: map<nat, Pte>, used0: set<nat>, spare: set<nat>,
                used': set<nat>)
    requires MidTo(pt, used, bytes, data, segs, i, page, false, mapped, pt0, used0, i + 3)
    requires spare !! used && |spare| <= 1 && used' == used + spare
    ensures Left(pt, used', pt0, used0, Residue(mapped, spare))
    ensures used0 <= used' && forall page :: page in pt0 ==> page in pt && pt[page] == pt0[page]
  {
    MidMeans(pt, used, bytes, data, segs, i, page, false, mapped, pt0, used0, i + 3);
    assert used' - spare == used;
  }

  lemma FreshStep(pt: map<nat, Pte>, used: set<nat>, bytes: map<nat, seq<Byte>>, data: seq<Byte>, segs: seq<Segment>,
                  i: nat, page: nat, mapped: seq<Mapped>, frame: nat, pt0: map<nat, Pte>, used0: set<nat>)
    requires i < |segs| && MidTo(pt, used, bytes, data, segs, i, page, false, mapped, pt0, used0, i + 3)
    requires Touches(segs[i], page) && !HasPage(mapped, page) && page !in pt && frame !in used
    ensures MidTo(pt[page := Pte(frame, PermBits(segs[i]))], used + {frame}, bytes[frame := Zero()], data, segs, i,
                  page, true,
                  mapped + [Mapped(page, frame, PermBits(segs[i]))], pt0, used0, i + 3)
  {
    var m1 := Mapped(page, frame, PermBits(segs[i]));
    MidMeans(pt, used, bytes, data, segs, i, page, false, mapped, pt0, used0, i + 3);
    assert !HasFrame(mapped, frame);
    FreshTracked(pt, used, pt0, used0, mapped, m1);
    FreshFilled(bytes, mapped, data, segs, i, page, frame);
    FreshCovers(mapped, m1, segs, i, page);
    MidMeans(pt[page := Pte(frame, m1.flags)], used + {frame}, bytes[frame := Zero()], data, segs, i, page, true,
             mapped + [m1], pt0, used0, i + 3);
  }

  lemma FreshCovers(mapped: seq<Mapped>, m1: Mapped, segs: seq<Segment>, i: nat, p: nat)
    requires Covers(mapped, segs, i, p)
    ensures Covers(mapped + [m1], segs, i, p)
  {
    forall j, page | 0 <= j < i && j < |segs| && Touches(segs[j], page)
      ensures HasPage(mapped + [m1], page)
    {
      HasPush(mapped, m1, page);
    }
    forall page: nat | i < |segs| && Touches(segs[i], page) && page < p
      ensures HasPage(mapped + [m1], page)
    {
      HasPush(mapped, m1, page);
    }
  }

  /** Copies the part of the segment's file range that lies on the page. The range
      check before the copy never fails, so no part is skipped. */
  method CopyContent(content: seq<Byte>, data: seq<Byte>, segs: seq<Segment>, i: nat, page: nat) returns (r: seq<Byte>)
    requires i < |segs| && FitTo(segs, i + 1, |data|) && content == PageWant(data, segs, i, page)
    ensures r == PageWant(data, segs, i + 1, page)
  {
    var s := segs[i];
    var from, to := CopyFrom(s, page), CopyTo(s, page);
    CopyPage(data, segs, i + 1, page);
    r := content;
    if from < to {
      var srcEnd := s.offset + (from - s.vaddr) + (to - from);
      assert srcEnd <= |data|;
      if srcEnd <= |data| {
        r := Splice(content, from - page * PAGE, data[s.offset + (from - s.vaddr)..srcEnd]);
      }
    }
  }

  lemma CoversNext(mapped: seq<Mapped>, segs: seq<Segment>, i: nat, p: nat)
    requires Covers(mapped, segs, i, p) && HasPage(mapped, p)
    ensures Covers(mapped, segs, i, p + 1)
  {}

  method CopyPart(m: Machine, data: seq<Byte>, segs: seq<Segment>, i: nat, page: nat, mapped: seq<Mapped>, k: nat,
                  ghost pt0: map<nat, Pte>, ghost used0: set<nat>)
    requires Loading(m, data, segs, i, page, true, mapped, pt0, used0) && Touches(segs[i], page)
    requires k < |mapped| && mapped[k].page == page
    modifies m`bytes
    ensures Loading(m, data, segs, i, page + 1, false, mapped, pt0, used0)
  {
    CopyStep(m.pt, m.used, m.bytes, data, segs, i, page, mapped, k, pt0, used0);
    var content := CopyContent(m.bytes[mapped[k].frame], data, segs, i, page);
    m.bytes := m.bytes[mapped[k].frame := content];
  }

  lemma CopyStep(pt: map<nat, Pte>, used: set<nat>, bytes: map<nat, seq<Byte>>, data: seq<Byte>, segs: seq<Segment>,
                 i: nat, page: nat, mapped: seq<Mapped>, k: nat, pt0: map<nat, Pte>, used0: set<nat>)
    requires MidTo(pt, used, bytes, data, segs, i, page, true, mapped, pt0, used0, i + 3)
    requires i < |segs| && Touches(segs[i], page) && k < |mapped| && mapped[k].page == page
    ensures FitTo(segs, i + 1, |data|) && mapped[k].frame in bytes
    ensures bytes[mapped[k].frame] == PageWant(data, segs, i, page)
    ensures MidTo(pt, used, bytes[mapped[k].frame := PageWant(data, segs, i + 1, page)], data, segs, i, page + 1, false,
                  mapped, pt0, used0, i + 3)
  {
    MidMeans(pt, used, bytes, data, segs, i, page, true, mapped, pt0, used0, i + 3);
    var content := PageWant(data, segs, i + 1, page);
    assert EntryOk(bytes, mapped[k], data, segs, i, i + 1);
    CopyFilled(bytes, mapped, data, segs, i, page, k, content);
    CoversNext(mapped, segs, i, page);
    MidMeans(pt, used, bytes[mapped[k].frame := content], data, segs, i, page + 1, false, mapped, pt0, used0, i + 3);
  }

  /** The state between segments: the first `n` are completely loaded. */
  ghost predicate Loaded(m: Machine, data: seq<Byte>, segs: seq<Segment>, n: nat, mapped: seq<Mapped>,
                         pt0: map<nat, Pte>, used0: set<nat>)
    reads m`pt, m`used, m`bytes
  {
    && n <= |segs| && FitTo(segs, n, |data|)
    && Tracked(m.pt, m.used, pt0, used0, mapped)
    && (forall k :: 0 <= k < |mapped| ==> EntryOk(m.bytes, mapped[k], data, segs, n, n))
    && (forall j, page :: 0 <= j < n && Touches(segs[j], page) ==> HasPage(mapped, page))
    && (forall k :: 0 <= k < |mapped| ==> !m.Ram(mapped[k].page) && mapped[k].flags != {})
    && m.Stored() && (forall f :: f in m.used ==> m.Ram(f))
  }

  lemma Enter(m: Machine, data: seq<Byte>, segs: seq<Segment>, i: nat, mapped: seq<Mapped>, pt0: map<nat, Pte>,
              used0: set<nat>)
    requires i < |segs| && FitTo(segs, i + 1, |data|) && Loaded(m, data, segs, i, mapped, pt0, used0)
    ensures Loading(m, data, segs, i, StartPage(segs[i]), false, mapped, pt0, used0)
  {
    MidMeans(m.pt, m.used, m.bytes, data, segs, i, StartPage(segs[i]), false, mapped, pt0, used0, i + 3);
  }

  lemma Leave(m: Machine, data: seq<Byte>, segs: seq<Segment>, i: nat, mapped: seq<Mapped>, pt0: map<nat, Pte>,
              used0: set<nat>)
    requires i < |segs| && Loading(m, data, segs, i, LastPage(segs[i]), false, mapped, pt0, used0)
    ensures Loaded(m, data, segs, i + 1, mapped, pt0, used0)
  {
    MidMeans(m.pt, m.used, m.bytes, data, segs, i, LastPage(segs[i]), false, mapped, pt0, used0, i + 3);
    NextSegment(m.bytes, mapped, data, segs, i, LastPage(segs[i]));
    forall j, page | 0 <= j < i + 1 && Touches(segs[j], page)
      ensures HasPage(mapped, page)
    {}
  }

  /** Where the page loop of a segment ends. */
  function LastPage(s: Segment): nat { Max(StartPage(s), EndPage(s)) }

  /** One page of one segment. */
  method LoadPage(m: Machine, data: seq<Byte>, segs: seq<Segment>, i: nat, page: nat, mapped: seq<Mapped>,
                  room: nat -> bool, ghost pt0: map<nat, Pte>, ghost used0: set<nat>)
    returns (r: Result<seq<Mapped>, LoadError>, ghost left: Residue)
    requires Loading(m, data, segs, i, page, false, mapped, pt0, used0) && Touches(segs[i], page) && !m.Ram(page)
    modifies m`pt, m`used, m`bytes
    ensures r.Ok? ==> Loading(m, data, segs, i, page + 1, false, r.value, pt0, used0)
    ensures r.Err? ==> Undisturbed(m, pt0, used0) && PageFails(m, page, room, pt0, used0, r.error, left)
  {
    var got;
    got, left := ObtainPage(m, data, segs, i, page, mapped, room, pt0, used0);
    if got.Err? { return Err(got.error), left; }
    CopyPart(m, data, segs, i, page, got.value.0, got.value.1, pt0, used0);
    return Ok(got.value.0), left;
  }

  /** All pages of one segment. */
  method LoadSegment(m: Machine, data: seq<Byte>, segs: seq<Segment>, i: nat, mapped0: seq<Mapped>, room: nat -> bool,
                     ghost pt0: map<nat, Pte>, ghost used0: set<nat>)
    returns (r: Result<seq<Mapped>, LoadError>, ghost left: Residue)
    requires i < |segs| && FitTo(segs, i + 1, |data|) && Loaded(m, data, segs, i, mapped0, pt0, used0)
    requires forall page :: Touches(segs[i], page) ==> !m.Ram(page)
    modifies m`pt, m`used, m`bytes
    ensures r.Ok? ==> Loaded(m, data, segs, i + 1, r.value, pt0, used0)
    ensures r.Err? ==> Undisturbed(m, pt0, used0)
    ensures r.Err? ==> exists page :: Touches(segs[i], page) && PageFails(m, page, room, pt0, used0, r.error, left)
  {
    left := NOTHING;
    Enter(m, data, segs, i, mapped0, pt0, used0);
    var mapped := mapped0;
    var page := StartPage(segs[i]);
    while page < EndPage(segs[i])
      invariant StartPage(segs[i]) <= page <= LastPage(segs[i])
      invariant Loading(m, data, segs, i, page, false, mapped, pt0, used0)
    {
      var got;
      got, left := LoadPage(m, data, segs, i, page, mapped, room, pt0, used0);
      if got.Err? { return got, left; }
      mapped := got.value;
      page := page + 1;
    }
    Leave(m, data, segs, i, mapped, pt0, used0);
    return Ok(mapped), left;
  }

  ghost predicate ChecksPass(segs: seq<Segment>, n: nat, len: nat) {
    forall j :: 0 <= j < n && j < |segs| ==> CheckSegment(segs[j], len).None?
  }

  /** Why the load of segment `i` fails, and what is left then. A bad header leaves the
      earlier segments completely loaded; otherwise a page of the segment fails. */
  ghost predicate SegmentFails(m: Machine, data: seq<Byte>, segs: seq<Segment>, i: nat, room: nat -> bool,
                               pt0: map<nat, Pte>, used0: set<nat>, error: LoadError, left: Residue)
    reads m`pt, m`used, m`bytes
  {
    && i < |segs| && ChecksPass(segs, i, |data|)
    && Left(m.pt, m.used, pt0, used0, left)
    && var bad := CheckSegment(segs[i], |data|);
    if bad.Some? then error == bad.value && left.spare == {} && Loaded(m, data, segs, i, left.mapped, pt0, used0)
    else exists page :: Touches(segs[i], page) && PageFails(m, page, room, pt0, used0, error, left)
  }

  /** The loop over the program headers: check, then map, one after the other. */
  method LoadAll(m: Machine, data: seq<Byte>, segs: seq<Segment>, room: nat -> bool)
    returns (r: Result<seq<Mapped>, LoadError>, ghost at: nat, ghost left: Residue)
    requires m.Stored() && (forall f :: f in m.used ==> m.Ram(f))
    requires forall i, page :: 0 <= i < |segs| && Touches(segs[i], page) ==> !m.Ram(page)
    modifies m`pt, m`used, m`bytes
    ensures r.Ok? ==> Loaded(m, data, segs, |segs|, r.value, old(m.pt), old(m.used))
    ensures r.Err? ==> Undisturbed(m, old(m.pt), old(m.used))
    ensures r.Err? ==> SegmentFails(m, data, segs, at, room, old(m.pt), old(m.used), r.error, left)
  {
    ghost var pt0, used0 := m.pt, m.used;
    var mapped := [];
    left, at := NOTHING, 0;
    for i := 0 to |segs|
      invariant Loaded(m, data, segs, i, mapped, pt0, used0)
      invariant ChecksPass(segs, i, |data|)
    {
      var got;
      got, left := LoadNext(m, data, segs, i, mapped, room, pt0, used0);
      if got.Err? { return got, i, left; }
      mapped := got.value;
    }
    return Ok(mapped), at, left;
  }

  method LoadNext(m: Machine, data: seq<Byte>, segs: seq<Segment>, i: nat, mapped: seq<Mapped>, room: nat -> bool,
                  ghost pt0: map<nat, Pte>, ghost used0: set<nat>)
    returns (r: Result<seq<Mapped>, LoadError>, ghost left: Residue)
    requires i < |segs| && Loaded(m, data, segs, i, mapped, pt0, used0)
    requires ChecksPass(segs, i, |data|)
    requires forall page :: Touches(segs[i], page) ==> !m.Ram(page)
    modifies m`pt, m`used, m`bytes
    ensures r.Ok? ==> Loaded(m, data, segs, i + 1, r.value, pt0, used0) && CheckSegment(segs[i], |data|).None?
    ensures r.Err? ==> Undisturbed(m, pt0, used0)
    ensures r.Err? ==> SegmentFails(m, data, segs, i, room, pt0, used0, r.error, left)
  {
    var bad := CheckSegment(segs[i], |data|);
    if bad.Some? {
      assert m.used - {} == m.used;
      return Err(bad.value), Residue(mapped, {});
    }
    r, left := LoadSegment(m, data, segs, i, mapped, room, pt0, used0);
  }

  function Strip(mapped: seq<Mapped>): (r: seq<PageFrame>)
    ensures |r| == |mapped| && forall k :: 0 <= k < |r| ==> r[k] == PageFrame(mapped[k].page, mapped[k].frame)
  {
    seq(|mapped|, k requires 0 <= k < |mapped| => PageFrame(mapped[k].page, mapped[k].frame))
  }

  /** A load leaves the machine valid whether it succeeds or not. */
  lemma StillValid(m: Machine, pt0: map<nat, Pte>, used0: set<nat>)
    requires Undisturbed(m, pt0, used0) && m.owner.Keys <= used0
    requires forall f :: m.Ram(f) && !m.OnStack(f) ==> f in pt0 && pt0[f] == Identity(f)
    requires m.live <= m.cells
    requires forall c, k :: c in m.live && 0 <= k < |c.pages| ==>
               Translate(pt0, c.pages[k].page) == Some(c.pages[k].frame)
    ensures m.IdentityMapped() && m.LiveMapped() && m.Stored() && m.owner.Keys <= m.used
  {}

  /** Loads a cell. On success every page of every segment is tracked once, shows its
      own fresh frame with the union of the segments' flags, and holds the wanted
      bytes. On failure segment `at` is to blame, `left` is what stays mapped and
      allocated for good, and the page table and allocator are as before if and only if
      that is nothing. A collision leaves nothing; a bad header leaves the pages of the
      segments before it. */
  method LoadCell(m: Machine, data: seq<Byte>, segs: seq<Segment>, room: nat -> bool)
    returns (r: Result<CellSegments, LoadError>, ghost mapped: seq<Mapped>, ghost at: nat, ghost left: Residue)
    requires m.Valid()
    requires forall i, page :: 0 <= i < |segs| && Touches(segs[i], page) ==> !m.Ram(page)
    modifies m
    ensures m.Valid() && m.stacks == old(m.stacks)
    ensures r.Ok? ==> r.value.pages == Strip(mapped) && r.value !in old(m.cells)
                      && m.cells == old(m.cells) + {r.value} && m.live == old(m.live) + {r.value}
                      && Loaded(m, data, segs, |segs|, mapped, old(m.pt), old(m.used))
    ensures r.Err? ==> m.cells == old(m.cells) && m.live == old(m.live)
    ensures r.Err? ==> SegmentFails(m, data, segs, at, room, old(m.pt), old(m.used), r.error, left)
    ensures r.Err? ==> (m.pt == old(m.pt) && m.used == old(m.used) <==> left == NOTHING)
    ensures r == Err(Collision) ==> left == NOTHING
    ensures r.Err? && CheckSegment(segs[at], |data|).Some? ==>
              (left == NOTHING <==> forall j, page: nat :: 0 <= j < at ==> !Touches(segs[j], page))
  {
    ghost var pt0, used0 := m.pt, m.used;
    var got;
    got, at, left := LoadAll(m, data, segs, room);
    StillValid(m, pt0, used0);
    if got.Err? {
      WhatIsLeft(m, data, segs, at, room, pt0, used0, got.error, left);
      mapped := [];
      return Err(got.error), mapped, at, left;
    }
    mapped := got.value;
    var c := CellSegments(m.nextCell, Strip(got.value));
    m.nextCell := m.nextCell + 1;
    Register(m, c);
    return Ok(c), mapped, at, left;
  }

  /** The pages of completely loaded segments are the ones these segments touch. */
  /** What a failed load leaves behind, and when that is nothing. */
  lemma WhatIsLeft(m: Machine, data: seq<Byte>, segs: seq<Segment>, at: nat, room: nat -> bool, pt0: map<nat, Pte>,
                   used0: set<nat>, error: LoadError, left: Residue)
    requires SegmentFails(m, data, segs, at, room, pt0, used0, error, left)
    ensures m.pt == pt0 && m.used == used0 <==> left == NOTHING
    ensures error == Collision ==> left == NOTHING
    ensures CheckSegment(segs[at], |data|).Some? ==>
              (left == NOTHING <==> forall j, page: nat :: 0 <= j < at ==> !Touches(segs[j], page))
  {
    LeftNothing(m.pt, m.used, pt0, used0, left);
    if CheckSegment(segs[at], |data|).Some? { LeftByHeader(m, data, segs, at, left.mapped, pt0, used0); }
  }

  lemma LeftByHeader(m: Machine, data: seq<Byte>, segs: seq<Segment>, n: nat, mapped: seq<Mapped>, pt0: map<nat, Pte>,
                     used0: set<nat>)
    requires Loaded(m, data, segs, n, mapped, pt0, used0)
    ensures mapped == [] <==> forall j, page: nat :: 0 <= j < n ==> !Touches(segs[j], page)
  {
    if exists j, page: nat :: 0 <= j < n && Touches(segs[j], page) {
      var j, page: nat :| 0 <= j < n && Touches(segs[j], page);
      assert HasPage(mapped, page);
    } else if mapped != [] {
      assert EntryOk(m.bytes, mapped[0], data, segs, n, n);
      NoFlags(segs, n, mapped[0].page);
    }
  }

  /** A good segment before one whose file part is longer than its memory: if the load gets
      as far as the second header, the first segment's page stays mapped in a frame that
      stays allocated. */
  method GoodThenBad(m: Machine, page: nat, room: nat -> bool) returns (r: Result<CellSegments, LoadError>)
    requires m.Valid() && !m.Ram(page) && page !in m.pt && page * PAGE + PAGE <= USER_VADDR_MAX
    requires forall p: nat :: room(p)
    modifies m
    ensures m.Valid()
    ensures r == Err(InvalidInput) || (r == Err(OutOfMemory) && forall f :: m.Ram(f) ==> f in m.used)
    ensures r == Err(InvalidInput) ==> page in m.pt && m.used != old(m.used)
  {
    ghost var mapped, at, left;
    OnePage(page);
    var segs := [GoodOne(page), BadOne(page)];
    r, mapped, at, left := LoadCell(m, [], segs, room);
    assert r.Ok? ==> FitTo(segs, 2, 0) && Fits(segs[1], 0);
    BlameSecond(m, page, room, old(m.pt), old(m.used), r.error, at, left);
  }

  function GoodOne(page: nat): Segment { Segment(page * PAGE, PAGE, 0, 0, true, false, false) }

  function BadOne(page: nat): Segment { Segment(page * PAGE, 0, 1, 0, true, false, false) }

  lemma BlameSecond(m: Machine, page: nat, room: nat -> bool, pt0: map<nat, Pte>, used0: set<nat>, error: LoadError,
                    at: nat, left: Residue)
    requires SegmentFails(m, [], [GoodOne(page), BadOne(page)], at, room, pt0, used0, error, left)
    requires page !in pt0 && page * PAGE + PAGE <= USER_VADDR_MAX && forall p: nat :: room(p)
    ensures error == InvalidInput || (error == OutOfMemory && forall f :: m.Ram(f) ==> f in m.used)
    ensures error == InvalidInput ==> page in m.pt && m.used != used0
  {
    var segs := [GoodOne(page), BadOne(page)];
    OnePage(page);
    if at == 1 {
      assert Touches(segs[0], page) && HasPage(left.mapped, page);
      var k :| 0 <= k < |left.mapped| && left.mapped[k].page == page;
      assert left.mapped[k].frame in m.used && left.mapped[k].frame !in used0;
    }
  }

  lemma OnePage(page: nat)
    ensures forall p: nat :: Touches(GoodOne(page), p) <==> p == page
    ensures forall p: nat :: !Touches(BadOne(page), p)
  {}

  /** The new cell takes hold of its frames. */
  ghost method Register(m: Machine, c: CellSegments)
    requires m.Valid() && c !in m.cells && c.id < m.nextCell
    requires forall k :: 0 <= k < |c.pages| ==>
               && c.pages[k].frame in m.used && c.pages[k].frame !in m.owner && !m.Ram(c.pages[k].page)
               && Translate(m.pt, c.pages[k].page) == Some(c.pages[k].frame)
    requires forall j, k :: 0 <= j < k < |c.pages| ==> c.pages[j].frame != c.pages[k].frame
    modifies m`owner, m`cells, m`live
    ensures m.Valid() && m.cells == old(m.cells) + {c} && m.live == old(m.live) + {c}
  {
    TakeFrames(m, c);
    m.cells := m.cells + {c};
    m.live := m.live + {c};
  }

  ghost method TakeFrames(m: Machine, c: CellSegments)
    requires m.Valid()
    requires forall k :: 0 <= k < |c.pages| ==> c.pages[k].frame in m.used && c.pages[k].frame !in m.owner
    requires forall j, k :: 0 <= j < k < |c.pages| ==> c.pages[j].frame != c.pages[k].frame
    modifies m`owner
    ensures m.Valid()
    ensures forall k :: 0 <= k < |c.pages| ==> c.pages[k].frame in m.owner && m.owner[c.pages[k].frame] == InCell(c, k)
  {
    NewOwnersSpec(m.owner, c);
    forall f | f in FramesOf(c.pages)
      ensures f !in m.owner && f in m.used
    {
      var k :| 0 <= k < |c.pages| && c.pages[k].frame == f;
    }
    m.owner := NewOwners(m.owner, c);
  }

  ghost function NewOwners(owner: map<nat, Owner>, c: CellSegments): map<nat, Owner> {
    var mine := FramesOf(c.pages);
    map f | f in owner.Keys + mine :: if f in mine then InCell(c, IndexOf(c.pages, f)) else owner[f]
  }

  ghost function IndexOf(pages: seq<PageFrame>, f: nat): nat
    decreases |pages|
  {
    if pages == [] then 0
    else if pages[|pages| - 1].frame == f then |pages| - 1
    else IndexOf(pages[..|pages| - 1], f)
  }

  lemma {:induction false} IndexOfAt(pages: seq<PageFrame>, k: nat)
    requires k < |pages| && forall i, j :: 0 <= i < j < |pages| ==> pages[i].frame != pages[j].frame
    ensures IndexOf(pages, pages[k].frame) == k
    decreases |pages|
  {
    if k < |pages| - 1 { IndexOfAt(pages[..|pages| - 1], k); }
  }

  lemma NewOwnersSpec(owner: map<nat, Owner>, c: CellSegments)
    requires forall j, k :: 0 <= j < k < |c.pages| ==> c.pages[j].frame != c.pages[k].frame
    ensures var owner' := NewOwners(owner, c);
            && owner'.Keys == owner.Keys + FramesOf(c.pages)
            && (forall f :: f in owner && f !in FramesOf(c.pages) ==> owner'[f] == owner[f])
            && (forall f :: f in FramesOf(c.pages) ==> owner'[f].InCell?)
            && (forall k :: 0 <= k < |c.pages| ==> owner'[c.pages[k].frame] == InCell(c, k))
  {
    forall k | 0 <= k < |c.pages| ensures IndexOf(c.pages, c.pages[k].frame) == k { IndexOfAt(c.pages, k); }
  }

  // ---- what a loaded cell sees -----------------------------------------

  /** The byte the cell sees at an address. */
  ghost function Sees(pt: map<nat, Pte>, bytes: map<nat, seq<Byte>>, page: nat, o: nat): Option<Byte> {
    if page in pt && pt[page].frame in bytes && o < |bytes[pt[page].frame]|
    then Some(bytes[pt[page].frame][o])
    else None
  }

  /** For disjoint segments, at every address of every segment a loaded cell sees the
      file's byte in the file range and zero in the BSS range, through a page with at
      least that segment's permissions. */
  lemma LoadedCellSees(m: Machine, data: seq<Byte>, segs: seq<Segment>, mapped: seq<Mapped>, pt0: map<nat, Pte>,
                       used0: set<nat>, i: nat, page: nat, o: nat)
    requires Loaded(m, data, segs, |segs|, mapped, pt0, used0) && Disjoint(segs)
    requires i < |segs| && o < PAGE && InSegment(segs[i], page * PAGE + o)
    ensures var a := page * PAGE + o;
            Sees(m.pt, m.bytes, page, o)
            == Some(if InFile(segs[i], a) then data[segs[i].offset + (a - segs[i].vaddr)] else 0)
    ensures page in m.pt && PermBits(segs[i]) <= m.pt[page].flags == FlagsWant(segs, |segs|, page)
  {
    AddressTouches(segs[i], page, o);
    assert HasPage(mapped, page);
    var k :| 0 <= k < |mapped| && mapped[k].page == page;
    assert EntryOk(m.bytes, mapped[k], data, segs, |segs|, |segs|);
    PageByte(data, segs, i, page, o);
    FlagsInclude(segs, |segs|, i, page);
  }

  lemma PageByte(data: seq<Byte>, segs: seq<Segment>, i: nat, page: nat, o: nat)
    requires FitTo(segs, |segs|, |data|) && Disjoint(segs) && i < |segs| && o < PAGE
    requires InSegment(segs[i], page * PAGE + o)
    ensures var a := page * PAGE + o;
            PageWant(data, segs, |segs|, page)[o] ==
            if InFile(segs[i], a) then data[segs[i].offset + (a - segs[i].vaddr)] else 0
  {
    WantIsOwn(data, segs, |segs|, i, page * PAGE + o);
    assert ByteWant(data, segs, |segs|, page, o) == Want(data, segs, |segs|, page * PAGE + o);
  }

  lemma {:induction false} FlagsInclude(segs: seq<Segment>, n: nat, i: nat, page: nat)
    requires i < n <= |segs| && Touches(segs[i], page)
    ensures PermBits(segs[i]) <= FlagsWant(segs, n, page)
  {
    if i < n - 1 { FlagsInclude(segs, n - 1, i, page); }
  }

  // ---- any sequence of calls -------------------------------------------

  datatype Call =
    | NewStack(pages: nat, user: bool)
    | FreeStack(k: nat)
    | Load(data: seq<Byte>, segs: seq<Segment>)
    | Die(k: nat)
    | Reap(k: nat)

  /** A cell that was loaded and not reaped yet; it is mapped until it dies. */
  datatype InHand = InHand(cell: CellSegments, mapped: bool)

  /** The cells in hand after one more call; `got` is what a Load returned. */
  function HandsNext(call: Call, got: Option<CellSegments>, cells: seq<InHand>): seq<InHand> {
    match call
    case Load(_, _) => if got.Some? then cells + [InHand(got.value, true)] else cells
    case Die(k) => if k < |cells| then cells[k := cells[k].(mapped := false)] else cells
    case Reap(k) => if k < |cells| then cells[..k] + cells[k + 1..] else cells
    case _ => cells
  }

  function Hands(calls: seq<Call>, got: seq<Option<CellSegments>>): seq<InHand>
    requires |got| == |calls|
    decreases |calls|
  {
    if calls == [] then []
    else
      var last := |calls| - 1;
      HandsNext(calls[last], got[last], Hands(calls[..last], got[..last]))
  }

  ghost predicate OutsideRam(m: Machine, segs: seq<Segment>) {
    forall i, page :: 0 <= i < |segs| && Touches(segs[i], page) ==> !m.Ram(page)
  }

  /** Every page of the cell shows the cell's own frame. */
  ghost predicate ShowsOwn(pt: map<nat, Pte>, c: CellSegments) {
    forall k :: 0 <= k < |c.pages| ==> Translate(pt, c.pages[k].page) == Some(c.pages[k].frame)
  }

  /** After any sequence of calls, in any order and whatever fails on the way, every
      free frame is identity-mapped with the boot permissions, and every cell that was
      loaded and has neither died nor been reaped sees its own frames. */
  method RunCalls(m: Machine, calls: seq<Call>, room: nat -> bool)
    returns (got: seq<Option<CellSegments>>, cells: seq<InHand>)
    requires m.Valid() && m.stacks == {} && m.cells == {}
    requires forall n :: 0 <= n < |calls| && calls[n].Load? ==> OutsideRam(m, calls[n].segs)
    modifies m
    ensures forall f :: m.Ram(f) && f !in m.used ==> f in m.pt && m.pt[f] == Identity(f)
    ensures |got| == |calls| && cells == Hands(calls, got)
    ensures forall k :: 0 <= k < |cells| && cells[k].mapped ==> ShowsOwn(m.pt, cells[k].cell)
    ensures forall c :: c in m.live ==> ShowsOwn(m.pt, c)
  {
    var stacks: seq<Stack> := [];
    got, cells := [], [];
    for n := 0 to |calls|
      invariant Holding(m, stacks, cells)
      invariant |got| == n && cells == Hands(calls[..n], got)
    {
      HandsSnoc(calls, got, n);
      var g;
      stacks, cells, g := NextCall(m, calls[n], stacks, cells, room);
      got := got + [g];
    }
    assert calls[..|calls|] == calls;
    HandsShown(m, stacks, cells);
  }

  lemma HandsSnoc(calls: seq<Call>, got: seq<Option<CellSegments>>, n: nat)
    requires |got| == n < |calls|
    ensures forall g :: Hands(calls[..n + 1], got + [g]) == HandsNext(calls[n], g, Hands(calls[..n], got))
  {
    assert calls[..n + 1][..n] == calls[..n];
    forall g: Option<CellSegments>
      ensures Hands(calls[..n + 1], got + [g]) == HandsNext(calls[n], g, Hands(calls[..n], got))
    {
      assert (got + [g])[..n] == got;
    }
  }

  lemma HandsShown(m: Machine, stacks: seq<Stack>, cells: seq<InHand>)
    requires Holding(m, stacks, cells)
    ensures forall f :: m.Ram(f) && f !in m.used ==> f in m.pt && m.pt[f] == Identity(f)
    ensures forall k :: 0 <= k < |cells| && cells[k].mapped ==> ShowsOwn(m.pt, cells[k].cell)
    ensures forall c :: c in m.live ==> ShowsOwn(m.pt, c)
  {}

  method NextCall(m: Machine, call: Call, stacks: seq<Stack>, cells: seq<InHand>, room: nat -> bool)
    returns (stacks': seq<Stack>, cells': seq<InHand>, got: Option<CellSegments>)
    requires Holding(m, stacks, cells) && (call.Load? ==> OutsideRam(m, call.segs))
    modifies m
    ensures Holding(m, stacks', cells') && cells' == HandsNext(call, got, cells)
  {
    stacks', cells', got := stacks, cells, None;
    if call.NewStack? || call.FreeStack? {
      stacks' := StackCall(m, call, stacks, cells, room);
    } else {
      cells', got := CellCall(m, call, stacks, cells, room);
    }
  }

  /** The stacks and cells in hand are distinct ones of this machine. */
  ghost predicate Holding(m: Machine, stacks: seq<Stack>, cells: seq<InHand>)
    reads m
  {
    && m.Valid()
    && (forall k :: 0 <= k < |stacks| ==> stacks[k] in m.stacks)
    && (forall j, k :: 0 <= j < k < |stacks| ==> stacks[j] != stacks[k])
    && (forall k :: 0 <= k < |cells| ==> cells[k].cell in m.cells && (cells[k].mapped ==> cells[k].cell in m.live))
    && (forall j, k :: 0 <= j < k < |cells| ==> cells[j].cell != cells[k].cell)
  }

  method StackCall(m: Machine, call: Call, stacks: seq<Stack>, ghost cells: seq<InHand>, room: nat -> bool)
    returns (stacks': seq<Stack>)
    requires Holding(m, stacks, cells) && (call.NewStack? || call.FreeStack?)
    modifies m
    ensures Holding(m, stacks', cells)
  {
    stacks' := stacks;
    if call.NewStack? {
      ghost var base;
      var r;
      r, base := m.AllocateStack(call.pages, call.user, room);
      if r.Ok? { stacks' := stacks + [r.value]; }
    } else if call.k < |stacks| {
      m.DropStack(stacks[call.k]);
      stacks' := stacks[..call.k] + stacks[call.k + 1..];
    }
  }

  method CellCall(m: Machine, call: Call, ghost stacks: seq<Stack>, cells: seq<InHand>, room: nat -> bool)
    returns (cells': seq<InHand>, got: Option<CellSegments>)
    requires Holding(m, stacks, cells) && (call.Load? || call.Die? || call.Reap?)
    requires call.Load? ==> OutsideRam(m, call.segs)
    modifies m
    ensures Holding(m, stacks, cells') && cells' == HandsNext(call, got, cells)
  {
    cells', got := cells, None;
    if call.Load? {
      cells', got := LoadCall(m, call.data, call.segs, stacks, cells, room);
    } else if call.k < |cells| {
      if call.Die? { cells' := DieCall(m, call.k, stacks, cells); } else { cells' := ReapCall(m, call.k, stacks, cells); }
    }
  }

  method LoadCall(m: Machine, data: seq<Byte>, segs: seq<Segment>, ghost stacks: seq<Stack>, cells: seq<InHand>,
                  room: nat -> bool)
    returns (cells': seq<InHand>, got: Option<CellSegments>)
    requires Holding(m, stacks, cells) && OutsideRam(m, segs)
    modifies m
    ensures Holding(m, stacks, cells') && cells' == HandsNext(Load(data, segs), got, cells)
  {
    ghost var mapped, at, left;
    var r;
    r, mapped, at, left := LoadCell(m, data, segs, room);
    if r.Err? { return cells, None; }
    return cells + [InHand(r.value, true)], Some(r.value);
  }

  method DieCall(m: Machine, k: nat, ghost stacks: seq<Stack>, cells: seq<InHand>) returns (cells': seq<InHand>)
    requires Holding(m, stacks, cells) && k < |cells|
    modifies m
    ensures Holding(m, stacks, cells') && cells' == cells[k := cells[k].(mapped := false)]
  {
    m.EagerUnmap(cells[k].cell);
    cells' := cells[k := cells[k].(mapped := false)];
  }

  method ReapCall(m: Machine, k: nat, ghost stacks: seq<Stack>, cells: seq<InHand>) returns (cells': seq<InHand>)
    requires Holding(m, stacks, cells) && k < |cells|
    modifies m
    ensures Holding(m, stacks, cells') && cells' == cells[..k] + cells[k + 1..]
  {
    m.DropSegments(cells[k].cell);
    cells' := cells[..k] + cells[k + 1..];
  }
}
