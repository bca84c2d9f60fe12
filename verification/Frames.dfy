/** Physical frame allocator: one bit per 4 KiB frame, next-fit single
    allocation, first-fit contiguous allocation, and the chunked guest-RAM scan
    that drops the allocator lock between probes.
    Source: kernel/src/memory/frame.rs. */
module Frames {
  import opened Wrappers
  import opened Bits

  const PAGE_SIZE: nat := 4096
  /** Frames probed per lock hold by the guest-RAM scan. */
  const PROBE_CHUNK: nat := 256

  /** One past the largest 64-bit word. */
  const WORD: nat := 0x1_0000_0000_0000_0000

  // ---- one 64-bit bitmap word ------------------------------------------

  /** `word | (1 << k)` */
  function WithBit(w: nat, k: nat): nat {
    Or(w, Pow2(k))
  }

  /** `word & !(1 << k)` */
  function WithoutBit(w: nat, k: nat): nat
    requires k < 64
  {
    Pow2Mono(k, 64);
    And(w, Not(Pow2(k), 64))
  }

  lemma {:induction false} Pow2Mono(i: nat, j: nat)
    requires i < j
    ensures Pow2(i) < Pow2(j)
  {
    if i < j - 1 { Pow2Mono(i, j - 1); }
  }

  lemma WordSize()
    ensures Pow2(64) == WORD
  {
    FieldWidths();
    Pow2Sum(30, 30);
    Pow2Sum(60, 4);
    assert Pow2(4) == 16;
  }

  lemma WithBitBits(w: nat, k: nat)
    requires k < 64 && w < WORD
    ensures WithBit(w, k) < WORD
    ensures forall j: nat :: TestBit(WithBit(w, k), j) == (TestBit(w, j) || j == k)
  {
    WordSize();
    Pow2Mono(k, 64);
    OrBound(w, Pow2(k), 64);
    forall j: nat
      ensures TestBit(WithBit(w, k), j) == (TestBit(w, j) || j == k)
    {
      OrBit(w, Pow2(k), j);
      Pow2Bit(k, j);
    }
  }

  lemma WithoutBitBits(w: nat, k: nat)
    requires k < 64 && w < WORD
    ensures WithoutBit(w, k) < WORD
    ensures forall j: nat :: j < 64 ==> TestBit(WithoutBit(w, k), j) == (TestBit(w, j) && j != k)
  {
    WordSize();
    Pow2Mono(k, 64);
    AndBound(w, Not(Pow2(k), 64));
    forall j: nat | j < 64
      ensures TestBit(WithoutBit(w, k), j) == (TestBit(w, j) && j != k)
    {
      AndBit(w, Not(Pow2(k), 64), j);
      NotBit(Pow2(k), 64, j);
      Pow2Bit(k, j);
    }
  }

  ghost predicate SpellsAt(words: seq<nat>, used: seq<bool>, i: nat) {
    && i < |used| && i / 64 < |words|
    && words[i / 64] < WORD
    && used[i] == TestBit(words[i / 64], i % 64)
  }

  /** `used` is the bits of the bitmap words. The counter keeps the verifier from
      opening the definition: clients carry it as one fact. */
  ghost predicate SpellsTo(words: seq<nat>, used: seq<bool>, depth: nat) {
    if depth == 0 then forall i: nat :: i < |used| ==> SpellsAt(words, used, i)
    else SpellsTo(words, used, depth - 1)
  }

  ghost predicate Spells(words: seq<nat>, used: seq<bool>) {
    SpellsTo(words, used, |used| + 3)
  }

  lemma {:induction false} SpellsToMeans(words: seq<nat>, used: seq<bool>, depth: nat)
    ensures SpellsTo(words, used, depth) <==> forall i: nat :: i < |used| ==> SpellsAt(words, used, i)
  {
    if depth > 0 { SpellsToMeans(words, used, depth - 1); }
  }

  lemma SpellsMeans(words: seq<nat>, used: seq<bool>)
    ensures Spells(words, used) <==> forall i: nat :: i < |used| ==> SpellsAt(words, used, i)
  {
    SpellsToMeans(words, used, |used| + 3);
  }

  lemma SpellsSetAt(words: seq<nat>, used: seq<bool>, w: nat, k: nat, i: nat)
    requires w < |words| && k < 64 && words[w] < WORD && SpellsAt(words, used, i)
    ensures SpellsAt(words[w := WithBit(words[w], k)],
                     if 64 * w + k < |used| then used[64 * w + k := true] else used, i)
  {
    WithBitBits(words[w], k);
    if i / 64 == w && i % 64 == k { assert i == 64 * w + k; }
  }

  lemma SpellsClearAt(words: seq<nat>, used: seq<bool>, w: nat, k: nat, i: nat)
    requires w < |words| && k < 64 && words[w] < WORD && 64 * w + k < |used| && SpellsAt(words, used, i)
    ensures SpellsAt(words[w := WithoutBit(words[w], k)], used[64 * w + k := false], i)
  {
    WithoutBitBits(words[w], k);
    if i / 64 == w && i % 64 == k { assert i == 64 * w + k; }
  }

  /** Setting one bit of one word sets one frame. */
  lemma SpellsSet(words: seq<nat>, used: seq<bool>, w: nat, k: nat)
    requires Spells(words, used) && w < |words| && k < 64 && 64 * w < |used|
    ensures Spells(words[w := WithBit(words[w], k)],
                   if 64 * w + k < |used| then used[64 * w + k := true] else used)
  {
    SpellsMeans(words, used);
    assert SpellsAt(words, used, 64 * w);
    var words' := words[w := WithBit(words[w], k)];
    var used' := if 64 * w + k < |used| then used[64 * w + k := true] else used;
    forall i: nat | i < |used|
      ensures SpellsAt(words', used', i)
    {
      SpellsSetAt(words, used, w, k, i);
    }
    SpellsMeans(words', used');
  }

  /** Clearing one bit of one word frees one frame. */
  lemma SpellsClear(words: seq<nat>, used: seq<bool>, w: nat, k: nat)
    requires Spells(words, used) && w < |words| && k < 64 && 64 * w + k < |used|
    ensures Spells(words[w := WithoutBit(words[w], k)], used[64 * w + k := false])
  {
    SpellsMeans(words, used);
    assert SpellsAt(words, used, 64 * w);
    var words' := words[w := WithoutBit(words[w], k)];
    var used' := used[64 * w + k := false];
    forall i: nat | i < |used|
      ensures SpellsAt(words', used', i)
    {
      SpellsClearAt(words, used, w, k, i);
    }
    SpellsMeans(words', used');
  }

  // ---- runs of free frames ---------------------------------------------

  /** No frame of `[s, s + n)` is reported allocated; an index past the managed
      range is never reported allocated. */
  ghost predicate FreeRun(used: seq<bool>, s: nat, n: nat) {
    forall i :: s <= i < s + n && i < |used| ==> !used[i]
  }

  /** The last start index the contiguous searches try. */
  function Limit(total: nat, n: nat): nat {
    if n <= total then total - n else 0
  }

  /** `s` is the first start the searches accept. */
  ghost predicate IsLeftmostRun(used: seq<bool>, n: nat, s: nat) {
    && s <= Limit(|used|, n)
    && FreeRun(used, s, n)
    && forall t: nat :: t < s ==> !FreeRun(used, t, n)
  }

  ghost predicate HasRun(used: seq<bool>, n: nat) {
    exists s: nat :: s <= Limit(|used|, n) && FreeRun(used, s, n)
  }

  /** `used` with `[s, s + n)` marked (indices past the end fall away). */
  ghost function Marked(used: seq<bool>, s: nat, n: nat): (r: seq<bool>)
    ensures |r| == |used|
    ensures forall i :: 0 <= i < |used| ==> r[i] == (used[i] || s <= i < s + n)
  {
    seq(|used|, i requires 0 <= i < |used| => used[i] || s <= i < s + n)
  }

  /** Page frame numbers in use when managed frame 0 has number `base`. */
  ghost function UsedSet(base: nat, used: seq<bool>): set<nat> {
    set f | base <= f < base + |used| && FrameInUse(base, used, f)
  }

  ghost predicate FrameInUse(base: nat, used: seq<bool>, f: nat)
    requires base <= f < base + |used|
  {
    used[f - base]
  }

  /** The page frame numbers of a run of managed frames. */
  ghost function Run(base: nat, s: nat, n: nat): set<nat> {
    Interval(base + s, base + s + n)
  }

  ghost function Interval(lo: nat, hi: nat): set<nat> {
    set f: nat | lo <= f < hi && Between(lo, f, hi)
  }

  ghost predicate Between(lo: nat, f: nat, hi: nat) {
    lo <= f < hi
  }

  lemma UsedSetUpdate(base: nat, used: seq<bool>, idx: nat, b: bool)
    requires idx < |used|
    ensures UsedSet(base, used[idx := b]) ==
            if b then UsedSet(base, used) + {base + idx} else UsedSet(base, used) - {base + idx}
  {
    var after := used[idx := b];
    forall f | base <= f < base + |used|
      ensures FrameInUse(base, after, f) == if f == base + idx then b else FrameInUse(base, used, f)
    {}
  }

  lemma UsedSetMarked(base: nat, used: seq<bool>, s: nat, n: nat)
    requires s + n <= |used| && FreeRun(used, s, n)
    ensures UsedSet(base, Marked(used, s, n)) == UsedSet(base, used) + Run(base, s, n)
    ensures Run(base, s, n) !! UsedSet(base, used)
  {
    forall f | base <= f < base + |used|
      ensures FrameInUse(base, Marked(used, s, n), f) == (FrameInUse(base, used, f) || f in Run(base, s, n))
    {}
    forall f | f in Run(base, s, n)
      ensures f !in UsedSet(base, used)
    {
      assert !used[f - base];
    }
  }

  lemma MarkNothing(used: seq<bool>, s: nat)
    ensures Marked(used, s, 0) == used
  {
    assert Marked(used, s, 0) == used;
  }

  /** An accepted run lies inside the managed range exactly when it fits at all:
      asking for more frames than exist is only refused because some frame is in
      use (the bitmap's own, normally). */
  lemma LeftmostRunInRange(used: seq<bool>, n: nat, s: nat)
    requires IsLeftmostRun(used, n, s)
    ensures s + n <= |used| <==> n <= |used|
    ensures n > |used| ==> s == 0 && forall i :: 0 <= i < |used| ==> !used[i]
  {}

  /** First-fit is deterministic. */
  lemma LeftmostRunUnique(used: seq<bool>, n: nat, s: nat, t: nat)
    requires IsLeftmostRun(used, n, s) && IsLeftmostRun(used, n, t)
    ensures s == t
  {
    assert s < t ==> !FreeRun(used, s, n);
    assert t < s ==> !FreeRun(used, t, n);
  }

  /** What other kernel tasks did to the bitmap while the lock was dropped:
      frames freed and frames taken, in order. */
  datatype Interference = Take(idx: nat) | Release(idx: nat)

  ghost function Disturb(used: seq<bool>, acts: seq<Interference>): (r: seq<bool>)
    ensures |r| == |used|
    decreases |acts|
  {
    if acts == [] then used
    else
      var a := acts[0];
      var next :=
        if a.idx >= |used| then used
        else used[a.idx := a.Take?];
      Disturb(next, acts[1..])
  }

  /** The bitmap after what others did during the first `k` lock drops. */
  ghost function DisturbRun(used: seq<bool>, env: nat -> seq<Interference>, k: nat): (r: seq<bool>)
    ensures |r| == |used|
  {
    if k == 0 then used else Disturb(DisturbRun(used, env, k - 1), env(k - 1))
  }

  /** No other task ever frees managed frame `i`. */
  ghost predicate Spared(env: nat -> seq<Interference>, i: nat) {
    forall k: nat :: SparedBy(env(k), i)
  }

  ghost predicate SparedBy(acts: seq<Interference>, i: nat) {
    Release(i) !in acts
  }

  lemma {:induction false} DisturbKeeps(used: seq<bool>, acts: seq<Interference>, i: nat)
    requires i < |used| && used[i] && SparedBy(acts, i)
    ensures Disturb(used, acts)[i]
    decreases |acts|
  {
    if acts != [] {
      var a := acts[0];
      assert a in acts;
      var next := if a.idx >= |used| then used else used[a.idx := a.Take?];
      assert SparedBy(acts[1..], i);
      DisturbKeeps(next, acts[1..], i);
    }
  }

  /** A frame nobody frees is still in use after any number of lock drops. */
  lemma {:induction false} DisturbRunKeeps(used: seq<bool>, env: nat -> seq<Interference>, k: nat, i: nat)
    requires i < |used| && used[i] && Spared(env, i)
    ensures DisturbRun(used, env, k)[i]
  {
    if k > 0 {
      DisturbRunKeeps(used, env, k - 1, i);
      DisturbKeeps(DisturbRun(used, env, k - 1), env(k - 1), i);
    }
  }

  /** Pages taken by the bitmap of a region of `frames` frames. */
  function BitmapPages(frames: nat): (r: nat)
    ensures r <= (frames + 63) / 64
  {
    ((frames + 63) / 64 * 8 + PAGE_SIZE - 1) / PAGE_SIZE
  }

  class FrameAllocator {
    const memoryStart: nat
    const totalFrames: nat
    const bitmap: array<nat>
    var lastAllocIndex: nat
    /** The bitmap read as one boolean per managed frame. */
    ghost var used: seq<bool>

    ghost predicate Valid()
      reads this, bitmap
    {
      && bitmap.Length == (totalFrames + 63) / 64
      && memoryStart % PAGE_SIZE == 0
      && lastAllocIndex <= totalFrames
      && |used| == totalFrames
      && Spells(bitmap[..], used)
    }

    /** Page frame number of managed frame 0. */
    function Base(): nat {
      memoryStart / PAGE_SIZE
    }

    /** Page frame numbers currently allocated. */
    ghost function Used(): set<nat>
      reads this`used
    {
      UsedSet(Base(), used)
    }

    /** The bitmap of a region lives in the region's first pages, which are
        therefore in use from the start. */
    constructor (start: nat, frames: nat)
      requires start % PAGE_SIZE == 0
      ensures Valid() && fresh(bitmap)
      ensures memoryStart == start && totalFrames == frames && lastAllocIndex == 0
      ensures forall i :: 0 <= i < frames ==> used[i] == (i < BitmapPages(frames))
    {
      memoryStart := start;
      totalFrames := frames;
      lastAllocIndex := 0;
      var words := (frames + 63) / 64;
      bitmap := new nat[words](_ => 0);
      used := seq(frames, _ => false);
      new;
      forall i: nat | i < totalFrames
        ensures SpellsAt(bitmap[..], used, i)
      {
        ZeroBit(i % 64);
      }
      SpellsMeans(bitmap[..], used);
      for i := 0 to BitmapPages(frames)
        invariant Valid() && lastAllocIndex == 0
        invariant forall j :: 0 <= j < totalFrames ==> used[j] == (j < i)
      {
        MarkUsed(i);
      }
    }

    /** Address and page frame number of managed frame `idx`. */
    lemma FrameAddress(idx: nat)
      requires memoryStart % PAGE_SIZE == 0
      ensures (memoryStart + idx * PAGE_SIZE) % PAGE_SIZE == 0
      ensures (memoryStart + idx * PAGE_SIZE) / PAGE_SIZE == Base() + idx
    {}

    method MarkUsed(idx: nat)
      requires Valid() && idx < 64 * bitmap.Length
      modifies this`used, bitmap
      ensures Valid()
      ensures used == if idx < totalFrames then old(used)[idx := true] else old(used)
    {
      var w, k := idx / 64, idx % 64;
      ghost var words := bitmap[..];
      SpellsSet(words, used, w, k);
      bitmap[w] := WithBit(bitmap[w], k);
      if idx < totalFrames {
        used := used[idx := true];
      }
      assert bitmap[..] == words[w := WithBit(words[w], k)];
    }

    method MarkFree(idx: nat)
      requires Valid() && idx < totalFrames
      modifies this`used, bitmap
      ensures Valid()
      ensures used == old(used)[idx := false]
    {
      var w, k := idx / 64, idx % 64;
      ghost var words := bitmap[..];
      SpellsClear(words, used, w, k);
      bitmap[w] := WithoutBit(bitmap[w], k);
      used := used[idx := false];
      assert bitmap[..] == words[w := WithoutBit(words[w], k)];
    }

    /** First clear bit of `[from, to)`, skipping words that are all ones. */
    method FindFree(from: nat, to: nat) returns (r: Option<nat>)
      requires Valid() && to <= totalFrames
      ensures r.Some? ==> from <= r.value < to && !used[r.value]
      ensures r.Some? ==> forall i :: from <= i < r.value ==> used[i]
      ensures r.None? ==> forall i :: from <= i < to ==> used[i]
    {
      SpellsMeans(bitmap[..], used);
      var idx := from;
      while idx < to
        invariant from <= idx
        invariant forall i :: from <= i < idx && i < to ==> used[i]
      {
        var w := idx / 64;
        var block := bitmap[w];
        if block == WORD - 1 {
          forall i | idx <= i < (w + 1) * 64 && i < to
            ensures used[i]
          {
            assert i / 64 == w && SpellsAt(bitmap[..], used, i);
            WordSize();
            OnesBit(64, i % 64);
          }
          idx := (w + 1) * 64;
          continue;
        }
        assert SpellsAt(bitmap[..], used, idx);
        MaskBit(block, idx % 64);
        if And(block, Pow2(idx % 64)) == 0 {
          return Some(idx);
        }
        idx := idx + 1;
      }
      return None;
    }

    /** Next-fit: the first free frame at or after the last allocation, else the
        first free frame of all; `None` exactly when every frame is in use. */
    method AllocateFrame() returns (r: Option<nat>, ghost idx: nat)
      requires Valid()
      modifies this, bitmap
      ensures Valid()
      ensures r.None? <==> forall i :: 0 <= i < totalFrames ==> old(used)[i]
      ensures r.None? ==> used == old(used)
      ensures r.Some? ==> IsNextFit(old(used), old(lastAllocIndex), idx)
      ensures r.Some? ==> r.value == memoryStart + idx * PAGE_SIZE
      ensures r.Some? ==> used == old(used)[idx := true] && lastAllocIndex == idx + 1
    {
      var start := lastAllocIndex;
      var found := FindFree(start, totalFrames);
      if found.None? {
        found := FindFree(0, start);
      }
      if found.None? {
        return None, 0;
      }
      MarkUsed(found.value);
      lastAllocIndex := found.value + 1;
      idx := found.value;
      r := Some(memoryStart + found.value * PAGE_SIZE);
    }

    /** Frees the frame holding `addr`; an address outside the region changes nothing. */
    method DeallocateFrame(addr: nat)
      requires Valid()
      modifies this`used, bitmap
      ensures Valid()
      ensures Used() == old(Used()) - {addr / PAGE_SIZE}
    {
      if addr < memoryStart || addr >= memoryStart + totalFrames * PAGE_SIZE {
        assert addr / PAGE_SIZE < Base() || addr / PAGE_SIZE >= Base() + totalFrames;
        return;
      }
      var idx := (addr - memoryStart) / PAGE_SIZE;
      assert idx == addr / PAGE_SIZE - Base();
      UsedSetUpdate(Base(), used, idx, false);
      MarkFree(idx);
    }

    method IsFrameAllocated(idx: nat) returns (b: bool)
      requires Valid()
      ensures b == (idx < totalFrames && used[idx])
    {
      if idx >= totalFrames { return false; }
      SpellsMeans(bitmap[..], used);
      assert SpellsAt(bitmap[..], used, idx);
      b := And(Shr(bitmap[idx / 64], idx % 64), 1) != 0;
      MaskBit(Shr(bitmap[idx / 64], idx % 64), 0);
    }

    method MarkRangeUsed(start: nat, n: nat)
      requires Valid() && start + n <= 64 * bitmap.Length
      modifies this`used, bitmap
      ensures Valid()
      ensures used == Marked(old(used), start, n)
    {
      MarkNothing(used, start);
      for i := 0 to n
        invariant Valid()
        invariant used == Marked(old(used), start, i)
      {
        MarkUsed(start + i);
      }
    }

    /** First-fit search for `n` adjacent free frames.
        A single frame goes through next-fit. Asking for more frames than the
        bitmap has bits while nothing is in use would index past the bitmap. */
    method AllocateContiguous(n: nat) returns (r: Option<nat>, ghost s: nat)
      requires Valid()
      requires n <= 64 * bitmap.Length || exists i :: 0 <= i < totalFrames && used[i]
      modifies this, bitmap
      ensures Valid()
      ensures n != 1 ==> lastAllocIndex == old(lastAllocIndex)
      ensures n != 1 ==> (r.None? <==> !HasRun(old(used), n))
      ensures n == 1 ==> (r.None? <==> forall i :: 0 <= i < totalFrames ==> old(used)[i])
      ensures r.None? ==> used == old(used)
      ensures r.Some? && n == 1 ==> IsNextFit(old(used), old(lastAllocIndex), s)
      ensures r.Some? && n != 1 ==> IsLeftmostRun(old(used), n, s)
      ensures r.Some? ==> r.value == memoryStart + s * PAGE_SIZE
      ensures r.Some? ==> used == Marked(old(used), s, n)
    {
      if n == 1 {
        r, s := AllocateFrame();
        assert r.Some? ==> used == Marked(old(used), s, 1);
        return;
      }
      var limit := Limit(totalFrames, n);
      var start := 0;
      while start <= limit
        modifies {}
        invariant start <= limit + 1
        invariant forall t: nat :: t < start ==> !FreeRun(used, t, n)
      {
        var free := RangeIsFree(start, n);
        if free { break; }
        start := start + 1;
      }
      if start > limit {
        return None, 0;
      }
      if n > totalFrames { LeftmostRunInRange(used, n, start); }
      MarkRangeUsed(start, n);
      r, s := Some(memoryStart + start * PAGE_SIZE), start;
    }

    /** Whether none of `[start, start + n)` is reported allocated. */
    method RangeIsFree(start: nat, n: nat) returns (free: bool)
      requires Valid()
      ensures free <==> FreeRun(used, start, n)
    {
      for i := 0 to n
        invariant FreeRun(used, start, i)
      {
        var taken := IsFrameAllocated(start + i);
        if taken {
          assert used[start + i];
          return false;
        }
      }
      return true;
    }

    /** Other tasks running while the allocator lock is free. */
    method LetOthersRun(acts: seq<Interference>)
      requires Valid()
      modifies this`used, bitmap
      ensures Valid()
      ensures used == Disturb(old(used), acts)
    {
      var k := 0;
      while k < |acts|
        invariant k <= |acts| && Valid()
        invariant Disturb(used, acts[k..]) == Disturb(old(used), acts)
      {
        assert acts[k..][1..] == acts[k + 1..];
        var a := acts[k];
        if a.idx < totalFrames {
          if a.Take? { MarkUsed(a.idx); } else { MarkFree(a.idx); }
        }
        k := k + 1;
      }
    }

    /** The `k`-th lock drop of a search that began at `start`. */
    method DropLock(env: nat -> seq<Interference>, k: nat, ghost start: seq<bool>)
      requires Valid() && used == DisturbRun(start, env, k)
      modifies this`used, bitmap
      ensures Valid() && used == DisturbRun(start, env, k + 1)
      ensures Quiet(env) ==> used == old(used)
    {
      LetOthersRun(env(k));
    }

    /** One bounded lock hold: count free frames from `from`, stopping at the
        first used one or after PROBE_CHUNK frames. */
    method ProbeChunk(from: nat) returns (free: nat, usedAt: Option<nat>)
      requires Valid() && from < totalFrames
      ensures from + free <= totalFrames
      ensures forall i :: from <= i < from + free ==> !used[i]
      ensures usedAt.Some? ==> usedAt.value == from + free < totalFrames && used[from + free]
      ensures usedAt.None? ==> free > 0
    {
      var end := if from + PROBE_CHUNK < totalFrames then from + PROBE_CHUNK else totalFrames;
      free := 0;
      while from + free < end
        invariant from + free <= end
        invariant forall i :: from <= i < from + free ==> !used[i]
      {
        var taken := IsFrameAllocated(from + free);
        if taken {
          return free, Some(from + free);
        }
        free := free + 1;
      }
      return free, None;
    }

    /** Final lock hold of a candidate: re-check every frame, then take them all. */
    method TakeIfStillFree(start: nat, n: nat) returns (ok: bool)
      requires Valid() && start + n <= totalFrames
      modifies this`used, bitmap
      ensures Valid()
      ensures ok <==> FreeRun(old(used), start, n)
      ensures used == if ok then Marked(old(used), start, n) else old(used)
    {
      ok := RangeIsFree(start, n);
      if ok {
        MarkRangeUsed(start, n);
      }
    }

    /** The chunked guest-RAM search. `env(k)` is whatever the other tasks do to
        the bitmap during the k-th lock drop; the result is judged against the
        bitmap `before` as it stood when the winning run was taken.
        - It always terminates, and only ever takes frames that are free then.
        - `before` is the bitmap as the others left it after `drops` lock drops, so
          the search itself marks the returned run and nothing else.
        - With nobody interfering it returns the leftmost run, and `None`
          exactly when there is none. */
    method AllocateGuestRam(n: nat, env: nat -> seq<Interference>)
      returns (r: Option<nat>, ghost before: seq<bool>, ghost s: nat, ghost drops: nat)
      requires Valid()
      modifies this`used, bitmap
      ensures Valid()
      ensures |before| == totalFrames && before == DisturbRun(old(used), env, drops)
      ensures r.None? ==> used == before
      ensures r.Some? ==> s + n <= totalFrames && FreeRun(before, s, n)
      ensures r.Some? ==> r.value == memoryStart + s * PAGE_SIZE && used == Marked(before, s, n)
      ensures Quiet(env) ==> before == old(used)
      ensures Quiet(env) ==>
                (r.Some? <==> n <= totalFrames && 0 < totalFrames && HasRun(old(used), n))
      ensures Quiet(env) && r.Some? ==> IsLeftmostRun(old(used), n, s)
    {
      var total := totalFrames;
      var limit := Limit(total, n);
      var candidate: nat := 0;
      var runLen: nat := 0;
      var drop: nat := 0;
      ghost var was := used;
      DropLock(env, drop, was);
      drop := drop + 1;
      while candidate <= limit
        invariant Valid()
        invariant candidate + runLen <= total || (runLen == 0 && candidate <= limit + 1)
        invariant runLen == 0 || runLen < n
        invariant n == 0 ==> candidate == 0
        invariant used == DisturbRun(was, env, drop)
        invariant Quiet(env) ==> used == old(used)
        invariant Quiet(env) ==> FreeRun(used, candidate, runLen)
        invariant Quiet(env) ==> forall t: nat :: t < candidate && t <= limit ==> !FreeRun(used, t, n)
        decreases limit + 1 - candidate, total - candidate - runLen
      {
        var probeFrom := candidate + runLen;
        if probeFrom >= total {
          break;
        }
        var chunk, usedAt := ProbeChunk(probeFrom);
        DropLock(env, drop, was);
        drop := drop + 1;
        runLen := runLen + chunk;
        if runLen >= n {
          before := used;
          var ok := TakeIfStillFree(candidate, n);
          if ok {
            s := candidate;
            return Some(memoryStart + candidate * PAGE_SIZE), before, s, drop;
          }
          DropLock(env, drop, was);
          drop := drop + 1;
          candidate := candidate + 1;
          runLen := 0;
          continue;
        }
        if usedAt.Some? {
          candidate := usedAt.value + 1;
          runLen := 0;
        }
      }
      before := used;
      r := None;
      s, drops := 0, drop;
    }
  }

  /** The next-fit choice: first free at or after `last`, else first free overall. */
  ghost predicate IsNextFit(used: seq<bool>, last: nat, idx: nat) {
    && idx < |used| && !used[idx]
    && (if idx >= last
        then forall i :: last <= i < idx ==> used[i]
        else (forall i :: 0 <= i < idx ==> used[i]) && forall i :: last <= i < |used| ==> used[i])
  }

  /** No other task touches the bitmap during the search. */
  ghost predicate Quiet(env: nat -> seq<Interference>) {
    forall k: nat :: env(k) == []
  }
}
