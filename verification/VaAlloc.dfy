/** The lock-free allocator of cell address slots, as the atomic steps of any number
    of threads. Source: kernel/src/loader/va_alloc.rs. */
module VaAlloc {
  import opened Wrappers

  const CELL_VA_START: nat := 0x1_0000_0000
  const CELL_VA_STRIDE: nat := 0x200_0000
  const MAX_SLOTS: nat := 512
  const WORD_BITS: nat := 64
  const BITMAP_WORDS: nat := 8

  /** The bits set in one word of the free bitmap. */
  type Word = set<nat>

  /** Where a thread is inside `alloc_cell_va`: `val` is its last look at the word. */
  datatype Thread = Scanning(word: nat, val: Word) | Bumping | Overshot

  /** `bump` and `free` are shared memory. `owned` is what callers hold, `issued` how
      many slots the bump pointer has handed out so far. */
  datatype State = State(bump: nat, free: seq<Word>, threads: map<nat, Thread>, owned: set<nat>, issued: nat)

  datatype Label =
    | Begin(t: nat)
    | Exchange(t: nat)
    | Retry(t: nat)
    | NextWord(t: nat)
    | Bump(t: nat)
    | Undo(t: nat)
    | Free(base: nat)

  function Base(slot: nat): nat { CELL_VA_START + slot * CELL_VA_STRIDE }

  /** `trailing_zeros`: the lowest bit set from `k` on, the word size if none. */
  function Lowest(w: Word, k: nat): (b: nat)
    requires k <= WORD_BITS
    ensures k <= b <= WORD_BITS && (b < WORD_BITS ==> b in w) && forall c :: k <= c < b ==> c !in w
    decreases WORD_BITS - k
  {
    if k == WORD_BITS || k in w then k else Lowest(w, k + 1)
  }

  /** The slot a base address names, if it names one. */
  function SlotOf(base: nat): Option<nat> {
    if base < CELL_VA_START then None
    else if (base - CELL_VA_START) % CELL_VA_STRIDE != 0 then None
    else if (base - CELL_VA_START) / CELL_VA_STRIDE >= MAX_SLOTS then None
    else Some((base - CELL_VA_START) / CELL_VA_STRIDE)
  }

  // ---- steps -----------------------------------------------------------

  predicate ScanningAt(s: State, t: nat) {
    t in s.threads && s.threads[t].Scanning? && s.threads[t].word < BITMAP_WORDS && |s.free| == BITMAP_WORDS
  }

  predicate Enabled(s: State, l: Label) {
    match l
    case Begin(t) => t !in s.threads && |s.free| == BITMAP_WORDS
    case Exchange(t) => ScanningAt(s, t) && Lowest(s.threads[t].val, 0) < WORD_BITS && s.free[s.threads[t].word] == s.threads[t].val
    case Retry(t) => ScanningAt(s, t) && Lowest(s.threads[t].val, 0) < WORD_BITS
    case NextWord(t) => ScanningAt(s, t) && Lowest(s.threads[t].val, 0) == WORD_BITS
    case Bump(t) => t in s.threads && s.threads[t].Bumping?
    case Undo(t) => t in s.threads && s.threads[t].Overshot? && s.bump > 0
    case Free(base) => SlotOf(base).Some? ==> SlotOf(base).value in s.owned && |s.free| == BITMAP_WORDS
  }

  /** One atomic step. `Exchange` is a successful compare-exchange, `Retry` a failed
      or spuriously failed one. Frees are made by owners only. */
  function Step(s: State, l: Label): State
    requires Enabled(s, l)
  {
    match l
    case Begin(t) => s.(threads := s.threads[t := Scanning(0, s.free[0])])
    case Exchange(t) =>
      var w := s.threads[t].word;
      var bit := Lowest(s.threads[t].val, 0);
      s.(free := s.free[w := s.free[w] - {bit}], threads := s.threads - {t}, owned := s.owned + {w * WORD_BITS + bit})
    case Retry(t) => s.(threads := s.threads[t := Scanning(s.threads[t].word, s.free[s.threads[t].word])])
    case NextWord(t) =>
      var w := s.threads[t].word + 1;
      s.(threads := s.threads[t := if w < BITMAP_WORDS then Scanning(w, s.free[w]) else Bumping])
    case Bump(t) =>
      if s.bump >= MAX_SLOTS then s.(bump := s.bump + 1, threads := s.threads[t := Overshot])
      else s.(bump := s.bump + 1, threads := s.threads - {t}, owned := s.owned + {s.bump}, issued := s.issued + 1)
    case Undo(t) => s.(bump := s.bump - 1, threads := s.threads - {t})
    case Free(base) =>
      match SlotOf(base)
      case None => s
      case Some(slot) =>
        s.(free := s.free[slot / WORD_BITS := s.free[slot / WORD_BITS] + {slot % WORD_BITS}], owned := s.owned - {slot})
  }

  /** The slot an `alloc` step returns, if it returns one. */
  function Issues(s: State, l: Label): Option<nat>
    requires Enabled(s, l)
  {
    match l
    case Exchange(t) => Some(s.threads[t].word * WORD_BITS + Lowest(s.threads[t].val, 0))
    case Bump(t) => if s.bump >= MAX_SLOTS then None else Some(s.bump)
    case _ => None
  }

  // ---- invariant -------------------------------------------------------

  /** Slot `i` is marked reusable. */
  predicate IsFree(s: State, i: nat) {
    i < MAX_SLOTS && |s.free| == BITMAP_WORDS && i % WORD_BITS in s.free[i / WORD_BITS]
  }

  /** Threads that added past the end and have not undone it yet. */
  ghost function Overshoots(s: State): set<nat> {
    set t | t in s.threads && s.threads[t].Overshot?
  }

  ghost predicate Inv(s: State) {
    && |s.free| == BITMAP_WORDS && s.issued <= MAX_SLOTS
    && (forall w, b :: 0 <= w < BITMAP_WORDS && b in s.free[w] ==> b < WORD_BITS)
    && s.bump == s.issued + |Overshoots(s)|
    && (Overshoots(s) != {} ==> s.issued == MAX_SLOTS)
    && (forall i :: i in s.owned ==> i < s.issued && !IsFree(s, i))
    && (forall i: nat :: i < s.issued ==> i in s.owned || IsFree(s, i))
    && (forall i: nat :: IsFree(s, i) ==> i < s.issued)
  }

  lemma SlotParts(w: nat, b: nat)
    requires w < BITMAP_WORDS && b < WORD_BITS
    ensures (w * WORD_BITS + b) / WORD_BITS == w && (w * WORD_BITS + b) % WORD_BITS == b
    ensures w * WORD_BITS + b < MAX_SLOTS
  {}

  lemma SameOvershoots(s: State, s': State)
    requires forall t :: (t in s.threads && s.threads[t].Overshot?) <==> (t in s'.threads && s'.threads[t].Overshot?)
    ensures Overshoots(s') == Overshoots(s)
  {}

  lemma ExchangeKeeps(s: State, t: nat)
    requires Inv(s) && Enabled(s, Exchange(t))
    ensures Inv(Step(s, Exchange(t))) && Issues(s, Exchange(t)).value !in s.owned
  {
    var s', w, bit := Step(s, Exchange(t)), s.threads[t].word, Lowest(s.threads[t].val, 0);
    var slot := w * WORD_BITS + bit;
    SameOvershoots(s, s');
    SlotParts(w, bit);
    assert IsFree(s, slot);
    forall i: nat
      ensures IsFree(s', i) <==> IsFree(s, i) && i != slot
    {
      assert i == i / WORD_BITS * WORD_BITS + i % WORD_BITS;
    }
  }

  lemma BumpKeeps(s: State, t: nat)
    requires Inv(s) && Enabled(s, Bump(t))
    ensures Inv(Step(s, Bump(t))) && (Issues(s, Bump(t)).Some? ==> s.bump == s.issued && s.bump !in s.owned)
  {
    var s' := Step(s, Bump(t));
    forall i: nat ensures IsFree(s', i) <==> IsFree(s, i) {}
    if s.bump >= MAX_SLOTS {
      assert Overshoots(s') == Overshoots(s) + {t};
    } else {
      SameOvershoots(s, s');
    }
  }

  lemma UndoKeeps(s: State, t: nat)
    requires Inv(s) && Enabled(s, Undo(t))
    ensures Inv(Step(s, Undo(t)))
  {
    var s' := Step(s, Undo(t));
    forall i: nat ensures IsFree(s', i) <==> IsFree(s, i) {}
    assert t in Overshoots(s);
    assert Overshoots(s') == Overshoots(s) - {t};
  }

  lemma FreeKeeps(s: State, base: nat)
    requires Inv(s) && Enabled(s, Free(base))
    ensures Inv(Step(s, Free(base)))
  {
    if SlotOf(base).Some? {
      var s', slot := Step(s, Free(base)), SlotOf(base).value;
      SameOvershoots(s, s');
      forall i: nat
        ensures IsFree(s', i) <==> IsFree(s, i) || i == slot
      {
        assert i == i / WORD_BITS * WORD_BITS + i % WORD_BITS;
        assert slot == slot / WORD_BITS * WORD_BITS + slot % WORD_BITS;
      }
    }
  }

  lemma LookKeeps(s: State, l: Label)
    requires Inv(s) && Enabled(s, l) && (l.Begin? || l.Retry? || l.NextWord?)
    ensures Inv(Step(s, l))
  {
    var s' := Step(s, l);
    SameOvershoots(s, s');
    forall i: nat ensures IsFree(s', i) <==> IsFree(s, i) {}
  }

  lemma StepKeeps(s: State, l: Label)
    requires Inv(s) && Enabled(s, l)
    ensures Inv(Step(s, l))
  {
    match l
    case Exchange(t) => ExchangeKeeps(s, t);
    case Bump(t) => BumpKeeps(s, t);
    case Undo(t) => UndoKeeps(s, t);
    case Free(base) => FreeKeeps(s, base);
    case _ => LookKeeps(s, l);
  }

  // ---- runs ------------------------------------------------------------

  function Boot(): State { State(0, [{}, {}, {}, {}, {}, {}, {}, {}], map[], {}, 0) }

  ghost predicate Reaches(run: seq<Label>, s: State)
    decreases |run|
  {
    if run == [] then s == Boot()
    else
      var k := |run| - 1;
      exists prev: State :: Reaches(run[..k], prev) && Enabled(prev, run[k]) && s == Step(prev, run[k])
  }

  lemma {:induction false} ReachableInv(run: seq<Label>, s: State)
    requires Reaches(run, s)
    ensures Inv(s)
    decreases |run|
  {
    if run != [] {
      var k := |run| - 1;
      var prev :| Reaches(run[..k], prev) && Enabled(prev, run[k]) && s == Step(prev, run[k]);
      ReachableInv(run[..k], prev);
      StepKeeps(prev, run[k]);
    } else {
      assert Overshoots(s) == {};
    }
  }

  /** Under every interleaving the 512 slots split into owned, free for reuse, and
      never used. */
  lemma SlotsPartition(run: seq<Label>, s: State, i: nat)
    requires Reaches(run, s) && i < MAX_SLOTS
    ensures i in s.owned <==> i < s.issued && !IsFree(s, i)
    ensures IsFree(s, i) <==> i < s.issued && i !in s.owned
    ensures forall k :: k in s.owned ==> k < MAX_SLOTS
  {
    ReachableInv(run, s);
  }

  /** Under every interleaving a slot handed out is one nobody owns, so no two live
      cells ever share a slot; in particular undoing an overshoot re-issues nothing. */
  lemma NeverIssuedTwice(run: seq<Label>, s: State, l: Label)
    requires Reaches(run, s) && Enabled(s, l) && Issues(s, l).Some?
    ensures Issues(s, l).value !in s.owned && Issues(s, l).value < MAX_SLOTS
    ensures Step(s, l).owned == s.owned + {Issues(s, l).value}
  {
    ReachableInv(run, s);
    match l
    case Exchange(t) => ExchangeKeeps(s, t); SlotParts(s.threads[t].word, Lowest(s.threads[t].val, 0));
    case Bump(t) => BumpKeeps(s, t);
  }

  /** Different slots are disjoint address ranges, and `free` finds the slot of the base
      `alloc` returned. */
  lemma SlotsDisjoint(i: nat, j: nat)
    requires i < j < MAX_SLOTS
    ensures Base(i) + CELL_VA_STRIDE <= Base(j) && SlotOf(Base(i)) == Some(i) && SlotOf(Base(j)) == Some(j)
  {}
}
