/** SHA-256 as the kernel computes it, against sections 5.1.1 and 6.2.2 of
    FIPS 180-4. Source: kernel/src/sha256.rs. */
module Sha256 {
  import opened ByteData
  import Bits

  /** A 32-bit word; addition is modulo 2^32. */
  type Word = nat

  const BLOCK: nat := 64
  const WORD_SIZE: nat := 0x1_0000_0000

  /** The initial hash value of section 5.3.3 of FIPS 180-4. */
  const H0: seq<Word> := [0x6a09_e667, 0xbb67_ae85, 0x3c6e_f372, 0xa54f_f53a, 0x510e_527f, 0x9b05_688c, 0x1f83_d9ab, 0x5be0_cd19]

  /** The round constants of section 4.2.2 of FIPS 180-4. */
  const K: seq<Word> := [
    0x428a_2f98, 0x7137_4491, 0xb5c0_fbcf, 0xe9b5_dba5, 0x3956_c25b, 0x59f1_11f1, 0x923f_82a4, 0xab1c_5ed5,
    0xd807_aa98, 0x1283_5b01, 0x2431_85be, 0x550c_7dc3, 0x72be_5d74, 0x80de_b1fe, 0x9bdc_06a7, 0xc19b_f174,
    0xe49b_69c1, 0xefbe_4786, 0x0fc1_9dc6, 0x240c_a1cc, 0x2de9_2c6f, 0x4a74_84aa, 0x5cb0_a9dc, 0x76f9_88da,
    0x983e_5152, 0xa831_c66d, 0xb003_27c8, 0xbf59_7fc7, 0xc6e0_0bf3, 0xd5a7_9147, 0x06ca_6351, 0x1429_2967,
    0x27b7_0a85, 0x2e1b_2138, 0x4d2c_6dfc, 0x5338_0d13, 0x650a_7354, 0x766a_0abb, 0x81c2_c92e, 0x9272_2c85,
    0xa2bf_e8a1, 0xa81a_664b, 0xc24b_8b70, 0xc76c_51a3, 0xd192_e819, 0xd699_0624, 0xf40e_3585, 0x106a_a070,
    0x19a4_c116, 0x1e37_6c08, 0x2748_774c, 0x34b0_bcb5, 0x391c_0cb3, 0x4ed8_aa4a, 0x5b9c_ca4f, 0x682e_6ff3,
    0x748f_82ee, 0x78a5_636f, 0x84c8_7814, 0x8cc7_0208, 0x90be_fffa, 0xa450_6ceb, 0xbef9_a3f7, 0xc671_78f2]

  // ---- the compression function (section 6.2.2) ------------------------

  /** The word operations of sections 2.2.2, 4.1.2 and 5.2.1 of FIPS 180-4. The structure
      below is stated and proved for any operations of this shape, as long as the
      order of additions does not matter. */
  datatype Ops = Ops(
    add: (Word, Word) -> Word,
    word: (Byte, Byte, Byte, Byte) -> Word,
    bigSigma0: Word -> Word, bigSigma1: Word -> Word, smallSigma0: Word -> Word, smallSigma1: Word -> Word,
    ch: (Word, Word, Word) -> Word, maj: (Word, Word, Word) -> Word)

  function Add(x: Word, y: Word): Word { (x + y) % WORD_SIZE }

  function WordOf(b0: Byte, b1: Byte, b2: Byte, b3: Byte): Word {
    0x100_0000 * (b0 as nat) + 0x1_0000 * (b1 as nat) + 0x100 * (b2 as nat) + (b3 as nat)
  }

  function Xor(x: nat, y: nat): nat
    decreases x
  {
    if x == 0 then y else 2 * Xor(x / 2, y / 2) + if x % 2 == y % 2 then 0 else 1
  }

  function Xor3(x: Word, y: Word, z: Word): Word { Xor(Xor(x, y), z) }

  /** Rotation of a 32-bit word to the right. */
  function Rotr(x: Word, n: nat): Word
    requires n <= 32
  {
    Bits.Or(Bits.Shr(x, n), Bits.Shl(Bits.Low(x, n), 32 - n))
  }

  function Complement(x: Word): Word { if x < WORD_SIZE then WORD_SIZE - 1 - x else 0 }

  function BigSigma0(x: Word): Word { Xor3(Rotr(x, 2), Rotr(x, 13), Rotr(x, 22)) }
  function BigSigma1(x: Word): Word { Xor3(Rotr(x, 6), Rotr(x, 11), Rotr(x, 25)) }
  function SmallSigma0(x: Word): Word { Xor3(Rotr(x, 7), Rotr(x, 18), Bits.Shr(x, 3)) }
  function SmallSigma1(x: Word): Word { Xor3(Rotr(x, 17), Rotr(x, 19), Bits.Shr(x, 10)) }
  function Ch(x: Word, y: Word, z: Word): Word { Xor(Bits.And(x, y), Bits.And(Complement(x), z)) }
  function Maj(x: Word, y: Word, z: Word): Word { Xor3(Bits.And(x, y), Bits.And(x, z), Bits.And(y, z)) }

  /** SHA-256's own operations. */
  const SHA: Ops := Ops(Add, WordOf, BigSigma0, BigSigma1, SmallSigma0, SmallSigma1, Ch, Maj)

  function Sum4(o: Ops, a: Word, b: Word, c: Word, d: Word): Word { o.add(o.add(o.add(a, b), c), d) }

  /** The order of four summands does not matter. */
  ghost predicate OrderFree(o: Ops) {
    forall a, b, c, d :: Sum4(o, a, b, c, d) == Sum4(o, d, c, b, a)
  }

  lemma ShaSum4(a: Word, b: Word, c: Word, d: Word)
    ensures Sum4(SHA, a, b, c, d) == (a + b + c + d) % WORD_SIZE
  {
    assert Sum4(SHA, a, b, c, d) == Add(Add(Add(a, b), c), d);
    AddMod(a + b, c);
    AddMod(a + b + c, d);
  }

  lemma AddMod(x: nat, y: nat)
    ensures (x % WORD_SIZE + y) % WORD_SIZE == (x + y) % WORD_SIZE
  {}

  lemma ShaOrderFree()
    ensures OrderFree(SHA)
  {
    forall a: Word, b: Word, c: Word, d: Word
      ensures Sum4(SHA, a, b, c, d) == Sum4(SHA, d, c, b, a)
    {
      ShaSum4(a, b, c, d);
      ShaSum4(d, c, b, a);
    }
  }

  /** Big-endian word `t` of a block. */
  function BlockWord(o: Ops, block: seq<Byte>, t: nat): Word
    requires 4 * t + 4 <= |block|
  {
    o.word(block[4 * t], block[4 * t + 1], block[4 * t + 2], block[4 * t + 3])
  }

  /** The first `n` words of the message schedule, by the recurrence of step 1. */
  function Schedule(o: Ops, block: seq<Byte>, n: nat): (w: seq<Word>)
    requires |block| == BLOCK
    ensures |w| == n
  {
    if n == 0 then []
    else
      var w, t := Schedule(o, block, n - 1), n - 1;
      w + [if t < 16 then BlockWord(o, block, t)
           else Sum4(o, o.smallSigma1(w[t - 2]), w[t - 7], o.smallSigma0(w[t - 15]), w[t - 16])]
  }

  /** The eight working variables. */
  datatype Vars = Vars(a: Word, b: Word, c: Word, d: Word, e: Word, f: Word, g: Word, h: Word)

  function T1(o: Ops, v: Vars, k: Word, w: Word): Word {
    o.add(Sum4(o, v.h, o.bigSigma1(v.e), o.ch(v.e, v.f, v.g), k), w)
  }

  function T2(o: Ops, v: Vars): Word { o.add(o.bigSigma0(v.a), o.maj(v.a, v.b, v.c)) }

  /** Step 3, one round. */
  function Round(o: Ops, v: Vars, k: Word, w: Word): Vars {
    Vars(o.add(T1(o, v, k, w), T2(o, v)), v.a, v.b, v.c, o.add(v.d, T1(o, v, k, w)), v.e, v.f, v.g)
  }

  function Rounds(o: Ops, v: Vars, w: seq<Word>, t: nat): Vars
    requires t <= |K| && t <= |w|
  {
    if t == 0 then v else Round(o, Rounds(o, v, w, t - 1), K[t - 1], w[t - 1])
  }

  function Unpack(h: seq<Word>): Vars
    requires |h| == 8
  {
    Vars(h[0], h[1], h[2], h[3], h[4], h[5], h[6], h[7])
  }

  function Var(v: Vars, k: nat): Word {
    if k == 0 then v.a else if k == 1 then v.b else if k == 2 then v.c else if k == 3 then v.d
    else if k == 4 then v.e else if k == 5 then v.f else if k == 6 then v.g else v.h
  }

  /** Step 4, for the first `n` words. */
  function AddVars(o: Ops, h: seq<Word>, v: Vars, n: nat): (r: seq<Word>)
    requires n <= |h|
    ensures |r| == n
  {
    if n == 0 then [] else AddVars(o, h, v, n - 1) + [o.add(h[n - 1], Var(v, n - 1))]
  }

  /** Steps 1 to 4 for one block. */
  function Compress(o: Ops, h: seq<Word>, block: seq<Byte>): (r: seq<Word>)
    requires |h| == 8 && |block| == BLOCK
    ensures |r| == 8
  {
    AddVars(o, h, Rounds(o, Unpack(h), Schedule(o, block, |block|), |block|), |h|)
  }

  // ---- padding (section 5.1.1) and the whole hash -----------------------

  /** 64-bit big endian. */
  function BigEndian64(x: nat): (r: seq<Byte>)
    ensures |r| == 8
  {
    seq(8, (k: nat) => ByteAt(x, if k < 8 then 7 - k else 0))
  }

  function ByteAt(x: nat, k: nat): Byte { x / Pow256(k) % 256 }

  /** Zero bytes between the mark and the length: as few as make whole blocks. */
  function PadZeros(n: nat): (z: nat)
    ensures (n + 1 + z + 8) % BLOCK == 0 && z < BLOCK
  {
    (119 - n % BLOCK) % BLOCK
  }

  function Pad(m: seq<Byte>): (r: seq<Byte>)
    ensures |r| % BLOCK == 0
  {
    m + [0x80] + Zeros(PadZeros(|m|)) + BigEndian64(8 * |m|)
  }

  /** The hash computation over consecutive blocks. */
  function HashBlocks(o: Ops, h: seq<Word>, s: seq<Byte>): (r: seq<Word>)
    requires |h| == 8
    ensures |r| == 8
    decreases |s|
  {
    if |s| < BLOCK then h else HashBlocks(o, Compress(o, h, s[..BLOCK]), s[BLOCK..])
  }

  function WordBytes(w: Word): (r: seq<Byte>)
    ensures |r| == 4
  {
    [ByteAt(w, 3), ByteAt(w, 2), ByteAt(w, 1), ByteAt(w, 0)]
  }

  function Digest(h: seq<Word>): (r: seq<Byte>)
    ensures |r| == 4 * |h|
  {
    if h == [] then [] else Digest(h[..|h| - 1]) + WordBytes(h[|h| - 1])
  }

  function HashWith(o: Ops, m: seq<Byte>): (r: seq<Byte>)
    ensures |r| == 32
  {
    Digest(HashBlocks(o, H0, Pad(m)))
  }

  // The hash as callers see it, behind a counter that the verifier does not count down
  // by itself; `HashIs` gives its definition.
  function HashTo(m: seq<Byte>, depth: nat): (r: seq<Byte>)
    ensures |r| == 32
  {
    if depth == 0 then HashWith(SHA, m) else HashTo(m, depth - 1)
  }

  /** SHA-256 as the standard defines it. */
  function Hash(m: seq<Byte>): (r: seq<Byte>)
    ensures |r| == 32
  {
    HashTo(m, |m| + 3)
  }

  lemma {:induction false} HashToIs(m: seq<Byte>, depth: nat)
    ensures HashTo(m, depth) == HashWith(SHA, m)
  {
    if depth > 0 { HashToIs(m, depth - 1); }
  }

  lemma HashIs(m: seq<Byte>)
    ensures Hash(m) == HashWith(SHA, m)
  {
    HashToIs(m, |m| + 3);
  }

  // ---- the kernel's code -----------------------------------------------

  /** Fills the message schedule. */
  method Expand(o: Ops, block: seq<Byte>) returns (w: array<Word>)
    requires |block| == BLOCK && OrderFree(o)
    ensures fresh(w) && w.Length == BLOCK && w[..] == Schedule(o, block, |block|)
  {
    w := new Word[BLOCK];
    for i := 0 to 16
      invariant w[..i] == Schedule(o, block, i)
    {
      w[i] := BlockWord(o, block, i);
    }
    for i := 16 to |block|
      invariant w[..i] == Schedule(o, block, i)
    {
      ghost var sofar := w[..i];
      assert sofar[i - 2] == w[i - 2] && sofar[i - 7] == w[i - 7] && sofar[i - 15] == w[i - 15] && sofar[i - 16] == w[i - 16];
      w[i] := Sum4(o, w[i - 16], o.smallSigma0(w[i - 15]), w[i - 7], o.smallSigma1(w[i - 2]));
    }
    assert w[..|block|] == w[..];
  }

  /** The 64 rounds on eight local variables. */
  method Mix(o: Ops, v0: Vars, w: array<Word>) returns (v: Vars)
    requires w.Length == BLOCK
    ensures v == Rounds(o, v0, w[..], w.Length)
  {
    var a, b, c, d, e, f, g, hh := v0.a, v0.b, v0.c, v0.d, v0.e, v0.f, v0.g, v0.h;
    for i := 0 to w.Length
      invariant Vars(a, b, c, d, e, f, g, hh) == Rounds(o, v0, w[..], i)
    {
      var t1 := o.add(Sum4(o, hh, o.bigSigma1(e), o.ch(e, f, g), K[i]), w[i]);
      var t2 := o.add(o.bigSigma0(a), o.maj(a, b, c));
      hh := g;
      g := f;
      f := e;
      e := o.add(d, t1);
      d := c;
      c := b;
      b := a;
      a := o.add(t1, t2);
    }
    v := Vars(a, b, c, d, e, f, g, hh);
  }

  /** Updates the hash value in place for one block. */
  method Process(o: Ops, h: array<Word>, block: seq<Byte>)
    requires h.Length == 8 && |block| == BLOCK && OrderFree(o)
    modifies h
    ensures h[..] == Compress(o, old(h[..]), block)
  {
    var w := Expand(o, block);
    var v := Mix(o, Unpack(h[..]), w);
    AddInto(o, h, v);
  }

  method AddInto(o: Ops, h: array<Word>, v: Vars)
    requires h.Length == 8
    modifies h
    ensures h[..] == AddVars(o, old(h[..]), v, h.Length)
  {
    ghost var h0 := h[..];
    h[0] := o.add(h[0], v.a);
    h[1] := o.add(h[1], v.b);
    h[2] := o.add(h[2], v.c);
    h[3] := o.add(h[3], v.d);
    h[4] := o.add(h[4], v.e);
    h[5] := o.add(h[5], v.f);
    h[6] := o.add(h[6], v.g);
    h[7] := o.add(h[7], v.h);
    AddVarsIs(o, h0, v, h[..]);
  }

  lemma AddVarsIs(o: Ops, h: seq<Word>, v: Vars, h': seq<Word>)
    requires |h'| == |h| == 8 && forall k :: 0 <= k < 8 ==> h'[k] == o.add(h[k], Var(v, k))
    ensures h' == AddVars(o, h, v, 8)
  {
    forall k | 0 <= k < 8
      ensures h'[k] == AddVars(o, h, v, 8)[k]
    {
      AddVarsAt(o, h, v, 8, k);
    }
  }

  lemma {:induction false} AddVarsAt(o: Ops, h: seq<Word>, v: Vars, n: nat, k: nat)
    requires k < n <= |h|
    ensures AddVars(o, h, v, n)[k] == o.add(h[k], Var(v, k))
  {
    if k < n - 1 { AddVarsAt(o, h, v, n - 1, k); }
  }

  /** The padded rest after the whole blocks: one block if the length fits behind the
      mark, else two. */
  function Tail(rem: seq<Byte>, bitLen: nat): (r: seq<Byte>)
    requires |rem| < BLOCK
    ensures |r| == if |rem| < 56 then 64 else 128
  {
    rem + [0x80] + Zeros((if |rem| < 56 then 64 else 128) - 8 - |rem| - 1) + BigEndian64(bitLen)
  }

  lemma PadCount(n: nat, lo: nat)
    requires lo <= n < lo + BLOCK && lo % BLOCK == 0
    ensures PadZeros(n) == (if n - lo < 56 then 64 else 128) - 8 - (n - lo) - 1
  {}

  /** Chunks followed by the padded rest are exactly the padded message. */
  lemma PadSplits(m: seq<Byte>, lo: nat)
    requires lo <= |m| < lo + BLOCK && lo % BLOCK == 0
    ensures Pad(m)[lo..] == Tail(m[lo..], 8 * |m|)
  {
    PadCount(|m|, lo);
    assert m[lo..] + [0x80] == (m + [0x80])[lo..];
  }

  /** Builds the padded rest in a zeroed 128-byte buffer. */
  method BuildTail(rem: seq<Byte>, bitLen: nat) returns (tail: array<Byte>, len: nat)
    requires |rem| < BLOCK
    ensures tail.Length == 128 && len <= 128 && tail[..len] == Tail(rem, bitLen) && (len == 64 || len == 128)
  {
    tail := new Byte[128](_ => 0);
    for i := 0 to |rem|
      invariant forall k :: 0 <= k < i ==> tail[k] == rem[k]
      invariant forall k :: i <= k < 128 ==> tail[k] == 0
    {
      tail[i] := rem[i];
    }
    tail[|rem|] := 0x80;
    len := if |rem| < 56 then 64 else 128;
    var be := BigEndian64(bitLen);
    for i := 0 to 8
      invariant forall k :: 0 <= k < |rem| ==> tail[k] == rem[k]
      invariant tail[|rem|] == 0x80
      invariant forall k :: |rem| < k < len - 8 ==> tail[k] == 0
      invariant forall k :: 0 <= k < i ==> tail[len - 8 + k] == be[k]
    {
      tail[len - 8 + i] := be[i];
    }
    TailIs(tail[..len], rem, bitLen);
  }

  lemma TailIs(t: seq<Byte>, rem: seq<Byte>, bitLen: nat)
    requires |rem| < BLOCK && |t| == (if |rem| < 56 then 64 else 128)
    requires forall k :: 0 <= k < |rem| ==> t[k] == rem[k]
    requires t[|rem|] == 0x80 && forall k :: |rem| < k < |t| - 8 ==> t[k] == 0
    requires forall k :: 0 <= k < 8 ==> t[|t| - 8 + k] == BigEndian64(bitLen)[k]
    ensures t == Tail(rem, bitLen)
  {
    var r := Tail(rem, bitLen);
    forall i | 0 <= i < |t|
      ensures t[i] == r[i]
    {
      if i >= |t| - 8 { assert t[|t| - 8 + (i - (|t| - 8))] == BigEndian64(bitLen)[i - (|t| - 8)]; }
    }
  }

  const MESSAGE_LIMIT: nat := 0x2000_0000_0000_0000

  /** All whole chunks, in order. */
  method HashChunks(o: Ops, h: array<Word>, data: seq<Byte>, ghost padded: seq<Byte>) returns (lo: nat)
    requires h.Length == 8 && OrderFree(o) && data <= padded
    modifies h
    ensures lo <= |data| < lo + BLOCK && lo % BLOCK == 0
    ensures HashBlocks(o, h[..], padded[lo..]) == HashBlocks(o, old(h[..]), padded)
  {
    assert padded[0..] == padded;
    lo := 0;
    ghost var target := HashBlocks(o, h[..], padded);
    LeadsToIs(o, h[..], padded[lo..], target, |data|);
    while lo + BLOCK <= |data|
      invariant lo <= |data| && lo % BLOCK == 0
      invariant LeadsTo(o, h[..], padded[lo..], target, |data|)
    {
      HashChunk(o, h, data, lo, padded, target);
      lo := lo + BLOCK;
    }
    LeadsToIs(o, h[..], padded[lo..], target, |data|);
  }

  // "Hashing `rest` from `h` gives `target`", behind a counter that the verifier does
  // not count down by itself.
  ghost predicate LeadsTo(o: Ops, h: seq<Word>, rest: seq<Byte>, target: seq<Word>, depth: nat)
    requires |h| == 8
  {
    if depth == 0 then HashBlocks(o, h, rest) == target else LeadsTo(o, h, rest, target, depth - 1)
  }

  lemma {:induction false} LeadsToIs(o: Ops, h: seq<Word>, rest: seq<Byte>, target: seq<Word>, depth: nat)
    requires |h| == 8
    ensures LeadsTo(o, h, rest, target, depth) <==> HashBlocks(o, h, rest) == target
  {
    if depth > 0 { LeadsToIs(o, h, rest, target, depth - 1); }
  }

  method HashChunk(o: Ops, h: array<Word>, data: seq<Byte>, lo: nat, ghost padded: seq<Byte>, ghost target: seq<Word>)
    requires h.Length == 8 && OrderFree(o) && data <= padded && lo + BLOCK <= |data|
    requires LeadsTo(o, h[..], padded[lo..], target, |data|)
    modifies h
    ensures LeadsTo(o, h[..], padded[lo + BLOCK..], target, |data|)
  {
    LeadsToIs(o, h[..], padded[lo..], target, |data|);
    OneBlock(o, h[..], padded, lo);
    assert padded[lo..lo + BLOCK] == data[lo..lo + BLOCK];
    Process(o, h, data[lo..lo + BLOCK]);
    LeadsToIs(o, h[..], padded[lo + BLOCK..], target, |data|);
  }

  lemma OneBlock(o: Ops, h: seq<Word>, s: seq<Byte>, lo: nat)
    requires |h| == 8 && lo + BLOCK <= |s|
    ensures HashBlocks(o, h, s[lo..]) == HashBlocks(o, Compress(o, h, s[lo..lo + BLOCK]), s[lo + BLOCK..])
  {
    assert s[lo..][..BLOCK] == s[lo..lo + BLOCK];
    assert s[lo..][BLOCK..] == s[lo + BLOCK..];
  }

  /** The rest behind the chunks, padded. */
  method HashRest(o: Ops, h: array<Word>, data: seq<Byte>, lo: nat, ghost padded: seq<Byte>)
    requires h.Length == 8 && OrderFree(o) && lo <= |data| < lo + BLOCK && |data| < MESSAGE_LIMIT
    requires lo <= |padded| && padded[lo..] == Tail(data[lo..], 8 * |data|)
    modifies h
    ensures h[..] == HashBlocks(o, old(h[..]), padded[lo..])
  {
    var bitLen := |data| * 8 % 0x1_0000_0000_0000_0000;
    assert bitLen == 8 * |data|;
    var tail, len := BuildTail(data[lo..], bitLen);
    Finish(o, h, tail, len);
  }

  /** The kernel's SHA-256: whole chunks first, then the padded rest. */
  method SumWith(o: Ops, data: seq<Byte>) returns (out: seq<Byte>)
    requires |data| < MESSAGE_LIMIT && OrderFree(o)
    ensures out == HashWith(o, data)
  {
    var h := InitialValue();
    ghost var padded := Pad(data);
    var lo := HashChunks(o, h, data, padded);
    PadSplits(data, lo);
    HashRest(o, h, data, lo, padded);
    out := WriteOut(h);
  }

  method InitialValue() returns (h: array<Word>)
    ensures fresh(h) && h.Length == 8 && h[..] == H0
  {
    h := new Word[8](i requires 0 <= i < 8 => H0[i]);
  }

  /** For every message of fewer than 2^61 bytes the kernel's result is the standard's. */
  method Sum(data: seq<Byte>) returns (out: seq<Byte>)
    requires |data| < MESSAGE_LIMIT
    ensures out == Hash(data)
  {
    ShaOrderFree();
    HashIs(data);
    out := SumWith(SHA, data);
  }

  /** Processes the one or two tail blocks. */
  method Finish(o: Ops, h: array<Word>, tail: array<Byte>, len: nat)
    requires h.Length == 8 && tail.Length == 128 && (len == 64 || len == 128) && OrderFree(o) && h as object != tail
    modifies h
    ensures h[..] == HashBlocks(o, old(h[..]), tail[..len])
  {
    ghost var t, target := tail[..len], HashBlocks(o, h[..], tail[..len]);
    var data := tail[..len];
    assert t[0..] == t;
    LeadsToIs(o, h[..], t[0..], target, |data|);
    HashChunk(o, h, data, 0, t, target);
    if len == 128 { HashChunk(o, h, data, BLOCK, t, target); }
    assert t[len..] == [];
    LeadsToIs(o, h[..], [], target, |data|);
  }

  method WriteOut(h: array<Word>) returns (out: seq<Byte>)
    requires h.Length == 8
    ensures out == Digest(h[..])
  {
    out := [];
    for i := 0 to 8
      invariant out == Digest(h[..i])
    {
      assert h[..i + 1][..i] == h[..i];
      out := out + WordBytes(h[i]);
    }
    assert h[..8] == h[..];
  }
}
