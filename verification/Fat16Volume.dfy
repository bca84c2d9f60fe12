/** A FAT16 volume as a table, a root directory and clusters, and what inserting a
    root file does to it. Source: tools/fat16_insert.py. */
module Fat16Volume {
  import opened ByteData
  import opened Wrappers

  const FREE: nat := 0
  const EOC: nat := 0xFFFF
  const EOC_MIN: nat := 0xFFF8
  const DIR_ENTRY: nat := 32
  const SIZE_LIMIT: nat := 0x1_0000_0000

  /** `fat[c]` and `data[c]` belong to cluster `c`; 0 and 1 are not clusters. */
  datatype Vol = Vol(fat: seq<nat>, root: seq<seq<Byte>>, data: seq<seq<Byte>>)

  datatype InsertError = NotFat | TooFewClusters | RootFull | TooLarge

  // ---- directory entries -----------------------------------------------

  /** Little endian: `lo + 0x100 * hi`, by recursion so that proofs take it as a symbol. */
  function Word(lo: nat, hi: nat): nat {
    if hi == 0 then lo else 0x100 + Word(lo, hi - 1)
  }

  lemma {:induction false} WordIs(lo: nat, hi: nat)
    ensures Word(lo, hi) == lo + 0x100 * hi
  {
    if hi > 0 { WordIs(lo, hi - 1); }
  }

  function U16(s: seq<Byte>, o: nat): nat
    requires o + 2 <= |s|
  {
    Word(s[o], s[o + 1])
  }

  function U32(s: seq<Byte>, o: nat): nat
    requires o + 4 <= |s|
  {
    Word(s[o], s[o + 1]) + 0x1_0000 * Word(s[o + 2], s[o + 3])
  }

  function Bytes16(x: nat): (r: seq<Byte>)
    requires x < 0x1_0000
    ensures |r| == 2 && U16(r, 0) == x
  {
    WordIs(x % 0x100, x / 0x100);
    [x % 0x100, x / 0x100]
  }

  function Bytes32(x: nat): (r: seq<Byte>)
    requires x < SIZE_LIMIT
    ensures |r| == 4 && U32(r, 0) == x
  {
    Bytes16(x % 0x1_0000) + Bytes16(x / 0x1_0000)
  }

  function First(e: seq<Byte>): nat
    requires |e| == DIR_ENTRY
  {
    U16(e, 0x1A)
  }

  function Size(e: seq<Byte>): nat
    requires |e| == DIR_ENTRY
  {
    U32(e, 0x1C)
  }

  /** The bytes written for a file: name, archive attribute, first cluster, size. */
  function EntryBytes(name: seq<Byte>, first: nat, size: nat): (e: seq<Byte>)
    requires |name| == 11 && first < 0x1_0000 && size < SIZE_LIMIT
    ensures |e| == DIR_ENTRY && e[..11] == name && First(e) == first && Size(e) == size
  {
    var e := name + [0x20] + Zeros(14) + Bytes16(first) + Bytes32(size);
    assert e[0x1A] == Bytes16(first)[0] && e[0x1B] == Bytes16(first)[1];
    assert e[0x1C] == Bytes32(size)[0] && e[0x1D] == Bytes32(size)[1] && e[0x1E] == Bytes32(size)[2] && e[0x1F] == Bytes32(size)[3];
    e
  }

  /** `EntryBytes` behind a counter, so that proofs see its fields and not its bytes. */
  ghost function EntryTo(name: seq<Byte>, first: nat, size: nat, depth: nat): (e: seq<Byte>)
    requires |name| == 11 && first < 0x1_0000 && size < SIZE_LIMIT
    ensures |e| == DIR_ENTRY && e[..11] == name && First(e) == first && Size(e) == size
    decreases depth
  {
    if depth == 0 then EntryBytes(name, first, size) else EntryTo(name, first, size, depth - 1)
  }

  ghost function Entry(name: seq<Byte>, first: nat, size: nat): (e: seq<Byte>)
    requires |name| == 11 && first < 0x1_0000 && size < SIZE_LIMIT
    ensures |e| == DIR_ENTRY && e[..11] == name && First(e) == first && Size(e) == size
  {
    EntryTo(name, first, size, size + 3)
  }

  lemma {:induction false} EntryToMeans(name: seq<Byte>, first: nat, size: nat, depth: nat)
    requires |name| == 11 && first < 0x1_0000 && size < SIZE_LIMIT
    ensures EntryTo(name, first, size, depth) == EntryBytes(name, first, size)
    decreases depth
  {
    if depth > 0 { EntryToMeans(name, first, size, depth - 1); }
  }

  lemma EntryMeans(name: seq<Byte>, first: nat, size: nat)
    requires |name| == 11 && first < 0x1_0000 && size < SIZE_LIMIT
    ensures Entry(name, first, size) == EntryBytes(name, first, size)
  {
    EntryToMeans(name, first, size, size + 3);
  }

  predicate Unused(e: seq<Byte>)
    requires |e| == DIR_ENTRY
  {
    e[0] == 0x00 || e[0] == 0xE5
  }

  /** The first entry with this name, looking no further than the end marker. */
  function FindMatch(root: seq<seq<Byte>>, name: seq<Byte>, i: nat): (r: Option<nat>)
    requires i <= |root| && (forall k :: 0 <= k < |root| ==> |root[k]| == DIR_ENTRY)
    ensures r.Some? ==> i <= r.value < |root|
    decreases |root| - i
  {
    if i == |root| || root[i][0] == 0x00 then None
    else if root[i][0] != 0xE5 && root[i][..11] == name then Some(i)
    else FindMatch(root, name, i + 1)
  }

  /** The first unused entry. */
  function FindFree(root: seq<seq<Byte>>, i: nat): (r: Option<nat>)
    requires i <= |root| && (forall k :: 0 <= k < |root| ==> |root[k]| == DIR_ENTRY)
    ensures r.Some? ==> i <= r.value < |root|
    decreases |root| - i
  {
    if i == |root| then None
    else if Unused(root[i]) then Some(i)
    else FindFree(root, i + 1)
  }

  function Slot(root: seq<seq<Byte>>, name: seq<Byte>): Option<nat>
    requires forall k :: 0 <= k < |root| ==> |root[k]| == DIR_ENTRY
  {
    var m := FindMatch(root, name, 0);
    if m.Some? then m else FindFree(root, 0)
  }

  // ---- freeing a chain -------------------------------------------------

  function NonFree(fat: seq<nat>): nat {
    if fat == [] then 0 else NonFree(fat[..|fat| - 1]) + if fat[|fat| - 1] != FREE then 1 else 0
  }

  lemma {:induction false} NonFreeClear(fat: seq<nat>, c: nat)
    requires c < |fat| && fat[c] != FREE
    ensures NonFree(fat[c := FREE]) == NonFree(fat) - 1
  {
    var k := |fat| - 1;
    if c == k {
      assert fat[c := FREE][..k] == fat[..k];
    } else {
      NonFreeClear(fat[..k], c);
      assert fat[c := FREE][..k] == fat[..k][c := FREE];
    }
  }

  /** Follows the chain from `c`, freeing it. Each turn leaves one cluster fewer in
      use, so it ends even on a cyclic chain. */
  function FreeChain(fat: seq<nat>, c: nat): (r: seq<nat>)
    ensures |r| == |fat|
    decreases NonFree(fat)
  {
    if 2 <= c < |fat| && fat[c] != FREE then
      NonFreeClear(fat, c);
      var next, fat1 := fat[c], fat[c := FREE];
      if next >= EOC_MIN || next < 2 then fat1 else FreeChain(fat1, next)
    else fat
  }

  /** The clusters `FreeChain` frees. */
  ghost function Freed(fat: seq<nat>, c: nat): set<nat>
    decreases NonFree(fat)
  {
    if 2 <= c < |fat| && fat[c] != FREE then
      NonFreeClear(fat, c);
      var next, fat1 := fat[c], fat[c := FREE];
      if next >= EOC_MIN || next < 2 then {c} else {c} + Freed(fat1, next)
    else {}
  }

  // ---- allocation ------------------------------------------------------

  /** Free clusters below `n`, ascending. */
  function FreeList(fat: seq<nat>, n: nat): seq<nat>
    requires n <= |fat|
  {
    if n <= 2 then []
    else if fat[n - 1] == FREE then FreeList(fat, n - 1) + [n - 1]
    else FreeList(fat, n - 1)
  }

  /** `f` lists the free clusters below `n` in ascending order. */
  ghost predicate ListsFree(fat: seq<nat>, n: nat, f: seq<nat>)
    requires n <= |fat|
  {
    && (forall k :: 0 <= k < |f| ==> 2 <= f[k] < n && fat[f[k]] == FREE)
    && (forall j, k :: 0 <= j < k < |f| ==> f[j] < f[k])
    && (forall c :: 2 <= c < n && fat[c] == FREE ==> c in f)
  }

  lemma {:induction false} FreeListSpec(fat: seq<nat>, n: nat)
    requires n <= |fat|
    ensures ListsFree(fat, n, FreeList(fat, n))
  {
    if n > 2 {
      FreeListSpec(fat, n - 1);
      var f, f' := FreeList(fat, n - 1), FreeList(fat, n);
      assert forall k :: 0 <= k < |f| ==> f'[k] == f[k];
      forall c | 2 <= c < n && fat[c] == FREE
        ensures c in f'
      {
        if c == n - 1 { assert f'[|f|] == c; } else { assert c in f; }
      }
    }
  }

  /** Links `chain[i..]`: each cluster to the next, the last to the end mark. */
  function Link(fat: seq<nat>, chain: seq<nat>, i: nat): (r: seq<nat>)
    requires i <= |chain|
    ensures |r| == |fat|
  {
    if i == 0 then fat
    else
      var f := Link(fat, chain, i - 1);
      var c := chain[i - 1];
      if c < |f| then f[c := if i < |chain| then chain[i] else EOC] else f
  }

  // ---- file data -------------------------------------------------------

  /** The file cut into clusters, the last one padded with zeros. */
  function Pieces(src: seq<Byte>, cb: nat): (r: seq<seq<Byte>>)
    requires cb > 0
    ensures |r| >= 1 && forall k :: 0 <= k < |r| ==> |r[k]| == cb
    decreases |src|
  {
    if |src| <= cb then [src + Zeros(cb - |src|)] else [src[..cb]] + Pieces(src[cb..], cb)
  }

  function Join(pieces: seq<seq<Byte>>): seq<Byte> {
    if pieces == [] then [] else pieces[0] + Join(pieces[1..])
  }

  lemma {:induction false} JoinPieces(src: seq<Byte>, cb: nat)
    requires cb > 0
    ensures src <= Join(Pieces(src, cb))
    decreases |src|
  {
    var p := Pieces(src, cb);
    if |src| <= cb {
      assert p[1..] == [];
    } else {
      JoinPieces(src[cb..], cb);
      assert p[1..] == Pieces(src[cb..], cb);
      assert src == src[..cb] + src[cb..];
    }
  }

  /** Writes piece `k` into cluster `chain[k]`, for `k` below `i`. */
  function Fill(data: seq<seq<Byte>>, chain: seq<nat>, pieces: seq<seq<Byte>>, i: nat): (r: seq<seq<Byte>>)
    requires i <= |chain| && i <= |pieces|
    ensures |r| == |data|
  {
    if i == 0 then data
    else
      var d := Fill(data, chain, pieces, i - 1);
      var c := chain[i - 1];
      if c < |d| then d[c := pieces[i - 1]] else d
  }

  // ---- insert ----------------------------------------------------------


  ghost predicate VolOk(v: Vol, cb: nat) {
    && cb > 0 && 2 <= |v.fat| < EOC_MIN && |v.data| == |v.fat|
    && (forall k :: 0 <= k < |v.root| ==> |v.root[k]| == DIR_ENTRY)
    && (forall c :: 2 <= c < |v.data| ==> |v.data[c]| == cb)
  }

  /** The table once the old chain of an overwritten entry is freed. */
  function Cleared(v: Vol, name: seq<Byte>): (r: seq<nat>)
    requires forall k :: 0 <= k < |v.root| ==> |v.root[k]| == DIR_ENTRY
    ensures |r| == |v.fat|
  {
    var m := FindMatch(v.root, name, 0);
    if m.Some? then FreeChain(v.fat, First(v.root[m.value])) else v.fat
  }

  /** The clusters whose table words an insertion writes: those of the old chain and
      those of the new one. */
  ghost function Touched(v: Vol, name: seq<Byte>, src: seq<Byte>, cb: nat): set<nat>
    requires cb > 0 && forall k :: 0 <= k < |v.root| ==> |v.root[k]| == DIR_ENTRY
  {
    var m, f, n := FindMatch(v.root, name, 0), FreeList(Cleared(v, name), |v.fat|), |Pieces(src, cb)|;
    (if m.Some? then Freed(v.fat, First(v.root[m.value])) else {}) + if n <= |f| then Members(f[..n]) else {}
  }

  ghost function Insert(v: Vol, name: seq<Byte>, src: seq<Byte>, cb: nat): Result<Vol, InsertError>
    requires cb > 0 && |name| == 11 && |v.fat| < EOC_MIN
    requires forall k :: 0 <= k < |v.root| ==> |v.root[k]| == DIR_ENTRY
  {
    var fat1 := Cleared(v, name);
    var pieces := Pieces(src, cb);
    var free := FreeList(fat1, |fat1|);
    var slot := Slot(v.root, name);
    if |free| < |pieces| then Err(TooFewClusters)
    else if slot.None? then Err(RootFull)
    else if |src| >= SIZE_LIMIT then Err(TooLarge)
    else
      FreeListSpec(fat1, |fat1|);
      var chain := free[..|pieces|];
      Ok(Vol(Link(fat1, chain, |chain|),
             v.root[slot.value := Entry(name, chain[0], |src|)],
             Fill(v.data, chain, pieces, |chain|)))
  }
}
