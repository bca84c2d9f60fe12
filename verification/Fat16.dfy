/** The in-place update of a FAT16 image: find the entry, free the old chain,
    allocate, write data and links, write the entry. Source: tools/fat16_insert.py. */
module Fat16 {
  import opened ByteData
  import opened Wrappers
  import Bits
  import opened Fat16Volume
  import opened Fat16Image
  import opened Fat16Safety

  /** These bytes show volume `v`; of the table words, those of the clusters in `w` were
      written in every copy; apart from that and what shows the volume they still are
      the image `from`. */
  ghost predicate ShowsBytes(d: seq<Byte>, g: Geo, v: Vol, from: seq<Byte>, w: set<nat>) {
    && |d| == |from| && GeoOk(g, |d|)
    && View(d, g) == v && Mirrored(from, d, g, w) && SameRest(from, d, g)
  }

  // Carried behind a counter that the verifier does not count down by itself.
  ghost predicate ShowsTo(d: seq<Byte>, g: Geo, v: Vol, from: seq<Byte>, w: set<nat>, depth: nat) {
    if depth == 0 then ShowsBytes(d, g, v, from, w) else ShowsTo(d, g, v, from, w, depth - 1)
  }

  lemma {:induction false} ShowsToMeans(d: seq<Byte>, g: Geo, v: Vol, from: seq<Byte>, w: set<nat>, depth: nat)
    ensures ShowsTo(d, g, v, from, w, depth) <==> ShowsBytes(d, g, v, from, w)
  {
    if depth > 0 { ShowsToMeans(d, g, v, from, w, depth - 1); }
  }

  ghost predicate Shows(d: array<Byte>, g: Geo, v: Vol, from: seq<Byte>, w: set<nat>)
    reads d
  {
    && ShowsTo(d[..], g, v, from, w, g.nfat + 3)
    && 1 <= g.maxCluster && g.maxCluster + 1 == |v.fat| < EOC_MIN && |v.data| == |v.fat| && |v.root| == g.rootent && 0 < g.clusBytes
  }

  lemma ShowsMeans(d: array<Byte>, g: Geo, v: Vol, from: seq<Byte>, w: set<nat>)
    ensures Shows(d, g, v, from, w) <==> ShowsBytes(d[..], g, v, from, w)
  {
    ShowsToMeans(d[..], g, v, from, w, g.nfat + 3);
  }

  lemma ReadWord(d: seq<Byte>, g: Geo, c: nat)
    requires GeoOk(g, |d|) && c <= g.maxCluster
    ensures g.fatStart + 2 * c + 2 <= |d| && View(d, g).fat[c] == U16(d, g.fatStart + 2 * c)
  {
    CopyInside(g, |d|, 0);
    ClusOffFrom(g, g.maxCluster + 1);
    assert g.fatStart + 2 * c + 2 <= |d|;
    assert CopyFat(d, g, 0)[c] == WordAt(d, FatBase(g, 0) + 2 * c);
  }

  lemma ReadEntry(d: seq<Byte>, g: Geo, i: nat)
    requires GeoOk(g, |d|) && i < g.rootent
    ensures var o := g.rootStart + DIR_ENTRY * i; o + DIR_ENTRY <= |d| && View(d, g).root[i] == d[o..o + DIR_ENTRY]
  {
    ClusOffFrom(g, g.maxCluster + 1);
    assert View(d, g).root[i] == Slice(d, g.rootStart + DIR_ENTRY * i, DIR_ENTRY);
  }

  method GetFat(d: array<Byte>, g: Geo, c: nat, ghost v: Vol, ghost from: seq<Byte>, ghost w: set<nat>) returns (x: nat)
    requires Shows(d, g, v, from, w) && c <= g.maxCluster
    ensures x == v.fat[c]
  {
    ShowsMeans(d, g, v, from, w);
    ReadWord(d[..], g, c);
    var o := g.fatStart + 2 * c;
    x := Word(d[o], d[o + 1]);
  }

  method GetEntry(d: array<Byte>, g: Geo, i: nat, ghost v: Vol, ghost from: seq<Byte>, ghost w: set<nat>)
    returns (e: seq<Byte>)
    requires Shows(d, g, v, from, w) && i < g.rootent
    ensures |e| == DIR_ENTRY && e == v.root[i]
  {
    ShowsMeans(d, g, v, from, w);
    ReadEntry(d[..], g, i);
    var o := g.rootStart + DIR_ENTRY * i;
    e := d[o..o + DIR_ENTRY];
  }

  /** Where the word of cluster `c` lies in copy `fi`, by the builder's formula. */
  method TableOffset(g: Geo, fi: nat, c: nat) returns (o: nat)
    ensures o == FatBase(g, fi) + 2 * c
  {
    FatBaseFormula(g, fi);
    o := g.fatStart + fi * g.fatBytes + 2 * c;
  }

  /** Writes the bytes of a word into every table copy. */
  method PutEverywhere(d: array<Byte>, g: Geo, c: nat, x: nat)
    requires GeoOk(g, d.Length) && c <= g.maxCluster && x < 0x1_0000
    modifies d
    ensures d[..] == PutCopies(old(d[..]), g, c, x, g.nfat)
  {
    ghost var d0 := d[..];
    ClusOffFrom(g, g.maxCluster + 1);
    for fi := 0 to g.nfat
      invariant d[..] == PutCopies(d0, g, c, x, fi)
    {
      CopyInside(g, d.Length, fi);
      var o := TableOffset(g, fi, c);
      d[o] := x % 0x100;
      d[o + 1] := x / 0x100;
    }
  }

  /** Writes the word into every table copy. */
  method SetFat(d: array<Byte>, g: Geo, c: nat, x: nat, ghost v: Vol, ghost from: seq<Byte>, ghost w: set<nat>)
    requires Shows(d, g, v, from, w) && c <= g.maxCluster && x < 0x1_0000
    modifies d
    ensures Shows(d, g, v.(fat := v.fat[c := x]), from, w + {c})
  {
    ghost var d0 := d[..];
    ShowsMeans(d, g, v, from, w);
    PutEverywhere(d, g, c, x);
    SetFatShows(d0, g, c, x);
    MirrorSet(from, d0, d[..], g, w, c, x);
    SameRestTrans(from, d0, d[..], g);
    ShowsMeans(d, g, v.(fat := v.fat[c := x]), from, w + {c});
  }

  method PutBytes(d: array<Byte>, o: nat, s: seq<Byte>)
    requires o + |s| <= d.Length
    modifies d
    ensures d[..] == Splice(old(d[..]), o, s)
  {
    ghost var d0 := d[..];
    for i := 0 to |s|
      invariant forall p :: 0 <= p < d.Length ==> d[p] == if o <= p < o + i then s[p - o] else d0[p]
    {
      d[o + i] := s[i];
    }
  }

  /** Fills a cluster with a segment and zeros the tail. */
  method WriteCluster(d: array<Byte>, g: Geo, c: nat, seg: seq<Byte>, ghost v: Vol, ghost from: seq<Byte>,
                      ghost w: set<nat>)
    requires Shows(d, g, v, from, w) && 2 <= c <= g.maxCluster && |seg| <= g.clusBytes
    modifies d
    ensures Shows(d, g, v.(data := v.data[c := seg + Zeros(g.clusBytes - |seg|)]), from, w)
  {
    ghost var d0 := d[..];
    var piece := seg + Zeros(g.clusBytes - |seg|);
    ShowsMeans(d, g, v, from, w);
    ClusterShows(d0, g, c, piece);
    ClusOffFormula(g, c);
    PutBytes(d, g.dataStart + (c - 2) * g.clusBytes, piece);
    MirrorSame(from, d0, d[..], g, w);
    SameRestTrans(from, d0, d[..], g);
    ShowsMeans(d, g, v.(data := v.data[c := piece]), from, w);
  }

  method WriteEntry(d: array<Byte>, g: Geo, i: nat, e: seq<Byte>, ghost v: Vol, ghost from: seq<Byte>,
                    ghost w: set<nat>)
    requires Shows(d, g, v, from, w) && i < g.rootent && |e| == DIR_ENTRY
    modifies d
    ensures Shows(d, g, v.(root := v.root[i := e]), from, w)
  {
    ghost var d0 := d[..];
    ShowsMeans(d, g, v, from, w);
    EntryShows(d0, g, i, e);
    PutBytes(d, g.rootStart + DIR_ENTRY * i, e);
    MirrorSame(from, d0, d[..], g, w);
    SameRestTrans(from, d0, d[..], g);
    ShowsMeans(d, g, v.(root := v.root[i := e]), from, w);
  }

  // ---- the stages of the update ----------------------------------------

  /** One pass over the root directory for the name or the first unused entry. */
  method FindSlots(d: array<Byte>, g: Geo, name: seq<Byte>, ghost v: Vol, ghost from: seq<Byte>, ghost w: set<nat>)
    returns (match_: Option<nat>, free: Option<nat>)
    requires Shows(d, g, v, from, w) && |name| == 11
    ensures VolOk(v, g.clusBytes) && match_ == FindMatch(v.root, name, 0)
    ensures match_.None? ==> free == FindFree(v.root, 0)
  {
    ShowsMeans(d, g, v, from, w);
    ViewOk(d[..], g);
    match_, free := None, None;
    var i := 0;
    while i < g.rootent
      invariant 0 <= i <= g.rootent && FindMatch(v.root, name, 0) == FindMatch(v.root, name, i)
      invariant free.None? ==> FindFree(v.root, 0) == FindFree(v.root, i)
      invariant free.Some? ==> FindFree(v.root, 0) == free
    {
      var e := GetEntry(d, g, i, v, from, w);
      if e[0] == 0x00 || e[0] == 0xE5 {
        if free.None? { free := Some(i); }
        if e[0] == 0x00 { return; }
      } else if e[..11] == name {
        match_ := Some(i);
        return;
      }
      i := i + 1;
    }
  }

  /** Frees the chain that starts at `first`. Terminates on every table: each turn
      frees a cluster that was in use. */
  method FreeOld(d: array<Byte>, g: Geo, first: nat, ghost v: Vol, ghost from: seq<Byte>, ghost w: set<nat>)
    requires Shows(d, g, v, from, w)
    modifies d
    ensures Shows(d, g, v.(fat := FreeChain(v.fat, first)), from, w + Freed(v.fat, first))
  {
    ghost var fat: seq<nat>, w1 := v.fat, w;
    assert w + Freed(fat, first) == w1 + Freed(fat, first);
    var cur: nat := first;
    while 2 <= cur <= g.maxCluster
      invariant |fat| == g.maxCluster + 1 && Shows(d, g, v.(fat := fat), from, w1)
      invariant FreeChain(fat, cur) == FreeChain(v.fat, first)
      invariant w1 + Freed(fat, cur) == w + Freed(v.fat, first)
      decreases NonFree(fat)
    {
      var next := GetFat(d, g, cur, v.(fat := fat), from, w1);
      if next == FREE {
        assert w1 == w + Freed(v.fat, first);
        return;
      }
      NonFreeClear(fat, cur);
      SetFat(d, g, cur, FREE, v.(fat := fat), from, w1);
      ghost var rest := if next >= EOC_MIN || next < 2 then {} else Freed(fat[cur := FREE], next);
      assert (w1 + {cur}) + rest == w1 + Freed(fat, cur);
      fat, w1 := fat[cur := FREE], w1 + {cur};
      if next >= EOC_MIN || next < 2 {
        assert w1 == w + Freed(v.fat, first);
        return;
      }
      cur := next;
    }
    assert w1 == w + Freed(v.fat, first);
  }

  lemma {:induction false} FreeListPrefix(fat: seq<nat>, k: nat, n: nat)
    requires k <= n <= |fat|
    ensures FreeList(fat, k) <= FreeList(fat, n)
  {
    if k < n { FreeListPrefix(fat, k, n - 1); }
  }

  /** The first `need` free clusters, or all there are. */
  method Allocate(d: array<Byte>, g: Geo, need: nat, ghost v: Vol, ghost from: seq<Byte>, ghost w: set<nat>)
    returns (chain: seq<nat>)
    requires Shows(d, g, v, from, w) && need > 0
    ensures |chain| < need ==> |FreeList(v.fat, |v.fat|)| < need
    ensures |chain| >= need ==> need <= |FreeList(v.fat, |v.fat|)| && chain == FreeList(v.fat, |v.fat|)[..need]
  {
    chain := [];
    var c := 2;
    while c <= g.maxCluster
      invariant 2 <= c <= g.maxCluster + 1 && chain == FreeList(v.fat, c) && |chain| < need
    {
      var x := GetFat(d, g, c, v, from, w);
      if x == FREE {
        chain := chain + [c];
        if |chain| == need {
          FreeListPrefix(v.fat, c + 1, |v.fat|);
          return;
        }
      }
      c := c + 1;
    }
  }

  /** How many clusters a file needs. */
  lemma {:induction false} PiecesCount(src: seq<Byte>, cb: nat)
    requires cb > 0
    ensures |Pieces(src, cb)| == if |src| == 0 then 1 else (|src| + cb - 1) / cb
    decreases |src|
  {
    if |src| <= cb {
      if |src| > 0 { OneCluster(|src|, cb); }
    } else {
      PiecesCount(src[cb..], cb);
      OneMore(|src| - 1, cb);
    }
  }

  lemma OneCluster(n: nat, cb: nat)
    requires 0 < n <= cb
    ensures (n + cb - 1) / cb == 1
  {}

  lemma OneMore(n: nat, cb: nat)
    requires cb > 0
    ensures (n + cb) / cb == n / cb + 1
  {
    assert n == cb * (n / cb) + n % cb;
    assert n + cb == cb * (n / cb + 1) + n % cb;
    Bits.QuotientUnique(n + cb, cb, n / cb + 1, n % cb);
  }

  /** Writes the data and the links of the new chain. */
  method WriteChain(d: array<Byte>, g: Geo, chain: seq<nat>, src: seq<Byte>, ghost v: Vol, ghost from: seq<Byte>,
                    ghost w: set<nat>)
    requires Shows(d, g, v, from, w) && g.clusBytes > 0 && |chain| == |Pieces(src, g.clusBytes)|
    requires InRange(v.fat, chain)
    modifies d
    ensures Shows(d, g, v.(fat := Link(v.fat, chain, |chain|), data := Fill(v.data, chain, Pieces(src, g.clusBytes), |chain|)), from, w + Members(chain))
  {
    ghost var pieces := Pieces(src, g.clusBytes);
    ghost var u, w1 := v, w;
    var lo := 0;
    for idx := 0 to |chain|
      invariant lo <= |src| && (idx < |chain| ==> Pieces(src[lo..], g.clusBytes) == pieces[idx..])
      invariant u == v.(fat := Link(v.fat, chain, idx), data := Fill(v.data, chain, pieces, idx))
      invariant Shows(d, g, u, from, w1)
      invariant w1 == w + Members(chain[..idx])
    {
      var c := chain[idx];
      var hi := if lo + g.clusBytes < |src| then lo + g.clusBytes else |src|;
      PieceAt(src, lo, hi, g.clusBytes, pieces, idx);
      WriteCluster(d, g, c, src[lo..hi], u, from, w1);
      u := u.(data := u.data[c := pieces[idx]]);
      var next := if idx + 1 < |chain| then chain[idx + 1] else EOC;
      SetFat(d, g, c, next, u, from, w1);
      assert chain[..idx + 1] == chain[..idx] + [c];
      assert Members(chain[..idx + 1]) == Members(chain[..idx]) + {c};
      w1 := w1 + {c};
      u := u.(fat := u.fat[c := next]);
      lo := hi;
    }
    assert chain[..|chain|] == chain;
  }

  lemma PieceAt(src: seq<Byte>, lo: nat, hi: nat, cb: nat, pieces: seq<seq<Byte>>, idx: nat)
    requires cb > 0 && idx < |pieces| && lo <= |src| && hi == (if lo + cb < |src| then lo + cb else |src|)
    requires Pieces(src[lo..], cb) == pieces[idx..]
    ensures lo <= hi <= |src| && hi - lo <= cb && src[lo..hi] + Zeros(cb - (hi - lo)) == pieces[idx]
    ensures idx + 1 < |pieces| ==> Pieces(src[hi..], cb) == pieces[idx + 1..]
  {
    var rest := src[lo..];
    assert pieces[idx..][0] == pieces[idx];
    assert pieces[idx..][1..] == pieces[idx + 1..];
    if |rest| <= cb {
      assert src[lo..hi] == rest;
      assert |pieces[idx..]| == 1;
    } else {
      assert rest[..cb] == src[lo..hi] && rest[cb..] == src[hi..];
      assert src[lo..hi] + Zeros(0) == src[lo..hi];
      assert Pieces(rest, cb)[1..] == Pieces(rest[cb..], cb);
    }
  }

  // ---- the whole update ------------------------------------------------

  /** The result of an update is what `Insert` says of the volume; the table words it
      writes are the same in every copy, and no other byte is changed. */
  ghost predicate Updated(image: seq<Byte>, g: Geo, name: seq<Byte>, src: seq<Byte>, r: Result<seq<Byte>, InsertError>)
    requires GeoOk(g, |image|) && |name| == 11
  {
    ViewOk(image, g);
    match Insert(View(image, g), name, src, g.clusBytes)
    case Err(e) => r == Err(e)
    case Ok(v') =>
      && r.Ok? && |r.value| == |image| && View(r.value, g) == v' && SameRest(image, r.value, g)
      && Mirrored(image, r.value, g, Touched(View(image, g), name, src, g.clusBytes))
  }

  lemma InsertIs(v: Vol, name: seq<Byte>, src: seq<Byte>, cb: nat, slot: nat, chain: seq<nat>)
    requires VolOk(v, cb) && |name| == 11 && |src| < SIZE_LIMIT && Slot(v.root, name) == Some(slot)
    requires var f, n := FreeList(Cleared(v, name), |v.fat|), |Pieces(src, cb)|;
             n <= |f| && chain == f[..n] && chain[0] < 0x1_0000
    ensures Insert(v, name, src, cb)
         == Ok(Vol(Link(Cleared(v, name), chain, |chain|),
                   v.root[slot := Entry(name, chain[0], |src|)],
                   Fill(v.data, chain, Pieces(src, cb), |chain|)))
  {}

  /** The update of a buffer that shows `v`. */
  method Update(d: array<Byte>, g: Geo, name: seq<Byte>, src: seq<Byte>, ghost v: Vol, ghost from: seq<Byte>,
                ghost w: set<nat>)
    returns (err: Option<InsertError>)
    requires Shows(d, g, v, from, w) && VolOk(v, g.clusBytes) && |name| == 11
    modifies d
    ensures match Insert(v, name, src, g.clusBytes)
            case Err(e) => err == Some(e)
            case Ok(v') => err.None? && Shows(d, g, v', from, w + Touched(v, name, src, g.clusBytes))
  {
    var match_, free := FindSlots(d, g, name, v, from, w);
    ghost var fat1, w1 := Cleared(v, name), w;
    if match_.Some? {
      var e := GetEntry(d, g, match_.value, v, from, w);
      FreeOld(d, g, First(e), v, from, w);
      w1 := w + Freed(v.fat, First(e));
    }
    ghost var v1 := v.(fat := fat1);
    PiecesCount(src, g.clusBytes);
    var need := if |src| == 0 then 1 else (|src| + g.clusBytes - 1) / g.clusBytes;
    var chain := Allocate(d, g, need, v1, from, w1);
    if |chain| < need { return Some(TooFewClusters); }
    ChosenFree(fat1, need);
    WriteChain(d, g, chain, src, v1, from, w1);
    var slot := if match_.Some? then match_ else free;
    if slot.None? { return Some(RootFull); }
    if |src| >= SIZE_LIMIT { return Some(TooLarge); }
    ghost var v2 := v1.(fat := Link(fat1, chain, |chain|),
                        data := Fill(v.data, chain, Pieces(src, g.clusBytes), |chain|));
    EntryMeans(name, chain[0], |src|);
    assert w1 + Members(chain) == w + Touched(v, name, src, g.clusBytes);
    WriteEntry(d, g, slot.value, EntryBytes(name, chain[0], |src|), v2, from, w1 + Members(chain));
    InsertIs(v, name, src, g.clusBytes, slot.value, chain);
    return None;
  }

  /** The update of a copy of the image. */
  method UpdateCopy(image: seq<Byte>, g: Geo, name: seq<Byte>, src: seq<Byte>)
    returns (r: Result<seq<Byte>, InsertError>)
    requires GeoOk(g, |image|) && |name| == 11
    ensures Updated(image, g, name, src, r)
  {
    ghost var v := View(image, g);
    var d := new Byte[|image|](i requires 0 <= i < |image| => image[i]);
    assert d[..] == image;
    ShowsMeans(d, g, v, image, {});
    ViewOk(image, g);
    var err := Update(d, g, name, src, v, image, {});
    if err.Some? { return Err(err.value); }
    ghost var w := Touched(v, name, src, g.clusBytes);
    assert {} + w == w;
    ShowsMeans(d, g, Insert(v, name, src, g.clusBytes).value, image, w);
    return Ok(d[..]);
  }

  /** What the tool writes back: the image updated for `name`, or an error and the
      file left as it is. */
  method InsertFile(image: seq<Byte>, name: seq<Byte>, src: seq<Byte>) returns (r: Result<seq<Byte>, InsertError>)
    requires |image| >= BPB_END && |name| == 11
    requires ReadGeo(image).Ok? ==> GeoOk(ReadGeo(image).value, |image|)
    ensures ReadGeo(image).Err? ==> r == Err(NotFat)
    ensures ReadGeo(image).Ok? ==> Updated(image, ReadGeo(image).value, name, src, r)
  {
    var geo := ReadGeo(image);
    if geo.Err? { return Err(NotFat); }
    r := UpdateCopy(image, geo.value, name, src);
  }

  // ---- guarantees on bytes ---------------------------------------------

  /** The whole guarantee, read off the bytes before and after: the named file reads
      back as `src` along its chain, every other file keeps its entry, chain and
      bytes, table copies that agreed still agree, clusters are conserved, and the volume
      is well-formed again. */
  lemma Guarantees(image: seq<Byte>, g: Geo, name: seq<Byte>, src: seq<Byte>, out: seq<Byte>, chains: map<nat,
                   seq<nat>>)
    returns (slot: nat, chain: seq<nat>)
    requires GeoOk(g, |image|) && NameOk(name) && Updated(image, g, name, src, Ok(out))
    requires WellFormed(View(image, g), g.clusBytes, chains)
    ensures WellFormed(View(out, g), g.clusBytes, chains[slot := chain])
    ensures CopiesEqual(image, g) ==> CopiesEqual(out, g)
    ensures HoldsFile(View(out, g), name, src, slot, chain)
    ensures forall i :: i in chains && i != slot ==> SameFile(View(image, g), View(out, g), i, chains[i])
    ensures FreeClusters(View(out, g)) == FreeClusters(View(image, g)) + |OldChain(chains, slot)| - |Pieces(src, g.clusBytes)|
  {
    ViewOk(image, g);
    if CopiesEqual(image, g) { MirrorKeepsEqual(image, out, g, Touched(View(image, g), name, src, g.clusBytes)); }
    slot, chain := InsertGuarantees(View(image, g), g.clusBytes, chains, name, src, View(out, g));
  }

  lemma SameGeometry(image: seq<Byte>, image': seq<Byte>, g: Geo)
    requires |image| >= BPB_END && GeoOk(g, |image|) && ReadGeo(image) == Ok(g) && SameRest(image, image', g)
    ensures ReadGeo(image') == Ok(g)
  {
    assert forall p :: 0 <= p < BPB_END ==> image'[p] == image[p];
    assert ReadBpb(image') == ReadBpb(image);
  }

  lemma InsertSucceedsAgain(image: seq<Byte>, g: Geo, name: seq<Byte>, src: seq<Byte>, once: seq<Byte>)
    requires |image| >= BPB_END && GeoOk(g, |image|) && NameOk(name) && Updated(image, g, name, src, Ok(once))
    ensures GeoOk(g, |once|) && VolOk(View(once, g), g.clusBytes)
    ensures Insert(View(once, g), name, src, g.clusBytes) == Ok(View(once, g))
    ensures VolOk(View(image, g), g.clusBytes)
    ensures Touched(View(once, g), name, src, g.clusBytes) <= Touched(View(image, g), name, src, g.clusBytes)
  {
    ViewOk(image, g);
    ViewOk(once, g);
    InsertIsIdempotent(View(image, g), g.clusBytes, name, src, View(once, g));
  }

  /** Inserting the same name and bytes into the result leaves every byte as it is. */
  lemma ReinsertChangesNothing(image: seq<Byte>, g: Geo, name: seq<Byte>, src: seq<Byte>, once: seq<Byte>,
                               twice: seq<Byte>)
    requires |image| >= BPB_END && ReadGeo(image) == Ok(g) && GeoOk(g, |image|) && NameOk(name)
    requires Updated(image, g, name, src, Ok(once))
    requires GeoOk(g, |once|) && Updated(once, g, name, src, Ok(twice))
    ensures twice == once
  {
    InsertSucceedsAgain(image, g, name, src, once);
    CopiesSettle(image, once, twice, g, Touched(View(image, g), name, src, g.clusBytes),
                 Touched(View(once, g), name, src, g.clusBytes));
    SameBytes(once, twice, g);
  }

  /** Words written again are the ones every copy already has. */
  lemma CopiesSettle(image: seq<Byte>, once: seq<Byte>, twice: seq<Byte>, g: Geo, w1: set<nat>, w2: set<nat>)
    requires g.maxCluster >= 1 && 0 < g.nfat && w2 <= w1 && CopyFat(twice, g, 0) == CopyFat(once, g, 0)
    requires Mirrored(image, once, g, w1) && Mirrored(once, twice, g, w2)
    ensures SameCopies(once, twice, g)
  {
    forall fi | 0 <= fi < g.nfat
      ensures CopyFat(twice, g, fi) == CopyFat(once, g, fi)
    {
      forall c | 0 <= c <= g.maxCluster
        ensures CopyFat(twice, g, fi)[c] == CopyFat(once, g, fi)[c]
      {
        assert MirroredAt(image, once, g, w1, fi, c) && MirroredAt(once, twice, g, w2, fi, c);
      }
    }
  }

  /** The tool run twice with the same arguments: the second run works on what the first
      wrote back, which is the image itself where the first refused. */
  method InsertTwice(image: seq<Byte>, name: seq<Byte>, src: seq<Byte>)
    returns (once: Result<seq<Byte>, InsertError>, twice: Result<seq<Byte>, InsertError>)
    requires |image| >= BPB_END && NameOk(name)
    requires ReadGeo(image).Ok? ==> GeoOk(ReadGeo(image).value, |image|)
    ensures twice == once
  {
    once := InsertFile(image, name, src);
    if once.Ok? {
      ghost var g := ReadGeo(image).value;
      SameGeometry(image, once.value, g);
      twice := InsertFile(once.value, name, src);
      InsertSucceedsAgain(image, g, name, src, once.value);
      ReinsertChangesNothing(image, g, name, src, once.value, twice.value);
    } else {
      twice := InsertFile(image, name, src);
    }
  }
}
