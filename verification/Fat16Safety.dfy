/** What inserting a root file guarantees on a well-formed FAT16 volume: the file
    reads back, every other file is untouched, clusters are conserved, and inserting
    the same file again changes nothing. */
module Fat16Safety {
  import opened ByteData
  import opened Wrappers
  import opened Fat16Volume

  // ---- well-formed volumes ---------------------------------------------

  ghost predicate InRange(fat: seq<nat>, ch: seq<nat>) {
    forall k :: 0 <= k < |ch| ==> 2 <= ch[k] < |fat|
  }

  /** `ch` is a chain of the table: linked, ended by a mark, without repetition. */
  ghost predicate IsChain(fat: seq<nat>, ch: seq<nat>) {
    && ch != [] && InRange(fat, ch) && Distinct(ch)
    && (forall k :: 0 <= k < |ch| - 1 ==> fat[ch[k]] == ch[k + 1])
    && fat[ch[|ch| - 1]] >= EOC_MIN
  }

  /** A chain is determined by its first cluster. */
  lemma {:induction false} ChainUnique(fat: seq<nat>, a: seq<nat>, b: seq<nat>)
    requires |fat| < EOC_MIN && IsChain(fat, a) && IsChain(fat, b) && a[0] == b[0]
    ensures a == b
    decreases |a|
  {
    if |a| > 1 && |b| > 1 {
      assert fat[a[0]] == a[1] && fat[b[0]] == b[1];
      ChainTail(fat, a);
      ChainTail(fat, b);
      ChainUnique(fat, a[1..], b[1..]);
      assert a == [a[0]] + a[1..] && b == [b[0]] + b[1..];
    } else if |a| > 1 {
      NotEnded(fat, a);
    } else if |b| > 1 {
      NotEnded(fat, b);
    }
  }

  lemma NotEnded(fat: seq<nat>, ch: seq<nat>)
    requires |fat| < EOC_MIN && IsChain(fat, ch) && |ch| > 1
    ensures fat[ch[0]] < EOC_MIN
  {
    assert fat[ch[0]] == ch[1];
  }

  lemma ChainTail(fat: seq<nat>, ch: seq<nat>)
    requires IsChain(fat, ch) && |ch| > 1
    ensures IsChain(fat, ch[1..])
  {
    forall k | 0 <= k < |ch[1..]| - 1
      ensures fat[ch[1..][k]] == ch[1..][k + 1]
    {
      assert fat[ch[k + 1]] == ch[k + 1 + 1];
    }
  }

  ghost predicate Live(v: Vol, i: nat) {
    i < |v.root| && |v.root[i]| == DIR_ENTRY && !Unused(v.root[i])
  }

  /** Everything after the end marker is an end marker too. */
  ghost predicate TailOk(root: seq<seq<Byte>>)
    requires forall k :: 0 <= k < |root| ==> |root[k]| == DIR_ENTRY
  {
    forall i, j :: 0 <= i < j < |root| && root[i][0] == 0x00 ==> root[j][0] == 0x00
  }

  /** Entry `i` owns chain `ch`: none, when its first cluster is out of range. */
  ghost predicate Owns(v: Vol, i: nat, ch: seq<nat>)
    requires i < |v.root| && |v.root[i]| == DIR_ENTRY
  {
    var f := First(v.root[i]);
    if 2 <= f < |v.fat| then IsChain(v.fat, ch) && ch[0] == f else ch == []
  }

  ghost predicate Apart(a: seq<nat>, b: seq<nat>) {
    forall j, k :: 0 <= j < |a| && 0 <= k < |b| ==> a[j] != b[k]
  }

  /** Files are live entries with disjoint acyclic chains. */
  ghost predicate WellFormed(v: Vol, cb: nat, chains: map<nat, seq<nat>>) {
    && VolOk(v, cb) && TailOk(v.root)
    && (forall i: nat :: i in chains <==> Live(v, i))
    && (forall i :: i in chains ==> Owns(v, i, chains[i]))
    && (forall i, j :: i in chains && j in chains && i != j ==> Apart(chains[i], chains[j]))
  }

  /** The chains of a well-formed volume are the volume's own: there is one way to read
      them. */
  lemma ChainsUnique(v: Vol, cb: nat, a: map<nat, seq<nat>>, b: map<nat, seq<nat>>)
    requires WellFormed(v, cb, a) && WellFormed(v, cb, b)
    ensures a == b
  {
    assert forall i: nat :: i in a <==> Live(v, i);
    assert forall i: nat :: i in b <==> Live(v, i);
    forall i | i in a
      ensures i in b && a[i] == b[i]
    {
      assert Owns(v, i, a[i]) && Owns(v, i, b[i]);
      if a[i] != [] && b[i] != [] { ChainUnique(v.fat, a[i], b[i]); }
    }
  }

  /** What is stored along a chain. */
  ghost function Content(v: Vol, ch: seq<nat>): seq<Byte>
    requires InRange(v.fat, ch) && |v.data| == |v.fat|
  {
    Join(seq(|ch|, k requires 0 <= k < |ch| => v.data[ch[k]]))
  }

  // ---- tables ----------------------------------------------------------

  ghost function Clear(fat: seq<nat>, ch: seq<nat>): (r: seq<nat>)
    ensures |r| == |fat|
  {
    seq(|fat|, c => if 0 <= c < |fat| then if c in ch then FREE else fat[c] else FREE)
  }

  /** Freeing a chain frees exactly its clusters. */
  lemma {:induction false} FreeChainClears(fat: seq<nat>, ch: seq<nat>)
    requires |fat| < EOC_MIN && IsChain(fat, ch)
    ensures FreeChain(fat, ch[0]) == Clear(fat, ch)
    decreases |ch|
  {
    var fat1 := fat[ch[0] := FREE];
    if |ch| == 1 {
      assert fat1 == Clear(fat, ch);
    } else {
      var rest := ch[1..];
      assert fat[ch[0]] == ch[1];
      ChainTail(fat, ch);
      forall k | 0 <= k < |rest| ensures fat1[rest[k]] == fat[rest[k]] { assert ch[0] != ch[k + 1]; }
      FreeChainClears(fat1, rest);
      assert ch == [ch[0]] + rest;
      assert Clear(fat1, rest) == Clear(fat, ch);
    }
  }

  lemma {:induction false} FreedIsChain(fat: seq<nat>, ch: seq<nat>)
    requires |fat| < EOC_MIN && IsChain(fat, ch)
    ensures Freed(fat, ch[0]) == Members(ch)
    decreases |ch|
  {
    if |ch| > 1 {
      var fat1, rest := fat[ch[0] := FREE], ch[1..];
      assert fat[ch[0]] == ch[1];
      ChainTail(fat, ch);
      forall k | 0 <= k < |rest| ensures fat1[rest[k]] == fat[rest[k]] { assert ch[0] != ch[k + 1]; }
      FreedIsChain(fat1, rest);
      assert ch == [ch[0]] + rest;
    }
    assert Members(ch) == {ch[0]} + Members(ch[1..]);
  }

  /** Where `Link` writes, and what. */
  lemma {:induction false} LinkSpec(fat: seq<nat>, chain: seq<nat>, i: nat)
    requires i <= |chain| && InRange(fat, chain) && Distinct(chain)
    ensures var r := Link(fat, chain, i);
            && (forall k :: 0 <= k < i ==> r[chain[k]] == if k + 1 < |chain| then chain[k + 1] else EOC)
            && (forall c :: 0 <= c < |fat| && c !in chain[..i] ==> r[c] == fat[c])
  {
    if i > 0 {
      LinkSpec(fat, chain, i - 1);
      assert chain[..i] == chain[..i - 1] + [chain[i - 1]];
    }
  }

  lemma LinkedIsChain(fat: seq<nat>, chain: seq<nat>)
    requires chain != [] && InRange(fat, chain) && Distinct(chain)
    ensures IsChain(Link(fat, chain, |chain|), chain)
  {
    LinkSpec(fat, chain, |chain|);
  }

  /** Freeing a freshly linked chain undoes the linking. */
  lemma LinkThenFree(fat: seq<nat>, chain: seq<nat>)
    requires |fat| < EOC_MIN && chain != [] && InRange(fat, chain) && Distinct(chain)
    requires forall k :: 0 <= k < |chain| ==> fat[chain[k]] == FREE
    ensures FreeChain(Link(fat, chain, |chain|), chain[0]) == fat
  {
    var fat' := Link(fat, chain, |chain|);
    LinkedIsChain(fat, chain);
    LinkSpec(fat, chain, |chain|);
    FreeChainClears(fat', chain);
    assert chain[..|chain|] == chain;
    assert Clear(fat', chain) == fat;
  }

  lemma {:induction false} FillSpec(data: seq<seq<Byte>>, chain: seq<nat>, pieces: seq<seq<Byte>>, i: nat)
    requires i <= |chain| && i <= |pieces| && Distinct(chain)
    requires forall k :: 0 <= k < |chain| ==> chain[k] < |data|
    ensures var r := Fill(data, chain, pieces, i);
            && (forall k :: 0 <= k < i ==> r[chain[k]] == pieces[k])
            && (forall c :: 0 <= c < |data| && c !in chain[..i] ==> r[c] == data[c])
  {
    if i > 0 {
      FillSpec(data, chain, pieces, i - 1);
      assert chain[..i] == chain[..i - 1] + [chain[i - 1]];
    }
  }

  // ---- clusters are conserved ------------------------------------------

  ghost function FreeSet(fat: seq<nat>): set<nat> {
    set c | 2 <= c < |fat| && fat[c] == FREE
  }

  lemma {:induction false} MembersCount(ch: seq<nat>)
    requires Distinct(ch)
    ensures |Members(ch)| == |ch|
  {
    if ch != [] {
      var k := |ch| - 1;
      MembersCount(ch[..k]);
      assert ch[k] !in ch[..k];
      assert ch == ch[..k] + [ch[k]];
      assert Members(ch) == Members(ch[..k]) + {ch[k]};
    }
  }

  lemma ListCount(fat: seq<nat>, f: seq<nat>)
    requires ListsFree(fat, |fat|, f)
    ensures |f| == |FreeSet(fat)|
  {
    MembersCount(f);
    assert Members(f) == FreeSet(fat);
  }

  lemma FreeCount(fat: seq<nat>)
    ensures |FreeList(fat, |fat|)| == |FreeSet(fat)|
  {
    FreeListSpec(fat, |fat|);
    ListCount(fat, FreeList(fat, |fat|));
  }

  lemma ClearCount(fat: seq<nat>, ch: seq<nat>)
    requires InRange(fat, ch) && Distinct(ch) && forall k :: 0 <= k < |ch| ==> fat[ch[k]] != FREE
    ensures |FreeSet(Clear(fat, ch))| == |FreeSet(fat)| + |ch|
  {
    MembersCount(ch);
    assert FreeSet(Clear(fat, ch)) == FreeSet(fat) + Members(ch);
    assert FreeSet(fat) !! Members(ch);
  }

  lemma LinkCount(fat: seq<nat>, chain: seq<nat>)
    requires InRange(fat, chain) && Distinct(chain) && forall k :: 0 <= k < |chain| ==> fat[chain[k]] == FREE
    ensures |FreeSet(Link(fat, chain, |chain|))| == |FreeSet(fat)| - |chain|
  {
    var r := Link(fat, chain, |chain|);
    LinkSpec(fat, chain, |chain|);
    MembersCount(chain);
    assert chain[..|chain|] == chain;
    forall c | 0 <= c < |fat|
      ensures r[c] == FREE <==> fat[c] == FREE && c !in chain
    {
      if c in chain {
        var k :| 0 <= k < |chain| && chain[k] == c;
        assert r[chain[k]] == (if k + 1 < |chain| then chain[k + 1] else EOC);
      } else {
        assert c !in chain[..|chain|];
      }
    }
    assert FreeSet(r) == FreeSet(fat) - Members(chain);
    assert Members(chain) <= FreeSet(fat);
  }

  // ---- directory -------------------------------------------------------

  lemma {:induction false} FindMatchSpec(root: seq<seq<Byte>>, name: seq<Byte>, i: nat)
    requires i <= |root| && forall k :: 0 <= k < |root| ==> |root[k]| == DIR_ENTRY
    ensures var m := FindMatch(root, name, i);
            && (m.Some? ==> i <= m.value < |root| && !Unused(root[m.value]) && root[m.value][..11] == name)
            && (m.Some? ==> forall k :: i <= k < m.value ==> root[k][0] != 0x00 && (Unused(root[k]) || root[k][..11] != name))
            && (m.None? ==> forall k :: i <= k < |root| && !Unused(root[k]) && (forall j :: i <= j < k ==> root[j][0] != 0x00) ==>
                                          root[k][..11] != name)
    decreases |root| - i
  {
    if i < |root| && root[i][0] != 0x00 { FindMatchSpec(root, name, i + 1); }
  }

  lemma {:induction false} FindFreeSpec(root: seq<seq<Byte>>, i: nat)
    requires i <= |root| && forall k :: 0 <= k < |root| ==> |root[k]| == DIR_ENTRY
    ensures var m := FindFree(root, i);
            && (m.Some? ==> i <= m.value < |root| && Unused(root[m.value]) && forall k :: i <= k < m.value ==> !Unused(root[k]))
            && (m.None? ==> forall k :: i <= k < |root| ==> !Unused(root[k]))
    decreases |root| - i
  {
    if i < |root| && !Unused(root[i]) { FindFreeSpec(root, i + 1); }
  }

  lemma {:induction false} FindMatchAt(root: seq<seq<Byte>>, name: seq<Byte>, i: nat, j: nat)
    requires i <= j < |root| && (forall k :: 0 <= k < |root| ==> |root[k]| == DIR_ENTRY)
    requires forall k :: i <= k < j ==> root[k][0] != 0x00 && (Unused(root[k]) || root[k][..11] != name)
    requires !Unused(root[j]) && root[j][..11] == name
    ensures FindMatch(root, name, i) == Some(j)
    decreases j - i
  {
    if i < j { FindMatchAt(root, name, i + 1, j); }
  }

  /** The slot an insertion uses is the one a later search for the name finds. */
  lemma SlotFound(root: seq<seq<Byte>>, name: seq<Byte>, e: seq<Byte>)
    requires forall k :: 0 <= k < |root| ==> |root[k]| == DIR_ENTRY
    requires Slot(root, name).Some? && Slot(root, name).value < |root|
    requires |e| == DIR_ENTRY && !Unused(e) && e[..11] == name
    ensures var root' := root[Slot(root, name).value := e]; FindMatch(root', name, 0) == Slot(root, name)
  {
    var i := Slot(root, name).value;
    var root' := root[i := e];
    FindMatchSpec(root, name, 0);
    FindFreeSpec(root, 0);
    forall k | 0 <= k < i
      ensures root'[k][0] != 0x00 && (Unused(root'[k]) || root'[k][..11] != name)
    {
      assert root'[k] == root[k];
    }
    FindMatchAt(root', name, 0, i);
  }

  lemma SlotKeepsTail(root: seq<seq<Byte>>, name: seq<Byte>, e: seq<Byte>)
    requires (forall k :: 0 <= k < |root| ==> |root[k]| == DIR_ENTRY) && TailOk(root)
    requires Slot(root, name).Some? && Slot(root, name).value < |root| && |e| == DIR_ENTRY && !Unused(e)
    ensures TailOk(root[Slot(root, name).value := e])
  {
    FindMatchSpec(root, name, 0);
    FindFreeSpec(root, 0);
  }

  // ---- the insertion ---------------------------------------------------

  /** The pieces of a successful insertion. */
  ghost predicate Inserts(v: Vol, name: seq<Byte>, src: seq<Byte>, cb: nat, slot: nat, fat1: seq<nat>, chain: seq<nat>,
                          v': Vol)
    requires cb > 0 && |name| == 11 && VolOk(v, cb)
  {
    && Insert(v, name, src, cb) == Ok(v')
    && Slot(v.root, name) == Some(slot) && slot < |v.root| && |src| < SIZE_LIMIT
    && fat1 == Cleared(v, name)
    && |Pieces(src, cb)| <= |FreeList(fat1, |fat1|)| && chain == FreeList(fat1, |fat1|)[..|Pieces(src, cb)|]
    && chain[0] < 0x1_0000
    && v'.fat == Link(fat1, chain, |chain|)
    && v'.root == v.root[slot := Entry(name, chain[0], |src|)]
    && v'.data == Fill(v.data, chain, Pieces(src, cb), |chain|)
  }

  /** A valid 8.3 name does not start with a deletion or end mark. */
  ghost predicate NameOk(name: seq<Byte>) {
    |name| == 11 && name[0] != 0x00 && name[0] != 0xE5
  }

  /** The clusters chosen are distinct free ones. */
  lemma ChosenFree(fat1: seq<nat>, n: nat)
    requires n <= |FreeList(fat1, |fat1|)|
    ensures var chain := FreeList(fat1, |fat1|)[..n];
            && InRange(fat1, chain) && Distinct(chain) && forall k :: 0 <= k < |chain| ==> fat1[chain[k]] == FREE
  {
    FreeListSpec(fat1, |fat1|);
  }

  ghost function OldChain(chains: map<nat, seq<nat>>, slot: nat): seq<nat> {
    if slot in chains then chains[slot] else []
  }

  /** The table after freeing: the old chain is free, everything else as it was. */
  lemma ClearedSpec(v: Vol, cb: nat, chains: map<nat, seq<nat>>, name: seq<Byte>, slot: nat)
    requires WellFormed(v, cb, chains) && |name| == 11 && Slot(v.root, name) == Some(slot) && slot < |v.root|
    ensures Cleared(v, name) == Clear(v.fat, OldChain(chains, slot))
  {
    FindMatchSpec(v.root, name, 0);
    FindFreeSpec(v.root, 0);
    var m := FindMatch(v.root, name, 0);
    if m.Some? {
      assert Live(v, slot) && Owns(v, slot, chains[slot]);
      if chains[slot] != [] { FreeChainClears(v.fat, chains[slot]); }
      else { assert Clear(v.fat, []) == v.fat; }
    } else {
      assert !Live(v, slot);
      assert Clear(v.fat, []) == v.fat;
    }
  }

  lemma InRangeOwned(v: Vol, cb: nat, chains: map<nat, seq<nat>>, i: nat)
    requires WellFormed(v, cb, chains) && i in chains
    ensures InRange(v.fat, chains[i]) && Distinct(chains[i])
    ensures forall k :: 0 <= k < |chains[i]| ==> v.fat[chains[i][k]] != FREE
  {
    assert Owns(v, i, chains[i]);
    var ch := chains[i];
    forall k | 0 <= k < |ch|
      ensures v.fat[ch[k]] != FREE
    {
      if k < |ch| - 1 { assert v.fat[ch[k]] == ch[k + 1]; }
    }
  }

  /** A cluster of another file keeps its table entry and its data. */
  lemma OtherCluster(v: Vol, cb: nat, chains: map<nat, seq<nat>>, name: seq<Byte>, src: seq<Byte>,
                     slot: nat, fat1: seq<nat>, chain: seq<nat>, v': Vol, i: nat, c: nat)
    requires WellFormed(v, cb, chains) && NameOk(name) && Inserts(v, name, src, cb, slot, fat1, chain, v')
    requires i in chains && i != slot && c in chains[i]
    ensures c < |v.fat| == |v'.fat| == |v'.data| == |v.data|
    ensures c !in chain && v'.fat[c] == v.fat[c] && v'.data[c] == v.data[c]
  {
    ClearedSpec(v, cb, chains, name, slot);
    ChosenFree(fat1, |Pieces(src, cb)|);
    InRangeOwned(v, cb, chains, i);
    if slot in chains { assert Apart(chains[i], chains[slot]); }
    assert c !in OldChain(chains, slot);
    LinkSpec(fat1, chain, |chain|);
    FillSpec(v.data, chain, Pieces(src, cb), |chain|);
    assert chain[..|chain|] == chain;
  }

  /** A chain nobody touches survives the insertion, in the table and in the data. */
  lemma OthersSurvive(v: Vol, cb: nat, chains: map<nat, seq<nat>>, name: seq<Byte>, src: seq<Byte>,
                      slot: nat, fat1: seq<nat>, chain: seq<nat>, v': Vol, i: nat)
    requires WellFormed(v, cb, chains) && NameOk(name) && Inserts(v, name, src, cb, slot, fat1, chain, v')
    requires i in chains && i != slot
    ensures v'.root[i] == v.root[i] && Owns(v', i, chains[i]) && Apart(chains[i], chain)
    ensures forall k :: 0 <= k < |chains[i]| ==> v'.data[chains[i][k]] == v.data[chains[i][k]]
  {
    var ch := chains[i];
    InRangeOwned(v, cb, chains, i);
    forall k | 0 <= k < |ch|
      ensures ch[k] < |v'.fat| == |v'.data| && ch[k] !in chain
      ensures v'.fat[ch[k]] == v.fat[ch[k]] && v'.data[ch[k]] == v.data[ch[k]]
    {
      OtherCluster(v, cb, chains, name, src, slot, fat1, chain, v', i, ch[k]);
    }
    assert Owns(v, i, ch);
  }

  /** The new file owns the chosen chain. */
  lemma NewOwns(v: Vol, cb: nat, chains: map<nat, seq<nat>>, name: seq<Byte>, src: seq<Byte>,
                slot: nat, fat1: seq<nat>, chain: seq<nat>, v': Vol)
    requires WellFormed(v, cb, chains) && NameOk(name) && Inserts(v, name, src, cb, slot, fat1, chain, v')
    ensures |v'.root[slot]| == DIR_ENTRY && Owns(v', slot, chain) && IsChain(v'.fat, chain)
    ensures !Unused(v'.root[slot]) && v'.root[slot][..11] == name && Size(v'.root[slot]) == |src|
  {
    ChosenFree(fat1, |Pieces(src, cb)|);
    LinkedIsChain(fat1, chain);
    var e := Entry(name, chain[0], |src|);
    assert e[0] == e[..11][0];
  }

  /** A chain filled with the pieces of a file holds the file. */
  lemma FilledContent(v: Vol, data: seq<seq<Byte>>, chain: seq<nat>, src: seq<Byte>, cb: nat)
    requires cb > 0 && |chain| == |Pieces(src, cb)| && InRange(v.fat, chain) && Distinct(chain)
    requires |data| == |v.data| == |v.fat| && v.data == Fill(data, chain, Pieces(src, cb), |chain|)
    ensures |src| <= |Content(v, chain)| && Content(v, chain)[..|src|] == src
  {
    FillSpec(data, chain, Pieces(src, cb), |chain|);
    var parts := seq(|chain|, k requires 0 <= k < |chain| => v.data[chain[k]]);
    assert parts == Pieces(src, cb);
    JoinPieces(src, cb);
  }

  /** The inserted file reads back exactly, along its own chain. */
  lemma ReadsBack(v: Vol, cb: nat, chains: map<nat, seq<nat>>, name: seq<Byte>, src: seq<Byte>,
                  slot: nat, fat1: seq<nat>, chain: seq<nat>, v': Vol)
    requires WellFormed(v, cb, chains) && NameOk(name) && Inserts(v, name, src, cb, slot, fat1, chain, v')
    ensures FindMatch(v'.root, name, 0) == Some(slot) && IsChain(v'.fat, chain) && First(v'.root[slot]) == chain[0]
    ensures |src| <= |Content(v', chain)| && Content(v', chain)[..Size(v'.root[slot])] == src
  {
    NewOwns(v, cb, chains, name, src, slot, fat1, chain, v');
    SlotFound(v.root, name, v'.root[slot]);
    ChosenFree(fat1, |Pieces(src, cb)|);
    FilledContent(v', v.data, chain, src, cb);
  }

  /** Every other file keeps its entry, its chain and its bytes. */
  lemma OthersReadTheSame(v: Vol, cb: nat, chains: map<nat, seq<nat>>, name: seq<Byte>, src: seq<Byte>,
                          slot: nat, fat1: seq<nat>, chain: seq<nat>, v': Vol, i: nat)
    requires WellFormed(v, cb, chains) && NameOk(name) && Inserts(v, name, src, cb, slot, fat1, chain, v')
    requires i in chains && i != slot
    ensures v'.root[i] == v.root[i] && Owns(v', i, chains[i])
    ensures InRange(v.fat, chains[i]) && InRange(v'.fat, chains[i]) && |v'.data| == |v'.fat|
    ensures Content(v', chains[i]) == Content(v, chains[i])
  {
    OthersSurvive(v, cb, chains, name, src, slot, fat1, chain, v', i);
    InRangeOwned(v, cb, chains, i);
    var ch := chains[i];
    assert seq(|ch|,
               k requires 0 <= k < |ch| => v'.data[ch[k]]) == seq(|ch|, k requires 0 <= k < |ch| => v.data[ch[k]]);
  }

  lemma InsertVolOk(v: Vol, cb: nat, name: seq<Byte>, src: seq<Byte>, slot: nat, fat1: seq<nat>, chain: seq<nat>,
                    v': Vol)
    requires VolOk(v, cb) && NameOk(name) && Inserts(v, name, src, cb, slot, fat1, chain, v')
    ensures VolOk(v', cb)
  {
    ChosenFree(fat1, |Pieces(src, cb)|);
    FillSpec(v.data, chain, Pieces(src, cb), |chain|);
    forall c | 2 <= c < |v'.data|
      ensures |v'.data[c]| == cb
    {
      if c in chain { var k :| 0 <= k < |chain| && chain[k] == c; assert v'.data[chain[k]] == Pieces(src, cb)[k]; }
      else { assert chain[..|chain|] == chain; }
    }
  }

  /** The volume is well-formed again, with the new chain in place of the old. */
  lemma InsertKeeps(v: Vol, cb: nat, chains: map<nat, seq<nat>>, name: seq<Byte>, src: seq<Byte>,
                    slot: nat, fat1: seq<nat>, chain: seq<nat>, v': Vol)
    requires WellFormed(v, cb, chains) && NameOk(name) && Inserts(v, name, src, cb, slot, fat1, chain, v')
    ensures WellFormed(v', cb, chains[slot := chain])
  {
    var chains' := chains[slot := chain];
    InsertVolOk(v, cb, name, src, slot, fat1, chain, v');
    NewOwns(v, cb, chains, name, src, slot, fat1, chain, v');
    SlotKeepsTail(v.root, name, v'.root[slot]);
    forall i: nat
      ensures i in chains' <==> Live(v', i)
    {
      assert i in chains <==> Live(v, i);
    }
    forall i | i in chains'
      ensures Owns(v', i, chains'[i]) && (i != slot ==> Apart(chains'[i], chain))
    {
      if i != slot { OthersSurvive(v, cb, chains, name, src, slot, fat1, chain, v', i); }
    }
    forall i, j | i in chains' && j in chains' && i != j
      ensures Apart(chains'[i], chains'[j])
    {
      if i != slot && j != slot { assert Apart(chains[i], chains[j]); }
      else if i == slot { assert Apart(chains'[j], chain); }
    }
  }

  /** The number of free clusters changes by the old chain's length minus what the
      file needs. */
  lemma ClustersConserved(v: Vol, cb: nat, chains: map<nat, seq<nat>>, name: seq<Byte>, src: seq<Byte>,
                          slot: nat, fat1: seq<nat>, chain: seq<nat>, v': Vol)
    requires WellFormed(v, cb, chains) && NameOk(name) && Inserts(v, name, src, cb, slot, fat1, chain, v')
    ensures |FreeList(v'.fat, |v'.fat|)| == |FreeList(v.fat, |v.fat|)| + |OldChain(chains, slot)| - |Pieces(src, cb)|
  {
    ClearedSpec(v, cb, chains, name, slot);
    ChosenFree(fat1, |Pieces(src, cb)|);
    if slot in chains { InRangeOwned(v, cb, chains, slot); }
    ClearCount(v.fat, OldChain(chains, slot));
    LinkCount(fat1, chain);
    FreeCount(v.fat);
    FreeCount(v'.fat);
  }

  lemma {:induction false} FillSame(data: seq<seq<Byte>>, chain: seq<nat>, pieces: seq<seq<Byte>>, i: nat)
    requires i <= |chain| && i <= |pieces| && forall k :: 0 <= k < |chain| ==> chain[k] < |data|
    requires forall k :: 0 <= k < i ==> data[chain[k]] == pieces[k]
    ensures Fill(data, chain, pieces, i) == data
  {
    if i > 0 { FillSame(data, chain, pieces, i - 1); }
  }

  /** Inserting the same name and bytes again gives the same volume. */
  lemma InsertAgain(v: Vol, cb: nat, name: seq<Byte>, src: seq<Byte>, slot: nat, fat1: seq<nat>, chain: seq<nat>,
                    v': Vol)
    requires VolOk(v, cb) && NameOk(name) && Inserts(v, name, src, cb, slot, fat1, chain, v')
    ensures VolOk(v', cb) && Insert(v', name, src, cb) == Ok(v')
  {
    InsertVolOk(v, cb, name, src, slot, fat1, chain, v');
    ChosenFree(fat1, |Pieces(src, cb)|);
    var e := Entry(name, chain[0], |src|);
    assert e[0] == e[..11][0];
    SlotFound(v.root, name, e);
    LinkThenFree(fat1, chain);
    assert Cleared(v', name) == fat1;
    FillSpec(v.data, chain, Pieces(src, cb), |chain|);
    FillSame(v'.data, chain, Pieces(src, cb), |chain|);
    assert v'.root[slot := e] == v'.root;
  }

  /** A second insertion writes no table word that the first did not write. */
  lemma TouchedAgain(v: Vol, cb: nat, name: seq<Byte>, src: seq<Byte>, slot: nat, fat1: seq<nat>, chain: seq<nat>,
                     v': Vol)
    requires VolOk(v, cb) && NameOk(name) && Inserts(v, name, src, cb, slot, fat1, chain, v')
    ensures VolOk(v', cb) && Touched(v', name, src, cb) <= Touched(v, name, src, cb)
  {
    InsertVolOk(v, cb, name, src, slot, fat1, chain, v');
    ChosenFree(fat1, |Pieces(src, cb)|);
    var e := Entry(name, chain[0], |src|);
    assert e[0] == e[..11][0];
    SlotFound(v.root, name, e);
    LinkThenFree(fat1, chain);
    LinkedIsChain(fat1, chain);
    FreedIsChain(v'.fat, chain);
    assert Cleared(v', name) == fat1;
    assert Touched(v', name, src, cb) == Members(chain) + Members(chain);
  }

  lemma InsertIsIdempotent(v: Vol, cb: nat, name: seq<Byte>, src: seq<Byte>, v': Vol)
    requires VolOk(v, cb) && NameOk(name) && Insert(v, name, src, cb) == Ok(v')
    ensures VolOk(v', cb) && Insert(v', name, src, cb) == Ok(v')
    ensures Touched(v', name, src, cb) <= Touched(v, name, src, cb)
  {
    var slot, fat1 := Slot(v.root, name).value, Cleared(v, name);
    var chain := FreeList(fat1, |fat1|)[..|Pieces(src, cb)|];
    FreeListSpec(fat1, |fat1|);
    InsertAgain(v, cb, name, src, slot, fat1, chain, v');
    TouchedAgain(v, cb, name, src, slot, fat1, chain, v');
  }

  // ---- together --------------------------------------------------------

  /** The volume holds a file of this name and these bytes at entry `slot`. */
  ghost predicate HoldsFile(v: Vol, name: seq<Byte>, src: seq<Byte>, slot: nat, chain: seq<nat>) {
    && (forall k :: 0 <= k < |v.root| ==> |v.root[k]| == DIR_ENTRY)
    && FindMatch(v.root, name, 0) == Some(slot) && slot < |v.root|
    && IsChain(v.fat, chain) && First(v.root[slot]) == chain[0] && Size(v.root[slot]) == |src|
    && |v.data| == |v.fat| && src <= Content(v, chain)
  }

  /** Entry `i` and the bytes along its chain are the same in both volumes. */
  ghost predicate SameFile(v: Vol, v': Vol, i: nat, ch: seq<nat>) {
    && i < |v.root| && i < |v'.root| && v'.root[i] == v.root[i]
    && InRange(v.fat, ch) && InRange(v'.fat, ch) && |v.data| == |v.fat| && |v'.data| == |v'.fat|
    && (ch != [] ==> IsChain(v'.fat, ch))
    && Content(v', ch) == Content(v, ch)
  }

  ghost function FreeClusters(v: Vol): nat { |FreeList(v.fat, |v.fat|)| }

  lemma OthersAreSame(v: Vol, cb: nat, chains: map<nat, seq<nat>>, name: seq<Byte>, src: seq<Byte>,
                      slot: nat, fat1: seq<nat>, chain: seq<nat>, v': Vol, i: nat)
    requires WellFormed(v, cb, chains) && NameOk(name) && Inserts(v, name, src, cb, slot, fat1, chain, v')
    requires i in chains && i != slot
    ensures SameFile(v, v', i, chains[i])
  {
    assert Live(v, i);
    OthersReadTheSame(v, cb, chains, name, src, slot, fat1, chain, v', i);
  }

  lemma NewFileHeld(v: Vol, cb: nat, chains: map<nat, seq<nat>>, name: seq<Byte>, src: seq<Byte>,
                    slot: nat, fat1: seq<nat>, chain: seq<nat>, v': Vol)
    requires WellFormed(v, cb, chains) && NameOk(name) && Inserts(v, name, src, cb, slot, fat1, chain, v')
    ensures HoldsFile(v', name, src, slot, chain)
  {
    InsertVolOk(v, cb, name, src, slot, fat1, chain, v');
    NewOwns(v, cb, chains, name, src, slot, fat1, chain, v');
    ReadsBack(v, cb, chains, name, src, slot, fat1, chain, v');
  }

  /** Every guarantee of a successful insertion. */
  lemma InsertGuarantees(v: Vol, cb: nat, chains: map<nat, seq<nat>>, name: seq<Byte>, src: seq<Byte>, v': Vol)
    returns (slot: nat, chain: seq<nat>)
    requires WellFormed(v, cb, chains) && NameOk(name) && Insert(v, name, src, cb) == Ok(v')
    ensures WellFormed(v', cb, chains[slot := chain])
    ensures HoldsFile(v', name, src, slot, chain)
    ensures forall i :: i in chains && i != slot ==> SameFile(v, v', i, chains[i])
    ensures FreeClusters(v') == FreeClusters(v) + |OldChain(chains, slot)| - |Pieces(src, cb)|
  {
    slot := Slot(v.root, name).value;
    var fat1 := Cleared(v, name);
    chain := FreeList(fat1, |fat1|)[..|Pieces(src, cb)|];
    ChosenFree(fat1, |Pieces(src, cb)|);
    assert Inserts(v, name, src, cb, slot, fat1, chain, v');
    InsertKeeps(v, cb, chains, name, src, slot, fat1, chain, v');
    NewFileHeld(v, cb, chains, name, src, slot, fat1, chain, v');
    ClustersConserved(v, cb, chains, name, src, slot, fat1, chain, v');
    forall i | i in chains && i != slot
      ensures SameFile(v, v', i, chains[i])
    {
      OthersAreSame(v, cb, chains, name, src, slot, fat1, chain, v', i);
    }
  }
}
