/** The kernel audit ring: one producer and one consumer over a byte buffer with
    wrapping counters. Source: kernel/src/audit.rs. */
module AuditRing {
  import opened ByteData

  const BUF_SIZE: nat := 262_144
  /** Counters are 64-bit and wrap. */
  const WRAP: nat := 0x1_0000_0000_0000_0000
  const HEADER: nat := 10
  const MAX_PAYLOAD: nat := 255

  // ---- records ---------------------------------------------------------

  datatype Record = Record(mtime: nat, event: Byte, payload: seq<Byte>)

  predicate RecordOk(r: Record) { r.mtime < WRAP && |r.payload| <= MAX_PAYLOAD }

  function Encode(r: Record): (s: seq<Byte>)
    requires RecordOk(r)
    ensures |s| == HEADER + |r.payload|
  {
    LittleEndian(r.mtime, 8) + [r.event, |r.payload|] + r.payload
  }

  function Stream(rs: seq<Record>): seq<Byte>
    requires forall k :: 0 <= k < |rs| ==> RecordOk(rs[k])
  {
    if rs == [] then [] else Stream(rs[..|rs| - 1]) + Encode(rs[|rs| - 1])
  }

  /** Reads records off the front of a drained stream; a partial one is left. */
  function Decode(s: seq<Byte>): seq<Record>
    decreases |s|
  {
    if |s| < HEADER || |s| < HEADER + s[9] as nat then []
    else
      var end := HEADER + s[9] as nat;
      [Record(FromLittleEndian(s[..8]), s[8], s[HEADER..end])] + Decode(s[end..])
  }

  lemma DecodeFirst(r: Record, rest: seq<Byte>)
    requires RecordOk(r)
    ensures Decode(Encode(r) + rest) == [r] + Decode(rest)
  {
    var s := Encode(r) + rest;
    assert s[9] == |r.payload| && s[8] == r.event;
    assert s[..8] == LittleEndian(r.mtime, 8);
    assert Pow256(8) == WRAP;
    LittleEndianInverse(r.mtime, 8);
    assert s[HEADER..HEADER + |r.payload|] == r.payload;
    assert s[HEADER + |r.payload|..] == rest;
  }

  lemma {:induction false} StreamFront(rs: seq<Record>)
    requires rs != [] && forall k :: 0 <= k < |rs| ==> RecordOk(rs[k])
    ensures Stream(rs) == Encode(rs[0]) + Stream(rs[1..])
    decreases |rs|
  {
    var k := |rs| - 1;
    if k > 0 {
      StreamFront(rs[..k]);
      var tail := rs[1..];
      assert rs[..k][1..] == tail[..k - 1];
      Regroup(Encode(rs[0]), Stream(tail[..k - 1]), Encode(rs[k]));
    } else {
      assert Stream(rs[..0]) == [] && rs[1..] == [];
    }
  }

  /** Decoding a fully drained stream gives back the records in order. */
  lemma {:induction false} DecodeStream(rs: seq<Record>)
    requires forall k :: 0 <= k < |rs| ==> RecordOk(rs[k])
    ensures Decode(Stream(rs)) == rs
    decreases |rs|
  {
    if rs != [] {
      StreamFront(rs);
      DecodeFirst(rs[0], Stream(rs[1..]));
      DecodeStream(rs[1..]);
      assert rs == [rs[0]] + rs[1..];
    }
  }

  // ---- the two parties -------------------------------------------------

  datatype Producer = PIdle | PWriting(rec: Record, head: nat, pos: nat, i: nat)

  datatype Consumer = CIdle | CCopying(tail: nat, toCopy: nat, out: seq<Byte>)

  /** The ring, and the history of what was published, rejected and drained. */
  datatype Ring = Ring(
    buf: seq<Byte>, head: nat, tail: nat, dropped: nat, prod: Producer, cons: Consumer,
    accepted: seq<Record>, rejected: nat, drained: nat, output: seq<Byte>)

  datatype Label =
    | LogStart(mtime: nat, event: Byte, payload: seq<Byte>)
    | WriteByte
    | Publish
    | DrainStart(room: nat)
    | CopyByte
    | Retire

  function Sub(a: nat, b: nat): nat
    requires a < WRAP && b < WRAP
  {
    (a + WRAP - b) % WRAP
  }

  /** The payload is cut to 255 bytes. */
  function MakeRecord(mtime: nat, event: Byte, payload: seq<Byte>): Record {
    Record(mtime % WRAP, event, payload[..Min(|payload|, MAX_PAYLOAD)])
  }

  predicate Enabled(r: Ring, l: Label) {
    match l
    case LogStart(_, _, _) => r.prod.PIdle?
    case WriteByte => r.prod.PWriting? && RecordOk(r.prod.rec) && r.prod.i < |Encode(r.prod.rec)| && |r.buf| == BUF_SIZE
    case Publish => r.prod.PWriting? && RecordOk(r.prod.rec) && r.prod.i == |Encode(r.prod.rec)|
    case DrainStart(_) => r.cons.CIdle?
    case CopyByte => r.cons.CCopying? && |r.cons.out| < r.cons.toCopy && |r.buf| == BUF_SIZE
    case Retire => r.cons.CCopying? && |r.cons.out| == r.cons.toCopy
  }

  /** One atomic step of either party, on the wrapping counters. */
  function Step(r: Ring, l: Label): Ring
    requires Enabled(r, l) && r.head < WRAP && r.tail < WRAP
  {
    match l
    case LogStart(mtime, event, payload) =>
      var rec := MakeRecord(mtime, event, payload);
      if Sub(r.head, r.tail) + |Encode(rec)| > BUF_SIZE
      then r.(dropped := (r.dropped + 1) % WRAP, rejected := r.rejected + 1)
      else r.(prod := PWriting(rec, r.head, r.head, 0))
    case WriteByte =>
      r.(buf := r.buf[r.prod.pos % BUF_SIZE := Encode(r.prod.rec)[r.prod.i]],
         prod := r.prod.(pos := (r.prod.pos + 1) % WRAP, i := r.prod.i + 1))
    case Publish =>
      r.(head := (r.prod.head + |Encode(r.prod.rec)|) % WRAP, prod := PIdle, accepted := r.accepted + [r.prod.rec])
    case DrainStart(room) =>
      if Sub(r.head, r.tail) == 0 then r
      else r.(cons := CCopying(r.tail, Min(Sub(r.head, r.tail), room), []))
    case CopyByte =>
      r.(cons := r.cons.(out := r.cons.out + [r.buf[(r.cons.tail + |r.cons.out|) % WRAP % BUF_SIZE]]))
    case Retire =>
      r.(tail := (r.cons.tail + r.cons.toCopy) % WRAP, cons := CIdle, drained := r.drained + r.cons.toCopy,
         output := r.output + r.cons.out)
  }

  // ---- invariant -------------------------------------------------------

  ghost predicate RecordsOk(r: Ring) { forall k :: 0 <= k < |r.accepted| ==> RecordOk(r.accepted[k]) }

  /** Bytes published so far. */
  ghost function Published(r: Ring): nat
    requires RecordsOk(r)
  {
    |Stream(r.accepted)|
  }

  /** Buffer slot of stream position `p`. */
  function SlotOf(p: nat): nat { p % BUF_SIZE }

  ghost predicate Counters(r: Ring)
    requires RecordsOk(r)
  {
    && |r.buf| == BUF_SIZE
    && r.head == Published(r) % WRAP && r.tail == r.drained % WRAP && r.dropped == r.rejected % WRAP
    && r.drained <= Published(r) <= r.drained + BUF_SIZE
  }

  /** Every byte between the counters is in its slot. */
  ghost predicate Holds(r: Ring)
    requires RecordsOk(r) && |r.buf| == BUF_SIZE
  {
    forall p: nat :: r.drained <= p < Published(r) ==> r.buf[SlotOf(p)] == Stream(r.accepted)[p]
  }

  ghost predicate ProducerOk(r: Ring)
    requires RecordsOk(r) && |r.buf| == BUF_SIZE
  {
    r.prod.PWriting? ==>
      && RecordOk(r.prod.rec) && r.prod.head == r.head && r.prod.i <= |Encode(r.prod.rec)|
      && r.prod.pos == (Published(r) + r.prod.i) % WRAP
      && Published(r) + |Encode(r.prod.rec)| <= r.drained + BUF_SIZE
      && forall j: nat :: Published(r) <= j < Published(r) + r.prod.i ==> r.buf[SlotOf(j)] == Encode(r.prod.rec)[j - Published(r)]
  }

  ghost predicate ConsumerOk(r: Ring)
    requires RecordsOk(r)
  {
    && r.drained <= Published(r) && r.output == Stream(r.accepted)[..r.drained]
    && (r.cons.CCopying? ==>
          && r.cons.tail == r.tail && |r.cons.out| <= r.cons.toCopy && r.drained + r.cons.toCopy <= Published(r)
          && r.cons.out == Stream(r.accepted)[r.drained..r.drained + |r.cons.out|])
  }

  ghost predicate Inv(r: Ring) {
    RecordsOk(r) && Counters(r) && Holds(r) && ProducerOk(r) && ConsumerOk(r)
  }

  // ---- arithmetic ------------------------------------------------------

  /** Wrapping subtraction of two counters at most a buffer apart is the distance. */
  lemma WrapDistance(h: nat, t: nat)
    requires t <= h <= t + BUF_SIZE
    ensures Sub(h % WRAP, t % WRAP) == h - t
  {}

  lemma WrapAdd(a: nat, b: nat)
    ensures (a % WRAP + b) % WRAP == (a + b) % WRAP
  {}

  /** The buffer size divides the counter range, so the mask commutes with wrapping. */
  lemma WrapSlot(p: nat)
    ensures p % WRAP % BUF_SIZE == SlotOf(p)
  {
    assert WRAP == BUF_SIZE * 70_368_744_177_664;
    assert p == WRAP * (p / WRAP) + p % WRAP;
    assert p == BUF_SIZE * (70_368_744_177_664 * (p / WRAP)) + p % WRAP;
  }

  /** Positions less than a buffer apart have different slots. */
  lemma SlotsDiffer(p: nat, q: nat)
    requires p < q < p + BUF_SIZE
    ensures SlotOf(p) != SlotOf(q)
  {}

  // ---- every step ------------------------------------------------------

  lemma LogStartKeeps(r: Ring, l: Label)
    requires Inv(r) && l.LogStart? && Enabled(r, l)
    ensures Inv(Step(r, l))
  {
    WrapDistance(Published(r), r.drained);
    WrapAdd(r.rejected, 1);
  }

  lemma WriteByteKeeps(r: Ring)
    requires Inv(r) && Enabled(r, WriteByte)
    ensures Inv(Step(r, WriteByte))
  {
    var r' := Step(r, WriteByte);
    var q := Published(r) + r.prod.i;
    WrapSlot(q);
    WrapAdd(q, 1);
    forall p: nat | r.drained <= p < q ensures r'.buf[SlotOf(p)] == r.buf[SlotOf(p)] { SlotsDiffer(p, q); }
  }

  lemma PublishKeeps(r: Ring)
    requires Inv(r) && Enabled(r, Publish)
    ensures Inv(Step(r, Publish))
  {
    var r', rec := Step(r, Publish), r.prod.rec;
    assert r'.accepted[..|r.accepted|] == r.accepted;
    assert Stream(r'.accepted) == Stream(r.accepted) + Encode(rec);
    WrapAdd(Published(r), |Encode(rec)|);
  }

  lemma DrainStartKeeps(r: Ring, l: Label)
    requires Inv(r) && l.DrainStart? && Enabled(r, l)
    ensures Inv(Step(r, l))
  {
    WrapDistance(Published(r), r.drained);
  }

  lemma CopyByteKeeps(r: Ring)
    requires Inv(r) && Enabled(r, CopyByte)
    ensures Inv(Step(r, CopyByte))
  {
    var p := r.drained + |r.cons.out|;
    WrapAdd(r.drained, |r.cons.out|);
    WrapSlot(p);
    assert r.buf[SlotOf(p)] == Stream(r.accepted)[p];
  }

  lemma RetireKeeps(r: Ring)
    requires Inv(r) && Enabled(r, Retire)
    ensures Inv(Step(r, Retire))
  {
    WrapAdd(r.drained, r.cons.toCopy);
  }

  lemma StepKeeps(r: Ring, l: Label)
    requires Inv(r) && Enabled(r, l)
    ensures Inv(Step(r, l))
  {
    match l
    case LogStart(_, _, _) => LogStartKeeps(r, l);
    case WriteByte => WriteByteKeeps(r);
    case Publish => PublishKeeps(r);
    case DrainStart(_) => DrainStartKeeps(r, l);
    case CopyByte => CopyByteKeeps(r);
    case Retire => RetireKeeps(r);
  }

  // ---- runs ------------------------------------------------------------

  function Fresh(buf: seq<Byte>): Ring { Ring(buf, 0, 0, 0, PIdle, CIdle, [], 0, 0, []) }

  ghost predicate Reaches(run: seq<Label>, r: Ring)
    decreases |run|
  {
    if run == [] then exists buf: seq<Byte> :: |buf| == BUF_SIZE && r == Fresh(buf)
    else
      exists prev: Ring ::
        && Reaches(run[..|run| - 1], prev) && prev.head < WRAP && prev.tail < WRAP
        && Enabled(prev, run[|run| - 1]) && r == Step(prev, run[|run| - 1])
  }

  lemma {:induction false} ReachableInv(run: seq<Label>, r: Ring)
    requires Reaches(run, r)
    ensures Inv(r)
    decreases |run|
  {
    if run != [] {
      var last := run[|run| - 1];
      var prev :| Reaches(run[..|run| - 1], prev) && prev.head < WRAP && prev.tail < WRAP && Enabled(prev, last) && r == Step(prev, last);
      ReachableInv(run[..|run| - 1], prev);
      StepKeeps(prev, last);
    }
  }

  lemma InvMeans(r: Ring)
    requires Inv(r)
    ensures r.head < WRAP && r.tail < WRAP && r.output <= Stream(r.accepted)
    ensures Sub(r.head, r.tail) == |Stream(r.accepted)| - |r.output| <= BUF_SIZE
    ensures r.dropped == r.rejected % WRAP
    ensures r.head == r.tail ==> r.output == Stream(r.accepted)
  {
    WrapDistance(Published(r), r.drained);
    var s := Stream(r.accepted);
    assert |r.output| == r.drained;
    if r.head == r.tail {
      assert Sub(r.head, r.tail) == 0;
      assert s[..|s|] == s;
    }
  }

  /** Under every interleaving: what was drained is a prefix of the encodings of the
      accepted events, the ring never holds more than its size, and the dropped
      counter is the number of rejected events. */
  lemma DrainedIsPrefix(run: seq<Label>, r: Ring)
    requires Reaches(run, r)
    ensures r.head < WRAP && r.tail < WRAP && RecordsOk(r) && r.output <= Stream(r.accepted)
    ensures Sub(r.head, r.tail) == |Stream(r.accepted)| - |r.output| <= BUF_SIZE
    ensures r.dropped == r.rejected % WRAP
  {
    ReachableInv(run, r);
    InvMeans(r);
  }

  /** When the counters meet, decoding the output gives exactly the accepted records,
      in order. */
  lemma DrainedDecodes(run: seq<Label>, r: Ring)
    requires Reaches(run, r) && r.head == r.tail
    ensures Decode(r.output) == r.accepted
  {
    ReachableInv(run, r);
    InvMeans(r);
    DecodeStream(r.accepted);
  }

  // ---- uninterrupted calls ---------------------------------------------

  /** The first `n` byte writes of a record. */
  function Written(r: Ring, n: nat): (r': Ring)
    requires r.prod.PWriting? && RecordOk(r.prod.rec) && r.prod.i + n <= |Encode(r.prod.rec)|
    requires |r.buf| == BUF_SIZE && r.head < WRAP && r.tail < WRAP
    ensures r' == r.(buf := r'.buf, prod := r'.prod) && |r'.buf| == BUF_SIZE
    ensures r'.prod.PWriting? && r'.prod == r.prod.(pos := r'.prod.pos, i := r.prod.i + n)
  {
    if n == 0 then r else Step(Written(r, n - 1), WriteByte)
  }

  /** A whole `log_event`. */
  function LogWhole(r: Ring, mtime: nat, event: Byte, payload: seq<Byte>): Ring
    requires r.prod.PIdle? && |r.buf| == BUF_SIZE && r.head < WRAP && r.tail < WRAP
  {
    var r1 := Step(r, LogStart(mtime, event, payload));
    if r1.prod.PIdle? then r1 else Step(Written(r1, |Encode(r1.prod.rec)|), Publish)
  }

  lemma {:induction false} WrittenKeeps(r: Ring, n: nat)
    requires Inv(r) && r.prod.PWriting? && r.prod.i + n <= |Encode(r.prod.rec)| && r.head < WRAP && r.tail < WRAP
    ensures Inv(Written(r, n))
  {
    if n > 0 {
      WrittenKeeps(r, n - 1);
      StepKeeps(Written(r, n - 1), WriteByte);
    }
  }

  lemma LogWholeKeeps(r: Ring, mtime: nat, event: Byte, payload: seq<Byte>)
    requires Inv(r) && r.prod.PIdle? && r.head < WRAP && r.tail < WRAP
    ensures Inv(LogWhole(r, mtime, event, payload))
  {
    var r1 := Step(r, LogStart(mtime, event, payload));
    StepKeeps(r, LogStart(mtime, event, payload));
    if r1.prod.PWriting? {
      WrittenKeeps(r1, |Encode(r1.prod.rec)|);
      StepKeeps(Written(r1, |Encode(r1.prod.rec)|), Publish);
    }
  }

  lemma LogWholeIs(r: Ring, mtime: nat, event: Byte, payload: seq<Byte>)
    requires r.prod.PIdle? && |r.buf| == BUF_SIZE && r.head < WRAP && r.tail < WRAP
    ensures var rec := MakeRecord(mtime, event, payload);
            var len := |Encode(rec)|;
            LogWhole(r, mtime, event, payload)
            == if Sub(r.head, r.tail) + len > BUF_SIZE then r.(dropped := (r.dropped + 1) % WRAP, rejected := r.rejected + 1)
               else r.(buf := Written(r.(prod := PWriting(rec, r.head, r.head, 0)), len).buf,
                       head := (r.head + len) % WRAP, accepted := r.accepted + [rec])
  {}

  // Carried behind a counter that the verifier does not count down by itself.
  ghost predicate SoundTo(r: Ring, depth: nat) { if depth == 0 then Inv(r) else SoundTo(r, depth - 1) }

  ghost predicate Sound(r: Ring) { SoundTo(r, r.rejected + 3) }

  lemma {:induction false} SoundToMeans(r: Ring, depth: nat)
    ensures SoundTo(r, depth) <==> Inv(r)
  {
    if depth > 0 { SoundToMeans(r, depth - 1); }
  }

  lemma SoundMeans(r: Ring)
    ensures Sound(r) <==> Inv(r)
  {
    SoundToMeans(r, r.rejected + 3);
  }

  lemma LogWholeSound(r: Ring, mtime: nat, event: Byte, payload: seq<Byte>)
    requires Sound(r) && r.prod.PIdle? && |r.buf| == BUF_SIZE && r.head < WRAP && r.tail < WRAP
    ensures Sound(LogWhole(r, mtime, event, payload))
  {
    SoundMeans(r);
    LogWholeKeeps(r, mtime, event, payload);
    SoundMeans(LogWhole(r, mtime, event, payload));
  }

  /** The next `n` bytes in the ring, as the consumer addresses them. */
  function NextBytes(buf: seq<Byte>, tail: nat, n: nat): (r: seq<Byte>)
    requires |buf| == BUF_SIZE
    ensures |r| == n
  {
    if n == 0 then [] else NextBytes(buf, tail, n - 1) + [buf[(tail + (n - 1)) % WRAP % BUF_SIZE]]
  }

  /** They are the next `n` bytes of the stream. */
  lemma {:induction false} NextBytesAre(r: Ring, n: nat)
    requires Inv(r) && r.drained + n <= Published(r)
    ensures NextBytes(r.buf, r.tail, n) == Stream(r.accepted)[r.drained..r.drained + n]
  {
    if n > 0 {
      NextBytesAre(r, n - 1);
      var p, s := r.drained + (n - 1), Stream(r.accepted);
      WrapAdd(r.drained, n - 1);
      WrapSlot(p);
      assert r.buf[SlotOf(p)] == s[p];
      assert s[r.drained..p] + [s[p]] == s[r.drained..r.drained + n];
    }
  }

  /** The ring once the consumer has taken `n` bytes. */
  function Drained(r: Ring, n: nat): Ring
    requires |r.buf| == BUF_SIZE
  {
    r.(tail := (r.tail + n) % WRAP, drained := r.drained + n, output := r.output + NextBytes(r.buf, r.tail, n))
  }

  lemma DrainedSound(r: Ring, n: nat)
    requires Sound(r) && r.prod.PIdle? && r.cons.CIdle? && |r.buf| == BUF_SIZE && r.head < WRAP && r.tail < WRAP
    ensures RecordsOk(r) && Sub(r.head, r.tail) == |Stream(r.accepted)| - |r.output|
    ensures n <= Sub(r.head, r.tail) ==> Sound(Drained(r, n))
  {
    SoundMeans(r);
    InvMeans(r);
    if n <= Sub(r.head, r.tail) {
      NextBytesAre(r, n);
      WrapAdd(r.drained, n);
      SoundMeans(Drained(r, n));
    }
  }

  class AuditBuffer {
    const buf: array<Byte>
    var head: nat
    var tail: nat
    var dropped: nat
    // History.
    ghost var accepted: seq<Record>
    ghost var rejected: nat
    ghost var drained: nat
    ghost var output: seq<Byte>

    ghost function View(): Ring
      reads this, buf
    {
      Ring(buf[..], head, tail, dropped, PIdle, CIdle, accepted, rejected, drained, output)
    }

    ghost predicate Valid()
      reads this, buf
    {
      buf.Length == BUF_SIZE && head < WRAP && tail < WRAP && Sound(View())
    }

    constructor ()
      ensures Valid() && View().accepted == [] && fresh(buf)
    {
      buf := new Byte[BUF_SIZE](_ => 0);
      head, tail, dropped := 0, 0, 0;
      accepted, rejected, drained, output := [], 0, 0, [];
      new;
      SoundMeans(View());
    }

    /** Writes the bytes of a record after `head`. */
    method PutBytes(rec: Record)
      requires buf.Length == BUF_SIZE && head < WRAP && tail < WRAP && RecordOk(rec)
      modifies buf
      ensures Written(old(View()).(prod := PWriting(rec, head, head, 0)), |Encode(rec)|).buf == buf[..]
    {
      ghost var r := View().(prod := PWriting(rec, head, head, 0));
      var bytes, pos := Encode(rec), head;
      for i := 0 to |bytes|
        invariant Written(r, i).buf == buf[..] && Written(r, i).prod.pos == pos
      {
        buf[pos % BUF_SIZE] := bytes[i];
        pos := (pos + 1) % WRAP;
      }
    }

    /** Appends one record, or counts it as dropped when it does not fit. */
    method LogEvent(mtime: nat, event: Byte, payload: seq<Byte>) returns (ok: bool)
      requires Valid()
      modifies this, buf
      ensures Valid() && View() == LogWhole(old(View()), mtime, event, payload)
      ensures ok ==> accepted == old(accepted) + [MakeRecord(mtime, event, payload)] && dropped == old(dropped)
      ensures !ok ==> accepted == old(accepted) && buf[..] == old(buf[..]) && rejected == old(rejected) + 1
    {
      ghost var r := View();
      LogWholeSound(r, mtime, event, payload);
      LogWholeIs(r, mtime, event, payload);
      var rec := MakeRecord(mtime, event, payload);
      var len := |Encode(rec)|;
      if Sub(head, tail) + len > BUF_SIZE {
        dropped, rejected := (dropped + 1) % WRAP, rejected + 1;
        return false;
      }
      PutBytes(rec);
      head := (head + len) % WRAP;
      accepted := accepted + [rec];
      return true;
    }

    /** Copies the next `n` bytes. */
    method CopyOut(out: array<Byte>, n: nat)
      requires buf.Length == BUF_SIZE && out != buf && n <= out.Length
      modifies out
      ensures out[..n] == NextBytes(buf[..], tail, n)
    {
      for i := 0 to n
        invariant out[..i] == NextBytes(buf[..], tail, i)
      {
        out[i] := buf[(tail + i) % WRAP % BUF_SIZE];
      }
    }

    /** Copies out what is there, as much as fits: the next bytes of the stream. */
    method Drain(out: array<Byte>) returns (n: nat)
      requires Valid() && out != buf
      modifies this, out
      ensures Valid() && View() == Drained(old(View()), n)
      ensures RecordsOk(View()) && |old(output)| <= |Stream(accepted)|
      ensures n == Min(|Stream(accepted)| - |old(output)|, out.Length)
      ensures n <= out.Length && output == old(output) + out[..n]
    {
      ghost var r := View();
      var available := Sub(head, tail);
      n := Min(available, out.Length);
      DrainedSound(r, n);
      if available == 0 {
        assert Drained(r, 0) == r;
        return 0;
      }
      CopyOut(out, n);
      tail := (tail + n) % WRAP;
      output, drained := output + out[..n], drained + n;
    }
  }
}
