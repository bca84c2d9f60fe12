/** The measurement log: one digest per spawned cell, and the rolling aggregate.
    Source: kernel/src/measurement_log.rs. */
module MeasurementLog {
  import opened ByteData
  import opened Sha256

  const MAX_ENTRIES: nat := 256

  datatype Entry = Entry(tid: nat, hash: seq<Byte>, path: string)

  /** The aggregate of a sequence of digests: each extends the one before. */
  function Aggregate(hashes: seq<seq<Byte>>): (r: seq<Byte>)
    ensures |r| == 32
  {
    if hashes == [] then Zeros(32) else Hash(Aggregate(hashes[..|hashes| - 1]) + hashes[|hashes| - 1])
  }

  lemma AggregateNext(hashes: seq<seq<Byte>>, h: seq<Byte>)
    ensures Aggregate(hashes + [h]) == Hash(Aggregate(hashes) + h)
  {
    assert (hashes + [h])[..|hashes|] == hashes;
  }

  /** The aggregate covers every measurement. */
  ghost predicate Covers(aggregate: seq<Byte>, hashes: seq<seq<Byte>>) { aggregate == Aggregate(hashes) }

  /** The entries keep the first 256. */
  ghost predicate Keeps(entries: seq<Entry>, hashes: seq<seq<Byte>>) {
    && |entries| == (if |hashes| < MAX_ENTRIES then |hashes| else MAX_ENTRIES)
    && forall k :: 0 <= k < |entries| ==> entries[k].hash == hashes[k]
  }

  class Log {
    var aggregate: seq<Byte>
    var entries: seq<Entry>
    /** Every digest ever measured. */
    ghost var hashes: seq<seq<Byte>>

    ghost predicate Valid()
      reads this
    {
      Covers(aggregate, hashes) && Keeps(entries, hashes)
    }

    constructor ()
      ensures Valid() && hashes == []
    {
      aggregate, entries, hashes := Zeros(32), [], [];
    }

    /** The aggregate becomes the hash of itself and the new digest. */
    method Extend(hash: seq<Byte>)
      requires Covers(aggregate, hashes) && |hash| == 32
      modifies `aggregate, `hashes
      ensures Covers(aggregate, hashes) && hashes == old(hashes) + [hash]
    {
      AggregateNext(hashes, hash);
      aggregate := Sum(aggregate + hash);
      hashes := hashes + [hash];
    }

    /** Hashes an image, extends the aggregate, and keeps the entry while there is room. */
    method Measure(tid: nat, path: string, elf: seq<Byte>) returns (hash: seq<Byte>)
      requires Valid() && |elf| < MESSAGE_LIMIT
      modifies this
      ensures Valid() && hash == Hash(elf) && hashes == old(hashes) + [hash]
      ensures entries == if |old(hashes)| < MAX_ENTRIES then old(entries) + [Entry(tid % 0x1_0000_0000, hash, path)] else old(entries)
    {
      hash := Sum(elf);
      Extend(hash);
      if |entries| < MAX_ENTRIES { entries := entries + [Entry(tid % 0x1_0000_0000, hash, path)]; }
    }
  }
}
