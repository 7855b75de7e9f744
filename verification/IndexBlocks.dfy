/** The ring of index blocks: writes like those of the data ring, and sorting of a region in place, with one
    spare block behind the ring that makes a region across the ring's end contiguous. */
module IndexBlocks {
  import opened Basics
  import opened BlockRing
  import opened IndexSearch
  import opened ModArith
  import opened Records

  /** `len` bytes of a ring from `at` on, going round its end. */
  function RoundBytes(ring: seq<byte>, at: nat, len: nat): (r: seq<byte>)
    requires at <= |ring| && len <= |ring|
    ensures |r| == len
  {
    if at + len <= |ring| then ring[at..at + len] else ring[at..] + ring[..at + len - |ring|]
  }

  /** What was laid over the ring is read back. */
  lemma RoundReadsBack(ring: seq<byte>, at: nat, data: seq<byte>)
    requires at < |ring| && |data| <= |ring|
    ensures RoundBytes(RingWrite(ring, at, data), at, |data|) == data
  {
    var written, n := RingWrite(ring, at, data), |ring|;
    var r := RoundBytes(written, at, |data|);
    forall k: nat | k < |data| ensures r[k] == data[k] {
      if at + k < n {
        assert Ahead(n, at, at + k) == k && r[k] == written[at + k];
      } else {
        assert Ahead(n, at, at + k - n) == k && r[k] == written[at + k - n];
      }
    }
  }

  /** Place of an index position in a ring of n bytes. */
  function RingPos(n: nat, pos: nat): (at: nat)
    requires n > 0
    ensures at < n
  {
    pos % n
  }

  /** The spare block takes what a region has behind the ring's end. */
  predicate SpareHolds(ringBytes: nat, blockSize: nat, pos: nat, len: nat)
    requires ringBytes > 0
  {
    RingPos(ringBytes, pos) + len <= ringBytes + blockSize
  }

  /** A length is safe at every position exactly if it is at most one byte more than the spare block. */
  lemma SpareAlwaysHolds(ringBytes: nat, blockSize: nat, len: nat)
    requires ringBytes > 0
    ensures (forall pos: nat :: SpareHolds(ringBytes, blockSize, pos, len)) <==> len <= blockSize + 1
  {
    if len > blockSize + 1 {
      ModSmall(ringBytes - 1, ringBytes);
      assert !SpareHolds(ringBytes, blockSize, ringBytes - 1, len);
    }
  }

  /** A region that was read round the ring's end, put back from a contiguous copy. */
  lemma PutBack(before: seq<byte>, after: seq<byte>, at: nat, data: seq<byte>)
    requires at < |before| == |after| && |data| <= |before|
    requires forall j: nat :: j < |before| ==>
      after[j] == if at <= j < at + |data| then data[j - at]
                  else if j + |before| < at + |data| then data[j + |before| - at] else before[j]
    ensures after == RingWrite(before, at, data)
  {
    forall j: nat | j < |before| ensures after[j] == RingWrite(before, at, data)[j] {
      assert Ahead(|before|, at, j) == if j >= at then j - at else j + |before| - at;
    }
  }

  /** With the ring's begin repeated behind its end, a region across the end is contiguous. */
  lemma SpareJoins(ring: seq<byte>, all: seq<byte>, at: nat, len: nat)
    requires at < |ring| && len <= |ring| && at + len <= |all| && |ring| <= |all|
    requires forall j: nat :: j < |ring| ==> all[j] == ring[j]
    requires forall j: nat :: |ring| <= j < at + len ==> all[j] == ring[j - |ring|]
    ensures all[..|ring|] == ring && all[at..at + len] == RoundBytes(ring, at, len)
  {
    var run := all[at..at + len];
    forall k: nat | k < len ensures run[k] == RoundBytes(ring, at, len)[k] { assert run[k] == all[at + k]; }
  }

  class IndexBlockBuffer {
    const geo: Geometry
    const bufferSize: nat
    /** The ring, and behind it the spare block. */
    const bufferBlocks: array<byte>
    const blockDiskId: array<nat>
    var diskWriteIds: seq<nat>
    var blockCheckIds: seq<nat>

    ghost predicate Valid()
      reads this, bufferBlocks, blockDiskId
    {
      && geo.Sound() && geo.delay == 0
      && bufferSize == geo.RingBytes() && bufferSize >= geo.blockSize
      && bufferBlocks.Length == bufferSize + geo.blockSize && blockDiskId.Length == geo.slots
      && (forall k :: 0 <= k < |blockCheckIds| ==> blockCheckIds[k] < geo.slots)
    }

    ghost function Ring(): (r: seq<byte>)
      requires bufferSize <= bufferBlocks.Length
      reads this, bufferBlocks
      ensures |r| == bufferSize
    {
      bufferBlocks[..bufferSize]
    }

    constructor (slots: nat, blockSize: nat, diskBlocks: nat, threads: nat)
      requires 0 < slots && 0 < blockSize && 4 * slots < diskBlocks
      ensures Valid() && fresh(bufferBlocks) && fresh(blockDiskId) && geo == Geometry(slots, blockSize, diskBlocks, 0, threads)
      ensures diskWriteIds == [] && blockCheckIds == [] && forall k :: 0 <= k < slots ==> blockDiskId[k] == k
    {
      var g := Geometry(slots, blockSize, diskBlocks, 0, threads);
      BlockFits(g);
      geo, bufferSize := g, g.RingBytes();
      bufferBlocks := new byte[g.RingBytes() + blockSize](_ => 0);
      blockDiskId := new nat[slots](i => i);
      diskWriteIds, blockCheckIds := [], [];
    }

    /** memcpy of data[from..to] to position `at`. */
    method CopyIn(at: nat, data: seq<byte>, from: nat, to: nat)
      requires from <= to <= |data| && at + (to - from) <= bufferBlocks.Length
      modifies bufferBlocks
      ensures forall j :: 0 <= j < bufferBlocks.Length ==>
                bufferBlocks[j] == if at <= j < at + (to - from) then data[from + (j - at)] else old(bufferBlocks[j])
    {
      for k := from to to
        invariant forall j :: 0 <= j < bufferBlocks.Length ==>
                    bufferBlocks[j] == if at <= j < at + (k - from) then data[from + (j - at)] else old(bufferBlocks[j])
      {
        bufferBlocks[at + (k - from)] := data[k];
      }
    }

    /** Copies the data to ring position `at`, in two pieces when it passes the end of the ring. */
    method CopyRound(at: nat, data: seq<byte>)
      requires Valid() && at < bufferSize && |data| <= bufferSize
      modifies bufferBlocks
      ensures Ring() == RingWrite(old(Ring()), at, data)
    {
      var n := bufferSize;
      if at + |data| > n {
        var tmp := n - at;
        CopyIn(at, data, 0, tmp);
        CopyIn(0, data, tmp, |data|);
      } else {
        CopyIn(at, data, 0, |data|);
      }
      assert Ring() == RingWrite(old(Ring()), at, data);
    }

    method Examine(pos: nat, len: nat) returns (verdict: Verdict)
      requires Valid()
      ensures verdict == Judge(geo, blockDiskId[..], pos, len)
    {
      var slot := pos / geo.blockSize % geo.slots;
      var disk := pos / geo.blockSize % geo.diskBlocks;
      if blockDiskId[slot] != disk { return Refused(disk); }
      if pos % geo.blockSize + len >= geo.blockSize {
        slot := (slot + 1) % geo.slots;
        disk := (disk + 1) % geo.diskBlocks;
        if blockDiskId[slot] != disk { return Refused(disk); }
      }
      return Accepted(disk);
    }

    /** Stores `data` at index position `pos` if the blocks it touches are resident; publishes the thread's block. */
    method WriteBlock(data: seq<byte>, pos: nat, thread: nat) returns (ok: bool)
      requires Valid() && |data| <= geo.blockSize && thread < |diskWriteIds|
      modifies `diskWriteIds, bufferBlocks
      ensures Valid() && ok == Judge(geo, blockDiskId[..], pos, |data|).Accepted?
      ensures Ring() == if ok then RingWrite(old(Ring()), RingPos(bufferSize, pos), data) else old(Ring())
      ensures diskWriteIds == old(diskWriteIds)[thread := Judge(geo, blockDiskId[..], pos, |data|).publish]
    {
      var verdict := Examine(pos, |data|);
      diskWriteIds := diskWriteIds[thread := verdict.publish];
      if verdict.Refused? { return false; }
      CopyRound(RingPos(bufferSize, pos), data);
      return true;
    }

    /** Sorts the records of a region by key, in place. A region that passes the ring's end is made
        contiguous with the spare block, and its wrapped part is copied back. */
    method SortIndex(pos: nat, len: nat, keyLen: nat) returns (ghost sorted: seq<Record>)
      requires Valid() && len <= bufferSize && keyLen in {2, 4, 16}
      requires SpareHolds(bufferSize, geo.blockSize, pos, len)
      modifies bufferBlocks
      ensures Valid()
      ensures SortedRun(RoundBytes(old(Ring()), RingPos(bufferSize, pos), len), keyLen, sorted)
      ensures Ring() == RingWrite(old(Ring()), RingPos(bufferSize, pos), AfterSort(RoundBytes(old(Ring()), RingPos(bufferSize, pos), len), sorted))
    {
      var at := RingPos(bufferSize, pos);
      ghost var before, run := Ring(), RoundBytes(Ring(), at, len);
      ToSpare(at, len);
      sorted := SortRun(at, len, keyLen);
      FromSpare(at, len, before);
    }

    /** Copies the part of a region that lies at the ring's begin behind the ring's end. */
    method ToSpare(at: nat, len: nat)
      requires Valid() && at < bufferSize && len <= bufferSize && at + len <= bufferSize + geo.blockSize
      modifies bufferBlocks
      ensures Ring() == old(Ring()) && bufferBlocks[at..at + len] == RoundBytes(old(Ring()), at, len)
    {
      if at + len > bufferSize {
        CopyIn(bufferSize, bufferBlocks[..len + at - bufferSize], 0, len + at - bufferSize);
      }
      SpareJoins(old(Ring()), bufferBlocks[..], at, len);
    }

    /** Copies it back. */
    method FromSpare(at: nat, len: nat, ghost before: seq<byte>)
      requires Valid() && at < bufferSize == |before| && len <= bufferSize && at + len <= bufferSize + geo.blockSize
      requires forall j :: 0 <= j < bufferSize && !(at <= j < at + len) ==> bufferBlocks[j] == before[j]
      modifies bufferBlocks
      ensures Ring() == RingWrite(before, at, old(bufferBlocks[at..at + len]))
    {
      ghost var data := bufferBlocks[at..at + len];
      if at + len > bufferSize {
        CopyIn(0, bufferBlocks[bufferSize..at + len], 0, len + at - bufferSize);
      }
      PutBack(before, Ring(), at, data);
    }

    /** Sorts the records of a contiguous piece. */
    method SortRun(at: nat, len: nat, keyLen: nat) returns (ghost sorted: seq<Record>)
      requires at + len <= bufferBlocks.Length
      modifies bufferBlocks
      ensures SortedRun(old(bufferBlocks[at..at + len]), keyLen, sorted)
      ensures bufferBlocks[at..at + len] == AfterSort(old(bufferBlocks[at..at + len]), sorted)
      ensures forall j :: 0 <= j < bufferBlocks.Length && !(at <= j < at + len) ==> bufferBlocks[j] == old(bufferBlocks[j])
    {
      ghost var run := bufferBlocks[at..at + len];
      var records := RecordsOf(bufferBlocks[at..at + len], keyLen + VALUE_LEN);
      var result := SortRecords(records, keyLen);
      sorted := result;
      SortFits(run, keyLen, sorted);
      var bytes := Flat(result, |result|);
      CopyIn(at, bytes, 0, |bytes|);
      assert bufferBlocks[at..at + len] == bytes + run[|bytes|..];
    }
  }

  /** `sorted` is a sort of the whole records of a run. */
  ghost predicate SortedRun(run: seq<byte>, keyLen: nat, sorted: seq<Record>) {
    IsSort(RecordsOf(run, keyLen + VALUE_LEN), sorted, keyLen) && |Flat(sorted, |sorted|)| <= |run|
  }

  /** The run after the sort: the sorted records, and what was behind the last whole record. */
  function AfterSort(run: seq<byte>, sorted: seq<Record>): (r: seq<byte>)
    requires |Flat(sorted, |sorted|)| <= |run|
    ensures |r| == |run|
  {
    Flat(sorted, |sorted|) + run[|Flat(sorted, |sorted|)|..]
  }

  lemma SortFits(run: seq<byte>, keyLen: nat, sorted: seq<Record>)
    requires IsSort(RecordsOf(run, keyLen + VALUE_LEN), sorted, keyLen)
    ensures |Flat(sorted, |sorted|)| <= |run|
  {
    var size := keyLen + VALUE_LEN;
    var records := RecordsOf(run, size);
    forall k: nat | k < |records| ensures |records[k].bytes| == size { WholeFits(|run|, size, k + 1); }
    PermutationSized(records, sorted, size);
    FlatSize(sorted, |sorted|, size);
    WholeFits(|run|, size, Whole(|run|, size));
  }
}
