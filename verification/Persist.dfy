/** Persisting the index of a block: for every index type, gather the block's records from all pools into one
    region of the index ring, sort it by key, and publish its bounds. */
module Persist {
  import opened Basics
  import opened BlockRing
  import opened IndexBlocks
  import opened IndexSearch
  import opened MemoryPool
  import opened PoolState
  import opened Records
  import opened RingRegions

  /** The pool reports the block's length correctly, and its records have the type's size. */
  ghost predicate Ready(p: Pool, id: nat, unit: nat) {
    && p.Ok() && Sized(RecordsIn(p, id), unit)
    && (Find(p.regions, id) < |p.regions| ==> LengthReadable(p, id))
  }

  lemma ReadyLength(p: Pool, id: nat, unit: nat)
    requires Ready(p, id, unit)
    ensures LengthAnswer(p, id) == |RecordsIn(p, id)|
    ensures Find(p.regions, id) < |p.regions| ==> |p.regions| < p.listLen && |RecordsIn(p, id)| > 0
  {
    var k := Find(p.regions, id);
    if k < |p.regions| {
      LengthExactIff(p, id);
      assert p.NodeAt(k);
    }
  }

  /** The block's records in the first n pools, one pool after the other. */
  function Gathered(views: seq<Pool>, id: nat, n: nat): seq<Record>
    requires n <= |views|
  {
    if n == 0 then [] else Gathered(views, id, n - 1) + RecordsIn(views[n - 1], id)
  }

  function Bytes(records: seq<Record>): seq<byte> {
    Flat(records, |records|)
  }

  lemma {:induction false} GatheredSized(views: seq<Pool>, id: nat, n: nat, unit: nat)
    requires n <= |views| && forall k: nat :: k < n ==> Ready(views[k], id, unit)
    ensures Sized(Gathered(views, id, n), unit)
  {
    if n > 0 { GatheredSized(views, id, n - 1, unit); }
  }

  lemma {:induction false} GatheredGrows(views: seq<Pool>, id: nat, m: nat, n: nat)
    requires m <= n <= |views|
    ensures |Bytes(Gathered(views, id, m))| <= |Bytes(Gathered(views, id, n))|
    decreases n
  {
    if m < n {
      GatheredGrows(views, id, m, n - 1);
      GatheredBytes(views, id, n - 1);
    }
  }

  lemma GatheredBytes(views: seq<Pool>, id: nat, n: nat)
    requires n < |views|
    ensures Bytes(Gathered(views, id, n + 1)) == Bytes(Gathered(views, id, n)) + Bytes(RecordsIn(views[n], id))
  {
    FlatJoin(Gathered(views, id, n), RecordsIn(views[n], id), |RecordsIn(views[n], id)|);
  }

  ghost predicate PoolIs(pool: MemoryPool, view: Pool)
    reads pool, pool.buffer, pool.allocatedList
  {
    pool.View() == view
  }

  ghost predicate FitsBlock(view: Pool, id: nat, unit: nat, blockSize: nat) {
    Ready(view, id, unit) && |Bytes(RecordsIn(view, id))| <= blockSize
  }

  /** A block's records of one index type can be gathered at `pos`: every pool is ready, the region fits the
      ring, and its blocks lie within resident positions from .. to. */
  ghost predicate Plan(g: Geometry, diskId: seq<nat>, ringBytes: nat, views: seq<Pool>, id: nat, unit: nat, pos: nat, from: nat, to: nat) {
    && g.Sound() && |diskId| == g.slots && Covered(g, diskId, from, to)
    && (forall k: nat :: k < |views| ==> FitsBlock(views[k], id, unit, g.blockSize))
    && |Bytes(Gathered(views, id, |views|))| <= ringBytes && from <= pos && pos + |Bytes(Gathered(views, id, |views|))| <= to
  }

  /** Copies the records of one pool, if it has any. */
  method GatherOne(pool: MemoryPool, id: nat, blocks: IndexBlockBuffer, thread: nat, pos: nat, unit: nat, ghost view: Pool,
                   ghost from: nat, ghost to: nat)
    returns (written: nat)
    requires id < UNUSED && blocks.Valid() && thread < |blocks.diskWriteIds|
    requires PoolIs(pool, view) && FitsBlock(view, id, unit, blocks.geo.blockSize)
    requires Covered(blocks.geo, blocks.blockDiskId[..], from, to) && from <= pos && pos + |Bytes(RecordsIn(view, id))| <= to
    modifies blocks`diskWriteIds, blocks.bufferBlocks
    ensures blocks.Valid() && |blocks.diskWriteIds| == |old(blocks.diskWriteIds)|
    ensures written == |Bytes(RecordsIn(view, id))|
    ensures blocks.Ring() == RingWrite(old(blocks.Ring()), RingPos(blocks.bufferSize, pos), Bytes(RecordsIn(view, id)))
  {
    ghost var records := RecordsIn(view, id);
    ReadyLength(view, id, unit);
    FlatSize(records, |records|, unit);
    var len := pool.GetLenOfDiskId(id);
    if len == 0 {
      RingWriteNothing(blocks.Ring(), RingPos(blocks.bufferSize, pos));
      return 0;
    }
    pool.WriteToBuffer(id, len, blocks, thread, pos, unit, records, from, to);
    written := Offset(len, unit);
  }

  /** Copies the records of the next pool behind what is already there. */
  method GatherNext(pool: MemoryPool, id: nat, blocks: IndexBlockBuffer, thread: nat, pos: nat, unit: nat, ghost view: Pool,
                    indexOffset: nat, ghost before: seq<byte>, ghost at: nat, ghost done: seq<byte>, ghost next: seq<byte>,
                    ghost from: nat, ghost to: nat)
    returns (newOffset: nat)
    requires id < UNUSED && blocks.Valid() && thread < |blocks.diskWriteIds|
    requires PoolIs(pool, view) && FitsBlock(view, id, unit, blocks.geo.blockSize) && next == Bytes(RecordsIn(view, id))
    requires |before| == blocks.bufferSize && at == RingPos(blocks.bufferSize, pos) && indexOffset == |done| && |done| + |next| <= |before|
    requires Covered(blocks.geo, blocks.blockDiskId[..], from, to) && from <= pos && pos + |done| + |next| <= to
    requires blocks.Ring() == RingWrite(before, at, done)
    modifies blocks`diskWriteIds, blocks.bufferBlocks
    ensures blocks.Valid() && |blocks.diskWriteIds| == |old(blocks.diskWriteIds)| && newOffset == |done| + |next|
    ensures blocks.Ring() == RingWrite(before, at, done + next)
  {
    RingPosNext(|before|, pos, |done|);
    RingWriteTwice(before, RingPos(|before|, pos), done, next);
    var written := GatherOne(pool, id, blocks, thread, pos + indexOffset, unit, view, from, to);
    newOffset := indexOffset + written;
  }

  lemma GatherStep(views: seq<Pool>, id: nat, k: nat)
    requires k < |views|
    ensures var done, next := Bytes(Gathered(views, id, k)), Bytes(RecordsIn(views[k], id));
            Bytes(Gathered(views, id, k + 1)) == done + next && |done| + |next| <= |Bytes(Gathered(views, id, |views|))|
  {
    GatheredBytes(views, id, k);
    GatheredGrows(views, id, k + 1, |views|);
  }

  /** The first k pools have been copied. */
  ghost predicate GatheredTo(ring: seq<byte>, before: seq<byte>, at: nat, views: seq<Pool>, id: nat, k: nat, indexOffset: nat) {
    && k <= |views| && at < |before| && indexOffset == |Bytes(Gathered(views, id, k))| <= |before|
    && ring == RingWrite(before, at, Bytes(Gathered(views, id, k)))
  }

  method GatherAt(pools: seq<MemoryPool>, id: nat, blocks: IndexBlockBuffer, thread: nat, pos: nat, unit: nat, ghost views: seq<Pool>,
                  ghost from: nat, ghost to: nat, k: nat, indexOffset: nat, ghost before: seq<byte>, ghost diskId: seq<nat>)
    returns (newOffset: nat)
    requires id < UNUSED && k < |pools| == |views| && blocks.Valid() && thread < |blocks.diskWriteIds|
    requires forall i: nat :: i < |pools| ==> PoolIs(pools[i], views[i])
    requires blocks.blockDiskId[..] == diskId && Plan(blocks.geo, diskId, blocks.bufferSize, views, id, unit, pos, from, to)
    requires |before| == blocks.bufferSize && GatheredTo(blocks.Ring(), before, RingPos(blocks.bufferSize, pos), views, id, k, indexOffset)
    modifies blocks`diskWriteIds, blocks.bufferBlocks
    ensures blocks.Valid() && |blocks.diskWriteIds| == |old(blocks.diskWriteIds)| && blocks.blockDiskId[..] == diskId
    ensures GatheredTo(blocks.Ring(), before, RingPos(blocks.bufferSize, pos), views, id, k + 1, newOffset)
    ensures forall i: nat :: i < |pools| ==> PoolIs(pools[i], views[i])
  {
    assert FitsBlock(views[k], id, unit, blocks.geo.blockSize) && PoolIs(pools[k], views[k]);
    GatherStep(views, id, k);
    newOffset := GatherNext(pools[k], id, blocks, thread, pos, unit, views[k], indexOffset, before, RingPos(blocks.bufferSize, pos),
                            Bytes(Gathered(views, id, k)), Bytes(RecordsIn(views[k], id)), from, to);
  }

  /** Copies the records of all pools to the index ring, one pool behind the other. */
  method Gather(pools: seq<MemoryPool>, id: nat, blocks: IndexBlockBuffer, thread: nat, pos: nat, unit: nat, ghost views: seq<Pool>,
                ghost from: nat, ghost to: nat)
    returns (indexOffset: nat)
    requires id < UNUSED && |pools| == |views| && blocks.Valid() && thread < |blocks.diskWriteIds|
    requires forall k: nat :: k < |pools| ==> PoolIs(pools[k], views[k])
    requires Plan(blocks.geo, blocks.blockDiskId[..], blocks.bufferSize, views, id, unit, pos, from, to)
    modifies blocks`diskWriteIds, blocks.bufferBlocks
    ensures blocks.Valid() && |blocks.diskWriteIds| == |old(blocks.diskWriteIds)|
    ensures indexOffset == |Bytes(Gathered(views, id, |views|))|
    ensures blocks.Ring() == RingWrite(old(blocks.Ring()), RingPos(blocks.bufferSize, pos), Bytes(Gathered(views, id, |views|)))
  {
    ghost var before, diskId, writers := blocks.Ring(), blocks.blockDiskId[..], |blocks.diskWriteIds|;
    indexOffset := 0;
    RingWriteNothing(before, RingPos(blocks.bufferSize, pos));
    for k := 0 to |pools|
      invariant blocks.Valid() && |blocks.diskWriteIds| == writers && blocks.blockDiskId[..] == diskId
      invariant GatheredTo(blocks.Ring(), before, RingPos(blocks.bufferSize, pos), views, id, k, indexOffset)
      invariant forall i: nat :: i < |pools| ==> PoolIs(pools[i], views[i])
    {
      indexOffset := GatherAt(pools, id, blocks, thread, pos, unit, views, from, to, k, indexOffset, before, diskId);
    }
  }

  /** One index type: gather and sort. Every byte outside the region stays. */
  method PersistType(pools: seq<MemoryPool>, id: nat, blocks: IndexBlockBuffer, thread: nat, pos: nat, keyLen: nat, ghost views: seq<Pool>,
                     ghost from: nat, ghost to: nat)
    returns (indexOffset: nat, ghost sorted: seq<Record>)
    requires id < UNUSED && |pools| == |views| && blocks.Valid() && thread < |blocks.diskWriteIds| && keyLen in {2, 4, 16}
    requires forall k: nat :: k < |pools| ==> PoolIs(pools[k], views[k])
    requires Plan(blocks.geo, blocks.blockDiskId[..], blocks.bufferSize, views, id, keyLen + VALUE_LEN, pos, from, to)
    requires SpareHolds(blocks.bufferSize, blocks.geo.blockSize, pos, |Bytes(Gathered(views, id, |views|))|)
    modifies blocks`diskWriteIds, blocks.bufferBlocks
    ensures blocks.Valid() && |blocks.diskWriteIds| == |old(blocks.diskWriteIds)|
    ensures IsSort(Gathered(views, id, |views|), sorted, keyLen)
    ensures indexOffset == |Bytes(Gathered(views, id, |views|))| == |Bytes(sorted)|
    ensures blocks.Ring() == RingWrite(old(blocks.Ring()), RingPos(blocks.bufferSize, pos), Bytes(sorted))
  {
    ghost var at, run, before := RingPos(blocks.bufferSize, pos), Bytes(Gathered(views, id, |views|)), blocks.Ring();
    indexOffset := Gather(pools, id, blocks, thread, pos, keyLen + VALUE_LEN, views, from, to);
    RoundReadsBack(before, at, run);
    sorted := blocks.SortIndex(pos, indexOffset, keyLen);
    PlanSized(blocks.geo, blocks.blockDiskId[..], blocks.bufferSize, views, id, keyLen + VALUE_LEN, pos, from, to);
    SortOfRun(Gathered(views, id, |views|), sorted, keyLen);
    RingWriteOver(before, at, run, Bytes(sorted));
  }

  lemma PlanSized(g: Geometry, diskId: seq<nat>, ringBytes: nat, views: seq<Pool>, id: nat, unit: nat, pos: nat, from: nat, to: nat)
    requires Plan(g, diskId, ringBytes, views, id, unit, pos, from, to)
    ensures Sized(Gathered(views, id, |views|), unit)
  {
    forall k: nat | k < |views| ensures Ready(views[k], id, unit) { assert FitsBlock(views[k], id, unit, g.blockSize); }
    GatheredSized(views, id, |views|, unit);
  }

  /** The sort of a run of records is a sort of the records, as long as the run. */
  lemma SortOfRun(records: seq<Record>, sorted: seq<Record>, keyLen: nat)
    requires Sized(records, keyLen + VALUE_LEN) && SortedRun(Bytes(records), keyLen, sorted)
    ensures IsSort(records, sorted, keyLen) && |Bytes(sorted)| == |Bytes(records)|
    ensures AfterSort(Bytes(records), sorted) == Bytes(sorted)
  {
    var unit := keyLen + VALUE_LEN;
    FlatRecordsOf(records, unit);
    PermutationSized(records, sorted, unit);
    FlatSize(records, |records|, unit);
    FlatSize(sorted, |sorted|, unit);
  }
}
