/** Persisting all index types of a block: one contiguous stretch of the index, one sorted region per type. */
module PersistMeta {
  import opened Basics
  import opened BlockRing
  import opened Counting
  import opened IndexBlocks
  import opened IndexSearch
  import opened MemoryPool
  import opened Persist
  import opened PoolState
  import opened Records
  import opened RingRegions
  import opened TypeHistory

  // ---------- regions behind one another ----------

  /** Published bounds of a type's region, and what lies there. */
  datatype IndexRegion = IndexRegion(begin: nat, end: nat, run: seq<byte>)

  /** Begin and end of a region, as they are published. */
  datatype Bounds = Bounds(begin: nat, end: nat)

  /** Bytes of the first t regions. */
  function Reserved(sizes: seq<nat>, t: nat): nat
    requires t <= |sizes|
  {
    if t == 0 then 0 else Reserved(sizes, t - 1) + sizes[t - 1]
  }

  lemma {:induction false} ReservedGrows(sizes: seq<nat>, s: nat, t: nat)
    requires s <= t <= |sizes|
    ensures Reserved(sizes, s) <= Reserved(sizes, t)
    decreases t
  {
    if s < t { ReservedGrows(sizes, s, t - 1); }
  }

  /** The first n regions, one behind the other. */
  function Runs(regions: seq<IndexRegion>, n: nat): seq<byte>
    requires n <= |regions|
  {
    if n == 0 then [] else Runs(regions, n - 1) + regions[n - 1].run
  }

  lemma {:induction false} RunsSame(a: seq<IndexRegion>, b: seq<IndexRegion>, n: nat)
    requires n <= |a| && n <= |b| && forall t: nat :: t < n ==> a[t] == b[t]
    ensures Runs(a, n) == Runs(b, n)
  {
    if n > 0 { RunsSame(a, b, n - 1); }
  }

  /** Region t lies behind the regions before it. */
  ghost predicate Placed(sizes: seq<nat>, pos: nat, region: IndexRegion, t: nat)
    requires t < |sizes|
  {
    region.begin == pos + Reserved(sizes, t) && region.end == pos + Reserved(sizes, t + 1) && |region.run| == sizes[t]
  }

  ghost predicate AllPlaced(sizes: seq<nat>, pos: nat, regions: seq<IndexRegion>) {
    |regions| <= |sizes| && forall t: nat :: t < |regions| ==> Placed(sizes, pos, regions[t], t)
  }

  lemma {:induction false} RunsLength(sizes: seq<nat>, pos: nat, regions: seq<IndexRegion>, n: nat)
    requires AllPlaced(sizes, pos, regions) && n <= |regions|
    ensures |Runs(regions, n)| == Reserved(sizes, n)
  {
    if n > 0 {
      RunsLength(sizes, pos, regions, n - 1);
      assert Placed(sizes, pos, regions[n - 1], n - 1);
    }
  }

  /** Region t is a piece of all regions. */
  lemma {:induction false} RunsPiece(regions: seq<IndexRegion>, n: nat, t: nat)
    requires t < n <= |regions|
    ensures |Runs(regions, t)| + |regions[t].run| <= |Runs(regions, n)|
    ensures Runs(regions, n)[|Runs(regions, t)|..|Runs(regions, t)| + |regions[t].run|] == regions[t].run
  {
    if t + 1 < n { RunsPiece(regions, n - 1, t); }
  }

  lemma NextRegion(sizes: seq<nat>, pos: nat, regions: seq<IndexRegion>, region: IndexRegion)
    requires AllPlaced(sizes, pos, regions) && |regions| < |sizes| && Placed(sizes, pos, region, |regions|)
    ensures AllPlaced(sizes, pos, regions + [region])
    ensures Runs(regions + [region], |regions| + 1) == Runs(regions, |regions|) + region.run
  {
    var more := regions + [region];
    RunsSame(regions, more, |regions|);
    forall t: nat | t < |more| ensures Placed(sizes, pos, more[t], t) {
      if t < |regions| { assert more[t] == regions[t]; }
    }
  }

  /** A write behind what was written before. */
  lemma NextWrite(before: seq<byte>, pos: nat, done: seq<byte>, next: seq<byte>)
    requires 0 < |before| && |done| + |next| <= |before|
    ensures RingWrite(RingWrite(before, RingPos(|before|, pos), done), RingPos(|before|, pos + |done|), next)
         == RingWrite(before, RingPos(|before|, pos), done + next)
  {
    RingPosNext(|before|, pos, |done|);
    RingWriteTwice(before, RingPos(|before|, pos), done, next);
  }

  lemma PieceReadBack(before: seq<byte>, pos: nat, data: seq<byte>, i: nat, len: nat)
    requires 0 < |before| && i + len <= |data| <= |before|
    ensures RoundBytes(RingWrite(before, RingPos(|before|, pos), data), RingPos(|before|, pos + i), len) == data[i..i + len]
  {
    RingPosNext(|before|, pos, i);
    RoundPart(before, RingPos(|before|, pos), data, i, len);
  }

  lemma PlacedPiece(sizes: seq<nat>, pos: nat, regions: seq<IndexRegion>, t: nat)
    requires AllPlaced(sizes, pos, regions) && |regions| == |sizes| && t < |sizes|
    ensures var i, len, all := regions[t].begin - pos, regions[t].end - regions[t].begin, Runs(regions, |regions|);
            0 <= i && 0 <= len && i + len <= |all| == Reserved(sizes, |sizes|) && all[i..i + len] == regions[t].run
  {
    assert Placed(sizes, pos, regions[t], t);
    RunsLength(sizes, pos, regions, t);
    RunsLength(sizes, pos, regions, |regions|);
    RunsPiece(regions, |regions|, t);
  }

  /** Every published region is read back from the ring. */
  lemma RegionReadBack(sizes: seq<nat>, pos: nat, regions: seq<IndexRegion>, before: seq<byte>, ring: seq<byte>, t: nat)
    requires AllPlaced(sizes, pos, regions) && |regions| == |sizes| && t < |sizes|
    requires 0 < |before| && |Runs(regions, |regions|)| <= |before|
    requires ring == RingWrite(before, RingPos(|before|, pos), Runs(regions, |regions|))
    ensures regions[t].begin <= regions[t].end && regions[t].end - regions[t].begin <= |ring|
    ensures RoundBytes(ring, RingPos(|ring|, regions[t].begin), regions[t].end - regions[t].begin) == regions[t].run
  {
    PlacedPiece(sizes, pos, regions, t);
    PieceReadBack(before, pos, Runs(regions, |regions|), regions[t].begin - pos, regions[t].end - regions[t].begin);
  }

  // ---------- the types of a block ----------

  ghost predicate SizeIs(view: TypeView, id: nat, size: nat) {
    |Bytes(AllGathered(view, id))| == size
  }

  ghost predicate SortedAt(views: seq<TypeView>, id: nat, regions: seq<IndexRegion>, t: nat)
    requires t < |views| && t < |regions|
  {
    SortedIn(views[t], id, regions[t].run)
  }

  /** Every region is sorted, holds everything inserted exactly for contiguous insertions, and its bounds are
      published. */
  ghost predicate AllSorted(views: seq<TypeView>, id: nat, regions: seq<IndexRegion>, bounds: seq<Bounds>) {
    && |bounds| == |regions| <= |views|
    && (forall t: nat :: t < |regions| ==> SortedAt(views, id, regions, t))
    && (forall t: nat :: t < |regions| ==> bounds[t] == Bounds(regions[t].begin, regions[t].end))
  }

  lemma NextSorted(views: seq<TypeView>, id: nat, regions: seq<IndexRegion>, bounds: seq<Bounds>, region: IndexRegion)
    requires AllSorted(views, id, regions, bounds) && |regions| < |views| && SortedIn(views[|regions|], id, region.run)
    ensures AllSorted(views, id, regions + [region], bounds + [Bounds(region.begin, region.end)])
  {
    var more := regions + [region];
    forall t: nat | t < |more| ensures SortedAt(views, id, more, t) {
      if t < |regions| { assert SortedAt(views, id, regions, t) && more[t] == regions[t]; }
    }
  }

  /** Type t can be persisted behind the types before it. */
  ghost predicate TypePlan(g: Geometry, diskId: seq<nat>, ringBytes: nat, view: TypeView, id: nat, pos: nat, size: nat, from: nat, to: nat) {
    && ringBytes > 0 && view.keyLen in {2, 4, 16} && SizeIs(view, id, size)
    && Plan(g, diskId, ringBytes, view.pools, id, view.keyLen + VALUE_LEN, pos, from, to)
    && SpareHolds(ringBytes, g.blockSize, pos, size)
  }

  /** Where a block's index goes: the ring, the resident positions from .. to, and the first position. */
  datatype BlockPlan = BlockPlan(g: Geometry, diskId: seq<nat>, ringBytes: nat, pos: nat, from: nat, to: nat)

  ghost predicate TypeOk(plan: BlockPlan, views: seq<TypeView>, sizes: seq<nat>, id: nat, t: nat)
    requires t < |views| == |sizes|
  {
    var current := plan.pos + Reserved(sizes, t);
    TypePlan(plan.g, plan.diskId, plan.ringBytes, views[t], id, current, sizes[t], plan.from, plan.to)
  }

  ghost predicate MetaPlan(plan: BlockPlan, views: seq<TypeView>, sizes: seq<nat>, id: nat) {
    && |views| == |sizes| && Reserved(sizes, |sizes|) <= plan.ringBytes && 0 < plan.ringBytes
    && forall t: nat :: t < |views| ==> TypeOk(plan, views, sizes, id, t)
  }

  lemma TypeReady(plan: BlockPlan, views: seq<TypeView>, sizes: seq<nat>, id: nat, t: nat, current: nat)
    requires MetaPlan(plan, views, sizes, id) && t < |views| && current == plan.pos + Reserved(sizes, t)
    ensures TypePlan(plan.g, plan.diskId, plan.ringBytes, views[t], id, current, sizes[t], plan.from, plan.to)
  {
    assert TypeOk(plan, views, sizes, id, t);
  }

  /** The pool objects of one index type. */
  datatype TypePools = TypePools(pools: seq<MemoryPool>, keyLen: nat)

  ghost predicate ViewIs(t: TypePools, view: TypeView)
    reads set p | p in t.pools, set p | p in t.pools :: p.buffer, set p | p in t.pools :: p.allocatedList
  {
    && |t.pools| == |view.pools| && t.keyLen == view.keyLen
    && forall k: nat :: k < |t.pools| ==> PoolIs(t.pools[k], view.pools[k])
  }

  /** The bytes one pool reports for the block. */
  method PoolLength(pool: MemoryPool, id: nat, unit: nat, ghost view: Pool, ghost blockSize: nat) returns (len: nat)
    requires id < UNUSED && PoolIs(pool, view) && FitsBlock(view, id, unit, blockSize)
    ensures len == |Bytes(RecordsIn(view, id))|
  {
    ReadyLength(view, id, unit);
    FlatSize(RecordsIn(view, id), |RecordsIn(view, id)|, unit);
    var count := pool.GetLenOfDiskId(id);
    len := Offset(count, unit);
  }

  /** The bytes the pools of one type report for the block. */
  method TypeLength(t: TypePools, id: nat, unit: nat, ghost view: TypeView, ghost size: nat, ghost blockSize: nat) returns (len: nat)
    requires id < UNUSED && ViewIs(t, view) && SizeIs(view, id, size)
    requires forall k: nat :: k < |view.pools| ==> FitsBlock(view.pools[k], id, unit, blockSize)
    ensures len == size
  {
    len := 0;
    for k := 0 to |t.pools|
      invariant len == |Bytes(Gathered(view.pools, id, k))|
    {
      GatheredBytes(view.pools, id, k);
      assert FitsBlock(view.pools[k], id, unit, blockSize) && PoolIs(t.pools[k], view.pools[k]);
      var count := PoolLength(t.pools[k], id, unit, view.pools[k], blockSize);
      len := len + count;
    }
  }

  /** Regions 0 .. |regions| - 1 are written, published and sorted. */
  ghost predicate PersistedTo(ring: seq<byte>, before: seq<byte>, sizes: seq<nat>, pos: nat, regions: seq<IndexRegion>) {
    && AllPlaced(sizes, pos, regions) && 0 < |before| && |Runs(regions, |regions|)| <= |before|
    && ring == RingWrite(before, RingPos(|before|, pos), Runs(regions, |regions|))
  }

  lemma PersistedNext(ring: seq<byte>, ring': seq<byte>, before: seq<byte>, sizes: seq<nat>, pos: nat, regions: seq<IndexRegion>, region: IndexRegion)
    requires PersistedTo(ring, before, sizes, pos, regions) && |regions| < |sizes| && Reserved(sizes, |sizes|) <= |before|
    requires Placed(sizes, pos, region, |regions|) && |ring| == |before| && |region.run| <= |ring|
    requires ring' == RingWrite(ring, RingPos(|ring|, region.begin), region.run)
    ensures PersistedTo(ring', before, sizes, pos, regions + [region])
  {
    RunsLength(sizes, pos, regions, |regions|);
    ReservedGrows(sizes, |regions| + 1, |sizes|);
    NextWrite(before, pos, Runs(regions, |regions|), region.run);
    NextRegion(sizes, pos, regions, region);
  }

  /** One more type. */
  method PersistAt(t: TypePools, id: nat, blocks: IndexBlockBuffer, thread: nat, current: nat, ghost view: TypeView, ghost size: nat,
                   ghost diskId: seq<nat>, ghost from: nat, ghost to: nat)
    returns (next: nat, ghost region: IndexRegion)
    requires id < UNUSED && blocks.Valid() && thread < |blocks.diskWriteIds| && ViewIs(t, view) && blocks.blockDiskId[..] == diskId
    requires TypePlan(blocks.geo, diskId, blocks.bufferSize, view, id, current, size, from, to)
    modifies blocks`diskWriteIds, blocks.bufferBlocks
    ensures blocks.Valid() && |blocks.diskWriteIds| == |old(blocks.diskWriteIds)| && blocks.blockDiskId[..] == diskId
    ensures region == IndexRegion(current, next, region.run) && next == current + size && |region.run| == size <= blocks.bufferSize
    ensures SortedIn(view, id, region.run)
    ensures blocks.Ring() == RingWrite(old(blocks.Ring()), RingPos(blocks.bufferSize, current), region.run)
  {
    ghost var sorted: seq<Record>;
    var len;
    len, sorted := PersistType(t.pools, id, blocks, thread, current, t.keyLen, view.pools, from, to);
    next := current + len;
    region := IndexRegion(current, next, Bytes(sorted));
    PlanSized(blocks.geo, diskId, blocks.bufferSize, view.pools, id, t.keyLen + VALUE_LEN, current, from, to);
    SortIsIn(view, id, sorted);
  }

  /** The bytes of all types: what is taken from the shared write position. */
  method TotalLength(types: seq<TypePools>, id: nat, ghost views: seq<TypeView>, ghost sizes: seq<nat>, ghost plan: BlockPlan)
    returns (total: nat)
    requires id < UNUSED && |types| == |views| && MetaPlan(plan, views, sizes, id)
    requires forall t: nat :: t < |types| ==> ViewIs(types[t], views[t])
    ensures total == Reserved(sizes, |sizes|)
  {
    total := 0;
    for t := 0 to |types|
      invariant total == Reserved(sizes, t)
    {
      TypeFits(plan, views, sizes, id, t);
      var len := TypeLength(types[t], id, types[t].keyLen + VALUE_LEN, views[t], sizes[t], plan.g.blockSize);
      total := total + len;
    }
  }

  lemma TypeFits(plan: BlockPlan, views: seq<TypeView>, sizes: seq<nat>, id: nat, t: nat)
    requires MetaPlan(plan, views, sizes, id) && t < |views|
    ensures SizeIs(views[t], id, sizes[t])
    ensures forall k: nat :: k < |views[t].pools| ==> FitsBlock(views[t].pools[k], id, views[t].keyLen + VALUE_LEN, plan.g.blockSize)
  {
    TypeReady(plan, views, sizes, id, t, plan.pos + Reserved(sizes, t));
  }

  /** Takes a stretch of the index from the shared write position, and writes, sorts and publishes one region
      per type there. */
  method PersistMeta(types: seq<TypePools>, id: nat, blocks: IndexBlockBuffer, thread: nat, writePos: nat, diskSize: nat,
                     ghost views: seq<TypeView>, ghost sizes: seq<nat>, ghost plan: BlockPlan)
    returns (newWritePos: nat, bounds: seq<Bounds>, ghost regions: seq<IndexRegion>)
    requires id < UNUSED && |types| == |views| && blocks.Valid() && thread < |blocks.diskWriteIds| && diskSize > 0
    requires forall t: nat :: t < |types| ==> ViewIs(types[t], views[t])
    requires plan == BlockPlan(blocks.geo, blocks.blockDiskId[..], blocks.bufferSize, writePos % diskSize, plan.from, plan.to)
    requires MetaPlan(plan, views, sizes, id)
    modifies blocks`diskWriteIds, blocks.bufferBlocks
    ensures blocks.Valid() && newWritePos == writePos + Reserved(sizes, |sizes|) && |regions| == |types|
    ensures PersistedTo(blocks.Ring(), old(blocks.Ring()), sizes, plan.pos, regions)
    ensures AllSorted(views, id, regions, bounds)
  {
    var total := TotalLength(types, id, views, sizes, plan);
    newWritePos := writePos + total;
    bounds, regions := PersistTypes(types, id, blocks, thread, writePos % diskSize, views, sizes, plan);
  }

  method PersistTypes(types: seq<TypePools>, id: nat, blocks: IndexBlockBuffer, thread: nat, pos: nat,
                     ghost views: seq<TypeView>, ghost sizes: seq<nat>, ghost plan: BlockPlan)
    returns (bounds: seq<Bounds>, ghost regions: seq<IndexRegion>)
    requires id < UNUSED && |types| == |views| && blocks.Valid() && thread < |blocks.diskWriteIds|
    requires forall t: nat :: t < |types| ==> ViewIs(types[t], views[t])
    requires plan == BlockPlan(blocks.geo, blocks.blockDiskId[..], blocks.bufferSize, pos, plan.from, plan.to)
    requires MetaPlan(plan, views, sizes, id)
    modifies blocks`diskWriteIds, blocks.bufferBlocks
    ensures blocks.Valid() && |regions| == |types|
    ensures PersistedTo(blocks.Ring(), old(blocks.Ring()), sizes, pos, regions)
    ensures AllSorted(views, id, regions, bounds)
  {
    ghost var before, writers := blocks.Ring(), |blocks.diskWriteIds|;
    var current: nat := pos;
    bounds, regions := [], [];
    RingWriteNothing(before, RingPos(|before|, pos));
    for t := 0 to |types|
      invariant blocks.Valid() && |blocks.diskWriteIds| == writers && blocks.blockDiskId[..] == plan.diskId
      invariant |regions| == t && current == pos + Reserved(sizes, t)
      invariant PersistedTo(blocks.Ring(), before, sizes, pos, regions) && AllSorted(views, id, regions, bounds)
      invariant forall i: nat :: i < |types| ==> ViewIs(types[i], views[i])
    {
      ghost var ring := blocks.Ring();
      TypeReady(plan, views, sizes, id, t, current);
      var next;
      ghost var region;
      next, region := PersistAt(types[t], id, blocks, thread, current, views[t], sizes[t], plan.diskId, plan.from, plan.to);
      PersistedNext(ring, blocks.Ring(), before, sizes, pos, regions, region);
      NextSorted(views, id, regions, bounds, region);
      bounds := bounds + [Bounds(current, next)];
      regions := regions + [region];
      current := next;
    }
  }

  /** What a query finds in a published region: the run can be bisected, and the answer for a range of keys holds
      every value as often as it was gathered under those keys over all pools, never more often than it was
      inserted for the block, and exactly as often if the insertions are contiguous. */
  lemma RegionAnswers(view: TypeView, id: nat, run: seq<byte>, lo: nat, hi: nat, v: nat) returns (records: seq<Record>)
    requires SortedIn(view, id, run) && Known(view, id) && Sized(AllGathered(view, id), view.keyLen + VALUE_LEN)
    ensures SortedIndex(run, view.keyLen, records)
    ensures var found := Hits(records, |records|, view.keyLen, lo, hi);
      && Occurs(found, |found|, v) == CountIn(AllGathered(view, id), view.keyLen, lo, hi, v)
      && Occurs(found, |found|, v) <= CountIn(Inserted(view, id), view.keyLen, lo, hi, v)
      && (AllContiguous(view, id) ==> Occurs(found, |found|, v) == CountIn(Inserted(view, id), view.keyLen, lo, hi, v))
  {
    records :| IsSort(AllGathered(view, id), records, view.keyLen) && run == Bytes(records);
    AnswerIsInserted(AllGathered(view, id), records, view.keyLen, lo, hi, v);
    KnownGives(view, id);
    GatheredIff(view, id, |view.pools|);
    GatheredCounts(view, id, |view.pools|, lo, hi, v);
  }
}
