/** The ring allocator that collects index records until the block they belong to is indexed. */
module MemoryPool {
  import opened Basics
  import opened IndexBlocks
  import opened ModArith
  import opened PoolHistory
  import opened PoolState
  import opened Records
  import opened RingRegions
  import opened BlockRing

  /** Record j of a list is where a round read from `start` finds it. */
  ghost predicate RoundAt(buffer: seq<Record>, start: nat, records: seq<Record>, j: nat)
    requires j < |records|
  {
    start + j < 2 * |buffer| && buffer[Wrap(start + j, |buffer|)] == records[j]
  }

  /** Reading round the pool's end from `start` yields the records. */
  ghost predicate ReadsRound(buffer: seq<Record>, start: nat, records: seq<Record>) {
    start < |buffer| && |records| <= |buffer| && forall j: nat :: j < |records| ==> RoundAt(buffer, start, records, j)
  }

  lemma RegionRecord(p: Pool, k: nat, start: nat, j: nat)
    requires p.Ok() && k < |p.regions| && j < |p.regions[k].records|
    requires p.base + Total(p.regions, k) < 2 * p.capacity && start == Wrap(p.base + Total(p.regions, k), p.capacity)
    ensures RoundAt(p.buffer, start, p.regions[k].records, j)
  {
    assert p.HoldsAt(k, j);
    TotalGrows(p.regions, k, |p.regions|);
  }

  /** A region's records lie in the pool from its start on, in allocation order. */
  lemma RegionReadsRound(p: Pool, k: nat)
    requires p.Ok() && k < |p.regions|
    ensures p.head + k < 2 * p.listLen && Wrap(p.head + k, p.listLen) < |p.list|
    ensures ReadsRound(p.buffer, p.list[Wrap(p.head + k, p.listLen)].start, p.regions[k].records)
  {
    assert p.NodeAt(k);
    RegionFits(p, k);
    var start := p.list[Wrap(p.head + k, p.listLen)].start;
    forall j: nat | j < |p.regions[k].records| ensures RoundAt(p.buffer, start, p.regions[k].records, j) {
      RegionRecord(p, k, start, j);
    }
  }

  lemma RegionFits(p: Pool, k: nat)
    requires p.Ok() && k < |p.regions|
    ensures p.base + Total(p.regions, k) < 2 * p.capacity && |p.regions[k].records| <= p.capacity
  {
    assert p.NodeAt(k);
    TotalGrows(p.regions, k, |p.regions|);
  }

  /** The one or two pieces of a round read. */
  lemma ReadPieces(buffer: seq<Record>, start: nat, records: seq<Record>)
    requires ReadsRound(buffer, start, records)
    ensures if start + |records| < |buffer| then buffer[start..start + |records|] == records
            else buffer[start..] == records[..|buffer| - start] && buffer[..start + |records| - |buffer|] == records[|buffer| - start..]
  {
    var n := |records|;
    forall j: nat | j < n ensures buffer[Wrap(start + j, |buffer|)] == records[j] { assert RoundAt(buffer, start, records, j); }
    if start + n < |buffer| {
      assert buffer[start..start + n] == records;
    } else {
      var m := |buffer| - start;
      assert buffer[start..] == records[..m];
      assert buffer[..start + n - |buffer|] == records[m..];
    }
  }

  /** Two pieces, the second where the first ends. */
  method WritePieces(a: seq<byte>, b: seq<byte>, blocks: IndexBlockBuffer, thread: nat, pos: nat, ghost from: nat, ghost to: nat)
    requires blocks.Valid() && thread < |blocks.diskWriteIds| && |a| + |b| <= blocks.geo.blockSize
    requires Covered(blocks.geo, blocks.blockDiskId[..], from, to) && from <= pos && pos + (|a| + |b|) <= to
    modifies blocks`diskWriteIds, blocks.bufferBlocks
    ensures blocks.Valid() && |blocks.diskWriteIds| == |old(blocks.diskWriteIds)|
    ensures blocks.Ring() == RingWrite(old(blocks.Ring()), RingPos(blocks.bufferSize, pos), a + b)
  {
    WritePiece(a, blocks, thread, pos, from, to);
    WritePiece(b, blocks, thread, pos + |a|, from, to);
    RingPosNext(blocks.bufferSize, pos, |a|);
    RingWriteTwice(old(blocks.Ring()), RingPos(blocks.bufferSize, pos), a, b);
  }

  /** A write within covered positions. */
  method WritePiece(data: seq<byte>, blocks: IndexBlockBuffer, thread: nat, pos: nat, ghost from: nat, ghost to: nat)
    requires blocks.Valid() && thread < |blocks.diskWriteIds| && |data| <= blocks.geo.blockSize
    requires Covered(blocks.geo, blocks.blockDiskId[..], from, to) && from <= pos && pos + |data| <= to
    modifies blocks`diskWriteIds, blocks.bufferBlocks
    ensures blocks.Valid() && |blocks.diskWriteIds| == |old(blocks.diskWriteIds)|
    ensures blocks.Ring() == RingWrite(old(blocks.Ring()), RingPos(blocks.bufferSize, pos), data)
  {
    CoveredAccepts(blocks.geo, blocks.blockDiskId[..], from, to, pos, |data|);
    var _ := blocks.WriteBlock(data, pos, thread);
  }

  class MemoryPool {
    const capacity: nat
    const listLen: nat
    const buffer: array<Record>
    var allocatePos: nat
    const allocatedList: array<NodeMeta>
    var listTail: nat
    var listHead: nat
    /** Where the first region starts, and the regions. */
    ghost var base: nat
    ghost var regions: seq<Region>
    /** The calls of `insert` and `recycle` so far. */
    ghost var history: seq<Op>

    ghost function View(): Pool
      reads this, buffer, allocatedList
    {
      Pool(capacity, listLen, buffer[..], allocatedList[..], listHead, listTail, allocatePos, base, regions)
    }

    ghost predicate Valid()
      reads this, buffer, allocatedList
    {
      View().Ok()
    }

    /** The calls from an empty pool on. */
    ghost function Calls(): Trace
      reads this
    {
      Trace(capacity, listLen, [], history)
    }

    constructor (capacity: nat, listLen: nat)
      requires 0 < 2 * capacity < UNUSED && listLen > 1
      ensures Valid() && fresh(buffer) && fresh(allocatedList) && history == [] && Traced(View(), Calls())
      ensures View() == Pool(capacity, listLen, seq(capacity, _ => Record([])), seq(listLen, _ => NodeMeta(UNUSED, UNUSED, false)), 0, 1, 0, 0, [])
    {
      this.capacity, this.listLen := capacity, listLen;
      buffer := new Record[capacity](_ => Record([]));
      allocatedList := new NodeMeta[listLen](_ => NodeMeta(UNUSED, UNUSED, false));
      allocatePos, listHead, listTail := 0, 0, 1;
      base, regions, history := 0, [], [];
    }

    /** The list head passes recycled entries, but not the last entry. */
    method AdvanceHead()
      requires Valid()
      modifies `listHead, `base, `regions
      ensures Valid() && View() == Advanced(old(View()))
    {
      ghost var p := View();
      while allocatedList[listHead].dirty
        invariant View() == p && p.Ok() && Advanced(p) == Advanced(old(View()))
        invariant allocatedList[..] == old(allocatedList[..]) && buffer[..] == old(buffer[..])
        decreases |p.regions|
      {
        DirtyEntry(p);
        if (listHead + 1) % listLen == listTail { break; }
        p := PassedEntry(p);
        base, regions := p.base, p.regions;
        listHead := (listHead + 1) % listLen;
      }
      AdvancedStops(p);
    }

    /** A position at the end of the pool goes back to its begin. */
    method TurnRound()
      requires Valid()
      modifies `allocatePos
      ensures Valid() && allocatePos < capacity && View() == old(View()).(pos := Place(old(View())))
    {
      if allocatePos + 1 > capacity {
        TurnKeeps(View());
        allocatePos := 0;
      }
    }

    /** `allocate` for one record of block `id`, and the copy of the record to the place it returns. */
    method Insert(record: Record, id: nat) returns (outcome: Outcome)
      requires Valid() && id < UNUSED
      modifies `allocatePos, `listHead, `listTail, `base, `regions, `history, buffer, allocatedList
      ensures Valid() && View() == AfterInsert(old(View()), id, record)
      ensures outcome == OutcomeOf(capacity, listLen, DropDirty(old(regions)), id)
      ensures outcome.Stored? || Waits(View(), id)
      ensures history == old(history) + [Op.Insert(id, record)] && (old(Traced(View(), Calls())) ==> Traced(View(), Calls()))
    {
      ghost var p, calls := View(), Calls();
      AdvanceHead();
      TurnRound();
      outcome := Store(record, id);
      history := history + [Op.Insert(id, record)];
      InsertTraced(p, calls, id, record);
      assert View() == AfterInsert(p, id, record) && Calls() == calls.(ops := calls.ops + [Op.Insert(id, record)]);
    }

    /** The rest of `allocate`: the record's place, unless the call must wait. */
    method Store(record: Record, id: nat) returns (outcome: Outcome)
      requires Valid() && id < UNUSED && allocatePos < capacity
      modifies `allocatePos, `listTail, `base, `regions, buffer, allocatedList
      ensures outcome == OutcomeOf(capacity, listLen, old(regions), id)
      ensures View() == if outcome.Stored? then Written(old(View()), id, record) else old(View())
      ensures Valid() && (outcome.Stored? || Waits(View(), id))
    {
      FrontEntry(View());
      var barrier := allocatedList[listHead].start;
      if barrier == UNUSED {
        StoreFirst(record, id);
        return Stored;
      }
      BarrierMeansFull(View());
      if barrier >= allocatePos && barrier < allocatePos + 1 { return PoolFull; }
      LastEntry(View());
      if id != allocatedList[(listTail + listLen - 1) % listLen].id {
        if listHead == listTail { return ListFull; }
        StoreInNewRegion(record, id);
      } else {
        StoreInLastRegion(record, id);
      }
      return Stored;
    }

    method StoreFirst(record: Record, id: nat)
      requires Valid() && id < UNUSED && regions == [] && allocatePos < capacity
      modifies `allocatePos, `base, `regions, buffer, allocatedList
      ensures View() == Written(old(View()), id, record) && Valid()
    {
      ghost var before := View();
      WrittenKeeps(before, id, record);
      allocatedList[listHead] := NodeMeta(id, allocatePos, false);
      buffer[allocatePos] := record;
      base, regions := allocatePos, Appended(regions, id, record);
      allocatePos := allocatePos + 1;
      assert allocatedList[..] == before.list[listHead := NodeMeta(id, before.pos, false)] && buffer[..] == before.buffer[before.pos := record];
    }

    method StoreInNewRegion(record: Record, id: nat)
      requires Valid() && id < UNUSED && NeedsNode(View(), id) && |regions| < listLen && allocatePos < capacity
      requires Total(regions, |regions|) < capacity
      modifies `allocatePos, `listTail, `regions, buffer, allocatedList
      ensures View() == Written(old(View()), id, record) && Valid()
    {
      ghost var before := View();
      WrittenKeeps(before, id, record);
      WrapIsMod(listTail + 1, listLen);
      allocatedList[listTail] := NodeMeta(id, allocatePos, false);
      listTail := (listTail + 1) % listLen;
      buffer[allocatePos] := record;
      allocatePos := allocatePos + 1;
      regions := Appended(regions, id, record);
      assert allocatedList[..] == before.list[before.tail := NodeMeta(id, before.pos, false)] && buffer[..] == before.buffer[before.pos := record];
    }

    method StoreInLastRegion(record: Record, id: nat)
      requires Valid() && id < UNUSED && regions != [] && !NeedsNode(View(), id) && allocatePos < capacity
      requires Total(regions, |regions|) < capacity
      modifies `allocatePos, `regions, buffer
      ensures View() == Written(old(View()), id, record) && Valid()
    {
      ghost var before := View();
      WrittenKeeps(before, id, record);
      buffer[allocatePos] := record;
      allocatePos := allocatePos + 1;
      regions := Appended(regions, id, record);
      assert buffer[..] == before.buffer[before.pos := record];
    }

    /** `getLenOfDiskID`, in records. */
    method GetLenOfDiskId(id: nat) returns (len: int)
      requires Valid() && id < UNUSED
      ensures len == LengthAnswer(View(), id)
    {
      var k := FindNode(id);
      if k == listLen { return 0; }
      var start, end := allocatedList[k].start, allocatePos;
      WrapIsMod(k + 1, listLen);
      if k + 1 != listTail { end := allocatedList[(k + 1) % listLen].start; }
      len := if end > start then end - start else capacity - start + end;
    }

    /** The list slot of the block's first entry; `listLen` if it has none or the list is full. */
    method FindNode(id: nat) returns (slot: nat)
      requires Valid() && id < UNUSED
      ensures Find(regions, id) == |regions| || |regions| == listLen ==> slot == listLen
      ensures Find(regions, id) < |regions| < listLen ==> slot == Wrap(listHead + Find(regions, id), listLen) < listLen
    {
      var tmp := listHead;
      for count := 0 to listLen
        invariant count <= View().Count() && listHead + count < 2 * listLen && tmp == Wrap(listHead + count, listLen)
        invariant count > 0 ==> |regions| < listLen
        invariant count <= |regions| ==> Find(regions, id) >= count
        invariant count > |regions| ==> regions == []
      {
        if tmp == listTail { return listLen; }
        if count < |regions| { assert View().NodeAt(count); }
        if allocatedList[tmp].id == id { return tmp; }
        WrapIsMod(tmp + 1, listLen);
        tmp := (tmp + 1) % listLen;
      }
      return listLen;
    }

    /** Copies a block's records to the index ring, in allocation order. */
    method WriteToBuffer(id: nat, len: nat, blocks: IndexBlockBuffer, thread: nat, pos: nat, unit: nat, ghost records: seq<Record>,
                         ghost from: nat, ghost to: nat)
      requires Valid() && id < UNUSED && Find(regions, id) < |regions| < listLen
      requires records == regions[Find(regions, id)].records && len == |records| && Sized(records, unit)
      requires blocks.Valid() && thread < |blocks.diskWriteIds| && |Flat(records, len)| <= blocks.geo.blockSize
      requires Covered(blocks.geo, blocks.blockDiskId[..], from, to) && from <= pos && pos + |Flat(records, len)| <= to
      modifies blocks`diskWriteIds, blocks.bufferBlocks
      ensures blocks.Valid() && |blocks.diskWriteIds| == |old(blocks.diskWriteIds)|
      ensures blocks.Ring() == RingWrite(old(blocks.Ring()), RingPos(blocks.bufferSize, pos), Flat(records, |records|))
    {
      var slot := FindNode(id);
      RegionReadsRound(View(), Find(regions, id));
      ReadPieces(buffer[..], allocatedList[slot].start, records);
      var start := allocatedList[slot].start;
      if start + len < capacity {
        var piece := buffer[start..start + len];
        WritePiece(Flat(piece, len), blocks, thread, pos, from, to);
      } else {
        var first, second := buffer[start..], buffer[..len + start - capacity];
        assert records == first + second;
        FlatJoin(first, second, |second|);
        WritePieces(Flat(first, |first|), Flat(second, |second|), blocks, thread, pos, from, to);
      }
    }

    /** Marks the block's first entry; a full list is left as it is. */
    method Recycle(id: nat)
      requires Valid() && id < UNUSED
      modifies `regions, `history, allocatedList
      ensures Valid() && View() == AfterRecycle(old(View()), id)
      ensures history == old(history) + [Op.Recycle(id)] && (old(Traced(View(), Calls())) ==> Traced(View(), Calls()))
    {
      ghost var p, calls := View(), Calls();
      var slot := FindNode(id);
      if slot < listLen {
        allocatedList[slot] := allocatedList[slot].(dirty := true);
        regions := Marked(regions, Find(regions, id));
        assert allocatedList[..] == p.list[slot := p.list[slot].(dirty := true)];
      }
      history := history + [Op.Recycle(id)];
      RecycleTraced(p, calls, id);
      assert View() == AfterRecycle(p, id) && Calls() == calls.(ops := calls.ops + [Op.Recycle(id)]);
    }
  }

  /** A position at the end and one at the beginning are the same place. */
  lemma TurnKeeps(p: Pool)
    requires p.Ok() && p.pos + 1 > p.capacity
    ensures p.(pos := 0).Ok()
  {
    var q := p.(pos := 0);
    forall k: nat | k < |q.regions| ensures q.NodeAt(k) { assert p.NodeAt(k); }
    forall k: nat, j: nat | k < |q.regions| && j < |q.regions[k].records| ensures q.HoldsAt(k, j) { assert p.HoldsAt(k, j); }
  }

  /** A recycled entry at the head is the first region's, and the last one exactly if the tail is next. */
  lemma DirtyEntry(p: Pool)
    requires p.Ok() && p.list[p.head].dirty
    ensures p.regions != [] && p.regions[0].dirty && (p.head + 1) % p.listLen == Wrap(p.head + 1, p.listLen)
    ensures (p.head + 1) % p.listLen == p.tail <==> |p.regions| == 1
  {
    assert p.regions == [] || p.NodeAt(0);
    WrapIsMod(p.head + 1, p.listLen);
  }

  /** The pool when the list head has passed a recycled entry. */
  lemma PassedEntry(p: Pool) returns (q: Pool)
    requires p.Ok() && |p.regions| > 1 && p.regions[0].dirty
    ensures q.Ok() && Advanced(q) == Advanced(p) && |q.regions| < |p.regions|
    ensures q == p.(head := Wrap(p.head + 1, p.listLen), base := q.base, regions := q.regions)
  {
    DropKeeps(p);
    q := Dropped(p);
  }

  lemma AdvancedStops(p: Pool)
    requires p.Ok() && (|p.regions| <= 1 || !p.list[p.head].dirty)
    ensures Advanced(p) == p
  {
    assert p.regions == [] || p.NodeAt(0);
  }

  lemma InsertTraced(p: Pool, h: Trace, id: nat, record: Record)
    requires p.Ok() && id < UNUSED && AfterInsert(p, id, record).Ok()
    ensures Traced(p, h) ==> Traced(AfterInsert(p, id, record), h.(ops := h.ops + [Op.Insert(id, record)]))
  {
    if Traced(p, h) { OneMoreCall(p, h, Op.Insert(id, record)); }
  }

  lemma RecycleTraced(p: Pool, h: Trace, id: nat)
    requires p.Ok()
    ensures Traced(p, h) ==> Traced(AfterRecycle(p, id), h.(ops := h.ops + [Op.Recycle(id)]))
  {
    if Traced(p, h) { OneMoreCall(p, h, Op.Recycle(id)); }
  }

  lemma LastEntry(p: Pool)
    requires p.Ok() && p.regions != []
    ensures var at := (p.tail + p.listLen - 1) % p.listLen; at < |p.list| && p.list[at].id == p.regions[|p.regions| - 1].id
    ensures p.head == p.tail <==> |p.regions| == p.listLen
  {
    assert p.NodeAt(|p.regions| - 1);
    WrapIsMod(p.tail + p.listLen - 1, p.listLen);
  }

  /** Only before the first store the front entry is unused. */
  lemma FrontEntry(p: Pool)
    requires p.Ok()
    ensures p.list[p.head].start == UNUSED <==> p.regions == []
    ensures p.regions == [] ==> Total(p.regions, |p.regions|) < p.capacity
  {
    assert p.regions == [] || p.NodeAt(0);
  }

  // ---------- how the wrong length is reached ----------

  /** A pool of four records and two list entries. */
  function Small(buffer: seq<Record>, list: seq<NodeMeta>, head: nat, tail: nat, pos: nat, base: nat, regions: seq<Region>): Pool {
    Pool(4, 2, buffer, list, head, tail, pos, base, regions)
  }

  lemma InsertFirst(p: Pool, r: Record, none: Record, unused: NodeMeta)
    requires p == Small([none, none, none, none], [unused, unused], 0, 1, 0, 0, []) && p.Ok()
    ensures AfterInsert(p, 7, r) == Small([r, none, none, none], [NodeMeta(7, 0, false), unused], 0, 1, 1, 0, [Region(7, false, [r])])
  {
    assert [none, none, none, none][0 := r] == [r, none, none, none];
  }

  lemma RecycleFirst(p: Pool, r: Record, none: Record, unused: NodeMeta)
    requires p == Small([r, none, none, none], [NodeMeta(7, 0, false), unused], 0, 1, 1, 0, [Region(7, false, [r])]) && p.Ok()
    ensures AfterRecycle(p, 7) == Small([r, none, none, none], [NodeMeta(7, 0, true), unused], 0, 1, 1, 0, [Region(7, true, [r])])
  {
    assert Find(p.regions, 7) == 0;
  }

  lemma InsertSecond(p: Pool, r: Record, none: Record, unused: NodeMeta)
    requires p == Small([r, none, none, none], [NodeMeta(7, 0, true), unused], 0, 1, 1, 0, [Region(7, true, [r])]) && p.Ok()
    ensures AfterInsert(p, 8, r)
         == Small([r, r, none, none], [NodeMeta(7, 0, true), NodeMeta(8, 1, false)], 0, 0, 2, 0, [Region(7, true, [r]), Region(8, false, [r])])
  {
    assert Total(p.regions, 0) == 0;
    assert Total(p.regions, 1) == 1;
    assert [r, none, none, none][1 := r] == [r, r, none, none];
  }

  lemma InsertThird(p: Pool, r: Record, none: Record)
    requires p == Small([r, r, none, none], [NodeMeta(7, 0, true), NodeMeta(8, 1, false)], 0, 0, 2, 0, [Region(7, true, [r]), Region(8, false, [r])])
    requires p.Ok()
    ensures AfterInsert(p, 8, r) == Small([r, r, r, none], [NodeMeta(7, 0, true), NodeMeta(8, 1, false)], 1, 0, 3, 1, [Region(8, false, [r, r])])
  {
    var kept := Dropped(p);
    assert kept.regions == [Region(8, false, [r])] && Advanced(p) == kept;
    assert Total(kept.regions, 0) == 0;
    assert Total(kept.regions, 1) == 1;
    assert [r, r, none, none][2 := r] == [r, r, r, none];
    assert [r] + [r] == [r, r];
    assert Appended(kept.regions, 8, r) == [Region(8, false, [r, r])];
  }

  lemma BothInserted(p: Pool, calls: Trace, r: Record)
    requires Traced(p, calls) && p.regions == [Region(8, false, [r, r])]
    requires calls == Trace(4, 2, [], [Op.Insert(7, r), Op.Recycle(7), Op.Insert(8, r), Op.Insert(8, r)])
    ensures Inserted(calls, 8, 4) == [r, r]
  {
    assert Fresh(calls, 8);
    HistoryKeeps(calls, 8, 4);
    assert Owned(p.regions, 8, 0) == [];
    assert Owned(p.regions, 8, 1) == [r, r];
  }

  /** A small pool whose one region is recycled. */
  method RecycledRegion(r: Record, ghost none: Record, ghost unused: NodeMeta) returns (pool: MemoryPool)
    requires none == Record([]) && unused == NodeMeta(UNUSED, UNUSED, false)
    ensures fresh(pool) && fresh(pool.buffer) && fresh(pool.allocatedList) && pool.Valid() && Traced(pool.View(), pool.Calls())
    ensures pool.View() == Small([r, none, none, none], [NodeMeta(7, 0, true), unused], 0, 1, 1, 0, [Region(7, true, [r])])
    ensures pool.history == [Op.Insert(7, r), Op.Recycle(7)]
  {
    pool := new MemoryPool(4, 2);
    assert pool.View() == Small([none, none, none, none], [unused, unused], 0, 1, 0, 0, []);
    InsertFirst(pool.View(), r, none, unused);
    var _ := pool.Insert(r, 7);
    RecycleFirst(pool.View(), r, none, unused);
    pool.Recycle(7);
  }

  /** The calls that reach `LengthGoesWrong`: the region of block 8 is measured to the start of block 7's, which
      is gone. */
  method ReachWrongLength(r: Record) returns (len: int, ghost calls: Trace)
    ensures calls == Trace(4, 2, [], [Op.Insert(7, r), Op.Recycle(7), Op.Insert(8, r), Op.Insert(8, r)])
    ensures Inserted(calls, 8, 4) == [r, r] && len == 3
  {
    ghost var none, unused := Record([]), NodeMeta(UNUSED, UNUSED, false);
    var pool := RecycledRegion(r, none, unused);
    InsertSecond(pool.View(), r, none, unused);
    var _ := pool.Insert(r, 8);
    assert pool.history == [Op.Insert(7, r), Op.Recycle(7), Op.Insert(8, r)];
    InsertThird(pool.View(), r, none);
    var _ := pool.Insert(r, 8);
    LengthGoesWrong(r, none);
    len := pool.GetLenOfDiskId(8);
    calls := pool.Calls();
    BothInserted(pool.View(), calls, r);
  }

  /** A block whose insertions are interrupted loses the records behind the interruption. */
  method LoseRecord(first: Record, other: Record, second: Record) returns (pool: MemoryPool, outcomes: seq<Outcome>)
    ensures fresh(pool) && pool.Valid() && Traced(pool.View(), pool.Calls()) && outcomes == [Stored, Stored, Stored]
    ensures pool.Calls() == GapCalls(first, other, second)
    ensures Inserted(pool.Calls(), 7, 3) == [first, second] && RecordsIn(pool.View(), 7) == [first]
  {
    pool := new MemoryPool(8, 8);
    GapRegions(first, other, second);
    var a := pool.Insert(first, 7);
    var b := pool.Insert(other, 8);
    var c := pool.Insert(second, 7);
    outcomes := [a, b, c];
    assert pool.Calls() == GapCalls(first, other, second);
    GapLosesRecord(pool.View(), first, other, second);
  }
}
