/** What a pool has been asked to do, and what it keeps of it. A block's records are in one region, and that
    region is all of them, exactly if no record of another block came between. */
module PoolHistory {
  import opened Basics
  import opened ModArith
  import opened PoolState
  import opened Records

  /** A call of `insert` for a record of a block, or of `recycle`. */
  datatype Op = Insert(id: nat, record: Record) | Recycle(id: nat)

  /** List entries and records of a pool, the regions it starts with, and its calls. */
  datatype Trace = Trace(capacity: nat, listLen: nat, start: seq<Region>, ops: seq<Op>)

  function AfterOp(capacity: nat, listLen: nat, regions: seq<Region>, op: Op): seq<Region> {
    match op
    case Insert(id, record) =>
      var kept := DropDirty(regions);
      if OutcomeOf(capacity, listLen, kept, id).Stored? then Appended(kept, id, record) else kept
    case Recycle(id) => if |regions| == listLen then regions else Marked(regions, Find(regions, id))
  }

  /** The regions after the first n calls. */
  function RegionsAfter(h: Trace, n: nat): seq<Region>
    requires n <= |h.ops|
  {
    if n == 0 then h.start else AfterOp(h.capacity, h.listLen, RegionsAfter(h, n - 1), h.ops[n - 1])
  }

  /** Call n stores a record. */
  predicate Stores(h: Trace, n: nat)
    requires n < |h.ops|
  {
    h.ops[n].Insert? && OutcomeOf(h.capacity, h.listLen, DropDirty(RegionsAfter(h, n)), h.ops[n].id).Stored?
  }

  /** The blocks of the records stored, call by call. */
  function StoredIds(h: Trace): (ids: seq<Option<nat>>)
    ensures |ids| == |h.ops|
    ensures forall n: nat :: n < |h.ops| ==> ids[n] == StoredId(h, n)
  {
    seq(|h.ops|, n requires 0 <= n < |h.ops| => StoredId(h, n))
  }

  function StoredId(h: Trace, n: nat): Option<nat>
    requires n < |h.ops|
  {
    if Stores(h, n) then Some(h.ops[n].id) else None
  }

  /** The records inserted for a block by the first n calls, in order. */
  function Inserted(h: Trace, id: nat, n: nat): seq<Record>
    requires n <= |h.ops|
  {
    if n == 0 then [] else Inserted(h, id, n - 1) + if Stores(h, n - 1) && h.ops[n - 1].id == id then [h.ops[n - 1].record] else []
  }

  /** Between two insertions for the block there is none for another. */
  ghost predicate Contiguous(h: Trace, id: nat) {
    Unbroken(StoredIds(h), id)
  }

  ghost predicate Unbroken(ids: seq<Option<nat>>, id: nat) {
    forall i: nat, j: nat, k: nat :: i < j < k < |ids| ==> !Interrupts(ids, id, i, j, k)
  }

  predicate Interrupts(ids: seq<Option<nat>>, id: nat, i: nat, j: nat, k: nat)
    requires i < j < k < |ids|
  {
    ids[i] == Some(id) && ids[j] != None && ids[j] != Some(id) && ids[k] == Some(id)
  }

  /** From when the pool had no region of the block, the block has not been recycled. */
  ghost predicate Fresh(h: Trace, id: nat) {
    && (forall k: nat :: k < |h.start| ==> NotOf(h.start, id, k))
    && (forall n: nat :: n < |h.ops| ==> h.ops[n] != Recycle(id))
  }

  predicate NotOf(regions: seq<Region>, id: nat, k: nat)
    requires k < |regions|
  {
    regions[k].id != id
  }

  // ---------- how often a block's insertions begin anew ----------

  /** The block of the last record stored by the first n calls. */
  function LastStored(ids: seq<Option<nat>>, n: nat): Option<nat>
    requires n <= |ids|
  {
    if n == 0 then None else if ids[n - 1].Some? then ids[n - 1] else LastStored(ids, n - 1)
  }

  /** Unbroken runs of insertions for the block. */
  function Runs(ids: seq<Option<nat>>, id: nat, n: nat): nat
    requires n <= |ids|
  {
    if n == 0 then 0 else Runs(ids, id, n - 1) + if ids[n - 1] == Some(id) && LastStored(ids, n - 1) != Some(id) then 1 else 0
  }

  lemma {:induction false} LastStoredAt(ids: seq<Option<nat>>, n: nat) returns (j: nat)
    requires n <= |ids| && LastStored(ids, n).Some?
    ensures j < n && ids[j] == LastStored(ids, n)
    ensures forall i: nat :: j < i < n ==> ids[i] == None
  {
    if ids[n - 1].Some? { j := n - 1; } else { j := LastStoredAt(ids, n - 1); }
  }

  lemma {:induction false} NoneStored(ids: seq<Option<nat>>, n: nat, i: nat)
    requires i < n <= |ids| && LastStored(ids, n) == None
    ensures ids[i] == None
  {
    if i < n - 1 { NoneStored(ids, n - 1, i); }
  }

  lemma {:induction false} RunsStored(ids: seq<Option<nat>>, id: nat, n: nat) returns (i: nat)
    requires n <= |ids| && Runs(ids, id, n) > 0
    ensures i < n && ids[i] == Some(id)
  {
    if ids[n - 1] == Some(id) { i := n - 1; } else { i := RunsStored(ids, id, n - 1); }
  }

  lemma {:induction false} StoredRuns(ids: seq<Option<nat>>, id: nat, n: nat, i: nat)
    requires i < n <= |ids| && ids[i] == Some(id)
    ensures Runs(ids, id, n) > 0
    decreases n
  {
    if i < n - 1 {
      StoredRuns(ids, id, n - 1, i);
    } else if LastStored(ids, i) == Some(id) {
      var j := LastStoredAt(ids, i);
      StoredRuns(ids, id, i, j);
    }
  }

  /** More than one run means an interruption. */
  lemma {:induction false} RunsInterrupt(ids: seq<Option<nat>>, id: nat, n: nat) returns (i: nat, j: nat, k: nat)
    requires n <= |ids| && Runs(ids, id, n) > 1
    ensures i < j < k < n && Interrupts(ids, id, i, j, k)
  {
    if Runs(ids, id, n - 1) > 1 {
      i, j, k := RunsInterrupt(ids, id, n - 1);
    } else {
      k := n - 1;
      i := RunsStored(ids, id, n - 1);
      if LastStored(ids, n - 1) == None { NoneStored(ids, n - 1, i); }
      j := LastStoredAt(ids, n - 1);
    }
  }

  lemma {:induction false} InterruptRuns(ids: seq<Option<nat>>, id: nat, n: nat, i: nat, j: nat, k: nat)
    requires i < j < k < n <= |ids| && Interrupts(ids, id, i, j, k)
    ensures Runs(ids, id, n) > 1
    decreases n
  {
    if k < n - 1 {
      InterruptRuns(ids, id, n - 1, i, j, k);
    } else {
      StoredRuns(ids, id, k, i);
      if LastStored(ids, k) == Some(id) {
        var m := LastStoredAt(ids, k);
        InterruptRuns(ids, id, k, i, j, m);
      }
    }
  }

  /** The insertions are contiguous exactly if they are one run, or none. */
  lemma UnbrokenIsOneRun(ids: seq<Option<nat>>, id: nat)
    ensures Unbroken(ids, id) <==> Runs(ids, id, |ids|) <= 1
  {
    if Runs(ids, id, |ids|) > 1 {
      var i, j, k := RunsInterrupt(ids, id, |ids|);
    } else {
      forall i: nat, j: nat, k: nat | i < j < k < |ids| ensures !Interrupts(ids, id, i, j, k) {
        if Interrupts(ids, id, i, j, k) { InterruptRuns(ids, id, |ids|, i, j, k); }
      }
    }
  }

  // ---------- the block's regions ----------

  ghost predicate Clean(regions: seq<Region>, id: nat, k: nat)
    requires k < |regions|
  {
    regions[k].id == id ==> !regions[k].dirty
  }

  ghost predicate AllClean(regions: seq<Region>, id: nat) {
    forall k: nat :: k < |regions| ==> Clean(regions, id, k)
  }

  lemma {:induction false} RegionsSame(a: seq<Region>, b: seq<Region>, id: nat, k: nat)
    requires k <= |a| && k <= |b| && forall i: nat :: i < k ==> a[i].id == b[i].id
    ensures RegionsOf(a, id, k) == RegionsOf(b, id, k)
  {
    if k > 0 { RegionsSame(a, b, id, k - 1); }
  }

  lemma {:induction false} OwnedMarked(a: seq<Region>, b: seq<Region>, id: nat, k: nat)
    requires k <= |a| && k <= |b| && forall i: nat :: i < k ==> a[i].id == b[i].id && a[i].records == b[i].records
    ensures Owned(a, id, k) == Owned(b, id, k)
  {
    if k > 0 { OwnedMarked(a, b, id, k - 1); }
  }

  /** A first region of another block adds nothing. */
  lemma {:induction false} OtherFirst(regions: seq<Region>, id: nat, k: nat)
    requires 0 < k <= |regions| && regions[0].id != id
    ensures Owned(regions, id, k) == Owned(regions[1..], id, k - 1) && RegionsOf(regions, id, k) == RegionsOf(regions[1..], id, k - 1)
  {
    if k > 1 {
      OtherFirst(regions, id, k - 1);
    } else {
      assert Owned(regions, id, 0) == [] && RegionsOf(regions, id, 0) == 0;
    }
  }

  /** Giving up recycled regions leaves the clean ones of the block, and the last region. */
  lemma {:induction false} DropKeepsClean(regions: seq<Region>, id: nat)
    requires AllClean(regions, id)
    ensures var kept := DropDirty(regions);
      && AllClean(kept, id) && Owned(kept, id, |kept|) == Owned(regions, id, |regions|) && RegionsOf(kept, id, |kept|) == RegionsOf(regions, id, |regions|)
      && (kept == [] <==> regions == []) && (regions != [] ==> kept[|kept| - 1] == regions[|regions| - 1])
  {
    if |regions| > 1 && regions[0].dirty {
      assert Clean(regions, id, 0);
      var rest := regions[1..];
      forall k: nat | k < |rest| ensures Clean(rest, id, k) { assert Clean(regions, id, k + 1); }
      OtherFirst(regions, id, |regions|);
      DropKeepsClean(rest, id);
    }
  }

  /** What the pool keeps of the block after the calls so far. */
  ghost predicate Keeps(h: Trace, id: nat, n: nat)
    requires n <= |h.ops|
  {
    var regions, last := RegionsAfter(h, n), LastStored(StoredIds(h), n);
    && AllClean(regions, id)
    && Owned(regions, id, |regions|) == Inserted(h, id, n)
    && RegionsOf(regions, id, |regions|) == Runs(StoredIds(h), id, n)
    && (if last.Some? then regions != [] && regions[|regions| - 1].id == last.value else regions != [] ==> regions[|regions| - 1].id != id)
  }

  lemma AppendedRegions(regions: seq<Region>, id: nat, record: Record, other: nat)
    requires AllClean(regions, other)
    ensures var a := Appended(regions, id, record);
      && AllClean(a, other) && a != [] && a[|a| - 1].id == id
      && RegionsOf(a, other, |a|) == RegionsOf(regions, other, |regions|)
         + if other == id && !(regions != [] && regions[|regions| - 1].id == id) then 1 else 0
  {
    var a, n := Appended(regions, id, record), |regions|;
    forall k: nat | k < |a| ensures Clean(a, other, k) { if k < n { assert Clean(regions, other, k); } }
    RegionsSame(a, regions, other, n);
  }

  lemma MarkedOther(regions: seq<Region>, id: nat, other: nat)
    requires AllClean(regions, id) && other != id
    ensures var m := Marked(regions, Find(regions, other));
      && |m| == |regions| && AllClean(m, id) && Owned(m, id, |m|) == Owned(regions, id, |regions|)
      && RegionsOf(m, id, |m|) == RegionsOf(regions, id, |regions|) && forall k: nat :: k < |m| ==> m[k].id == regions[k].id
  {
    var m := Marked(regions, Find(regions, other));
    forall k: nat | k < |m| ensures Clean(m, id, k) { assert Clean(regions, id, k); }
    OwnedMarked(m, regions, id, |m|);
    RegionsSame(m, regions, id, |m|);
  }

  lemma StartKeeps(h: Trace, id: nat)
    requires Fresh(h, id)
    ensures Keeps(h, id, 0)
  {
    forall k: nat | k < |h.start| ensures h.start[k].id != id { assert NotOf(h.start, id, k); }
    NoneBefore(h.start, id, |h.start|);
  }

  /** What call n does to the regions, and whether it counts as stored. */
  lemma NextCall(h: Trace, n: nat)
    requires n < |h.ops|
    ensures StoredIds(h)[n] == StoredId(h, n)
    ensures Stores(h, n) ==> RegionsAfter(h, n + 1) == Appended(DropDirty(RegionsAfter(h, n)), h.ops[n].id, h.ops[n].record)
    ensures h.ops[n].Insert? && !Stores(h, n) ==> RegionsAfter(h, n + 1) == DropDirty(RegionsAfter(h, n))
    ensures var regions := RegionsAfter(h, n);
            h.ops[n].Recycle? ==>
              RegionsAfter(h, n + 1) == (if |regions| == h.listLen then regions else Marked(regions, Find(regions, h.ops[n].id)))
  {}

  lemma StoreKeeps(h: Trace, id: nat, n: nat)
    requires n < |h.ops| && Keeps(h, id, n) && Stores(h, n)
    ensures Keeps(h, id, n + 1)
  {
    var regions, kept, op := RegionsAfter(h, n), DropDirty(RegionsAfter(h, n)), h.ops[n];
    DropKeepsClean(regions, id);
    AppendedOwned(kept, op.id, op.record, id);
    AppendedRegions(kept, op.id, op.record, id);
    NextCall(h, n);
  }

  lemma BlockedKeeps(h: Trace, id: nat, n: nat)
    requires n < |h.ops| && Keeps(h, id, n) && h.ops[n].Insert? && !Stores(h, n)
    ensures Keeps(h, id, n + 1)
  {
    DropKeepsClean(RegionsAfter(h, n), id);
    NextCall(h, n);
  }

  lemma RecycleKeeps(h: Trace, id: nat, n: nat)
    requires n < |h.ops| && Keeps(h, id, n) && h.ops[n].Recycle? && h.ops[n].id != id
    ensures Keeps(h, id, n + 1)
  {
    var regions, other := RegionsAfter(h, n), h.ops[n].id;
    MarkedOther(regions, id, other);
    NextCall(h, n);
  }

  lemma CallKeeps(h: Trace, id: nat, m: nat, n: nat)
    requires n == m + 1 <= |h.ops| && Keeps(h, id, m) && h.ops[m] != Recycle(id)
    ensures Keeps(h, id, n)
  {
    if h.ops[m].Recycle? { RecycleKeeps(h, id, m); } else if Stores(h, m) { StoreKeeps(h, id, m); } else { BlockedKeeps(h, id, m); }
  }

  /** After every call: the block's regions hold exactly what was inserted for it, in order, one region per run. */
  lemma {:induction false} HistoryKeeps(h: Trace, id: nat, n: nat)
    requires Fresh(h, id) && n <= |h.ops|
    ensures Keeps(h, id, n)
  {
    if n == 0 {
      StartKeeps(h, id);
    } else {
      HistoryKeeps(h, id, n - 1);
      CallKeeps(h, id, n - 1, n);
    }
  }

  // ---------- what is gathered ----------

  /** The pool has come to its regions by these calls. */
  ghost predicate Traced(p: Pool, h: Trace) {
    && p.Ok() && p.capacity == h.capacity && p.listLen == h.listLen
    && p.regions == RegionsAfter(h, |h.ops|)
  }

  lemma {:induction false} EarlierCalls(h: Trace, h': Trace, n: nat)
    requires n <= |h.ops| && h' == h.(ops := h'.ops) && h.ops <= h'.ops
    ensures RegionsAfter(h', n) == RegionsAfter(h, n)
  {
    if n > 0 { EarlierCalls(h, h', n - 1); }
  }

  /** One more call, and the regions it leaves. */
  lemma OneMoreCall(p: Pool, h: Trace, op: Op)
    requires Traced(p, h)
    ensures RegionsAfter(h.(ops := h.ops + [op]), |h.ops| + 1) == AfterOp(p.capacity, p.listLen, p.regions, op)
  {
    EarlierCalls(h, h.(ops := h.ops + [op]), |h.ops|);
  }

  /** The calls from call m on, and the regions before it. */
  function Since(h: Trace, m: nat): Trace
    requires m <= |h.ops|
  {
    h.(start := RegionsAfter(h, m), ops := h.ops[m..])
  }

  lemma {:induction false} SinceRegions(h: Trace, m: nat, n: nat)
    requires m <= n <= |h.ops|
    ensures RegionsAfter(Since(h, m), n - m) == RegionsAfter(h, n)
    decreases n
  {
    if m < n { SinceRegions(h, m, n - 1); }
  }

  /** A pool's calls from any moment on lead to its regions: a block counts from when the pool had none of it. */
  lemma SinceTraced(p: Pool, h: Trace, m: nat)
    requires Traced(p, h) && m <= |h.ops|
    ensures Traced(p, Since(h, m))
  {
    SinceRegions(h, m, |h.ops|);
  }

  /** The block has at most one region exactly if its insertions are contiguous. */
  lemma OneRegionIff(p: Pool, h: Trace, id: nat)
    requires Traced(p, h) && Fresh(h, id)
    ensures RegionsOf(p.regions, id, |p.regions|) <= 1 <==> Contiguous(h, id)
    ensures Owned(p.regions, id, |p.regions|) == Inserted(h, id, |h.ops|)
  {
    HistoryKeeps(h, id, |h.ops|);
    UnbrokenIsOneRun(StoredIds(h), id);
  }

  /** What is gathered of a block is a beginning of what was inserted for it, and all of it exactly if the
      insertions are contiguous. */
  lemma GatheredIsInserted(p: Pool, h: Trace, id: nat)
    requires Traced(p, h) && Fresh(h, id)
    ensures RecordsIn(p, id) <= Inserted(h, id, |h.ops|)
    ensures |RecordsIn(p, id)| == |Inserted(h, id, |h.ops|)| <==> Contiguous(h, id)
    ensures RecordsIn(p, id) == Inserted(h, id, |h.ops|) <==> Contiguous(h, id)
  {
    OneRegionIff(p, h, id);
    OneRegionOwnsAll(p, id);
  }

  /** For contiguous insertions the reported length is their number exactly if the region is readable; and a
      readable region reports their number exactly if they are contiguous. */
  lemma LengthIsInserted(p: Pool, h: Trace, id: nat)
    requires Traced(p, h) && Fresh(h, id) && Inserted(h, id, |h.ops|) != []
    ensures Contiguous(h, id) ==> (LengthAnswer(p, id) == |Inserted(h, id, |h.ops|)| <==> LengthReadable(p, id))
    ensures LengthReadable(p, id) ==> (LengthAnswer(p, id) == |Inserted(h, id, |h.ops|)| <==> Contiguous(h, id))
  {
    HistoryKeeps(h, id, |h.ops|);
    GatheredIsInserted(p, h, id);
    if Find(p.regions, id) == |p.regions| { NoneBefore(p.regions, id, |p.regions|); }
    LengthExactIff(p, id);
  }

  /** The insertions' blocks are those of positions that do not go back, and span less than one disk. */
  ghost predicate Forward(h: Trace, diskBlocks: nat, blocks: seq<nat>)
    requires diskBlocks > 0 && |blocks| == |h.ops|
  {
    && (forall n: nat :: n < |h.ops| && h.ops[n].Insert? ==> IsBlock(h, diskBlocks, blocks, n))
    && (forall i: nat, j: nat :: i <= j < |blocks| ==> NotBack(blocks, diskBlocks, i, j))
  }

  predicate IsBlock(h: Trace, diskBlocks: nat, blocks: seq<nat>, n: nat)
    requires diskBlocks > 0 && n < |h.ops| == |blocks|
  {
    h.ops[n].id == blocks[n] % diskBlocks
  }

  predicate NotBack(blocks: seq<nat>, diskBlocks: nat, i: nat, j: nat)
    requires i < |blocks| && j < |blocks|
  {
    blocks[i] <= blocks[j] < blocks[i] + diskBlocks
  }

  /** One reader's records come in this order: its cells and offsets only go forward. */
  lemma ForwardIsContiguous(h: Trace, diskBlocks: nat, blocks: seq<nat>, id: nat)
    requires diskBlocks > 0 && |blocks| == |h.ops| && Forward(h, diskBlocks, blocks)
    ensures Contiguous(h, id)
  {
    var ids := StoredIds(h);
    forall i: nat, j: nat, k: nat | i < j < k < |ids| ensures !Interrupts(ids, id, i, j, k) {
      if Interrupts(ids, id, i, j, k) {
        assert ids[i] == StoredId(h, i) && ids[j] == StoredId(h, j) && ids[k] == StoredId(h, k);
        assert IsBlock(h, diskBlocks, blocks, i) && IsBlock(h, diskBlocks, blocks, j) && IsBlock(h, diskBlocks, blocks, k);
        assert NotBack(blocks, diskBlocks, i, k) && NotBack(blocks, diskBlocks, i, j) && NotBack(blocks, diskBlocks, j, k);
        CongruentEqual(blocks[i], blocks[k], diskBlocks);
      }
    }
  }

  /** Three calls on an empty pool: a record for block 7, one for block 8, one for block 7 again. */
  function GapCalls(first: Record, other: Record, second: Record): Trace {
    Trace(8, 8, [], [Insert(7, first), Insert(8, other), Insert(7, second)])
  }

  lemma GapRegions(first: Record, other: Record, second: Record)
    ensures var h := GapCalls(first, other, second);
      && Stores(h, 0) && Stores(h, 1) && Stores(h, 2)
      && RegionsAfter(h, 3) == [Region(7, false, [first]), Region(8, false, [other]), Region(7, false, [second])]
  {
    var h := GapCalls(first, other, second);
    var one, two := [Region(7, false, [first])], [Region(7, false, [first]), Region(8, false, [other])];
    assert RegionsAfter(h, 0) == [] && RegionsAfter(h, 1) == one;
    assert Total(one, 0) == 0 && Total(one, 1) == 1;
    assert RegionsAfter(h, 2) == two;
    assert Total(two, 0) == 0 && Total(two, 1) == 1 && Total(two, 2) == 2;
  }

  /** The second record of block 7 is inserted and never gathered. */
  lemma GapLosesRecord(p: Pool, first: Record, other: Record, second: Record)
    requires Traced(p, GapCalls(first, other, second))
    ensures Inserted(GapCalls(first, other, second), 7, 3) == [first, second] && RecordsIn(p, 7) == [first]
  {
    var h := GapCalls(first, other, second);
    GapRegions(first, other, second);
    assert Inserted(h, 7, 0) == [] && Inserted(h, 7, 1) == [first] && Inserted(h, 7, 2) == [first];
    assert Find(p.regions, 7) == 0;
  }
}
