/** The ring allocator of one index type: the pure part. The pool is a ring of records, cut into regions,
    one for each run of records of the same disk block; a ring list keeps each region's block and start.
    Positions count records: every allocation is one record, and the capacity is a whole number of them. */
module PoolState {
  import opened Records
  import opened ModArith

  /** An entry of the ring list. */
  datatype NodeMeta = NodeMeta(id: nat, start: nat, dirty: bool)

  /** What a list entry stands for: the records of one block, in the order they were allocated. */
  datatype Region = Region(id: nat, dirty: bool, records: seq<Record>)

  /** Block and start of an entry that was never used. */
  const UNUSED: nat := 0xFFFF_FFFF_FFFF_FFFF

  /** Records in the first k regions. */
  function Total(regions: seq<Region>, k: nat): (t: nat)
    requires k <= |regions|
  {
    if k == 0 then 0 else Total(regions, k - 1) + |regions[k - 1].records|
  }

  lemma {:induction false} TotalGrows(regions: seq<Region>, j: nat, k: nat)
    requires j <= k <= |regions|
    ensures Total(regions, j) <= Total(regions, k)
    ensures j < k ==> Total(regions, j) + |regions[j].records| <= Total(regions, k)
  {
    if j < k { TotalGrows(regions, j, k - 1); }
  }

  /** The state of a pool: `base` is where the first region starts. */
  datatype Pool = Pool(capacity: nat, listLen: nat, buffer: seq<Record>, list: seq<NodeMeta>, head: nat, tail: nat, pos: nat,
                       base: nat, regions: seq<Region>)
  {
    function Count(): nat { if |regions| == 0 then 1 else |regions| }

    /** Record j of region k is where the ring says. */
    ghost predicate HoldsAt(k: nat, j: nat)
      requires k < |regions| && j < |regions[k].records|
    {
      var x := base + Total(regions, k) + j;
      x < 2 * capacity && Wrap(x, capacity) < |buffer| && buffer[Wrap(x, capacity)] == regions[k].records[j]
    }

    ghost predicate NodeAt(k: nat)
      requires k < |regions|
    {
      && regions[k].records != [] && regions[k].id < UNUSED
      && head + k < 2 * listLen && Wrap(head + k, listLen) < |list|
      && base + Total(regions, k) < 2 * capacity
      && list[Wrap(head + k, listLen)] == NodeMeta(regions[k].id, Wrap(base + Total(regions, k), capacity), regions[k].dirty)
    }

    ghost predicate Shaped() {
      && 0 < 2 * capacity < UNUSED && 1 < listLen && |buffer| == capacity && |list| == listLen
      && (list[0].start < capacity || list[0].start == UNUSED)
      && head < listLen && tail < listLen && pos <= capacity && base < capacity
      && |regions| <= listLen && tail == Wrap(head + Count(), listLen)
      && Total(regions, |regions|) <= capacity
    }

    ghost predicate Ok() {
      && Shaped()
      && (regions == [] ==> list[head] == NodeMeta(UNUSED, UNUSED, false) && pos == 0)
      && (regions != [] ==> (if pos == capacity then 0 else pos) == Wrap(base + Total(regions, |regions|), capacity))
      && (forall k: nat :: k < |regions| ==> NodeAt(k))
      && (forall k: nat, j: nat :: k < |regions| && j < |regions[k].records| ==> HoldsAt(k, j))
    }
  }

  // ---------- what the operations do to the regions ----------

  /** Recycled regions at the front are given up, but for the last region. */
  function DropDirty(regions: seq<Region>): seq<Region> {
    if |regions| > 1 && regions[0].dirty then DropDirty(regions[1..]) else regions
  }

  /** One more record of a block. */
  function Appended(regions: seq<Region>, id: nat, record: Record): seq<Region> {
    var n := |regions|;
    if n > 0 && regions[n - 1].id == id then regions[n - 1 := regions[n - 1].(records := regions[n - 1].records + [record])]
    else regions + [Region(id, false, [record])]
  }

  /** The first region of a block. */
  function Find(regions: seq<Region>, id: nat): (k: nat)
    ensures k <= |regions| && (k < |regions| ==> regions[k].id == id)
    ensures forall j :: 0 <= j < k ==> regions[j].id != id
  {
    FindFrom(regions, id, 0)
  }

  function FindFrom(regions: seq<Region>, id: nat, k: nat): (r: nat)
    requires k <= |regions|
    ensures k <= r <= |regions| && (r < |regions| ==> regions[r].id == id)
    ensures forall j :: k <= j < r ==> regions[j].id != id
    decreases |regions| - k
  {
    if k == |regions| || regions[k].id == id then k else FindFrom(regions, id, k + 1)
  }

  /** A store that cannot be made spins in the program, on the record memory or on the list. */
  datatype Outcome = Stored | PoolFull | ListFull

  function OutcomeOf(capacity: nat, listLen: nat, kept: seq<Region>, id: nat): Outcome {
    if kept != [] && Total(kept, |kept|) == capacity then PoolFull
    else if kept != [] && kept[|kept| - 1].id != id && |kept| == listLen then ListFull
    else Stored
  }

  /** All records of a block that the pool still keeps. */
  function Owned(regions: seq<Region>, id: nat, k: nat): seq<Record>
    requires k <= |regions|
  {
    if k == 0 then [] else Owned(regions, id, k - 1) + if regions[k - 1].id == id then regions[k - 1].records else []
  }

  // ---------- the steps of `allocate` ----------

  /** The list head passes the first region. */
  function Dropped(p: Pool): Pool
    requires p.Shaped() && |p.regions| > 1 && p.base + |p.regions[0].records| < 2 * p.capacity
  {
    p.(head := Wrap(p.head + 1, p.listLen), base := Wrap(p.base + |p.regions[0].records|, p.capacity), regions := p.regions[1..])
  }

  lemma {:induction false} TotalTail(regions: seq<Region>, k: nat)
    requires k + 1 <= |regions|
    ensures Total(regions[1..], k) + |regions[0].records| == Total(regions, k + 1)
  {
    if k == 0 {
      assert Total(regions, 1) == Total(regions, 0) + |regions[0].records|;
    } else {
      TotalTail(regions, k - 1);
    }
  }

  lemma DropFits(p: Pool)
    requires p.Ok() && |p.regions| > 1
    ensures 0 < |p.regions[0].records| <= p.capacity && p.base + |p.regions[0].records| < 2 * p.capacity
    ensures Dropped(p).Shaped()
  {
    var r := p.regions;
    assert p.NodeAt(0);
    TotalTail(r, |r| - 1);
    TotalGrows(r, 0, |r|);
  }

  lemma DropNode(p: Pool, k: nat)
    requires p.Ok() && |p.regions| > 1 && p.base + |p.regions[0].records| < 2 * p.capacity && k < |p.regions| - 1
    ensures Dropped(p).NodeAt(k)
  {
    assert p.NodeAt(k + 1);
    TotalTail(p.regions, k);
    TotalGrows(p.regions, k + 1, |p.regions|);
  }

  lemma DropHolds(p: Pool, k: nat, j: nat)
    requires p.Ok() && |p.regions| > 1 && p.base + |p.regions[0].records| < 2 * p.capacity
    requires k < |p.regions| - 1 && j < |p.regions[k + 1].records|
    ensures Dropped(p).HoldsAt(k, j)
  {
    assert p.HoldsAt(k + 1, j);
    TotalTail(p.regions, k);
    TotalGrows(p.regions, k + 1, |p.regions|);
  }

  lemma DropKeeps(p: Pool)
    requires p.Ok() && |p.regions| > 1
    ensures p.base + |p.regions[0].records| < 2 * p.capacity && Dropped(p).Ok()
  {
    var r := p.regions;
    DropFits(p);
    TotalTail(r, |r| - 1);
    var q := Dropped(p);
    forall k: nat | k < |q.regions| ensures q.NodeAt(k) { DropNode(p, k); }
    forall k: nat, j: nat | k < |q.regions| && j < |q.regions[k].records| ensures q.HoldsAt(k, j) { DropHolds(p, k, j); }
  }

  /** Where the next record goes. */
  function Place(p: Pool): nat {
    if p.pos == p.capacity then 0 else p.pos
  }

  /** The next record joins the last region or needs a list entry of its own. */
  predicate NeedsNode(p: Pool, id: nat) {
    p.regions != [] && p.regions[|p.regions| - 1].id != id
  }

  /** A record is stored: in the first entry, in the last region, or in a new one. */
  function Written(p: Pool, id: nat, record: Record): Pool
    requires p.Shaped()
  {
    var at := Place(p);
    var q := p.(buffer := p.buffer[at := record], pos := at + 1, regions := Appended(p.regions, id, record));
    if p.regions == [] then q.(list := p.list[p.head := NodeMeta(id, at, false)], base := at)
    else if NeedsNode(p, id) then q.(list := p.list[p.tail := NodeMeta(id, at, false)], tail := Wrap(p.tail + 1, p.listLen))
    else q
  }

  lemma {:induction false} TotalSame(a: seq<Region>, b: seq<Region>, k: nat)
    requires k <= |a| && k <= |b| && forall i: nat :: i < k ==> |a[i].records| == |b[i].records|
    ensures Total(a, k) == Total(b, k)
  {
    if k > 0 { TotalSame(a, b, k - 1); }
  }

  lemma TotalAppended(regions: seq<Region>, id: nat, record: Record, k: nat)
    requires k <= |regions|
    ensures var a := Appended(regions, id, record);
            |regions| <= |a| <= |regions| + 1 && a != []
            && Total(a, |a|) == Total(regions, |regions|) + 1
            && (k < |a| ==> Total(a, k) == Total(regions, k))
  {
    var a, n := Appended(regions, id, record), |regions|;
    if k < |a| { TotalSame(a, regions, k); }
    if |a| == n { TotalSame(a, regions, n - 1); } else { TotalSame(a, regions, n); }
  }

  /** The next place is free as long as the regions do not fill the pool. */
  lemma PlaceIsFree(p: Pool, k: nat, j: nat)
    requires p.Ok() && Total(p.regions, |p.regions|) < p.capacity && k < |p.regions| && j < |p.regions[k].records|
    ensures p.base + Total(p.regions, k) + j < 2 * p.capacity && Wrap(p.base + Total(p.regions, k) + j, p.capacity) != Place(p)
  {
    assert p.HoldsAt(k, j);
    TotalGrows(p.regions, k, |p.regions|);
  }

  /** The number of regions, and where region k starts, after the store. */
  lemma WrittenTotals(p: Pool, id: nat, record: Record, k: nat)
    requires p.Ok() && k <= |p.regions|
    ensures var q := Written(p, id, record);
            && |q.regions| == (if p.regions == [] || NeedsNode(p, id) then |p.regions| + 1 else |p.regions|)
            && (k < |q.regions| ==> q.base + Total(q.regions, k) == (if p.regions == [] then 0 else p.base + Total(p.regions, k)))
  {
    TotalAppended(p.regions, id, record, k);
  }

  lemma OldRecordHolds(p: Pool, id: nat, record: Record, k: nat, j: nat)
    requires p.Ok() && Total(p.regions, |p.regions|) < p.capacity && k < |p.regions| && j < |p.regions[k].records|
    ensures k < |Written(p, id, record).regions| && j < |Written(p, id, record).regions[k].records|
    ensures Written(p, id, record).HoldsAt(k, j)
  {
    var q := Written(p, id, record);
    WrittenTotals(p, id, record, k);
    assert p.HoldsAt(k, j);
    PlaceIsFree(p, k, j);
    assert q.regions[k].records[j] == p.regions[k].records[j];
  }

  lemma FirstInRegionHolds(p: Pool, id: nat, record: Record)
    requires p.Ok() && Total(p.regions, |p.regions|) < p.capacity && (p.regions == [] || NeedsNode(p, id))
    ensures var q := Written(p, id, record);
            |q.regions| == |p.regions| + 1 && q.regions[|p.regions|].records == [record] && q.HoldsAt(|p.regions|, 0)
  {
    WrittenTotals(p, id, record, |p.regions|);
    assert Written(p, id, record).buffer[Place(p)] == record;
  }

  lemma NextInRegionHolds(p: Pool, id: nat, record: Record, k: nat)
    requires p.Ok() && Total(p.regions, |p.regions|) < p.capacity && p.regions != [] && !NeedsNode(p, id) && k == |p.regions| - 1
    ensures var q := Written(p, id, record);
            && |q.regions| == |p.regions| && q.regions[k].records == p.regions[k].records + [record]
            && q.HoldsAt(k, |p.regions[k].records|)
  {
    WrittenTotals(p, id, record, k);
    assert Total(p.regions, k + 1) == Total(p.regions, k) + |p.regions[k].records|;
    assert Written(p, id, record).buffer[Place(p)] == record;
  }

  lemma WrittenHolds(p: Pool, id: nat, record: Record, k: nat, j: nat)
    requires p.Ok() && Total(p.regions, |p.regions|) < p.capacity
    requires k < |Written(p, id, record).regions| && j < |Written(p, id, record).regions[k].records|
    ensures Written(p, id, record).HoldsAt(k, j)
  {
    if k < |p.regions| && j < |p.regions[k].records| {
      OldRecordHolds(p, id, record, k, j);
    } else if p.regions == [] || NeedsNode(p, id) {
      FirstInRegionHolds(p, id, record);
    } else {
      NextInRegionHolds(p, id, record, k);
    }
  }

  lemma OldNode(p: Pool, id: nat, record: Record, k: nat)
    requires p.Ok() && k < |p.regions| && (NeedsNode(p, id) ==> |p.regions| < p.listLen)
    ensures k < |Written(p, id, record).regions| && Written(p, id, record).NodeAt(k)
  {
    WrittenTotals(p, id, record, k);
    assert p.NodeAt(k);
  }

  lemma NewNode(p: Pool, id: nat, record: Record)
    requires p.Ok() && id < UNUSED && |p.regions| < p.listLen && (p.regions == [] || NeedsNode(p, id))
    ensures |p.regions| < |Written(p, id, record).regions| && Written(p, id, record).NodeAt(|p.regions|)
  {
    WrittenTotals(p, id, record, |p.regions|);
  }

  lemma WrittenNode(p: Pool, id: nat, record: Record, k: nat)
    requires p.Ok() && id < UNUSED && (NeedsNode(p, id) ==> |p.regions| < p.listLen)
    requires k < |Written(p, id, record).regions|
    ensures Written(p, id, record).NodeAt(k)
  {
    if k < |p.regions| { OldNode(p, id, record, k); } else { NewNode(p, id, record); }
  }

  lemma WrittenKeeps(p: Pool, id: nat, record: Record)
    requires p.Ok() && Total(p.regions, |p.regions|) < p.capacity && id < UNUSED && (NeedsNode(p, id) ==> |p.regions| < p.listLen)
    ensures Written(p, id, record).Ok()
  {
    var q := Written(p, id, record);
    TotalAppended(p.regions, id, record, 0);
    forall k: nat | k < |q.regions| ensures q.NodeAt(k) { WrittenNode(p, id, record, k); }
    forall k: nat, j: nat | k < |q.regions| && j < |q.regions[k].records| ensures q.HoldsAt(k, j) {
      WrittenHolds(p, id, record, k, j);
    }
  }

  /** The test at the barrier: the next place is the start of the first region exactly if the regions fill the pool. */
  lemma BarrierMeansFull(p: Pool)
    requires p.Ok() && p.regions != []
    ensures p.list[p.head].start == Place(p) <==> Total(p.regions, |p.regions|) == p.capacity
  {
    assert p.NodeAt(0);
    TotalGrows(p.regions, 0, |p.regions|);
  }

  // ---------- records of a block ----------

  /** Giving up recycled regions takes no region that is still in use. */
  lemma {:induction false} DropDirtyGivesUpDirty(regions: seq<Region>) returns (d: nat)
    ensures d <= |regions| && DropDirty(regions) == regions[d..]
    ensures forall k: nat :: k < d ==> regions[k].dirty
  {
    d := 0;
    if |regions| > 1 && regions[0].dirty {
      var rest := DropDirtyGivesUpDirty(regions[1..]);
      d := rest + 1;
      forall k: nat | k < d ensures regions[k].dirty {
        if k > 0 { assert regions[1..][k - 1].dirty; }
      }
      assert regions[1..][rest..] == regions[d..];
    }
  }

  lemma {:induction false} OwnedSame(a: seq<Region>, b: seq<Region>, id: nat, k: nat)
    requires k <= |a| && k <= |b| && forall i: nat :: i < k ==> a[i] == b[i]
    ensures Owned(a, id, k) == Owned(b, id, k)
  {
    if k > 0 { OwnedSame(a, b, id, k - 1); }
  }

  /** A stored record joins the records of its block, and those of no other. */
  lemma AppendedOwned(regions: seq<Region>, id: nat, record: Record, other: nat)
    ensures var a := Appended(regions, id, record);
            Owned(a, other, |a|) == Owned(regions, other, |regions|) + (if other == id then [record] else [])
  {
    var a, n := Appended(regions, id, record), |regions|;
    OwnedSame(a, regions, other, |a| - 1);
  }

  /** The records of a block's first region. */
  function RecordsIn(p: Pool, id: nat): seq<Record> {
    var k := Find(p.regions, id);
    if k < |p.regions| then p.regions[k].records else []
  }

  /** How many of the first k regions are the block's. */
  function RegionsOf(regions: seq<Region>, id: nat, k: nat): nat
    requires k <= |regions|
  {
    if k == 0 then 0 else RegionsOf(regions, id, k - 1) + if regions[k - 1].id == id then 1 else 0
  }

  lemma {:induction false} NoneBefore(regions: seq<Region>, id: nat, k: nat)
    requires k <= |regions| && forall i: nat :: i < k ==> regions[i].id != id
    ensures Owned(regions, id, k) == [] && RegionsOf(regions, id, k) == 0
  {
    if k > 0 { NoneBefore(regions, id, k - 1); }
  }

  /** The block's first region begins what the block owns, and is all of it exactly if there is no other. */
  lemma {:induction false} FirstOwns(regions: seq<Region>, id: nat, n: nat)
    requires Find(regions, id) < n <= |regions| && forall k: nat :: k < |regions| ==> regions[k].records != []
    ensures var first := regions[Find(regions, id)].records;
      && first <= Owned(regions, id, n) && RegionsOf(regions, id, n) > 0
      && (|first| == |Owned(regions, id, n)| <==> RegionsOf(regions, id, n) == 1)
  {
    var k := Find(regions, id);
    if n == k + 1 {
      NoneBefore(regions, id, k);
    } else {
      FirstOwns(regions, id, n - 1);
    }
  }

  /** What is gathered of a block: a beginning of what it owns, and all of it exactly if it has at most one region. */
  lemma OneRegionOwnsAll(p: Pool, id: nat)
    requires p.Ok()
    ensures var owned := Owned(p.regions, id, |p.regions|);
      && RecordsIn(p, id) <= owned
      && (|RecordsIn(p, id)| == |owned| <==> RegionsOf(p.regions, id, |p.regions|) <= 1)
  {
    if Find(p.regions, id) < |p.regions| {
      forall k: nat | k < |p.regions| ensures p.regions[k].records != [] { assert p.NodeAt(k); }
      FirstOwns(p.regions, id, |p.regions|);
    } else {
      NoneBefore(p.regions, id, |p.regions|);
    }
  }

  /** A region marked as recycled. */
  function Marked(regions: seq<Region>, k: nat): seq<Region> {
    if k < |regions| then regions[k := regions[k].(dirty := true)] else regions
  }

  function MarkedPool(p: Pool, k: nat): Pool
    requires k < |p.regions| && p.head + k < 2 * p.listLen && Wrap(p.head + k, p.listLen) < |p.list|
  {
    var at := Wrap(p.head + k, p.listLen);
    p.(list := p.list[at := p.list[at].(dirty := true)], regions := Marked(p.regions, k))
  }

  lemma MarkedNode(p: Pool, k: nat, i: nat)
    requires p.Ok() && k < |p.regions| && p.head + k < 2 * p.listLen && Wrap(p.head + k, p.listLen) < |p.list| && i < |p.regions|
    ensures MarkedPool(p, k).NodeAt(i)
  {
    assert p.NodeAt(i) && p.NodeAt(k);
    TotalSame(p.regions, Marked(p.regions, k), i);
  }

  lemma MarkedHolds(p: Pool, k: nat, i: nat, j: nat)
    requires p.Ok() && k < |p.regions| && p.head + k < 2 * p.listLen && Wrap(p.head + k, p.listLen) < |p.list|
    requires i < |p.regions| && j < |p.regions[i].records|
    ensures MarkedPool(p, k).HoldsAt(i, j)
  {
    assert p.HoldsAt(i, j);
    TotalSame(p.regions, Marked(p.regions, k), i);
  }

  lemma MarkedKeeps(p: Pool, k: nat)
    requires p.Ok() && k < |p.regions| && p.head + k < 2 * p.listLen && Wrap(p.head + k, p.listLen) < |p.list|
    ensures MarkedPool(p, k).Ok()
    ensures Total(Marked(p.regions, k), |p.regions|) == Total(p.regions, |p.regions|)
  {
    var q := MarkedPool(p, k);
    TotalSame(p.regions, q.regions, |p.regions|);
    forall i: nat | i < |q.regions| ensures q.NodeAt(i) { MarkedNode(p, k, i); }
    forall i: nat, j: nat | i < |q.regions| && j < |q.regions[i].records| ensures q.HoldsAt(i, j) { MarkedHolds(p, k, i, j); }
  }

  // ---------- what a pool reports ----------

  /** Distance from start to end, where equal offsets mean a full turn. */
  function Span(p: Pool, start: nat, end: nat): int {
    if end > start then end - start else p.capacity - start + end
  }

  /** `getLenOfDiskID`: the length of the block's first region. A full list looks empty; and the last region
      ends at the allocation position only if the list's tail is not at slot 0, else at a left-over start. */
  function LengthAnswer(p: Pool, id: nat): int
    requires p.Ok()
  {
    var k := Find(p.regions, id);
    if k == |p.regions| || |p.regions| == p.listLen then 0
    else
      assert p.NodeAt(k) && (k + 1 < |p.regions| ==> p.NodeAt(k + 1));
      var start := p.list[Wrap(p.head + k, p.listLen)].start;
      if k + 1 < |p.regions| then Span(p, start, p.list[Wrap(p.head + k + 1, p.listLen)].start)
      else if p.tail == 0 then Span(p, start, p.list[0].start)
      else Span(p, start, p.pos)
  }

  /** The list has room, and the last region's end is not read from a left-over entry, unless that entry
      happens to hold the allocation position. */
  predicate LengthReadable(p: Pool, id: nat)
    requires p.Shaped()
  {
    && |p.regions| < p.listLen
    && (p.tail == 0 && Find(p.regions, id) + 1 == |p.regions| ==> p.list[0].start == Place(p))
  }

  /** From the start of a region to a place `n` records on, round the ring. */
  lemma SpanIsLength(p: Pool, start: nat, end: nat, x: nat, n: nat)
    requires 0 < p.capacity && x < 2 * p.capacity && start == Wrap(x, p.capacity) && 0 < n <= p.capacity && end <= p.capacity
    ensures Span(p, start, end) == n <==> (if end == p.capacity then 0 else end) == (if start + n < p.capacity then start + n else start + n - p.capacity)
  {}

  /** The reported length is the number of records of the block's region exactly when it is readable. */
  lemma LengthExactIff(p: Pool, id: nat)
    requires p.Ok() && Find(p.regions, id) < |p.regions|
    ensures LengthAnswer(p, id) == |p.regions[Find(p.regions, id)].records| <==> LengthReadable(p, id)
  {
    var k := Find(p.regions, id);
    assert p.NodeAt(k);
    if |p.regions| < p.listLen {
      if k + 1 < |p.regions| { InnerLength(p, k); } else { LastLength(p, k); }
    }
  }

  lemma InnerLength(p: Pool, k: nat)
    requires p.Ok() && k + 1 < |p.regions|
    ensures p.NodeAt(k) && p.NodeAt(k + 1)
    ensures Span(p, p.list[Wrap(p.head + k, p.listLen)].start, p.list[Wrap(p.head + k + 1, p.listLen)].start) == |p.regions[k].records|
  {
    assert p.NodeAt(k) && p.NodeAt(k + 1);
    TotalGrows(p.regions, k + 1, |p.regions|);
    assert Total(p.regions, k + 1) == Total(p.regions, k) + |p.regions[k].records|;
    var x := p.base + Total(p.regions, k);
    SpanIsLength(p, Wrap(x, p.capacity), Wrap(x + |p.regions[k].records|, p.capacity), x, |p.regions[k].records|);
  }

  lemma LastLength(p: Pool, k: nat)
    requires p.Ok() && k + 1 == |p.regions|
    ensures p.NodeAt(k)
    ensures var start := p.list[Wrap(p.head + k, p.listLen)].start;
            && Span(p, start, p.pos) == |p.regions[k].records|
            && (Span(p, start, p.list[0].start) == |p.regions[k].records| <==> p.list[0].start == Place(p))
  {
    assert p.NodeAt(k);
    assert Total(p.regions, k + 1) == Total(p.regions, k) + |p.regions[k].records|;
    var x, n := p.base + Total(p.regions, k), |p.regions[k].records|;
    SpanIsLength(p, Wrap(x, p.capacity), p.pos, x, n);
    if p.list[0].start < p.capacity { SpanIsLength(p, Wrap(x, p.capacity), p.list[0].start, x, n); }
  }

  /** Two list entries, the first recycled and given up, the list's tail at slot 0: the length of the second
      region is measured to the start of the region that is gone. */
  lemma LengthGoesWrong(r: Record, unused: Record)
    ensures var p := Pool(4, 2, [r, r, r, unused], [NodeMeta(7, 0, true), NodeMeta(8, 1, false)], 1, 0, 3, 1, [Region(8, false, [r, r])]);
            p.Ok() && LengthAnswer(p, 8) == 3 && |p.regions[0].records| == 2
  {
    var p := Pool(4, 2, [r, r, r, unused], [NodeMeta(7, 0, true), NodeMeta(8, 1, false)], 1, 0, 3, 1, [Region(8, false, [r, r])]);
    assert Total(p.regions, 0) == 0;
    assert Total(p.regions, 1) == 2;
    forall k: nat | k < |p.regions| ensures p.NodeAt(k) {}
    forall k: nat, j: nat | k < |p.regions| && j < |p.regions[k].records| ensures p.HoldsAt(k, j) {}
    assert Find(p.regions, 8) == 0;
  }

  // ---------- whole calls ----------

  /** The list head has passed the recycled entries. */
  ghost function Advanced(p: Pool): (q: Pool)
    requires p.Ok()
    ensures q.Ok() && q == p.(head := q.head, base := q.base, regions := DropDirty(p.regions))
    decreases |p.regions|
  {
    if |p.regions| > 1 && p.regions[0].dirty then (DropKeeps(p); Advanced(Dropped(p))) else p
  }

  /** The pool after `insert`; a store that must wait leaves it as it is when the waiting begins. */
  ghost function AfterInsert(p: Pool, id: nat, record: Record): (q: Pool)
    requires p.Ok()
  {
    var kept := Advanced(p).(pos := Place(p));
    if OutcomeOf(p.capacity, p.listLen, kept.regions, id).Stored? then Written(kept, id, record) else kept
  }

  /** The pool after `recycle`. */
  ghost function AfterRecycle(p: Pool, id: nat): (q: Pool)
    requires p.Ok()
    ensures q.Ok() && q.head == p.head && q.tail == p.tail && q.pos == p.pos && q.capacity == p.capacity && q.listLen == p.listLen
    ensures |q.regions| == |p.regions| && forall k: nat :: k < |q.regions| ==> q.regions[k].id == p.regions[k].id
  {
    var k := Find(p.regions, id);
    if k == |p.regions| || |p.regions| == p.listLen then p
    else (assert p.NodeAt(k); MarkedKeeps(p, k); MarkedPool(p, k))
  }

  // ---------- stores that wait ----------

  /** The loops of `allocate` and `addNodeMeta`: the next place is where the first region starts, or the record
      needs a list entry and there is none. */
  ghost predicate Waits(p: Pool, id: nat)
    requires p.Shaped()
  {
    p.regions != [] && (p.list[p.head].start == Place(p) || (NeedsNode(p, id) && p.head == p.tail))
  }

  ghost function AfterRecycles(p: Pool, ids: seq<nat>, n: nat): (q: Pool)
    requires p.Ok() && n <= |ids|
    ensures q.Ok()
  {
    if n == 0 then p else AfterRecycle(AfterRecycles(p, ids, n - 1), ids[n - 1])
  }

  lemma RecycleLeavesWait(p: Pool, id: nat, other: nat)
    requires p.Ok() && Waits(p, id)
    ensures Waits(AfterRecycle(p, other), id)
  {
    var q, k := AfterRecycle(p, other), Find(p.regions, other);
    if k < |p.regions| < p.listLen { assert q.list[p.head].start == p.list[p.head].start; }
  }

  /** A store that waits goes on waiting, whatever is recycled: the list head moves only at the begin of a store. */
  lemma {:induction false} BlockedForGood(p: Pool, id: nat, ids: seq<nat>, n: nat)
    requires p.Ok() && Waits(p, id) && n <= |ids|
    ensures Waits(AfterRecycles(p, ids, n), id)
  {
    if n > 0 {
      BlockedForGood(p, id, ids, n - 1);
      RecycleLeavesWait(AfterRecycles(p, ids, n - 1), id, ids[n - 1]);
    }
  }

  /** Recycled regions at the front, not counting the last region. */
  function DirtyFront(regions: seq<Region>): (d: nat)
    ensures d <= |regions| && (regions != [] ==> d < |regions|)
  {
    if |regions| > 1 && regions[0].dirty then 1 + DirtyFront(regions[1..]) else 0
  }

  lemma {:induction false} TotalSuffix(regions: seq<Region>, d: nat)
    requires d <= |regions|
    ensures Total(regions[d..], |regions| - d) + Total(regions, d) == Total(regions, |regions|)
  {
    if d == 0 {
      assert regions[0..] == regions;
    } else {
      TotalSuffix(regions, d - 1);
      TotalTail(regions[d - 1..], |regions| - d);
      assert regions[d - 1..][1..] == regions[d..];
    }
  }

  lemma {:induction false} DropIsFront(regions: seq<Region>)
    ensures DropDirty(regions) == regions[DirtyFront(regions)..]
  {
    if |regions| > 1 && regions[0].dirty {
      DropIsFront(regions[1..]);
      assert regions[1..][DirtyFront(regions[1..])..] == regions[DirtyFront(regions)..];
    }
  }

  /** When a store can be made, told from the pool before the call: without the recycled regions at the front
      there is room for a record, and a list entry if the record needs one. */
  lemma StoredIff(p: Pool, id: nat)
    requires p.Ok()
    ensures var d := DirtyFront(p.regions);
      OutcomeOf(p.capacity, p.listLen, DropDirty(p.regions), id).Stored? <==>
        p.regions == []
        || (Total(p.regions, |p.regions|) - Total(p.regions, d) < p.capacity && (!NeedsNode(p, id) || |p.regions| - d < p.listLen))
  {
    DropIsFront(p.regions);
    TotalSuffix(p.regions, DirtyFront(p.regions));
  }

  // ---------- what recycling leads to ----------

  /** If all regions in front of the newest are recycled, the next store gives them up and keeps only the newest. */
  lemma {:induction false} AllFrontDropped(regions: seq<Region>)
    requires regions != [] && forall k: nat :: k < |regions| - 1 ==> regions[k].dirty
    ensures DropDirty(regions) == [regions[|regions| - 1]]
  {
    if |regions| > 1 {
      forall k: nat | k < |regions[1..]| - 1 ensures regions[1..][k].dirty { assert regions[1..][k] == regions[k + 1]; }
      AllFrontDropped(regions[1..]);
    }
  }

  /** A recycle marks the block's first region and changes no other. */
  lemma RecycleMarks(p: Pool, id: nat, k: nat)
    requires p.Ok() && |p.regions| < p.listLen && k < |p.regions|
    ensures AfterRecycle(p, id).regions[k] == if k == Find(p.regions, id) then p.regions[k].(dirty := true) else p.regions[k]
  {
    if Find(p.regions, id) < |p.regions| { assert p.NodeAt(Find(p.regions, id)); }
  }

  ghost predicate MarkedAt(p: Pool, ids: seq<nat>, n: nat, k: nat)
    requires p.Ok() && n <= |ids| && k < |p.regions|
  {
    var q := AfterRecycles(p, ids, n).regions;
    && k < |q| && q[k].id == p.regions[k].id && q[k].records == p.regions[k].records
    && (q[k].dirty <==> p.regions[k].dirty || (Find(p.regions, p.regions[k].id) == k && p.regions[k].id in ids[..n]))
  }

  lemma MarkedNext(p: Pool, ids: seq<nat>, m: nat, n: nat, k: nat)
    requires p.Ok() && |p.regions| < p.listLen && n == m + 1 <= |ids| && k < |p.regions| && MarkedAt(p, ids, m, k)
    ensures MarkedAt(p, ids, n, k)
  {
    var before, id := AfterRecycles(p, ids, m), ids[m];
    SameIds(p, ids, m);
    FindSame(p.regions, before.regions, id);
    RecycleMarks(before, id, k);
    assert AfterRecycles(p, ids, n) == AfterRecycle(before, id);
    assert ids[..n] == ids[..m] + [id];
  }

  /** A region is marked by a recycle of its block, if it is the block's first; and by nothing else. */
  lemma {:induction false} MarkedBy(p: Pool, ids: seq<nat>, n: nat, k: nat)
    requires p.Ok() && |p.regions| < p.listLen && n <= |ids| && k < |p.regions|
    ensures MarkedAt(p, ids, n, k)
  {
    if n > 0 {
      MarkedBy(p, ids, n - 1, k);
      MarkedNext(p, ids, n - 1, n, k);
    }
  }

  lemma {:induction false} SameIds(p: Pool, ids: seq<nat>, n: nat)
    requires p.Ok() && n <= |ids|
    ensures var q := AfterRecycles(p, ids, n);
      && |q.regions| == |p.regions| && q.listLen == p.listLen && forall k: nat :: k < |p.regions| ==> q.regions[k].id == p.regions[k].id
  {
    if n > 0 { SameIds(p, ids, n - 1); }
  }

  lemma FindSame(a: seq<Region>, b: seq<Region>, id: nat)
    requires |a| == |b| && forall k: nat :: k < |a| ==> a[k].id == b[k].id
    ensures Find(a, id) == Find(b, id)
  {}

  /** The blocks in front of the newest region, each with one region there, are recycled in any order: the next store
      keeps only the newest region. */
  lemma RecycledAreGivenUp(p: Pool, ids: seq<nat>)
    requires p.Ok() && p.regions != [] && |p.regions| < p.listLen
    requires forall k: nat :: k < |p.regions| - 1 ==> p.regions[k].id in ids && Find(p.regions, p.regions[k].id) == k
    ensures var q, last := AfterRecycles(p, ids, |ids|), p.regions[|p.regions| - 1];
      && |q.regions| == |p.regions| && DropDirty(q.regions) == [q.regions[|p.regions| - 1]]
      && q.regions[|p.regions| - 1].id == last.id && q.regions[|p.regions| - 1].records == last.records
  {
    var q := AfterRecycles(p, ids, |ids|);
    assert ids[..|ids|] == ids;
    SameIds(p, ids, |ids|);
    forall k: nat | k < |p.regions| - 1 ensures q.regions[k].dirty { MarkedBy(p, ids, |ids|, k); }
    MarkedBy(p, ids, |ids|, |p.regions| - 1);
    AllFrontDropped(q.regions);
  }
}
