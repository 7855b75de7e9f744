/** The in-memory ring of blocks that mirrors a circular disk: the pure part.
    `Judge`, `WriteEffect`, `GetEffect` and `RecycleEffect` describe one call each on the values
    of the fields; `DataBlocks.DataBlockBuffer` is proved to perform exactly them, and the
    hand-off protocol (`HandOff`) steps by them. */
module BlockRing {
  import opened Basics
  import opened Bits
  import opened ModArith

  /** Slots of the ring, bytes per block, blocks on disk, release delay in blocks, writers. */
  datatype Geometry = Geometry(slots: nat, blockSize: nat, diskBlocks: nat, delay: nat, writers: nat)
  {
    function RingBytes(): nat { slots * blockSize }

    predicate Sound() {
      && slots > 0 && blockSize > 0
      && 4 * slots < diskBlocks
    }
  }

  /** Field values: disk block id of every slot, published block id of every writer, next slot of
      every checker, index counters (slot + slots * writer) and the bytes of the ring. */
  datatype Ring = Ring(diskId: seq<nat>, published: seq<nat>, nextCheck: seq<nat>,
                       counts: seq<nat>, bytes: seq<byte>)

  predicate Shaped(g: Geometry, r: Ring) {
    && |r.diskId| == g.slots
    && |r.counts| == g.slots * g.writers
    && |r.bytes| == g.RingBytes()
    && (forall k :: 0 <= k < |r.nextCheck| ==> r.nextCheck[k] < g.slots)
  }

  // ---------- the release barrier ----------

  /** Has writer position `w` left the window of 2 * slots blocks that ends at `id` + delay? */
  predicate CheckRss(g: Geometry, id: nat, w: nat)
    requires g.Sound()
  {
    var right := (id + g.delay) % g.diskBlocks;
    var left := (right + g.diskBlocks - 2 * g.slots) % g.diskBlocks;
    || (left < right && (w > right || w < left))
    || (left > right && w > right && w < left)
  }

  /** The two-case comparison is one circular comparison. */
  lemma BarrierIsCircular(g: Geometry, id: nat, w: nat)
    requires g.Sound() && w < g.diskBlocks
    ensures CheckRss(g, id, w)
       <==> 0 < (w - (id + g.delay)) % g.diskBlocks < g.diskBlocks - 2 * g.slots
  {
    var d := g.diskBlocks;
    var right := (id + g.delay) % d;
    var q := (id + g.delay) / d;
    assert id + g.delay == q * d + right;
    assert w - (id + g.delay) == (w - right) + (-q) * d;
    ModAddMultiple(w - right, d, -q);
    if w >= right {
      ModSmall(w - right, d);
    } else {
      ModAddMultiple(w - right, d, 1);
      ModSmall(w - right + d, d);
    }
    if right >= 2 * g.slots {
      ModAddMultiple(right - 2 * g.slots, d, 1);
      ModSmall(right - 2 * g.slots, d);
    } else {
      ModSmall(right + d - 2 * g.slots, d);
    }
  }

  /** With never-wrapping ids `id` and `p` less than one disk apart on the right side, the barrier
      compares them in their true order. */
  lemma BarrierUnwrapped(g: Geometry, id: nat, p: nat)
    requires g.Sound()
    requires id + g.delay <= p + 2 * g.slots
    requires p + 2 * g.slots < id + g.delay + g.diskBlocks
    ensures CheckRss(g, id % g.diskBlocks, p % g.diskBlocks) <==> p > id + g.delay
  {
    var d := g.diskBlocks;
    BarrierIsCircular(g, id % d, p % d);
    var diff := p - (id + g.delay);
    assert p % d - (id % d + g.delay) == diff + (id / d - p / d) * d by {
      assert p == (p / d) * d + p % d && id == (id / d) * d + id % d;
      assert (id / d - p / d) * d == (id / d) * d - (p / d) * d;
    }
    ModAddMultiple(diff, d, id / d - p / d);
    if diff >= 0 {
      ModSmall(diff, d);
    } else {
      ModAddMultiple(diff, d, 1);
      ModSmall(diff + d, d);
    }
  }

  // ---------- one write ----------

  /** `publish` is the disk block id the writer announces, also when the write is refused. */
  datatype Verdict = Refused(publish: nat) | Accepted(publish: nat)

  function Judge(g: Geometry, diskId: seq<nat>, pos: nat, len: nat): Verdict
    requires g.Sound() && |diskId| == g.slots
  {
    var slot := pos / g.blockSize % g.slots;
    var disk := pos / g.blockSize % g.diskBlocks;
    if diskId[slot] != disk then Refused(disk)
    else if pos % g.blockSize + len < g.blockSize then Accepted(disk)
    else
      var disk' := (disk + 1) % g.diskBlocks;
      if diskId[(slot + 1) % g.slots] != disk' then Refused(disk') else Accepted(disk')
  }

  /** Distance from `at` forward to `j` on a ring of `n` cells. */
  function Ahead(n: nat, at: nat, j: nat): (d: nat)
    requires at < n && j < n
    ensures d < n && (at + d == j || at + d == j + n)
  {
    if j >= at then j - at else j + n - at
  }

  lemma AheadLands(n: nat, at: nat, j: nat)
    requires at < n && j < n
    ensures (at + Ahead(n, at, j)) % n == j
  {
    ModSmall(j, n);
    ModAddMultiple(j, n, 1);
  }

  /** `data` laid over the ring from position `at`, going round the end. */
  function RingWrite(bytes: seq<byte>, at: nat, data: seq<byte>): (r: seq<byte>)
    requires at < |bytes| && |data| <= |bytes|
    ensures |r| == |bytes|
    ensures forall j :: 0 <= j < |bytes| && Ahead(|bytes|, at, j) >= |data| ==> r[j] == bytes[j]
    ensures forall j :: 0 <= j < |bytes| && Ahead(|bytes|, at, j) < |data| ==> r[j] == data[Ahead(|bytes|, at, j)]
  {
    seq(|bytes|, j requires 0 <= j < |bytes| =>
      if Ahead(|bytes|, at, j) < |data| then data[Ahead(|bytes|, at, j)] else bytes[j])
  }

  /** Byte k of the data is found k places after the start, wrapped. */
  lemma RingWriteReadsBack(bytes: seq<byte>, at: nat, data: seq<byte>, k: nat)
    requires at < |bytes| && k < |data| <= |bytes|
    ensures RingWrite(bytes, at, data)[(at + k) % |bytes|] == data[k]
  {
    var n := |bytes|;
    if at + k < n {
      ModSmall(at + k, n);
      assert Ahead(n, at, at + k) == k;
    } else {
      ModAddMultiple(at + k, n, -1);
      ModSmall(at + k - n, n);
      assert Ahead(n, at, at + k - n) == k;
    }
  }

  /** The counter of index entries that `writer` made in `slot`. */
  function CountAt(g: Geometry, slot: nat, writer: nat): (i: nat)
    requires slot < g.slots && writer < g.writers
    ensures i < g.slots * g.writers
  {
    assert g.slots * writer + g.slots == g.slots * (writer + 1) <= g.slots * g.writers;
    slot + g.slots * writer
  }

  /** Different counters are different cells. */
  lemma CountAtInjective(g: Geometry, s: nat, i: nat, s': nat, i': nat)
    requires s < g.slots && s' < g.slots && i < g.writers && i' < g.writers
    requires CountAt(g, s, i) == CountAt(g, s', i')
    ensures s == s' && i == i'
  {
    assert g.slots * i == i * g.slots && g.slots * i' == i' * g.slots;
    DivModUnique(CountAt(g, s, i), g.slots, i, s);
    DivModUnique(CountAt(g, s, i), g.slots, i', s');
  }

  function WriteEffect(g: Geometry, r: Ring, pos: nat, data: seq<byte>, writer: nat,
                       newData: bool, newIndex: bool): (res: (Ring, bool))
    requires g.Sound() && Shaped(g, r) && |data| <= g.blockSize
    requires writer < |r.published| && writer < g.writers
    ensures Shaped(g, res.0) && |res.0.published| == |r.published|
  {
    BlockFits(g);
    var v := Judge(g, r.diskId, pos, |data|);
    var r1 := if newData then r.(published := r.published[writer := v.publish]) else r;
    if v.Refused? then (r1, false)
    else
      var c := CountAt(g, pos / g.blockSize % g.slots, writer);
      var counts := if newData && newIndex then r.counts[c := r.counts[c] + 1] else r.counts;
      (r1.(bytes := RingWrite(r.bytes, pos % g.RingBytes(), data), counts := counts), true)
  }

  lemma BlockFits(g: Geometry)
    requires g.Sound()
    ensures g.RingBytes() >= g.blockSize > 0
  {}

  /** An accepted write, of new data or not, leaves byte k of its data k places after its position, wrapped. */
  lemma AcceptedIsStored(g: Geometry, r: Ring, pos: nat, data: seq<byte>, writer: nat, newData: bool, newIndex: bool, k: nat)
    requires g.Sound() && Shaped(g, r) && k < |data| <= g.blockSize && writer < |r.published| && writer < g.writers
    requires WriteEffect(g, r, pos, data, writer, newData, newIndex).1
    ensures WriteEffect(g, r, pos, data, writer, newData, newIndex).0.bytes[(pos + k) % g.RingBytes()] == data[k]
  {
    BlockFits(g);
    RingWriteReadsBack(r.bytes, pos % g.RingBytes(), data, k);
    AddMod(pos, k, g.RingBytes());
  }

  /** A write of data that is not new leaves the published ids and the counters; so does a refused one the bytes. */
  lemma PatchPublishesNothing(g: Geometry, r: Ring, pos: nat, data: seq<byte>, writer: nat, newData: bool, newIndex: bool)
    requires g.Sound() && Shaped(g, r) && |data| <= g.blockSize && writer < |r.published| && writer < g.writers
    ensures var (after, ok) := WriteEffect(g, r, pos, data, writer, newData, newIndex);
      && after.diskId == r.diskId && after.nextCheck == r.nextCheck
      && (!newData ==> after.published == r.published)
      && (!newData || !newIndex || !ok ==> after.counts == r.counts)
      && (!ok ==> after.bytes == r.bytes)
  {}

  /** `checkBlock` lets checker k have its next slot. */
  predicate MayRelease(g: Geometry, r: Ring, k: nat)
    requires g.Sound() && Shaped(g, r) && k < |r.nextCheck| && g.writers <= |r.published|
  {
    forall i :: 0 <= i < g.writers ==> CheckRss(g, r.diskId[r.nextCheck[k]], r.published[i])
  }

  // ---------- hand a block to the disk, take the slot back ----------

  datatype DataBlock = DataBlock(blockId: nat, writePos: nat, packetCount: nat, buffer: seq<byte>)

  function SumCounts(g: Geometry, counts: seq<nat>, slot: nat, n: nat): nat
    requires |counts| == g.slots * g.writers && slot < g.slots && n <= g.writers
  {
    if n == 0 then 0
    else SumCounts(g, counts, slot, n - 1) + counts[CountAt(g, slot, n - 1)]
  }

  function ClearCounts(g: Geometry, counts: seq<nat>, slot: nat, n: nat): (r: seq<nat>)
    requires |counts| == g.slots * g.writers && slot < g.slots && n <= g.writers
    ensures |r| == |counts|
  {
    if n == 0 then counts
    else ClearCounts(g, counts, slot, n - 1)[CountAt(g, slot, n - 1) := 0]
  }

  lemma {:induction false} ClearCountsAt(g: Geometry, counts: seq<nat>, slot: nat, n: nat, s: nat, i: nat)
    requires |counts| == g.slots * g.writers && slot < g.slots && n <= g.writers
    requires s < g.slots && i < g.writers
    ensures ClearCounts(g, counts, slot, n)[CountAt(g, s, i)]
         == if s == slot && i < n then 0 else counts[CountAt(g, s, i)]
  {
    if n > 0 {
      ClearCountsAt(g, counts, slot, n - 1, s, i);
      if CountAt(g, s, i) == CountAt(g, slot, n - 1) {
        CountAtInjective(g, s, i, slot, n - 1);
      }
    }
  }

  function SlotBytes(g: Geometry, bytes: seq<byte>, slot: nat): (b: seq<byte>)
    requires |bytes| == g.RingBytes() && slot < g.slots
    ensures |b| == g.blockSize
  {
    SlotFits(g, slot);
    bytes[slot * g.blockSize .. slot * g.blockSize + g.blockSize]
  }

  lemma SlotFits(g: Geometry, slot: nat)
    requires slot < g.slots
    ensures slot * g.blockSize + g.blockSize <= g.RingBytes()
  {
    assert (slot + 1) * g.blockSize <= g.slots * g.blockSize;
  }

  function GetEffect(g: Geometry, r: Ring, k: nat): (res: (Ring, DataBlock))
    requires g.Sound() && Shaped(g, r) && k < |r.nextCheck|
    ensures Shaped(g, res.0)
  {
    var slot := r.nextCheck[k];
    var block := DataBlock(slot, r.diskId[slot], SumCounts(g, r.counts, slot, g.writers), SlotBytes(g, r.bytes, slot));
    (r.(counts := ClearCounts(g, r.counts, slot, g.writers),
        nextCheck := r.nextCheck[k := (slot + |r.nextCheck|) % g.slots]), block)
  }

  function RecycleEffect(g: Geometry, r: Ring, slot: nat): (r': Ring)
    requires g.Sound() && Shaped(g, r) && slot < g.slots
    ensures Shaped(g, r')
  {
    r.(diskId := r.diskId[slot := (r.diskId[slot] + g.slots) % g.diskBlocks])
  }

  /** The fields as the constructor and `writers` + `checkers` registrations leave them. */
  function FreshRing(g: Geometry, checkers: nat): (r: Ring)
    requires g.Sound() && checkers <= g.slots
    ensures Shaped(g, r)
  {
    Ring(seq(g.slots, i => i), seq(g.writers, i => i), seq(checkers, i => i),
         seq(g.slots * g.writers, _ => 0), seq(g.RingBytes(), _ => 0))
  }
}
