/** The back-patch of a flow chain against the release barrier: whether the block of the packet that is patched
    can be on its way to the disk already. */
module BackPatch {
  import opened Basics
  import opened ModArith
  import opened BlockRing
  import opened FlowChains
  import opened FlowCapture

  function DiskBytes(g: Geometry): nat {
    g.diskBlocks * g.blockSize
  }

  /** How far the later packet lies behind the earlier one on the circular disk. */
  function CalDiff(offset: nat, last: nat, diskSize: nat): (d: nat)
    requires last <= diskSize && diskSize > 0
    ensures d < diskSize
  {
    (offset + diskSize - last) % diskSize
  }

  /** The offset without wrap: one disk further if it is not behind the last one. */
  function Ordered(offset: nat, last: nat, diskSize: nat): nat {
    if offset <= last then offset + diskSize else offset
  }

  /** An offset that the aggregator answers with `attr.lastOffset`, as the readers set it up: the chains break
      beyond `delay` blocks. */
  predicate Patches(g: Geometry, limits: Limits, attr: FlowAttr, offset: nat, ts: nat) {
    && g.Sound() && g.delay <= 2 * g.slots
    && limits.offset == g.delay * g.blockSize
    && attr.lastOffset < DiskBytes(g) && offset < DiskBytes(g) && 2 * DiskBytes(g) < TWO64
    && Continues(limits, attr, offset, ts, DiskBytes(g))
  }

  /** The difference leads from the earlier packet to the later one, also round the end of the disk. */
  lemma DiffLeads(offset: nat, last: nat, diskSize: nat)
    requires offset < diskSize && last < diskSize
    ensures (last + CalDiff(offset, last, diskSize)) % diskSize == offset
    ensures offset != last ==> last + CalDiff(offset, last, diskSize) == Ordered(offset, last, diskSize)
  {
    if offset < last {
      ModSmall(offset + diskSize - last, diskSize);
      ModAddMultiple(offset, diskSize, 1);
    } else {
      ModAddMultiple(offset - last, diskSize, 1);
      ModSmall(offset - last, diskSize);
    }
    ModSmall(offset, diskSize);
  }

  lemma BlockOnDisk(g: Geometry, pos: nat)
    requires g.Sound() && pos < DiskBytes(g)
    ensures pos / g.blockSize < g.diskBlocks && pos / g.blockSize % g.diskBlocks == pos / g.blockSize
  {
    SplitPosition(pos, g.blockSize);
    var q, d := pos / g.blockSize, g.diskBlocks;
    assert q >= d ==> q * g.blockSize >= d * g.blockSize;
    ModSmall(q, d);
  }

  lemma OrderedBlock(g: Geometry, offset: nat, last: nat)
    requires g.Sound() && offset < DiskBytes(g)
    ensures Ordered(offset, last, DiskBytes(g)) / g.blockSize % g.diskBlocks == offset / g.blockSize
  {
    SplitPosition(offset, g.blockSize);
    var q, d := offset / g.blockSize, g.diskBlocks;
    BlockOnDisk(g, offset);
    ModSmall(q, d);
    if offset <= last {
      ModAddMultiple(offset, g.blockSize, d);
      ModAddMultiple(q, d, 1);
    }
  }

  lemma NotFarther(x: nat, y: nat, n: nat, b: nat)
    requires b > 0 && x <= y <= x + n * b
    ensures x / b <= y / b <= x / b + n
  {
    SplitPosition(x, b);
    SplitPosition(y, b);
    var p, q := x / b, y / b;
    assert q < p ==> (q + 1) * b <= p * b;
    assert q > p + n ==> q * b >= (p + n + 1) * b;
    assert (p + n + 1) * b == p * b + n * b + b;
  }

  /** The difference written into the link is the true distance, and at most the delay in bytes. */
  lemma DiffWithinDelay(g: Geometry, limits: Limits, attr: FlowAttr, offset: nat, ts: nat)
    requires Patches(g, limits, attr, offset, ts)
    ensures attr.lastOffset + CalDiff(offset, attr.lastOffset, DiskBytes(g)) == Ordered(offset, attr.lastOffset, DiskBytes(g))
    ensures 0 < CalDiff(offset, attr.lastOffset, DiskBytes(g)) <= g.delay * g.blockSize
  {
    assert g.delay * g.blockSize < DiskBytes(g) by { LessBlocks(g.delay, g.diskBlocks, g.blockSize); }
    DiffLeads(offset, attr.lastOffset, DiskBytes(g));
  }

  lemma LessBlocks(m: nat, n: nat, b: nat)
    requires m < n && b > 0
    ensures m * b < n * b
  {}

  /** A writer that has published a block `ahead` blocks behind the one of the later packet is overtaken exactly
      if that is more than `delay` blocks behind the one of the patched packet. */
  lemma PassesIff(g: Geometry, limits: Limits, attr: FlowAttr, offset: nat, ts: nat, ahead: nat)
    requires Patches(g, limits, attr, offset, ts) && ahead <= g.slots
    ensures CheckRss(g, attr.lastOffset / g.blockSize, (offset / g.blockSize + ahead) % g.diskBlocks)
       <==> Ordered(offset, attr.lastOffset, DiskBytes(g)) / g.blockSize + ahead > attr.lastOffset / g.blockSize + g.delay
  {
    var last, d := attr.lastOffset, g.diskBlocks;
    var ordered := Ordered(offset, last, DiskBytes(g));
    var id, p := last / g.blockSize, ordered / g.blockSize;
    OrderedBlock(g, offset, last);
    OrderedBlock(g, last, last);
    OrderedBlock(g, last, 0);
    NotFarther(last, ordered, g.delay, g.blockSize);
    AddMod(p, ahead, d);
    BlockOnDisk(g, last);
    BarrierUnwrapped(g, id, p + ahead);
  }

  /** While the writer has published the later packet's block, no checker may take the block to be patched. */
  lemma PatchIsInTime(g: Geometry, limits: Limits, attr: FlowAttr, offset: nat, ts: nat, ring: Ring, i: nat, k: nat)
    requires Patches(g, limits, attr, offset, ts) && Shaped(g, ring)
    requires i < g.writers <= |ring.published| && k < |ring.nextCheck|
    requires ring.published[i] == offset / g.blockSize
    requires ring.diskId[ring.nextCheck[k]] == attr.lastOffset / g.blockSize
    ensures !MayRelease(g, ring, k)
  {
    PassesIff(g, limits, attr, offset, ts, 0);
    BlockOnDisk(g, offset);
    NotFarther(attr.lastOffset, Ordered(offset, attr.lastOffset, DiskBytes(g)), g.delay, g.blockSize);
  }

  /** The patch comes after the packet: when that ends its block, the writer has published the next one, and the
      barrier may be behind. Here four slots of 64 bytes, delay 1: a packet in 64 .. 128 continues one at 0. */
  lemma PatchTooLate(bytes: seq<byte>, packet: seq<byte>)
    requires |bytes| == 256 && |packet| == 64
    ensures var g, ring := Geometry(4, 64, 17, 1, 1), Ring([0, 1, 2, 3], [0], [0], [0, 0, 0, 0], bytes);
            var (after, ok) := WriteEffect(g, ring, 64, packet, 0, true, false);
            && Patches(g, Limits(64, 9), FlowAttr(0, 0), 64, 0)
            && ok && after.diskId[after.nextCheck[0]] == 0 && MayRelease(g, after, 0)
  {}
}
