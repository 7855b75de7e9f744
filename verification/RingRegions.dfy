/** Regions of a ring: writes one after the other, rewrites in place, reading a part back, and which index
    positions a thread may write to. */
module RingRegions {
  import opened Basics
  import opened BlockRing
  import opened IndexBlocks
  import opened ModArith

  lemma RingPosNext(n: nat, pos: nat, k: nat)
    requires n > 0 && k <= n
    ensures RingPos(n, pos + k) == Wrap(RingPos(n, pos) + k, n)
  {
    AddMod(pos, k, n);
    WrapIsMod(pos % n + k, n);
  }

  lemma RingWriteNothing(ring: seq<byte>, at: nat)
    requires at < |ring|
    ensures RingWrite(ring, at, []) == ring
  {}

  /** Two writes, the second where the first ends, are one. */
  lemma RingWriteTwice(ring: seq<byte>, at: nat, a: seq<byte>, b: seq<byte>)
    requires at < |ring| && |a| + |b| <= |ring|
    ensures RingWrite(RingWrite(ring, at, a), Wrap(at + |a|, |ring|), b) == RingWrite(ring, at, a + b)
  {
    var n := |ring|;
    var first, both := RingWrite(ring, at, a), RingWrite(ring, at, a + b);
    var second := RingWrite(first, Wrap(at + |a|, n), b);
    forall j: nat | j < n ensures second[j] == both[j] {
      var d, e := Ahead(n, at, j), Ahead(n, Wrap(at + |a|, n), j);
      assert if |a| <= d then e == d - |a| else e == d + n - |a| || (|a| == n && e == d);
    }
  }

  /** A write over one of the same length leaves no trace of it. */
  lemma RingWriteOver(ring: seq<byte>, at: nat, a: seq<byte>, b: seq<byte>)
    requires at < |ring| && |a| == |b| <= |ring|
    ensures RingWrite(RingWrite(ring, at, a), at, b) == RingWrite(ring, at, b)
  {
    var first, over, once := RingWrite(ring, at, a), RingWrite(RingWrite(ring, at, a), at, b), RingWrite(ring, at, b);
    forall j: nat | j < |ring| ensures over[j] == once[j] { assert Ahead(|ring|, at, j) >= |a| ==> first[j] == ring[j]; }
  }

  /** A part of what was written is read back where it lies. */
  lemma RoundPart(ring: seq<byte>, at: nat, data: seq<byte>, i: nat, len: nat)
    requires at < |ring| && i + len <= |data| <= |ring|
    ensures RoundBytes(RingWrite(ring, at, data), Wrap(at + i, |ring|), len) == data[i..i + len]
  {
    var n, written := |ring|, RingWrite(ring, at, data);
    var from := Wrap(at + i, n);
    var r := RoundBytes(written, from, len);
    forall k: nat | k < len ensures r[k] == data[i + k] {
      var j := if from + k < n then from + k else from + k - n;
      assert r[k] == written[j];
      assert Ahead(n, at, j) == i + k;
    }
  }

  // ---------- where a thread may write ----------

  /** Index block q is in the ring. */
  ghost predicate Resident(g: Geometry, diskId: seq<nat>, q: nat)
    requires g.Sound() && |diskId| == g.slots
  {
    diskId[q % g.slots] == q % g.diskBlocks
  }

  /** All blocks of the positions from .. to are in the ring, also the one at `to`. */
  ghost predicate Covered(g: Geometry, diskId: seq<nat>, from: nat, to: nat)
    requires g.Sound() && |diskId| == g.slots
  {
    forall q: nat :: from / g.blockSize <= q <= to / g.blockSize ==> Resident(g, diskId, q)
  }

  /** A write of at most one block within covered positions is accepted. */
  lemma CoveredAccepts(g: Geometry, diskId: seq<nat>, from: nat, to: nat, pos: nat, len: nat)
    requires g.Sound() && |diskId| == g.slots && Covered(g, diskId, from, to)
    requires from <= pos && pos + len <= to && len <= g.blockSize
    ensures Judge(g, diskId, pos, len).Accepted?
  {
    var b := g.blockSize;
    var q := pos / b;
    BlocksBetween(b, from, pos);
    BlocksBetween(b, pos, to);
    assert Resident(g, diskId, q);
    if pos % b + len >= b {
      NextBlock(b, pos, len);
      BlocksBetween(b, pos + len, to);
      assert Resident(g, diskId, q + 1);
      AddMod(q, 1, g.slots);
      AddMod(q, 1, g.diskBlocks);
    }
  }

  lemma BlocksBetween(b: nat, x: nat, y: nat)
    requires b > 0 && x <= y
    ensures x / b <= y / b
  {
    var qx, qy := x / b, y / b;
    assert x == qx * b + x % b && y == qy * b + y % b;
    assert qx > qy ==> qx * b >= (qy + 1) * b == qy * b + b;
  }

  lemma NextBlock(b: nat, pos: nat, len: nat)
    requires b > 0 && pos % b + len >= b
    ensures pos / b + 1 <= (pos + len) / b
  {
    var q := pos / b;
    assert pos + len >= q * b + b == (q + 1) * b;
    BlocksBetween(b, (q + 1) * b, pos + len);
    ModAddMultiple(0, b, q + 1);
  }
}
