/** Every call keeps `HandOff.Good`: the modular tests of the program agree with the unwrapped
    protocol, and the bytes and counters of resident blocks are the accepted ones. */
module HandOffSteps {
  import opened Basics
  import opened Bits
  import opened ModArith
  import opened BlockRing
  import opened Protocol
  import opened ProtocolSteps
  import opened HandOff

  // ---------- the modular tests ----------

  lemma BarrierAgrees(g: Geometry, id: nat, pub: nat)
    requires g.Sound()
    requires id + g.delay <= pub + 2 * g.slots
    requires pub + 2 * g.slots < id + g.delay + g.diskBlocks
    ensures CheckRss(g, Rem(id, g.diskBlocks), Rem(pub, g.diskBlocks)) <==> pub > id + g.delay
  {
    RemQuot(id, g.diskBlocks);
    RemQuot(pub, g.diskBlocks);
    BarrierUnwrapped(g, id, pub);
  }

  /** On reachable states `checkBlock` answers for the unwrapped ids. */
  lemma ReleaseAgrees(g: Geometry, checkers: nat, s: System, k: nat)
    requires Deployed(g, checkers) && Fits(g, checkers, s)
    requires Inv(PlanOf(g, checkers), s.prot) && Coupled(g, checkers, s) && k < checkers
    ensures MayRelease(g, s.ring, k) <==> Protocol.Enabled(PlanOf(g, checkers), s.prot, Step.Release(k))
    ensures s.ring.diskId[s.ring.nextCheck[k]] == Rem(s.prot.owed[k], g.diskBlocks)
  {
    var p := PlanOf(g, checkers);
    assert OwedHere(p, s.prot, k) && CheckerCoupled(g, s, k);
    assert SlotCoupled(g, s, s.ring.nextCheck[k]);
    forall i: nat | i < g.writers
      ensures CheckRss(g, s.ring.diskId[s.ring.nextCheck[k]], s.ring.published[i])
         <==> s.prot.writers[i].pub > s.prot.owed[k] + p.delay
    {
      assert WriterCoupled(g, s, i);
      PublishedInReach(p, s.prot, i, k);
      BarrierAgrees(g, s.prot.owed[k], s.prot.writers[i].pub);
    }
  }

  lemma RemEqual(x: nat, y: nat, d: nat)
    requires d > 0 && x < y + d && y < x + d
    ensures Rem(x, d) == Rem(y, d) <==> x == y
  {
    if Rem(x, d) == Rem(y, d) {
      SameRem(x, y, d);
      SameRem(y, x, d);
    }
  }

  /** The wrapped residency test of a writer's block, or the next one, is the unwrapped one. */
  lemma ResidentAgrees(g: Geometry, checkers: nat, s: System, i: nat, b: nat)
    requires Deployed(g, checkers) && Fits(g, checkers, s)
    requires Inv(PlanOf(g, checkers), s.prot) && Coupled(g, checkers, s)
    requires i < g.writers && s.prot.writers[i].cur.Some?
    requires var own := PlanOf(g, checkers).Block(s.prot.writers[i].cur.value); own <= b <= own + 1
    ensures s.ring.diskId[Rem(b, g.slots)] == Rem(b, g.diskBlocks) <==> Resident(PlanOf(g, checkers), s.prot, b)
  {
    var p := PlanOf(g, checkers);
    var c := p.Slot(b);
    assert WriterSane(p, s.prot, i) && SlotNear(p, s.prot, c) && SlotCoupled(g, s, c);
    CellInReach(p, s.prot, i, p.Checker(c));
    AheadOfChecker(p, s.prot, i, b);
    RemEqual(s.prot.block[c], b, g.diskBlocks);
  }

  lemma DiskPosParts(g: Geometry, pos: nat)
    requires g.Sound() && g.diskBlocks % g.slots == 0
    ensures DiskPos(g, pos) / g.blockSize % g.slots == Rem(Quot(pos, g.blockSize), g.slots)
    ensures DiskPos(g, pos) / g.blockSize % g.diskBlocks == Rem(Quot(pos, g.blockSize), g.diskBlocks)
    ensures DiskPos(g, pos) % g.blockSize == pos % g.blockSize
    ensures DiskPos(g, pos) % g.RingBytes() == RingIndex(g, pos)
  {
    var b := pos / g.blockSize;
    WrapPosition(pos, g.blockSize, g.diskBlocks);
    RemQuot(pos, g.blockSize);
    RemQuot(b, g.slots);
    RemQuot(b, g.diskBlocks);
    ModOfMod(b, g.diskBlocks, g.slots);
    ModSmall(b % g.diskBlocks, g.diskBlocks);
    MultipleOfProduct(g.diskBlocks, g.slots, g.blockSize);
    ModOfMod(pos, g.diskBlocks * g.blockSize, g.slots * g.blockSize);
  }

  lemma NextRem(b: nat, d: nat)
    requires d > 0
    ensures (Rem(b, d) + 1) % d == Rem(b + 1, d)
  {
    RemQuot(b, d);
    RemQuot(b + 1, d);
    AddMod(b, 1, d);
  }

  /** `Judge` in terms of the unwrapped block. */
  lemma JudgeParts(g: Geometry, diskId: seq<nat>, pos: nat, len: nat)
    requires g.Sound() && g.diskBlocks % g.slots == 0 && |diskId| == g.slots
    ensures var b := Quot(pos, g.blockSize);
            var here := diskId[Rem(b, g.slots)] == Rem(b, g.diskBlocks);
            var there := diskId[Rem(b + 1, g.slots)] == Rem(b + 1, g.diskBlocks);
            var toEnd := pos % g.blockSize + len >= g.blockSize;
            var v := Judge(g, diskId, DiskPos(g, pos), len);
            && (v.Accepted? <==> here && (toEnd ==> there))
            && v.publish == Rem(if toEnd && here then b + 1 else b, g.diskBlocks)
  {
    DiskPosParts(g, pos);
    NextRem(Quot(pos, g.blockSize), g.slots);
    NextRem(Quot(pos, g.blockSize), g.diskBlocks);
  }

  lemma BlockOfPosition(g: Geometry, checkers: nat, pos: nat)
    requires Deployed(g, checkers)
    ensures Quot(pos, g.blockSize) == PlanOf(g, checkers).Block(pos / CellSize(g))
  {
    RemQuot(pos, g.blockSize);
    RemQuot(pos / CellSize(g), g.writers);
    DivDiv(pos, CellSize(g), g.writers);
  }

  /** A write call is accepted exactly when the protocol accepts it, and publishes its wrapped id. */
  lemma WriteAgrees(g: Geometry, checkers: nat, s: System, i: nat, pos: nat, data: seq<byte>, newIndex: bool)
    requires Deployed(g, checkers) && Good(g, checkers, s)
    requires MayCall(g, checkers, s, WriteBlock(i, pos, data, newIndex))
    ensures var p, toEnd := PlanOf(g, checkers), ToEnd(g, pos, data);
            var w := AfterWrite(p, s.prot, i, toEnd);
            var (ring, ok) := WriteEffect(g, s.ring, DiskPos(g, pos), data, i, true, newIndex);
            && ok == w.done
            && ring.published == s.ring.published[i := Rem(w.pub, g.diskBlocks)]
            && p.Block(s.prot.writers[i].cur.value) == Quot(pos, g.blockSize)
  {
    var b := Quot(pos, g.blockSize);
    BlockOfPosition(g, checkers, pos);
    JudgeParts(g, s.ring.diskId, pos, |data|);
    ResidentAgrees(g, checkers, s, i, b);
    ResidentAgrees(g, checkers, s, i, b + 1);
  }

  // ---------- released blocks are not written ----------

  ghost predicate Released(g: Geometry, checkers: nat, s: System, b: nat)
    requires Deployed(g, checkers) && Fits(g, checkers, s)
  {
    b < s.prot.owed[Rem(b, checkers)]
  }

  /** No write call, accepted or refused, is aimed at a released block. */
  lemma WritesAvoidReleased(g: Geometry, checkers: nat, s: System, i: nat, b: nat)
    requires Deployed(g, checkers) && Fits(g, checkers, s) && Inv(PlanOf(g, checkers), s.prot)
    requires i < g.writers && s.prot.writers[i].cur.Some?
    requires b >= PlanOf(g, checkers).Block(s.prot.writers[i].cur.value)
    ensures !Released(g, checkers, s, b)
    ensures Resident(PlanOf(g, checkers), s.prot, b) ==> Rem(b, g.slots) !in s.prot.inFlight
  {
    var p := PlanOf(g, checkers);
    AheadOfChecker(p, s.prot, i, b);
    RemOfRem(b, p.slots, p.checkers);
    assert SlotNear(p, s.prot, p.Slot(b));
  }

  // ---------- bytes ----------

  /** Two positions at the same place of the ring, in blocks that share their slot's block, are equal. */
  lemma SamePlace(g: Geometry, q: nat, q': nat)
    requires g.Sound() && RingIndex(g, q) == RingIndex(g, q')
    ensures Rem(Quot(q, g.blockSize), g.slots) == Rem(Quot(q', g.blockSize), g.slots)
    ensures Quot(q, g.blockSize) == Quot(q', g.blockSize) ==> q == q'
  {
    SameRingPlace(q, q', g.blockSize, g.slots);
    RemQuot(q, g.blockSize);
    RemQuot(q', g.blockSize);
    RemQuot(q / g.blockSize, g.slots);
    RemQuot(q' / g.blockSize, g.slots);
  }

  lemma RingIndexAhead(g: Geometry, pos: nat, k: nat)
    requires g.Sound()
    ensures (RingIndex(g, pos) + k) % g.RingBytes() == RingIndex(g, pos + k)
  {
    BlockFits(g);
    AddMod(pos, k, g.RingBytes());
  }

  /** The bytes of a write lie in its block, or in the next one if it reaches the end. */
  lemma WriteStaysNear(g: Geometry, pos: nat, data: seq<byte>, k: nat)
    requires g.Sound() && k < |data| <= g.blockSize
    ensures var b, b' := Quot(pos, g.blockSize), Quot(pos + k, g.blockSize);
            b' == b || (b' == b + 1 && ToEnd(g, pos, data))
  {
    RemQuot(pos, g.blockSize);
    RemQuot(pos + k, g.blockSize);
    NearBlock(pos, k, g.blockSize);
  }

  lemma NearBlock(pos: nat, k: nat, d: nat)
    requires 0 < d && k < d
    ensures (pos + k) / d == if pos % d + k < d then pos / d else pos / d + 1
  {
    var b, o := pos / d, pos % d;
    assert pos == b * d + o;
    if o + k < d {
      DivModUnique(pos + k, d, b, o + k);
    } else {
      assert pos + k == (b + 1) * d + (o + k - d);
      DivModUnique(pos + k, d, b + 1, o + k - d);
    }
  }

  /** The block of position q is resident. */
  ghost predicate ResidentAt(g: Geometry, s: System, q: nat)
    requires g.Sound() && |s.prot.block| == g.slots
  {
    var b := Quot(q, g.blockSize);
    s.prot.block[Rem(b, g.slots)] == b
  }

  /** Two resident positions at the same place of the ring are the same position. */
  lemma ResidentPlace(g: Geometry, s: System, q: nat, q': nat)
    requires g.Sound() && |s.prot.block| == g.slots && ResidentAt(g, s, q) && ResidentAt(g, s, q')
    requires RingIndex(g, q) == RingIndex(g, q')
    ensures q == q'
  {
    SamePlace(g, q, q');
  }

  /** A write leaves the resident bytes outside it alone. */
  lemma OtherByte(g: Geometry, s: System, pos: nat, data: seq<byte>, q: nat)
    requires g.Sound() && |s.ring.bytes| == g.RingBytes() && |data| <= g.blockSize
    requires |s.prot.block| == g.slots
    requires ResidentAt(g, s, q) && !(pos <= q < pos + |data|)
    requires forall x: nat :: pos <= x < pos + |data| ==> ResidentAt(g, s, x)
    ensures |data| <= g.RingBytes()
    ensures RingWrite(s.ring.bytes, RingIndex(g, pos), data)[RingIndex(g, q)] == s.ring.bytes[RingIndex(g, q)]
  {
    BlockFits(g);
    var k := BlockRing.Ahead(g.RingBytes(), RingIndex(g, pos), RingIndex(g, q));
    if k < |data| {
      AheadLands(g.RingBytes(), RingIndex(g, pos), RingIndex(g, q));
      RingIndexAhead(g, pos, k);
      ResidentPlace(g, s, q, pos + k);
    }
  }

  /** A write can be read back at its own positions. */
  lemma OwnByte(g: Geometry, s: System, pos: nat, data: seq<byte>, q: nat)
    requires g.Sound() && |s.ring.bytes| == g.RingBytes() && |data| <= g.blockSize
    requires pos <= q < pos + |data|
    ensures |data| <= g.RingBytes()
    ensures RingWrite(s.ring.bytes, RingIndex(g, pos), data)[RingIndex(g, q)] == data[q - pos]
  {
    BlockFits(g);
    RingIndexAhead(g, pos, q - pos);
    RingWriteReadsBack(s.ring.bytes, RingIndex(g, pos), data, q - pos);
  }

  lemma AcceptedIsResident(g: Geometry, checkers: nat, s: System, i: nat, pos: nat, data: seq<byte>, newIndex: bool, x: nat)
    requires Deployed(g, checkers) && Good(g, checkers, s)
    requires MayCall(g, checkers, s, WriteBlock(i, pos, data, newIndex))
    requires WriteEffect(g, s.ring, DiskPos(g, pos), data, i, true, newIndex).1
    requires pos <= x < pos + |data|
    ensures ResidentAt(g, s, x)
  {
    WriteAgrees(g, checkers, s, i, pos, data, newIndex);
    WriteStaysNear(g, pos, data, x - pos);
  }

  lemma BytesAfterWrite(g: Geometry, checkers: nat, s: System, i: nat, pos: nat, data: seq<byte>, newIndex: bool)
    requires Deployed(g, checkers) && Good(g, checkers, s)
    requires MayCall(g, checkers, s, WriteBlock(i, pos, data, newIndex))
    ensures var s' := AfterCall(g, checkers, s, WriteBlock(i, pos, data, newIndex));
            Fits(g, checkers, s') && BytesKept(g, checkers, s')
  {
    var call := WriteBlock(i, pos, data, newIndex);
    var s' := AfterCall(g, checkers, s, call);
    if WriteEffect(g, s.ring, DiskPos(g, pos), data, i, true, newIndex).1 {
      forall x: nat | pos <= x < pos + |data| ensures ResidentAt(g, s, x) {
        AcceptedIsResident(g, checkers, s, i, pos, data, newIndex, x);
      }
      DiskPosParts(g, pos);
      forall q: nat | q in s'.written ensures ByteKept(g, s', q) {
        if pos <= q < pos + |data| {
          OwnByte(g, s, pos, data, q);
          assert ResidentAt(g, s, q);
        } else {
          assert ByteKept(g, s, q);
          if ResidentAt(g, s, q) { OtherByte(g, s, pos, data, q); }
        }
      }
    } else {
      forall q: nat | q in s'.written ensures ByteKept(g, s', q) { assert ByteKept(g, s, q); }
    }
  }

  // ---------- counters ----------

  lemma CountsAfterWrite(g: Geometry, checkers: nat, s: System, i: nat, pos: nat, data: seq<byte>, newIndex: bool)
    requires Deployed(g, checkers) && Good(g, checkers, s)
    requires MayCall(g, checkers, s, WriteBlock(i, pos, data, newIndex))
    ensures var s' := AfterCall(g, checkers, s, WriteBlock(i, pos, data, newIndex));
            Fits(g, checkers, s') && CountsKept(g, checkers, s')
  {
    var p := PlanOf(g, checkers);
    var s' := AfterCall(g, checkers, s, WriteBlock(i, pos, data, newIndex));
    var b := Quot(pos, g.blockSize);
    var c := Rem(b, g.slots);
    WriteAgrees(g, checkers, s, i, pos, data, newIndex);
    WritesAvoidReleased(g, checkers, s, i, b);
    DiskPosParts(g, pos);
    forall d: nat, j: nat | d < g.slots && j < g.writers ensures CountKept(g, s', d, j) {
      assert CountKept(g, s, d, j) && SlotNear(p, s.prot, d);
      if CountAt(g, d, j) == CountAt(g, c, i) { CountAtInjective(g, d, j, c, i); }
    }
    forall j: nat, x: nat ensures IndexSane(g, s', j, x) { assert IndexSane(g, s, j, x); }
  }

  // ---------- every call ----------

  lemma WriteStaysGood(g: Geometry, checkers: nat, s: System, i: nat, pos: nat, data: seq<byte>, newIndex: bool)
    requires Deployed(g, checkers) && Good(g, checkers, s)
    requires MayCall(g, checkers, s, WriteBlock(i, pos, data, newIndex))
    ensures Good(g, checkers, AfterCall(g, checkers, s, WriteBlock(i, pos, data, newIndex)))
  {
    var call := WriteBlock(i, pos, data, newIndex);
    var s' := AfterCall(g, checkers, s, call);
    WriteAgrees(g, checkers, s, i, pos, data, newIndex);
    assert s'.prot == Protocol.After(PlanOf(g, checkers), s.prot, StepOf(g, call));
    StepKeeps(PlanOf(g, checkers), s.prot, StepOf(g, call));
    BytesAfterWrite(g, checkers, s, i, pos, data, newIndex);
    CountsAfterWrite(g, checkers, s, i, pos, data, newIndex);
    forall c: nat | c < g.slots ensures SlotCoupled(g, s', c) { assert SlotCoupled(g, s, c); }
    forall j: nat | j < g.writers ensures WriterCoupled(g, s', j) { assert WriterCoupled(g, s, j); }
    forall k: nat | k < checkers ensures CheckerCoupled(g, s', k) { assert CheckerCoupled(g, s, k); }
  }

  // ---------- patches ----------

  /** The block that a slot carries is less than a round of the disk beyond what a patch is aimed at. */
  lemma PatchNotRoundAgo(g: Geometry, checkers: nat, s: System, i: nat, pos: nat, data: seq<byte>, c: nat)
    requires Deployed(g, checkers) && Good(g, checkers, s) && MayPatch(g, s, i, pos, data) && c < g.slots
    ensures s.prot.block[c] < Quot(pos, g.blockSize) + g.diskBlocks
  {
    var p := PlanOf(g, checkers);
    var k := p.Checker(c);
    RemAtMost(g.slots, checkers);
    assert SlotNear(p, s.prot, c) && WriterAhead(p, s.prot, k, i);
  }

  /** What an accepted patch covers is resident: the wrapped test names the block that was stored there. */
  lemma PatchedIsResident(g: Geometry, checkers: nat, s: System, i: nat, pos: nat, data: seq<byte>, x: nat)
    requires Deployed(g, checkers) && Good(g, checkers, s) && MayPatch(g, s, i, pos, data)
    requires WriteEffect(g, s.ring, DiskPos(g, pos), data, i, false, false).1 && pos <= x < pos + |data|
    ensures ResidentAt(g, s, x)
  {
    var b := Quot(x, g.blockSize);
    var c := Rem(b, g.slots);
    JudgeParts(g, s.ring.diskId, pos, |data|);
    WriteStaysNear(g, pos, data, x - pos);
    PatchNotRoundAgo(g, checkers, s, i, pos, data, c);
    assert ByteKept(g, s, x) && SlotCoupled(g, s, c);
    RemEqual(s.prot.block[c], b, g.diskBlocks);
  }

  /** A patch changes the patched bytes and nothing else: no published id, no counter. */
  lemma PatchEffect(g: Geometry, checkers: nat, s: System, i: nat, pos: nat, data: seq<byte>)
    requires Deployed(g, checkers) && Good(g, checkers, s) && MayPatch(g, s, i, pos, data)
    ensures var ring := WriteEffect(g, s.ring, DiskPos(g, pos), data, i, false, false).0;
            ring == s.ring.(bytes := ring.bytes)
  {}

  /** Patch positions' blocks cannot be ahead of their slots by a round of the disk. */
  lemma PatchNotRoundAhead(g: Geometry, checkers: nat, s: System, i: nat, pos: nat, data: seq<byte>, c: nat)
    requires Deployed(g, checkers) && Good(g, checkers, s) && MayPatch(g, s, i, pos, data) && data != [] && c < g.slots
    ensures Quot(pos, g.blockSize) + 1 < s.prot.block[c] + g.diskBlocks
  {
    var p := PlanOf(g, checkers);
    var b, k := Quot(pos, g.blockSize), p.Checker(c);
    var own := p.Checker(p.Slot(b));
    assert pos in s.written && ByteKept(g, s, pos);
    assert SlotNear(p, s.prot, c) && SlotNear(p, s.prot, p.Slot(b));
    assert WriterSane(p, s.prot, i) && WriterAhead(p, s.prot, own, i);
    RemAtMost(g.slots, checkers);
    CellInReach(p, s.prot, i, k);
  }

  /** A patch is accepted exactly if the block it is aimed at is resident, and the next one if it reaches the end. */
  lemma PatchAgrees(g: Geometry, checkers: nat, s: System, i: nat, pos: nat, data: seq<byte>)
    requires Deployed(g, checkers) && Good(g, checkers, s) && MayPatch(g, s, i, pos, data) && data != []
    ensures WriteEffect(g, s.ring, DiskPos(g, pos), data, i, false, false).1
       <==> Accepts(PlanOf(g, checkers), s.prot, Quot(pos, g.blockSize), ToEnd(g, pos, data))
  {
    var b := Quot(pos, g.blockSize);
    JudgeParts(g, s.ring.diskId, pos, |data|);
    forall d: nat | b <= d <= b + 1
      ensures s.ring.diskId[Rem(d, g.slots)] == Rem(d, g.diskBlocks) <==> Resident(PlanOf(g, checkers), s.prot, d)
    {
      var c := Rem(d, g.slots);
      assert SlotCoupled(g, s, c);
      PatchNotRoundAgo(g, checkers, s, i, pos, data, c);
      PatchNotRoundAhead(g, checkers, s, i, pos, data, c);
      RemEqual(s.prot.block[c], d, g.diskBlocks);
    }
  }

  lemma PatchBytes(g: Geometry, checkers: nat, s: System, i: nat, pos: nat, data: seq<byte>)
    requires Deployed(g, checkers) && Good(g, checkers, s) && MayCall(g, checkers, s, PatchBlock(i, pos, data))
    ensures var s' := AfterCall(g, checkers, s, PatchBlock(i, pos, data)); Fits(g, checkers, s') && BytesKept(g, checkers, s')
  {
    var s' := AfterCall(g, checkers, s, PatchBlock(i, pos, data));
    if WriteEffect(g, s.ring, DiskPos(g, pos), data, i, false, false).1 {
      forall x: nat | pos <= x < pos + |data| ensures ResidentAt(g, s, x) { PatchedIsResident(g, checkers, s, i, pos, data, x); }
      DiskPosParts(g, pos);
      forall q: nat | q in s'.written ensures ByteKept(g, s', q) {
        assert ByteKept(g, s, q);
        if pos <= q < pos + |data| { OwnByte(g, s, pos, data, q); } else if ResidentAt(g, s, q) { OtherByte(g, s, pos, data, q); }
      }
    } else {
      forall q: nat | q in s'.written ensures ByteKept(g, s', q) { assert ByteKept(g, s, q); }
    }
  }

  lemma PatchStaysGood(g: Geometry, checkers: nat, s: System, i: nat, pos: nat, data: seq<byte>)
    requires Deployed(g, checkers) && Good(g, checkers, s) && MayCall(g, checkers, s, PatchBlock(i, pos, data))
    ensures Good(g, checkers, AfterCall(g, checkers, s, PatchBlock(i, pos, data)))
  {
    var s' := AfterCall(g, checkers, s, PatchBlock(i, pos, data));
    PatchEffect(g, checkers, s, i, pos, data);
    PatchBytes(g, checkers, s, i, pos, data);
    forall c: nat | c < g.slots ensures SlotCoupled(g, s', c) { assert SlotCoupled(g, s, c); }
    forall j: nat | j < g.writers ensures WriterCoupled(g, s', j) { assert WriterCoupled(g, s, j); }
    forall k: nat | k < checkers ensures CheckerCoupled(g, s', k) { assert CheckerCoupled(g, s, k); }
    forall d: nat, j: nat | d < g.slots && j < g.writers ensures CountKept(g, s', d, j) { assert CountKept(g, s, d, j); }
    forall j: nat, x: nat ensures IndexSane(g, s', j, x) { assert IndexSane(g, s, j, x); }
  }

  lemma GetStaysGood(g: Geometry, checkers: nat, s: System, k: nat)
    requires Deployed(g, checkers) && Good(g, checkers, s) && MayCall(g, checkers, s, GetBlock(k))
    ensures Good(g, checkers, AfterCall(g, checkers, s, GetBlock(k)))
  {
    var p := PlanOf(g, checkers);
    var s' := AfterCall(g, checkers, s, GetBlock(k));
    ReleaseAgrees(g, checkers, s, k);
    ReleaseKeeps(p, s.prot, k);
    assert CheckerCoupled(g, s, k);
    RemAtMost(g.slots, checkers);
    AddMod(s.prot.owed[k], checkers, g.slots);
    RemQuot(s.prot.owed[k], g.slots);
    RemQuot(s.prot.owed[k] + checkers, g.slots);
    forall c: nat | c < g.slots ensures SlotCoupled(g, s', c) { assert SlotCoupled(g, s, c); }
    forall j: nat | j < g.writers ensures WriterCoupled(g, s', j) { assert WriterCoupled(g, s, j); }
    forall j: nat | j < checkers ensures CheckerCoupled(g, s', j) { assert CheckerCoupled(g, s, j); }
    forall q: nat | q in s'.written ensures ByteKept(g, s', q) { assert ByteKept(g, s, q); }
    GetCounts(g, checkers, s, k);
  }

  /** Taking a block resets its counters, and it is in flight from then on. */
  lemma GetCounts(g: Geometry, checkers: nat, s: System, k: nat)
    requires Deployed(g, checkers) && Good(g, checkers, s) && MayCall(g, checkers, s, GetBlock(k))
    requires Fits(g, checkers, AfterCall(g, checkers, s, GetBlock(k)))
    ensures CountsKept(g, checkers, AfterCall(g, checkers, s, GetBlock(k)))
  {
    var s' := AfterCall(g, checkers, s, GetBlock(k));
    assert CheckerCoupled(g, s, k);
    forall c: nat, i: nat | c < g.slots && i < g.writers ensures CountKept(g, s', c, i) {
      assert CountKept(g, s, c, i);
      ClearCountsAt(g, s.ring.counts, s.ring.nextCheck[k], g.writers, c, i);
    }
    forall i: nat, x: nat ensures IndexSane(g, s', i, x) { assert IndexSane(g, s, i, x); }
  }

  lemma RecycleStaysGood(g: Geometry, checkers: nat, s: System, c: nat)
    requires Deployed(g, checkers) && Good(g, checkers, s) && MayCall(g, checkers, s, RecycleBlock(c))
    ensures Good(g, checkers, AfterCall(g, checkers, s, RecycleBlock(c)))
  {
    var p := PlanOf(g, checkers);
    var s' := AfterCall(g, checkers, s, RecycleBlock(c));
    RecycleKeeps(p, s.prot, c);
    assert SlotCoupled(g, s, c);
    AddMod(s.prot.block[c], g.slots, g.diskBlocks);
    RemQuot(s.prot.block[c], g.diskBlocks);
    RemQuot(s.prot.block[c] + g.slots, g.diskBlocks);
    forall d: nat | d < g.slots ensures SlotCoupled(g, s', d) { assert SlotCoupled(g, s, d); }
    forall j: nat | j < g.writers ensures WriterCoupled(g, s', j) { assert WriterCoupled(g, s, j); }
    forall j: nat | j < checkers ensures CheckerCoupled(g, s', j) { assert CheckerCoupled(g, s, j); }
    forall q: nat | q in s'.written ensures ByteKept(g, s', q) { assert ByteKept(g, s, q); }
    RecycleCounts(g, checkers, s, c);
  }

  lemma RecycleCounts(g: Geometry, checkers: nat, s: System, c: nat)
    requires Deployed(g, checkers) && Good(g, checkers, s) && MayCall(g, checkers, s, RecycleBlock(c))
    ensures var s' := AfterCall(g, checkers, s, RecycleBlock(c)); Fits(g, checkers, s') && CountsKept(g, checkers, s')
  {
    var p := PlanOf(g, checkers);
    var s' := AfterCall(g, checkers, s, RecycleBlock(c));
    var fresh' := s.prot.block[c] + g.slots;
    assert SlotNear(p, s.prot, c);
    assert Rem(fresh', g.slots) == c;
    forall d: nat, i: nat | d < g.slots && i < g.writers ensures CountKept(g, s', d, i) {
      assert CountKept(g, s, d, i) && IndexSane(g, s, i, fresh');
    }
    forall i: nat, x: nat ensures IndexSane(g, s', i, x) { assert IndexSane(g, s, i, x); }
  }

  lemma CellCallStaysGood(g: Geometry, checkers: nat, s: System, call: Call)
    requires Deployed(g, checkers) && Good(g, checkers, s) && MayCall(g, checkers, s, call)
    requires call.TakeCell? || call.EnterCell?
    ensures Good(g, checkers, AfterCall(g, checkers, s, call))
  {
    var s' := AfterCall(g, checkers, s, call);
    StepKeeps(PlanOf(g, checkers), s.prot, StepOf(g, call));
    forall c: nat | c < g.slots ensures SlotCoupled(g, s', c) { assert SlotCoupled(g, s, c); }
    forall j: nat | j < g.writers ensures WriterCoupled(g, s', j) { assert WriterCoupled(g, s, j); }
    forall j: nat | j < checkers ensures CheckerCoupled(g, s', j) { assert CheckerCoupled(g, s, j); }
    forall q: nat | q in s'.written ensures ByteKept(g, s', q) { assert ByteKept(g, s, q); }
    forall d: nat, i: nat | d < g.slots && i < g.writers ensures CountKept(g, s', d, i) { assert CountKept(g, s, d, i); }
    forall i: nat, x: nat ensures IndexSane(g, s', i, x) { assert IndexSane(g, s, i, x); }
  }

  lemma StaysGood(g: Geometry, checkers: nat, s: System, call: Call)
    requires Deployed(g, checkers) && Good(g, checkers, s) && MayCall(g, checkers, s, call)
    ensures Good(g, checkers, AfterCall(g, checkers, s, call))
  {
    match call
    case TakeCell(_) => CellCallStaysGood(g, checkers, s, call);
    case EnterCell(_) => CellCallStaysGood(g, checkers, s, call);
    case WriteBlock(i, pos, data, newIndex) => WriteStaysGood(g, checkers, s, i, pos, data, newIndex);
    case PatchBlock(i, pos, data) => PatchStaysGood(g, checkers, s, i, pos, data);
    case GetBlock(k) => GetStaysGood(g, checkers, s, k);
    case RecycleBlock(c) => RecycleStaysGood(g, checkers, s, c);
  }
}
