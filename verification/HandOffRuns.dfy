/** What the hand-off guarantees over whole runs of writers, checkers and completions. */
module HandOffRuns {
  import opened Basics
  import opened ModArith
  import opened BlockRing
  import opened Protocol
  import opened ProtocolProgress
  import opened HandOff
  import opened HandOffSteps

  ghost predicate IsStep(g: Geometry, checkers: nat, s: System, call: Call, s': System)
    requires Deployed(g, checkers)
  {
    Fits(g, checkers, s) && MayCall(g, checkers, s, call) && s' == AfterCall(g, checkers, s, call)
  }

  /** A run: any interleaving of calls of the threads from a freshly built buffer. */
  ghost predicate IsRun(g: Geometry, checkers: nat, states: seq<System>, calls: seq<Call>)
    requires Deployed(g, checkers)
  {
    && |states| == |calls| + 1
    && states[0] == Boot(g, checkers)
    && forall t :: 0 <= t < |calls| ==> IsStep(g, checkers, states[t], calls[t], states[t + 1])
  }

  lemma {:induction false} RunIsGood(g: Geometry, checkers: nat, states: seq<System>, calls: seq<Call>, t: nat)
    requires Deployed(g, checkers) && IsRun(g, checkers, states, calls) && t < |states|
    ensures Good(g, checkers, states[t])
  {
    if t == 0 {
      BootIsGood(g, checkers);
    } else {
      RunIsGood(g, checkers, states, calls, t - 1);
      assert IsStep(g, checkers, states[t - 1], calls[t - 1], states[t]);
      StaysGood(g, checkers, states[t - 1], calls[t - 1]);
    }
  }

  /** At any time, a checker's next slot is not in flight and carries the disk id it owes, and
      `checkBlock` lets it go exactly when every writer's unwrapped id is beyond the delay. */
  lemma CheckerFindsItsBlock(g: Geometry, checkers: nat, states: seq<System>, calls: seq<Call>, t: nat, k: nat)
    requires Deployed(g, checkers) && IsRun(g, checkers, states, calls) && t < |states| && k < checkers
    ensures Fits(g, checkers, states[t])
    ensures var s := states[t];
      && s.ring.nextCheck[k] !in s.prot.inFlight
      && s.ring.diskId[s.ring.nextCheck[k]] == s.prot.owed[k] % g.diskBlocks
      && s.ring.nextCheck[k] == s.prot.owed[k] % g.slots
      && (MayRelease(g, s.ring, k) <==>
            forall i :: 0 <= i < g.writers ==> s.prot.writers[i].pub > s.prot.owed[k] + g.delay)
  {
    var s, p := states[t], PlanOf(g, checkers);
    RunIsGood(g, checkers, states, calls, t);
    ReleaseAgrees(g, checkers, s, k);
    assert OwedHere(p, s.prot, k) && CheckerCoupled(g, s, k);
    RemOfRem(s.prot.owed[k], g.slots, checkers);
    assert SlotNear(p, s.prot, p.Slot(s.prot.owed[k]));
    RemQuot(s.prot.owed[k], g.diskBlocks);
    RemQuot(s.prot.owed[k], g.slots);
  }

  ghost predicate ReleasesSlot(states: seq<System>, calls: seq<Call>, t: nat, slot: nat)
    requires t < |calls| && |states| == |calls| + 1
  {
    calls[t].GetBlock? && calls[t].k < |states[t].ring.nextCheck| && states[t].ring.nextCheck[calls[t].k] == slot
  }

  lemma ReleasePutsInFlight(g: Geometry, checkers: nat, s: System, k: nat)
    requires Deployed(g, checkers) && Good(g, checkers, s) && MayCall(g, checkers, s, GetBlock(k))
    ensures s.ring.nextCheck[k] in AfterCall(g, checkers, s, GetBlock(k)).prot.inFlight
  {
    assert CheckerCoupled(g, s, k);
  }

  lemma CallLeavesInFlight(g: Geometry, checkers: nat, s: System, call: Call, slot: nat)
    requires Deployed(g, checkers) && Fits(g, checkers, s) && MayCall(g, checkers, s, call)
    requires slot in s.prot.inFlight && call != RecycleBlock(slot)
    ensures slot in AfterCall(g, checkers, s, call).prot.inFlight
  {}

  lemma {:induction false} InFlightUntilRecycled(g: Geometry, checkers: nat, states: seq<System>, calls: seq<Call>,
                                                 slot: nat, t: nat, t': nat)
    requires Deployed(g, checkers) && IsRun(g, checkers, states, calls) && t < t' < |states|
    requires ReleasesSlot(states, calls, t, slot)
    requires forall u :: t < u < t' ==> calls[u] != RecycleBlock(slot)
    ensures slot in states[t'].prot.inFlight
  {
    var s, s' := states[t' - 1], states[t'];
    assert IsStep(g, checkers, s, calls[t' - 1], s');
    RunIsGood(g, checkers, states, calls, t' - 1);
    if t' == t + 1 {
      ReleasePutsInFlight(g, checkers, s, calls[t].k);
    } else {
      InFlightUntilRecycled(g, checkers, states, calls, slot, t, t' - 1);
      CallLeavesInFlight(g, checkers, s, calls[t' - 1], slot);
    }
  }

  /** Between two releases of a slot there is a recycle of it. */
  lemma ReleasedOncePerRecycle(g: Geometry, checkers: nat, states: seq<System>, calls: seq<Call>,
                               slot: nat, t: nat, t': nat)
    requires Deployed(g, checkers) && IsRun(g, checkers, states, calls) && t < t' < |calls|
    requires ReleasesSlot(states, calls, t, slot) && ReleasesSlot(states, calls, t', slot)
    ensures exists u :: t < u < t' && calls[u] == RecycleBlock(slot)
  {
    if forall u :: t < u < t' ==> calls[u] != RecycleBlock(slot) {
      InFlightUntilRecycled(g, checkers, states, calls, slot, t, t');
      assert IsStep(g, checkers, states[t'], calls[t'], states[t' + 1]);
      CheckerFindsItsBlock(g, checkers, states, calls, t', calls[t'].k);
    }
  }

  ghost function SumIndexed(indexed: map<(nat, nat), nat>, b: nat, n: nat): nat {
    if n == 0 then 0 else SumIndexed(indexed, b, n - 1) + Indexed(indexed, n - 1, b)
  }

  lemma {:induction false} CountsAddUp(g: Geometry, checkers: nat, s: System, c: nat, n: nat)
    requires Deployed(g, checkers) && Good(g, checkers, s) && c < g.slots && n <= g.writers
    requires c !in s.prot.inFlight
    ensures SumCounts(g, s.ring.counts, c, n) == SumIndexed(s.indexed, s.prot.block[c], n)
  {
    if n > 0 {
      CountsAddUp(g, checkers, s, c, n - 1);
      assert CountKept(g, s, c, n - 1);
    }
  }

  lemma SlotByte(g: Geometry, bytes: seq<byte>, q: nat)
    requires g.Sound() && |bytes| == g.RingBytes()
    ensures SlotBytes(g, bytes, q / g.blockSize % g.slots)[q % g.blockSize] == bytes[RingIndex(g, q)]
  {
    WrapPosition(q, g.blockSize, g.slots);
    SlotFits(g, q / g.blockSize % g.slots);
    SplitPosition(RingIndex(g, q), g.blockSize);
  }

  /** The block a checker takes: its disk id, every byte accepted for it, all its index entries. */
  lemma TakenBlockIsComplete(g: Geometry, checkers: nat, states: seq<System>, calls: seq<Call>, t: nat, k: nat)
    requires Deployed(g, checkers) && IsRun(g, checkers, states, calls) && t < |calls| && calls[t] == GetBlock(k)
    ensures Fits(g, checkers, states[t]) && k < checkers
    ensures var s := states[t];
      var owed, taken := s.prot.owed[k], GetEffect(g, s.ring, k).1;
      && taken.blockId == owed % g.slots
      && taken.writePos == owed % g.diskBlocks
      && taken.packetCount == SumIndexed(s.indexed, owed, g.writers)
      && forall q :: q in s.written && q / g.blockSize == owed ==> taken.buffer[q % g.blockSize] == s.written[q]
  {
    var s, p := states[t], PlanOf(g, checkers);
    assert IsStep(g, checkers, s, calls[t], states[t + 1]);
    RunIsGood(g, checkers, states, calls, t);
    CheckerFindsItsBlock(g, checkers, states, calls, t, k);
    var owed := s.prot.owed[k];
    assert OwedHere(p, s.prot, k);
    RemQuot(owed, g.slots);
    CountsAddUp(g, checkers, s, s.ring.nextCheck[k], g.writers);
    forall q | q in s.written && q / g.blockSize == owed
      ensures GetEffect(g, s.ring, k).1.buffer[q % g.blockSize] == s.written[q]
    {
      assert ByteKept(g, s, q);
      RemQuot(q, g.blockSize);
      SlotByte(g, s.ring.bytes, q);
    }
  }

  lemma {:induction false} StaysReleased(g: Geometry, checkers: nat, states: seq<System>, calls: seq<Call>,
                                         b: nat, t: nat, t': nat)
    requires Deployed(g, checkers) && IsRun(g, checkers, states, calls) && t <= t' < |states|
    requires Fits(g, checkers, states[t]) && Released(g, checkers, states[t], b)
    ensures Fits(g, checkers, states[t']) && Released(g, checkers, states[t'], b)
  {
    RunIsGood(g, checkers, states, calls, t');
    if t < t' {
      StaysReleased(g, checkers, states, calls, b, t, t' - 1);
      assert IsStep(g, checkers, states[t' - 1], calls[t' - 1], states[t']);
    }
  }

  /** A call that stores a byte at q, if it is accepted. */
  predicate Aims(call: Call, q: nat) {
    match call
    case WriteBlock(_, pos, data, _) => pos <= q < pos + |data|
    case PatchBlock(_, pos, data) => pos <= q < pos + |data|
    case _ => false
  }

  /** Once a block is released, no call of any thread adds a byte of it, and none changes one but a patch. */
  lemma {:induction false} ReleasedBlockFrozen(g: Geometry, checkers: nat, states: seq<System>, calls: seq<Call>,
                                               t: nat, t': nat, q: nat)
    requires Deployed(g, checkers) && IsRun(g, checkers, states, calls) && t <= t' < |states|
    requires Fits(g, checkers, states[t]) && Released(g, checkers, states[t], Quot(q, g.blockSize))
    ensures q in states[t].written <==> q in states[t'].written
    ensures q in states[t].written && (forall u: nat :: t <= u < t' ==> !(calls[u].PatchBlock? && Aims(calls[u], q))) ==>
              states[t].written[q] == states[t'].written[q]
  {
    if t < t' {
      ReleasedBlockFrozen(g, checkers, states, calls, t, t' - 1, q);
      StaysReleased(g, checkers, states, calls, Quot(q, g.blockSize), t, t' - 1);
      RunIsGood(g, checkers, states, calls, t' - 1);
      assert IsStep(g, checkers, states[t' - 1], calls[t' - 1], states[t']);
      StepLeavesReleased(g, checkers, states[t' - 1], calls[t' - 1], q);
    }
  }

  lemma StepLeavesReleased(g: Geometry, checkers: nat, s: System, call: Call, q: nat)
    requires Deployed(g, checkers) && Good(g, checkers, s) && MayCall(g, checkers, s, call)
    requires Released(g, checkers, s, Quot(q, g.blockSize))
    ensures var s' := AfterCall(g, checkers, s, call);
            (q in s.written <==> q in s'.written)
            && (q in s.written && !(call.PatchBlock? && Aims(call, q)) ==> s.written[q] == s'.written[q])
  {
    if call.WriteBlock? {
      WriteLeavesReleased(g, checkers, s, call, q);
    } else {
      StoredBytes(g, checkers, s, call, q);
    }
  }

  lemma WriteLeavesReleased(g: Geometry, checkers: nat, s: System, call: Call, q: nat)
    requires Deployed(g, checkers) && Good(g, checkers, s) && call.WriteBlock? && MayCall(g, checkers, s, call)
    requires Released(g, checkers, s, Quot(q, g.blockSize))
    ensures !Aims(call, q)
    ensures var s' := AfterCall(g, checkers, s, call);
            (q in s.written <==> q in s'.written) && (q in s.written ==> s.written[q] == s'.written[q])
  {
    if Aims(call, q) {
      WriteStaysNear(g, call.pos, call.data, q - call.pos);
      BlockOfPosition(g, checkers, call.pos);
      WritesAvoidReleased(g, checkers, s, call.i, Quot(q, g.blockSize));
    }
  }

  /** What a call leaves at position q, and that a patch stores only where something was stored. */
  lemma StoredBytes(g: Geometry, checkers: nat, s: System, call: Call, q: nat)
    requires Deployed(g, checkers) && Fits(g, checkers, s) && MayCall(g, checkers, s, call)
    ensures var s' := AfterCall(g, checkers, s, call);
      && (q in s.written ==> q in s'.written)
      && (!Aims(call, q) || !call.WriteBlock? ==> (q in s'.written ==> q in s.written))
      && (!Aims(call, q) && q in s.written ==> s'.written[q] == s.written[q])
  {}

  /** While a released slot waits to be recycled, the ring keeps the released bytes in place. */
  lemma ReleasedBytesStay(g: Geometry, checkers: nat, states: seq<System>, calls: seq<Call>, t: nat, q: nat)
    requires Deployed(g, checkers) && IsRun(g, checkers, states, calls) && t < |states|
    requires Fits(g, checkers, states[t]) && q in states[t].written
    requires states[t].prot.block[Rem(Quot(q, g.blockSize), g.slots)] == Quot(q, g.blockSize)
    ensures states[t].ring.bytes[q % g.RingBytes()] == states[t].written[q]
  {
    RunIsGood(g, checkers, states, calls, t);
    assert ByteKept(g, states[t], q);
  }

  /** A block is released only when every writer's last call was at least the delay behind it. So a link that a
      writer patches while it is less far behind is patched before the release. */
  lemma PatchBeforeRelease(g: Geometry, checkers: nat, states: seq<System>, calls: seq<Call>, t: nat, i: nat, b: nat)
    requires Deployed(g, checkers) && IsRun(g, checkers, states, calls) && t < |states| && Fits(g, checkers, states[t]) && i < g.writers
    requires var tried := states[t].prot.writers[i].tried; tried.Some? ==> tried.value < b + g.delay
    ensures !Released(g, checkers, states[t], b)
  {
    RunIsGood(g, checkers, states, calls, t);
    var p, s, k := PlanOf(g, checkers), states[t].prot, Rem(b, checkers);
    assert OwedHere(p, s, k) && WriterAhead(p, s, k, i);
    if b < s.owed[k] && s.owed[k] < b + checkers { SameRem(s.owed[k], b, checkers); }
    RemAtMost(b, checkers);
  }

  /** A writer that has not called yet publishes its own id. It passes the barrier of the first
      block exactly when that id exceeds the delay, so the deployment rule `writers <= delay + 1`
      is what keeps every silent writer from being overtaken. */
  lemma SilentWritersWait(g: Geometry)
    requires g.Sound() && g.delay <= g.slots && g.writers <= g.slots
    ensures (forall i: nat :: i < g.writers ==> !CheckRss(g, 0, i)) <==> g.writers <= g.delay + 1
  {
    forall i: nat | i < g.writers ensures CheckRss(g, 0, i) <==> i > g.delay {
      ModSmall(i, g.diskBlocks);
      ModSmall(0, g.diskBlocks);
      BarrierUnwrapped(g, 0, i);
    }
    if g.writers > g.delay + 1 {
      assert CheckRss(g, 0, g.delay + 1);
    }
  }

  // ---------- progress ----------

  /** Whenever every writer repeats a refused call and no released slot is left to recycle, some checker may take
      a block exactly if the delay is less than the ring. */
  lemma RunGoesOn(g: Geometry, checkers: nat, states: seq<System>, calls: seq<Call>, t: nat)
    requires Deployed(g, checkers) && IsRun(g, checkers, states, calls) && t < |states|
    requires Fits(g, checkers, states[t]) && AllWait(PlanOf(g, checkers), states[t].prot)
    ensures (exists k: nat :: k < checkers && MayRelease(g, states[t].ring, k)) <==> g.delay < g.slots
  {
    var s, p := states[t], PlanOf(g, checkers);
    RunIsGood(g, checkers, states, calls, t);
    ReleasesIff(p, s.prot);
    forall k: nat | k < checkers ensures MayRelease(g, s.ring, k) <==> Enabled(p, s.prot, Step.Release(k)) {
      ReleaseAgrees(g, checkers, s, k);
    }
  }

  /** With a delay of the whole ring no run ever takes a block. */
  lemma NothingTaken(g: Geometry, checkers: nat, states: seq<System>, calls: seq<Call>, t: nat)
    requires Deployed(g, checkers) && g.delay == g.slots && IsRun(g, checkers, states, calls) && t < |calls|
    ensures !calls[t].GetBlock?
  {
    assert IsStep(g, checkers, states[t], calls[t], states[t + 1]);
    if calls[t].GetBlock? {
      RunIsGood(g, checkers, states, calls, t);
      ReleaseAgrees(g, checkers, states[t], calls[t].k);
      NeverReleases(PlanOf(g, checkers), states[t].prot, calls[t].k);
    }
  }
}
