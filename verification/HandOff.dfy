/** The block buffer under the protocol of its threads. The state pairs the buffer's fields, changed
    by the functions of `BlockRing`, with the protocol of `Protocol`, whose ids never wrap around.
    Proved here: the program's modular comparisons decide as the unwrapped ones do, and released
    blocks are complete, counted and never written again. */
module HandOff {
  import opened Basics
  import opened ModArith
  import opened BlockRing
  import opened Protocol

  /** `written`: last accepted byte at every unwrapped position; `indexed`: accepted index entries
      per writer and block. */
  datatype System = System(ring: Ring, prot: State, written: map<nat, byte>, indexed: map<(nat, nat), nat>)

  datatype Call =
    | TakeCell(i: nat)
    | EnterCell(i: nat)
    | WriteBlock(i: nat, pos: nat, data: seq<byte>, newIndex: bool)
    | PatchBlock(i: nat, pos: nat, data: seq<byte>)   // a write of bytes that are not new
    | GetBlock(k: nat)
    | RecycleBlock(slot: nat)

  function PlanOf(g: Geometry, checkers: nat): Plan {
    Plan(g.slots, g.delay, g.writers, checkers)
  }

  /** Whole cells in a block, whole rings on the disk, whole rounds of checkers in the ring; no more
      checkers than the delay, and writer ids within the delay. */
  ghost predicate Deployed(g: Geometry, checkers: nat) {
    && g.Sound()
    && PlanOf(g, checkers).Sound()
    && g.blockSize % g.writers == 0
    && g.diskBlocks % g.slots == 0
  }

  function CellSize(g: Geometry): (c: nat)
    requires g.blockSize > 0 && g.writers > 0 && g.blockSize % g.writers == 0
    ensures c > 0 && g.blockSize == c * g.writers
  {
    g.blockSize / g.writers
  }

  /** The circular disk position of an unwrapped one. */
  function DiskPos(g: Geometry, pos: nat): nat
    requires g.Sound()
  {
    WrapPosition(pos, g.blockSize, g.diskBlocks);
    pos % (g.diskBlocks * g.blockSize)
  }

  predicate ToEnd(g: Geometry, pos: nat, data: seq<byte>)
    requires g.Sound()
  {
    pos % g.blockSize + |data| >= g.blockSize
  }

  ghost function Boot(g: Geometry, checkers: nat): System
    requires Deployed(g, checkers)
  {
    RemAtMost(g.slots, checkers);
    System(FreshRing(g, checkers), Protocol.Start(PlanOf(g, checkers)), map[], map[])
  }

  ghost predicate Fits(g: Geometry, checkers: nat, s: System)
  {
    && Shaped(g, s.ring)
    && |s.ring.published| == g.writers && |s.ring.nextCheck| == checkers
    && Protocol.Sized(PlanOf(g, checkers), s.prot)
  }

  /** The protocol's step; a patch is none. */
  function StepOf(g: Geometry, call: Call): Step
    requires g.Sound() && !call.PatchBlock?
  {
    match call
    case TakeCell(i) => Step.TakeCell(i)
    case EnterCell(i) => Step.EnterCell(i)
    case WriteBlock(i, pos, data, _) => Step.Write(i, ToEnd(g, pos, data))
    case GetBlock(k) => Step.Release(k)
    case RecycleBlock(slot) => Step.Recycle(slot)
  }

  /** A patch is aimed at bytes that were stored before, in a block that the writer left less than a round of the
      disk ago. */
  ghost predicate MayPatch(g: Geometry, s: System, i: nat, pos: nat, data: seq<byte>)
    requires g.Sound()
  {
    && |data| <= g.blockSize && i < |s.prot.writers| && s.prot.writers[i].tried.Some?
    && s.prot.writers[i].tried.value + 2 * g.slots <= Quot(pos, g.blockSize) + g.diskBlocks
    && forall q: nat :: pos <= q < pos + |data| ==> q in s.written
  }

  /** `GetBlock` is called only after `checkBlock` agreed; a write starts inside the writer's cell. */
  ghost predicate MayCall(g: Geometry, checkers: nat, s: System, call: Call)
    requires Deployed(g, checkers) && Fits(g, checkers, s)
  {
    if call.PatchBlock? then MayPatch(g, s, call.i, call.pos, call.data)
    else
    && Possible(PlanOf(g, checkers), s.prot, StepOf(g, call))
    && (call.WriteBlock? ==> |call.data| <= g.blockSize && s.prot.writers[call.i].cur == Some(call.pos / CellSize(g)))
    && (call.GetBlock? ==> MayRelease(g, s.ring, call.k))
  }

  /** `written` with the data recorded from position `pos` on. */
  function Laid(written: map<nat, byte>, pos: nat, data: seq<byte>): (r: map<nat, byte>)
    ensures forall q :: q in r <==> q in written || pos <= q < pos + |data|
    ensures forall q :: q in r ==> r[q] == if pos <= q < pos + |data| then data[q - pos] else written[q]
  {
    if data == [] then written
    else
      var n := |data| - 1;
      Laid(written, pos, data[..n])[pos + n := data[n]]
  }

  function Indexed(indexed: map<(nat, nat), nat>, i: nat, block: nat): nat {
    if (i, block) in indexed then indexed[(i, block)] else 0
  }

  /** The writer learns from the call's result whether it may go on. */
  ghost function SetDone(s: State, i: nat, ok: bool): State
    requires i < |s.writers|
  {
    s.(writers := s.writers[i := s.writers[i].(done := ok)])
  }

  ghost function AfterCall(g: Geometry, checkers: nat, s: System, call: Call): System
    requires Deployed(g, checkers) && Fits(g, checkers, s) && MayCall(g, checkers, s, call)
  {
    var prot := if call.PatchBlock? then s.prot else Protocol.After(PlanOf(g, checkers), s.prot, StepOf(g, call));
    match call
    case TakeCell(_) => s.(prot := prot)
    case EnterCell(_) => s.(prot := prot)
    case WriteBlock(i, pos, data, newIndex) =>
      var (ring, ok) := WriteEffect(g, s.ring, DiskPos(g, pos), data, i, true, newIndex);
      var b := Quot(pos, g.blockSize);
      System(ring, SetDone(prot, i, ok),
             if ok then Laid(s.written, pos, data) else s.written,
             if ok && newIndex then s.indexed[(i, b) := Indexed(s.indexed, i, b) + 1] else s.indexed)
    case PatchBlock(i, pos, data) =>
      var (ring, ok) := WriteEffect(g, s.ring, DiskPos(g, pos), data, i, false, false);
      s.(ring := ring, written := if ok then Laid(s.written, pos, data) else s.written)
    case GetBlock(k) => s.(ring := GetEffect(g, s.ring, k).0, prot := prot)
    case RecycleBlock(slot) => s.(ring := RecycleEffect(g, s.ring, slot), prot := prot)
  }

  // ---------- the fields are the wrapped images of the protocol ids ----------

  ghost predicate SlotCoupled(g: Geometry, s: System, c: nat)
    requires g.Sound() && c < |s.ring.diskId| && c < |s.prot.block|
  {
    s.ring.diskId[c] == Rem(s.prot.block[c], g.diskBlocks)
  }

  ghost predicate WriterCoupled(g: Geometry, s: System, i: nat)
    requires g.Sound() && i < |s.ring.published| && i < |s.prot.writers|
  {
    s.ring.published[i] == Rem(s.prot.writers[i].pub, g.diskBlocks)
  }

  ghost predicate CheckerCoupled(g: Geometry, s: System, k: nat)
    requires g.Sound() && k < |s.ring.nextCheck| && k < |s.prot.owed|
  {
    s.ring.nextCheck[k] == Rem(s.prot.owed[k], g.slots)
  }

  /** A byte accepted at q: its block has been resident, and while it still is, the ring holds it. */
  ghost predicate ByteKept(g: Geometry, s: System, q: nat)
    requires g.Sound() && |s.prot.block| == g.slots && |s.ring.bytes| == g.RingBytes() && q in s.written
  {
    var b := Quot(q, g.blockSize);
    var at := RingIndex(g, q);
    && b <= s.prot.block[Rem(b, g.slots)]
    && (b == s.prot.block[Rem(b, g.slots)] ==> s.ring.bytes[at] == s.written[q])
  }

  function RingIndex(g: Geometry, q: nat): (i: nat)
    requires g.Sound()
    ensures i < g.RingBytes()
  {
    BlockFits(g);
    q % g.RingBytes()
  }

  /** Counters of a block not yet released count its index entries; released slots are at zero. */
  ghost predicate CountKept(g: Geometry, s: System, c: nat, i: nat)
    requires |s.prot.block| == g.slots && |s.ring.counts| == g.slots * g.writers && c < g.slots && i < g.writers
  {
    s.ring.counts[CountAt(g, c, i)] == if c in s.prot.inFlight then 0 else Indexed(s.indexed, i, s.prot.block[c])
  }

  /** Index entries were counted only for blocks that have been resident. */
  ghost predicate IndexSane(g: Geometry, s: System, i: nat, b: nat)
    requires g.Sound() && |s.prot.block| == g.slots
  {
    Indexed(s.indexed, i, b) > 0 ==> b <= s.prot.block[Rem(b, g.slots)]
  }

  ghost predicate Coupled(g: Geometry, checkers: nat, s: System)
    requires g.Sound() && Fits(g, checkers, s)
  {
    && (forall c: nat :: c < g.slots ==> SlotCoupled(g, s, c))
    && (forall i: nat :: i < g.writers ==> WriterCoupled(g, s, i))
    && (forall k: nat :: k < checkers ==> CheckerCoupled(g, s, k))
  }

  ghost predicate BytesKept(g: Geometry, checkers: nat, s: System)
    requires g.Sound() && Fits(g, checkers, s)
  {
    forall q: nat :: q in s.written ==> ByteKept(g, s, q)
  }

  ghost predicate CountsKept(g: Geometry, checkers: nat, s: System)
    requires g.Sound() && Fits(g, checkers, s)
  {
    && (forall c: nat, i: nat :: c < g.slots && i < g.writers ==> CountKept(g, s, c, i))
    && (forall i: nat, b: nat :: IndexSane(g, s, i, b))
  }

  ghost predicate Good(g: Geometry, checkers: nat, s: System)
    requires Deployed(g, checkers)
  {
    && Fits(g, checkers, s)
    && Inv(PlanOf(g, checkers), s.prot)
    && Coupled(g, checkers, s)
    && BytesKept(g, checkers, s)
    && CountsKept(g, checkers, s)
  }

  lemma BootIsGood(g: Geometry, checkers: nat)
    requires Deployed(g, checkers)
    ensures Good(g, checkers, Boot(g, checkers))
  {
    StartHolds(PlanOf(g, checkers));
    RemAtMost(g.slots, checkers);
    var s := Boot(g, checkers);
    forall c: nat, i: nat | c < g.slots && i < g.writers ensures CountKept(g, s, c, i) {}
  }
}
