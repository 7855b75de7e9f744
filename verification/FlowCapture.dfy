/** Building and reading flow chains: the aggregator, the parse loop that patches `flow_next_diff` of earlier
    packets in the buffer and indexes the first packet of every chain, and the reader that follows the chains. */
module FlowCapture {
  import opened Basics
  import opened FlowChains

  datatype FlowAttr = FlowAttr(lastOffset: nat, ts: nat)

  class PacketAggregator {
    const limits: Limits
    var aggMap: map<Flow, FlowAttr>

    constructor (limits: Limits)
      ensures this.limits == limits && aggMap == map[]
    {
      this.limits, aggMap := limits, map[];
    }

    /** Offset of the packet to continue, or `NO_LAST`. An offset not behind the last one counts as one disk further. */
    method AddPacket(meta: Flow, offset: nat, ts: nat, diskSize: nat) returns (last: nat)
      modifies this
      ensures aggMap == old(aggMap)[meta := FlowAttr(offset, ts)]
      ensures last == if meta in old(aggMap) && Continues(limits, old(aggMap)[meta], offset, ts, diskSize)
                      then old(aggMap)[meta].lastOffset else NO_LAST
    {
      if meta !in aggMap {
        aggMap := aggMap[meta := FlowAttr(offset, ts)];
        return NO_LAST;
      }
      var attr := aggMap[meta];
      var orderedOffset := if offset <= attr.lastOffset then offset + diskSize else offset;
      aggMap := aggMap[meta := FlowAttr(offset, ts)];
      if Sub64(orderedOffset, attr.lastOffset) > limits.offset || Sub64(ts, attr.ts) > limits.ts { return NO_LAST; }
      last := attr.lastOffset;
    }
  }

  predicate Continues(limits: Limits, attr: FlowAttr, offset: nat, ts: nat, diskSize: nat) {
    var orderedOffset := if offset <= attr.lastOffset then offset + diskSize else offset;
    Sub64(orderedOffset, attr.lastOffset) <= limits.offset && Sub64(ts, attr.ts) <= limits.ts
  }

  /** After k packets the aggregator knows the last packet of every flow. */
  ghost predicate Knows(aggMap: map<Flow, FlowAttr>, packets: seq<Packet>, k: nat, flow: Flow)
    requires k <= |packets|
  {
    var j := LastOf(packets, k, Some(flow));
    if j >= 0 then flow in aggMap && aggMap[flow] == FlowAttr(Start(packets, j), Timestamp(packets[j])) else flow !in aggMap
  }

  /** An index entry of a chain's first packet. */
  datatype IndexStore = IndexStore(ts: nat, diskBlockId: nat, position: nat, rxId: nat, flow: Flow, version: nat)

  /** Bytes of an index entry, and the size of the index buffer. */
  const INDEX_ENUM_LEN: nat := 72
  const BUFFER_SIZE: nat := 0x4000_0000

  /** The entry of a packet. The block id divides by a macro without parentheses: by 1024, and then multiplies twice. */
  function EntryOf(p: Packet, flow: Flow, position: nat): IndexStore {
    IndexStore(Timestamp(p), position / 1024 * 1024 * 1024, position, 0, flow, |flow.source|)
  }

  /** So the entry names the packet's block only for positions in the first 1024 bytes. */
  lemma BlockIdIff(p: Packet, flow: Flow, position: nat)
    ensures EntryOf(p, flow, position).diskBlockId == position / BUFFER_SIZE <==> position < 1024
  {
    var q := position / 1024;
    assert position / BUFFER_SIZE <= q;
  }

  /** The first packets of chains among the first k, in capture order. */
  function Heads(packets: seq<Packet>, limits: Limits, k: nat): seq<nat>
    requires k <= |packets|
  {
    if k == 0 then [] else Heads(packets, limits, k - 1) + if Linked(packets, limits, k - 1) then [] else [k - 1]
  }

  /** `flow_next_diff` of packet i after k packets. */
  function DiffOf(packets: seq<Packet>, limits: Limits, i: nat, k: nat): int
    requires i < |packets| && k <= |packets|
  {
    var s := Succ(packets, limits, i, k);
    if s >= 0 then Start(packets, s) - Start(packets, i) else NO_NEXT
  }

  lemma DiffFits(packets: seq<Packet>, limits: Limits, i: nat, k: nat)
    requires i < |packets| && k <= |packets| && limits.offset < NO_NEXT && Succ(packets, limits, i, k) >= 0
    ensures 0 < DiffOf(packets, limits, i, k) < NO_NEXT
  {
    var s := Succ(packets, limits, i, k);
    StartOrdered(packets, i, s);
  }

  /** The buffer holds packet i, with the given link. */
  ghost predicate StoredAt(buffer: map<nat, Packet>, packets: seq<Packet>, i: nat, diff: int)
    requires i < |packets|
  {
    Start(packets, i) in buffer && diff >= 0 && buffer[Start(packets, i)] == packets[i].(flowNextDiff := diff)
  }

  /** The first k packets are linked as far as they reach, the others are as captured. */
  ghost predicate BufferAt(buffer: map<nat, Packet>, packets: seq<Packet>, limits: Limits, k: nat)
    requires k <= |packets|
  {
    && (forall i: nat :: i < k ==> StoredAt(buffer, packets, i, DiffOf(packets, limits, i, k)))
    && (forall i: nat :: k <= i < |packets| ==> StoredAt(buffer, packets, i, packets[i].flowNextDiff))
  }

  /** Entry m belongs to the m-th chain. */
  ghost predicate IndexedAt(index: seq<IndexStore>, packets: seq<Packet>, heads: seq<nat>, m: nat)
    requires m < |index| == |heads|
  {
    && heads[m] < |packets| && packets[heads[m]].flow.Some?
    && index[m] == EntryOf(packets[heads[m]], packets[heads[m]].flow.value, Start(packets, heads[m]))
  }

  ghost predicate IndexOk(index: seq<IndexStore>, packets: seq<Packet>, limits: Limits, k: nat)
    requires k <= |packets|
  {
    var heads := Heads(packets, limits, k);
    |index| == |heads| && forall m: nat :: m < |index| ==> IndexedAt(index, packets, heads, m)
  }

  ghost predicate AggOk(aggMap: map<Flow, FlowAttr>, packets: seq<Packet>, k: nat)
    requires k <= |packets|
  {
    forall flow: Flow :: Knows(aggMap, packets, k, flow)
  }

  // ---------- one packet ----------

  lemma AggNext(aggMap: map<Flow, FlowAttr>, packets: seq<Packet>, k: nat, flow: Flow)
    requires k < |packets| && AggOk(aggMap, packets, k) && packets[k].flow == Some(flow)
    ensures AggOk(aggMap[flow := FlowAttr(Start(packets, k), Timestamp(packets[k]))], packets, k + 1)
  {
    var next := aggMap[flow := FlowAttr(Start(packets, k), Timestamp(packets[k]))];
    var n := k + 1;
    forall f: Flow ensures Knows(next, packets, n, f) { assert Knows(aggMap, packets, k, f); }
  }

  /** What the aggregator answers is the packet to continue. */
  lemma LastIsPrev(aggMap: map<Flow, FlowAttr>, packets: seq<Packet>, limits: Limits, k: nat, flow: Flow, diskSize: nat)
    requires k < |packets| && AggOk(aggMap, packets, k) && packets[k].flow == Some(flow)
    ensures flow in aggMap && Continues(limits, aggMap[flow], Start(packets, k), Timestamp(packets[k]), diskSize)
       <==> Linked(packets, limits, k)
    ensures Linked(packets, limits, k) ==> aggMap[flow].lastOffset == Start(packets, Prev(packets, k))
  {
    assert Knows(aggMap, packets, k, flow);
    var j := Prev(packets, k);
    if j >= 0 { StartOrdered(packets, j, k); }
  }

  /** Links of other packets do not change when packet k arrives. */
  lemma DiffNext(packets: seq<Packet>, limits: Limits, i: nat, k: nat)
    requires i <= k < |packets|
    ensures DiffOf(packets, limits, i, k + 1)
         == if Linked(packets, limits, k) && Prev(packets, k) == i then Start(packets, k) - Start(packets, i)
            else if i == k then NO_NEXT else DiffOf(packets, limits, i, k)
  {}

  /** Packet k joins the capture: its own link is cleared, and the packet before it in the chain points to it. */
  lemma BufferNext(buffer: map<nat, Packet>, packets: seq<Packet>, limits: Limits, k: nat, buffer': map<nat, Packet>)
    requires k < |packets| && BufferAt(buffer, packets, limits, k)
    requires var cleared := buffer[Start(packets, k) := packets[k].(flowNextDiff := NO_NEXT)];
             if Linked(packets, limits, k) then
               var last := Start(packets, Prev(packets, k));
               && last in cleared && Start(packets, k) > last
               && buffer' == cleared[last := cleared[last].(flowNextDiff := Start(packets, k) - last)]
             else buffer' == cleared
    ensures BufferAt(buffer', packets, limits, k + 1)
  {
    var n := k + 1;
    forall i: nat | i < n ensures StoredAt(buffer', packets, i, DiffOf(packets, limits, i, n)) {
      DiffNext(packets, limits, i, k);
      StartInjective(packets, i, k);
      if i < k { assert StoredAt(buffer, packets, i, DiffOf(packets, limits, i, k)); }
      if Linked(packets, limits, k) { StartInjective(packets, i, Prev(packets, k)); }
    }
    forall i: nat | k + 1 <= i < |packets| ensures StoredAt(buffer', packets, i, packets[i].flowNextDiff) {
      StartInjective(packets, i, k);
      assert StoredAt(buffer, packets, i, packets[i].flowNextDiff);
      if Linked(packets, limits, k) { StartInjective(packets, i, Prev(packets, k)); }
    }
  }

  lemma IndexNext(index: seq<IndexStore>, packets: seq<Packet>, limits: Limits, k: nat, flow: Flow)
    requires k < |packets| && IndexOk(index, packets, limits, k) && packets[k].flow == Some(flow)
    ensures if Linked(packets, limits, k) then IndexOk(index, packets, limits, k + 1)
            else IndexOk(index + [EntryOf(packets[k], flow, Start(packets, k))], packets, limits, k + 1)
  {
    var heads := Heads(packets, limits, k);
    if Linked(packets, limits, k) {
      assert Heads(packets, limits, k + 1) == heads;
    } else {
      var index' := index + [EntryOf(packets[k], flow, Start(packets, k))];
      forall m: nat | m < |index'| ensures IndexedAt(index', packets, heads + [k], m) {
        if m < |index| { assert IndexedAt(index, packets, heads, m); }
      }
    }
  }

  /** The packet to be patched is in the buffer, and the distance fits the field. */
  lemma PatchInside(buffer: map<nat, Packet>, packets: seq<Packet>, limits: Limits, k: nat)
    requires k < |packets| && BufferAt(buffer, packets, limits, k) && Linked(packets, limits, k) && limits.offset < NO_NEXT
    ensures var last := Start(packets, Prev(packets, k));
            last in buffer && 0 < Start(packets, k) - last < NO_NEXT && Start(packets, k) < Start(packets, |packets|)
  {
    var j := Prev(packets, k);
    assert StoredAt(buffer, packets, j, DiffOf(packets, limits, j, k));
    StartOrdered(packets, j, k);
    StartOrdered(packets, k, |packets|);
  }

  lemma MoreToParse(packets: seq<Packet>, k: nat)
    requires k <= |packets|
    ensures Start(packets, k) < Start(packets, |packets|) <==> k < |packets|
  {
    StartInjective(packets, k, |packets|);
  }

  lemma NextStored(buffer: map<nat, Packet>, packets: seq<Packet>, limits: Limits, k: nat)
    requires k <= |packets| && BufferAt(buffer, packets, limits, k) && Start(packets, k) < Start(packets, |packets|)
    ensures k < |packets| && Start(packets, k) in buffer && buffer[Start(packets, k)] == packets[k]
    ensures Start(packets, k + 1) == Start(packets, k) + packets[k].caplen + HEADER_LEN
  {
    StartInjective(packets, k, |packets|);
    assert StoredAt(buffer, packets, k, packets[k].flowNextDiff);
  }

  /** The first k packets are parsed. */
  ghost predicate Parsed(limits: Limits, buffer: map<nat, Packet>, aggMap: map<Flow, FlowAttr>, index: seq<IndexStore>,
                         packets: seq<Packet>, k: nat)
    requires k <= |packets|
  {
    && limits.offset < NO_NEXT && BufferAt(buffer, packets, limits, k)
    && AggOk(aggMap, packets, k) && IndexOk(index, packets, limits, k)
  }

  // ---------- the parse loop ----------

  /** Return codes 0, 2 and 3 of the program. */
  datatype Outcome = Done | IndexOverflow | NonIp

  class Capture {
    /** The captured packets by the offset of their header. */
    var buffer: map<nat, Packet>
    var index: seq<IndexStore>

    constructor (buffer: map<nat, Packet>)
      ensures this.buffer == buffer && index == []
    {
      this.buffer, index := buffer, [];
    }

    /** A packet whose own link was cleared joins its flow: the packet before it is patched, or it is indexed. */
    method Join(packet: Packet, flow: Flow, readOffset: nat, agg: PacketAggregator, ghost packets: seq<Packet>, ghost k: nat,
                ghost before: map<nat, Packet>)
      requires k < |packets| && readOffset == Start(packets, k) < NO_LAST && packets[k].flow == Some(flow) && agg.limits.offset < NO_NEXT
      requires EntryOf(packet, flow, readOffset) == EntryOf(packets[k], flow, readOffset)
      requires BufferAt(before, packets, agg.limits, k) && buffer == before[readOffset := packets[k].(flowNextDiff := NO_NEXT)]
      requires AggOk(agg.aggMap, packets, k) && IndexOk(index, packets, agg.limits, k)
      modifies this, agg
      ensures Parsed(agg.limits, buffer, agg.aggMap, index, packets, k + 1)
    {
      LastIsPrev(agg.aggMap, packets, agg.limits, k, flow, BUFFER_SIZE);
      AggNext(agg.aggMap, packets, k, flow);
      IndexNext(index, packets, agg.limits, k, flow);
      var last := agg.AddPacket(flow, readOffset, Timestamp(packet), BUFFER_SIZE);
      if Linked(packets, agg.limits, k) { PatchInside(before, packets, agg.limits, k); }
      if last != NO_LAST {
        var diff := (readOffset - last) % 0x1_0000_0000;
        buffer := buffer[last := buffer[last].(flowNextDiff := diff)];
      } else {
        index := index + [EntryOf(packet, flow, readOffset)];
      }
      BufferNext(before, packets, agg.limits, k, buffer);
    }

    /** Reads the packet at an offset, clears its link and lets it join its flow, if it has one. */
    method ParseOne(readOffset: nat, agg: PacketAggregator, ghost packets: seq<Packet>, ghost k: nat) returns (ip: bool, newOffset: nat)
      requires k < |packets| && readOffset == Start(packets, k) < Start(packets, |packets|) < NO_LAST && Parsed(agg.limits, buffer, agg.aggMap, index, packets, k)
      modifies this, agg
      ensures newOffset == Start(packets, k + 1) && (ip <==> packets[k].flow.Some?)
      ensures if ip then Parsed(agg.limits, buffer, agg.aggMap, index, packets, k + 1) else IndexOk(index, packets, agg.limits, k)
    {
      NextStored(buffer, packets, agg.limits, k);
      ghost var before := buffer;
      var packet := buffer[readOffset].(flowNextDiff := NO_NEXT);
      buffer := buffer[readOffset := packet];
      newOffset := readOffset + packet.caplen + HEADER_LEN;
      ip := packet.flow != None;
      if ip { Join(packet, packet.flow.value, readOffset, agg, packets, k, before); }
    }

    /** Goes through the capture once. `len` is its length in bytes. */
    method Parse(len: nat, agg: PacketAggregator, ghost packets: seq<Packet>) returns (outcome: Outcome, ghost count: nat)
      requires Parsed(agg.limits, buffer, agg.aggMap, index, packets, 0) && len == Start(packets, |packets|) < NO_LAST
      modifies this, agg
      ensures count <= |packets| && (outcome.Done? ==> count == |packets|)
      ensures outcome.NonIp? ==> count < |packets| && packets[count].flow == None && IndexOk(index, packets, agg.limits, count)
      ensures outcome.IndexOverflow? ==> |index| * INDEX_ENUM_LEN > BUFFER_SIZE
      ensures !outcome.NonIp? ==> Parsed(agg.limits, buffer, agg.aggMap, index, packets, count)
    {
      var readOffset, totalLen := FIRST_OFFSET, FIRST_OFFSET;
      count := 0;
      while totalLen < len
        invariant count <= |packets| && readOffset == totalLen == Start(packets, count) && Parsed(agg.limits, buffer, agg.aggMap, index, packets, count)
        decreases |packets| - count
      {
        MoreToParse(packets, count);
        var ip, newOffset := ParseOne(readOffset, agg, packets, count);
        totalLen := totalLen + (newOffset - readOffset);
        if !ip { return NonIp, count; }
        count := count + 1;
        if |index| * INDEX_ENUM_LEN > BUFFER_SIZE { return IndexOverflow, count; }
        readOffset := newOffset;
      }
      MoreToParse(packets, count);
      outcome := Done;
    }
  }
}
