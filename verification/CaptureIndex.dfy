/** From the captured packets to the answer of a query: the index entries that the parse loop writes, read back and
    filled into the query index. */
module CaptureIndex {
  import opened Basics
  import opened Bits
  import opened BloomRows
  import opened Counting
  import FlowCapture
  import opened FlowChains
  import opened IndexEntries
  import opened IndexFill
  import opened LittleEndian

  const ADDRESS_LEN: nat := 16

  /** An address in its field of 16 bytes. */
  function Padded(address: seq<byte>): (bytes: seq<byte>)
    ensures |address| <= ADDRESS_LEN ==> |bytes| == ADDRESS_LEN
  {
    address + seq(if |address| < ADDRESS_LEN then ADDRESS_LEN - |address| else 0, _ => 0)
  }

  /** An index entry as its bytes are read back. */
  function EntryFor(store: FlowCapture.IndexStore): Entry {
    Entry(store.version, Padded(store.flow.source), Padded(store.flow.destination), Word(store.flow.sourcePort, 2),
          Word(store.flow.destinationPort, 2), Word(store.position, 8))
  }

  function EntriesFor(index: seq<FlowCapture.IndexStore>): (entries: seq<Entry>)
    ensures |entries| == |index| && forall m: nat :: m < |index| ==> entries[m] == EntryFor(index[m])
  {
    seq(|index|, m requires 0 <= m < |index| => EntryFor(index[m]))
  }

  /** Addresses of one version, and ports of 16 bits. */
  predicate FlowOk(flow: Flow) {
    |flow.source| == |flow.destination| && |flow.source| in {4, 16} && flow.sourcePort < 0x1_0000 && flow.destinationPort < 0x1_0000
  }

  ghost predicate FlowsOk(packets: seq<Packet>) {
    forall i: nat :: i < |packets| && packets[i].flow.Some? ==> FlowOk(packets[i].flow.value)
  }

  /** Is the key the flow's address or port of the index type? */
  predicate HasKey(flow: Flow, kind: Kind, key: nat) {
    match kind
    case SrcPort => flow.sourcePort == key
    case DstPort => flow.destinationPort == key
    case SrcIp => |flow.source| == 4 && Number(flow.source) == key
    case DstIp => |flow.source| == 4 && Number(flow.destination) == key
    case SrcIpV6 => |flow.source| == 16 && Number(flow.source) == key
    case DstIpV6 => |flow.source| == 16 && Number(flow.destination) == key
  }

  /** A chain with the key begins with packet i, at position v. */
  predicate Begins(packets: seq<Packet>, limits: Limits, kind: Kind, key: nat, v: nat, i: nat)
    requires i < |packets|
  {
    !Linked(packets, limits, i) && packets[i].flow.Some? && HasKey(packets[i].flow.value, kind, key) && Start(packets, i) == v
  }

  /** How many chains that begin among the first k packets have the key, and their first packet at position v. */
  function ChainsWith(packets: seq<Packet>, limits: Limits, kind: Kind, key: nat, v: nat, k: nat): nat
    requires k <= |packets|
  {
    if k == 0 then 0 else ChainsWith(packets, limits, kind, key, v, k - 1) + if Begins(packets, limits, kind, key, v, k - 1) then 1 else 0
  }

  /** The fields of an index entry are those of the packet and its flow. */
  lemma EntryFields(p: Packet, flow: Flow, position: nat)
    requires p.tsL < 0x1_0000_0000
    ensures var e := FlowCapture.EntryOf(p, flow, position);
      && e.flow == flow && e.position == position && e.rxId == 0 && e.version == |flow.source| && e.ts == Or(Shl(p.tsH, 32), p.tsL)
      && e.diskBlockId == (position - position % 1024) * 1024
  {
    TimestampIs(p);
  }

  /** The time stamp is its two words, one above the other. */
  lemma TimestampIs(p: Packet)
    requires p.tsL < 0x1_0000_0000
    ensures Timestamp(p) == Or(Shl(p.tsH, 32), p.tsL)
  {
    FourBytes();
    OrAbove(p.tsL, p.tsH, 32);
    OrSwaps(p.tsL, Shl(p.tsH, 32));
    ShlIsTimes(p.tsH, 32);
  }

  lemma {:induction false} OrSwaps(a: nat, b: nat)
    ensures Or(a, b) == Or(b, a)
  {
    if a != 0 || b != 0 { OrSwaps(a / 2, b / 2); }
  }

  lemma {:induction false} ShlIsTimes(x: nat, k: nat)
    ensures Shl(x, k) == x * Pow2(k)
  {
    if k > 0 {
      ShlIsTimes(x, k - 1);
      assert 2 * (x * Pow2(k - 1)) == x * (2 * Pow2(k - 1));
    }
  }

  lemma FourBytes()
    ensures Pow2(16) == 0x1_0000 && Pow2(32) == 0x1_0000_0000
  {
    EightBits(0);
    EightBits(1);
    EightBits(2);
    EightBits(3);
    assert Pow2(8 * 0) == 1;
  }

  lemma EightBytes()
    ensures Pow2(64) == TWO64
  {
    FourBytes();
    EightBits(4);
    EightBits(5);
    EightBits(6);
    EightBits(7);
  }

  /** An entry tells of its packet: the keys of the flow, and the position of the header. */
  lemma EntrySays(p: Packet, flow: Flow, position: nat, kind: Kind, key: nat, v: nat)
    requires FlowOk(flow) && position < TWO64
    ensures EntryFor(FlowCapture.EntryOf(p, flow, position)).Ok()
    ensures EntryFor(FlowCapture.EntryOf(p, flow, position)).Says(kind, key, v) <==> HasKey(flow, kind, key) && position == v
  {
    FourBytes();
    EightBytes();
    WordReadsBack(position, 8);
    WordReadsBack(flow.sourcePort, 2);
    WordReadsBack(flow.destinationPort, 2);
    assert |flow.source| == 4 ==> Padded(flow.source)[..4] == flow.source && Padded(flow.destination)[..4] == flow.destination;
    assert |flow.source| == 16 ==> Padded(flow.source) == flow.source && Padded(flow.destination) == flow.destination;
  }

  lemma {:induction false} HeadsGrow(packets: seq<Packet>, limits: Limits, k: nat, n: nat)
    requires k <= n <= |packets|
    ensures FlowCapture.Heads(packets, limits, k) <= FlowCapture.Heads(packets, limits, n)
    decreases n
  {
    if k < n { HeadsGrow(packets, limits, k, n - 1); }
  }

  /** The indexed entry of a chain's first packet. */
  lemma HeadEntry(index: seq<FlowCapture.IndexStore>, packets: seq<Packet>, limits: Limits, k: nat) returns (m: nat)
    requires FlowCapture.IndexOk(index, packets, limits, |packets|) && k < |packets| && !Linked(packets, limits, k)
    ensures m == |FlowCapture.Heads(packets, limits, k)| < |index| && packets[k].flow.Some?
    ensures index[m] == FlowCapture.EntryOf(packets[k], packets[k].flow.value, Start(packets, k))
  {
    m := |FlowCapture.Heads(packets, limits, k)|;
    HeadsGrow(packets, limits, k + 1, |packets|);
    assert FlowCapture.Heads(packets, limits, k + 1)[m] == k;
    assert FlowCapture.IndexedAt(index, packets, FlowCapture.Heads(packets, limits, |packets|), m);
  }

  /** The indexed entry tells of a chain exactly what begins with its packet. */
  lemma HeadTells(index: seq<FlowCapture.IndexStore>, packets: seq<Packet>, limits: Limits, kind: Kind, key: nat, v: nat, j: nat)
    requires FlowCapture.IndexOk(index, packets, limits, |packets|) && FlowsOk(packets) && Start(packets, |packets|) < NO_LAST
    requires j < |packets| && !Linked(packets, limits, j)
    ensures |FlowCapture.Heads(packets, limits, j)| < |index|
    ensures EntriesFor(index)[|FlowCapture.Heads(packets, limits, j)|].Says(kind, key, v) <==> Begins(packets, limits, kind, key, v, j)
  {
    var m := HeadEntry(index, packets, limits, j);
    StartInjective(packets, j, |packets|);
    EntrySays(packets[j], packets[j].flow.value, Start(packets, j), kind, key, v);
  }

  lemma HeadCount(packets: seq<Packet>, limits: Limits, j: nat, k: nat)
    requires k == j + 1 <= |packets|
    ensures |FlowCapture.Heads(packets, limits, k)| == |FlowCapture.Heads(packets, limits, j)| + if Linked(packets, limits, j) then 0 else 1
  {}

  lemma OneMoreTold(entries: seq<Entry>, kind: Kind, key: nat, v: nat, m: nat)
    requires m < |entries|
    ensures Told(entries, kind, key, v, m + 1) == Told(entries, kind, key, v, m) + if entries[m].Says(kind, key, v) then 1 else 0
  {}

  /** One packet more. */
  lemma NextTold(index: seq<FlowCapture.IndexStore>, packets: seq<Packet>, limits: Limits, kind: Kind, key: nat, v: nat, j: nat, k: nat)
    requires FlowCapture.IndexOk(index, packets, limits, |packets|) && FlowsOk(packets) && Start(packets, |packets|) < NO_LAST
    requires k == j + 1 <= |packets| && |FlowCapture.Heads(packets, limits, j)| <= |index|
    ensures |FlowCapture.Heads(packets, limits, k)| <= |index|
    ensures Told(EntriesFor(index), kind, key, v, |FlowCapture.Heads(packets, limits, k)|)
         == Told(EntriesFor(index), kind, key, v, |FlowCapture.Heads(packets, limits, j)|) + if Begins(packets, limits, kind, key, v, j) then 1 else 0
  {
    HeadCount(packets, limits, j, k);
    if !Linked(packets, limits, j) {
      HeadTells(index, packets, limits, kind, key, v, j);
      OneMoreTold(EntriesFor(index), kind, key, v, |FlowCapture.Heads(packets, limits, j)|);
    }
  }

  /** The entries tell exactly of the chains. */
  lemma {:induction false} EntriesTellChains(index: seq<FlowCapture.IndexStore>, packets: seq<Packet>, limits: Limits, kind: Kind, key: nat, v: nat, k: nat)
    requires FlowCapture.IndexOk(index, packets, limits, |packets|) && FlowsOk(packets) && Start(packets, |packets|) < NO_LAST && k <= |packets|
    ensures |FlowCapture.Heads(packets, limits, k)| <= |index|
    ensures Told(EntriesFor(index), kind, key, v, |FlowCapture.Heads(packets, limits, k)|) == ChainsWith(packets, limits, kind, key, v, k)
  {
    if k > 0 {
      EntriesTellChains(index, packets, limits, kind, key, v, k - 1);
      NextTold(index, packets, limits, kind, key, v, k - 1, k);
    }
  }

  lemma EntriesAreOk(index: seq<FlowCapture.IndexStore>, packets: seq<Packet>, limits: Limits)
    requires FlowCapture.IndexOk(index, packets, limits, |packets|) && FlowsOk(packets)
    ensures AllOk(EntriesFor(index))
  {
    var heads := FlowCapture.Heads(packets, limits, |packets|);
    forall m: nat | m < |index| ensures EntryFor(index[m]).Ok() { assert FlowCapture.IndexedAt(index, packets, heads, m); }
  }

  /** Ask a parsed capture for an address or a port: each position is found exactly as often as a chain with that key
      begins there. */
  method Ask(index: seq<FlowCapture.IndexStore>, f: Filter, kind: Kind, key: nat, ghost packets: seq<Packet>, ghost limits: Limits)
    returns (found: seq<int>)
    requires FlowCapture.IndexOk(index, packets, limits, |packets|) && FlowsOk(packets) && Start(packets, |packets|) < NO_LAST
    requires index != [] && Dense(EntriesFor(index)) && KeyOk(kind, key)
    requires forall m: nat :: m < |index| ==> EntriesFor(index)[m].Block() < 72
    ensures forall v: nat :: Occurs(found, |found|, v) == ChainsWith(packets, limits, kind, key, v, |packets|)
  {
    EntriesAreOk(index, packets, limits);
    var entries := EntriesFor(index);
    var query := new QueryIndex(64, 8, f);
    query.Fill(entries);
    found := query.Query(kind, key, entries);
    forall v: nat ensures Occurs(found, |found|, v) == ChainsWith(packets, limits, kind, key, v, |packets|) {
      EntriesTellChains(index, packets, limits, kind, key, v, |packets|);
    }
  }
}
