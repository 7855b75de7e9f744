/** Reading the chains of a parsed capture: the walk along `flow_next_diff`, and the conservation of packets
    and bytes over all chains. */
module FlowReader {
  import opened FlowChains
  import opened FlowCapture

  /** What a packet adds to the reader's two counters. */
  datatype Measure = Packets | CapturedBytes

  function Amount(p: Packet, measure: Measure): nat {
    if measure.Packets? then 1 else p.caplen
  }

  /** Sum over the chain of h, over the packets i .. n - 1. */
  function ChainSum(packets: seq<Packet>, limits: Limits, h: nat, i: nat, n: nat, measure: Measure): nat
    requires i <= n <= |packets|
    decreases n - i
  {
    if i == n then 0
    else (if HeadOf(packets, limits, i) == h then Amount(packets[i], measure) else 0) + ChainSum(packets, limits, h, i + 1, n, measure)
  }

  lemma {:induction false} NoSum(packets: seq<Packet>, limits: Limits, h: nat, i: nat, j: nat, n: nat, measure: Measure)
    requires i <= j <= n <= |packets| && forall m: nat :: i <= m < j ==> HeadOf(packets, limits, m) != h
    ensures ChainSum(packets, limits, h, i, n, measure) == ChainSum(packets, limits, h, j, n, measure)
    decreases j - i
  {
    if i < j { NoSum(packets, limits, h, i + 1, j, n, measure); }
  }

  /** Behind packet i its chain goes on at the packet that continues it. */
  lemma SumNext(packets: seq<Packet>, limits: Limits, i: nat, measure: Measure)
    requires i < |packets|
    ensures var h, s, n := HeadOf(packets, limits, i), Succ(packets, limits, i, |packets|), |packets|;
            ChainSum(packets, limits, h, i, n, measure)
            == Amount(packets[i], measure) + if s >= 0 then ChainSum(packets, limits, h, s, n, measure) else 0
  {
    var h, s, n := HeadOf(packets, limits, i), Succ(packets, limits, i, |packets|), |packets|;
    var end := if s >= 0 then s else n;
    forall m: nat | i + 1 <= m < end ensures HeadOf(packets, limits, m) != h { NotBetween(packets, limits, i, m, end, n); }
    NoSum(packets, limits, h, i + 1, end, n, measure);
  }

  /** Sum over the chains of the first k listed packets, each from there on. */
  function ListSum(packets: seq<Packet>, limits: Limits, ids: seq<nat>, k: nat, n: nat, measure: Measure): nat
    requires k <= |ids| && n <= |packets|
  {
    if k == 0 then 0 else ListSum(packets, limits, ids, k - 1, n, measure) + ChainSum(packets, limits, ids[k - 1], 0, n, measure)
  }

  /** Sum over the first n packets. */
  function Total(packets: seq<Packet>, n: nat, measure: Measure): nat
    requires n <= |packets|
  {
    if n == 0 then 0 else Total(packets, n - 1, measure) + Amount(packets[n - 1], measure)
  }

  /** The captured bytes and a header for each packet are the length of the capture. */
  lemma {:induction false} TotalIsLength(packets: seq<Packet>, n: nat)
    requires n <= |packets|
    ensures Start(packets, n) == FIRST_OFFSET + Total(packets, n, CapturedBytes) + HEADER_LEN * n
  {
    if n > 0 { TotalIsLength(packets, n - 1); }
  }

  // ---------- the reader ----------

  /** The buffer holds every packet with its final link. */
  ghost predicate Readable(buffer: map<nat, Packet>, packets: seq<Packet>, limits: Limits) {
    limits.offset < NO_NEXT && forall i: nat :: i < |packets| ==> StoredAt(buffer, packets, i, DiffOf(packets, limits, i, |packets|))
  }

  lemma ReadStep(buffer: map<nat, Packet>, packets: seq<Packet>, limits: Limits, i: nat)
    requires Readable(buffer, packets, limits) && i < |packets|
    ensures var at, s := Start(packets, i), Succ(packets, limits, i, |packets|);
            && at in buffer && buffer[at].caplen == packets[i].caplen
            && if s >= 0 then buffer[at].flowNextDiff !in {0, NO_NEXT} && at + buffer[at].flowNextDiff == Start(packets, s)
               else buffer[at].flowNextDiff == NO_NEXT
  {
    assert StoredAt(buffer, packets, i, DiffOf(packets, limits, i, |packets|));
    if Succ(packets, limits, i, |packets|) >= 0 { DiffFits(packets, limits, i, |packets|); }
  }

  /** Sum over the packets a walk visits. */
  function WalkSum(packets: seq<Packet>, limits: Limits, i: nat, measure: Measure): nat
    requires i < |packets|
    decreases |packets| - i
  {
    var s := Succ(packets, limits, i, |packets|);
    Amount(packets[i], measure) + if s >= 0 then WalkSum(packets, limits, s, measure) else 0
  }

  lemma {:induction false} WalkSumIsChainSum(packets: seq<Packet>, limits: Limits, i: nat, measure: Measure)
    requires i < |packets|
    ensures WalkSum(packets, limits, i, measure) == ChainSum(packets, limits, HeadOf(packets, limits, i), i, |packets|, measure)
    decreases |packets| - i
  {
    SumNext(packets, limits, i, measure);
    NextMember(packets, limits, i, |packets|);
    var s := Succ(packets, limits, i, |packets|);
    if s >= 0 { WalkSumIsChainSum(packets, limits, s, measure); }
  }

  /** Where a walk stands: what is counted, what is visited, and what is still to come. */
  ghost predicate WalkAt(packets: seq<Packet>, limits: Limits, i: nat, j: nat, packetCount: nat, byteCount: nat, visited: seq<nat>) {
    && i < |packets| && j < |packets| && visited + Walk(packets, limits, j) == Walk(packets, limits, i)
    && packetCount + WalkSum(packets, limits, j, Packets) == WalkSum(packets, limits, i, Packets)
    && byteCount + WalkSum(packets, limits, j, CapturedBytes) == WalkSum(packets, limits, i, CapturedBytes)
  }

  lemma WalkOn(packets: seq<Packet>, limits: Limits, i: nat, j: nat, packetCount: nat, byteCount: nat, visited: seq<nat>)
    requires WalkAt(packets, limits, i, j, packetCount, byteCount, visited)
    ensures var s, v := Succ(packets, limits, j, |packets|), visited + [j];
            if s >= 0 then WalkAt(packets, limits, i, s, packetCount + 1, byteCount + packets[j].caplen, v)
            else v == Walk(packets, limits, i) && packetCount + 1 == WalkSum(packets, limits, i, Packets)
                 && byteCount + packets[j].caplen == WalkSum(packets, limits, i, CapturedBytes)
  {
    var s := Succ(packets, limits, j, |packets|);
    if s >= 0 { assert visited + [j] + Walk(packets, limits, s) == visited + ([j] + Walk(packets, limits, s)); }
  }

  /** Follows one chain from packet i on. */
  method ReadChain(buffer: map<nat, Packet>, start: nat, ghost packets: seq<Packet>, ghost limits: Limits, ghost i: nat)
    returns (packetCount: nat, byteCount: nat, ghost visited: seq<nat>)
    requires Readable(buffer, packets, limits) && i < |packets| && start == Start(packets, i)
    ensures visited == Walk(packets, limits, i)
    ensures packetCount == WalkSum(packets, limits, i, Packets) && byteCount == WalkSum(packets, limits, i, CapturedBytes)
  {
    var offset := start;
    ghost var j := i;
    packetCount, byteCount, visited := 0, 0, [];
    while true
      invariant j < |packets| && offset == Start(packets, j) && WalkAt(packets, limits, i, j, packetCount, byteCount, visited)
      decreases |packets| - j
    {
      ReadStep(buffer, packets, limits, j);
      WalkOn(packets, limits, i, j, packetCount, byteCount, visited);
      var header := buffer[offset];
      packetCount := packetCount + 1;
      byteCount := byteCount + header.caplen;
      visited := visited + [j];
      if header.flowNextDiff == NO_NEXT || header.flowNextDiff == 0 { break; }
      offset := offset + header.flowNextDiff;
      j := Succ(packets, limits, j, |packets|);
    }
  }

  // ---------- all chains ----------

  lemma {:induction false} HeadsAre(packets: seq<Packet>, limits: Limits, k: nat, m: nat)
    requires k <= |packets| && m < |Heads(packets, limits, k)|
    ensures var h := Heads(packets, limits, k)[m]; h < k && !Linked(packets, limits, h)
  {
    if m < |Heads(packets, limits, k - 1)| { HeadsAre(packets, limits, k - 1, m); }
  }

  /** How often h is among the first m of a list. */
  function Times(ids: seq<nat>, m: nat, h: nat): nat
    requires m <= |ids|
  {
    if m == 0 then 0 else Times(ids, m - 1, h) + if ids[m - 1] == h then 1 else 0
  }

  lemma {:induction false} TimesIn(ids: seq<nat>, more: seq<nat>, m: nat, h: nat)
    requires m <= |ids|
    ensures Times(ids + more, m, h) == Times(ids, m, h)
  {
    if m > 0 { TimesIn(ids, more, m - 1, h); }
  }

  /** Every first packet of a chain is listed once. */
  lemma {:induction false} HeadOnce(packets: seq<Packet>, limits: Limits, k: nat, h: nat)
    requires k <= |packets| && h < |packets|
    ensures Times(Heads(packets, limits, k), |Heads(packets, limits, k)|, h) == if h < k && !Linked(packets, limits, h) then 1 else 0
  {
    if k > 0 {
      HeadOnce(packets, limits, k - 1, h);
      var heads := Heads(packets, limits, k - 1);
      if Linked(packets, limits, k - 1) { assert Heads(packets, limits, k) == heads; } else { TimesIn(heads, [k - 1], |heads|, h); }
    }
  }

  lemma {:induction false} ChainSumLast(packets: seq<Packet>, limits: Limits, h: nat, i: nat, n: nat, measure: Measure)
    requires i <= n < |packets|
    ensures ChainSum(packets, limits, h, i, n + 1, measure)
         == ChainSum(packets, limits, h, i, n, measure) + if HeadOf(packets, limits, n) == h then Amount(packets[n], measure) else 0
    decreases n - i
  {
    if i == n {
      assert ChainSum(packets, limits, h, n + 1, n + 1, measure) == 0;
    } else {
      ChainSumLast(packets, limits, h, i + 1, n, measure);
    }
  }

  /** One more packet adds to each listing of its chain. */
  lemma {:induction false} ListSumLast(packets: seq<Packet>, limits: Limits, ids: seq<nat>, k: nat, n: nat, measure: Measure)
    requires k <= |ids| && n < |packets|
    ensures ListSum(packets, limits, ids, k, n + 1, measure)
         == ListSum(packets, limits, ids, k, n, measure) + Times(ids, k, HeadOf(packets, limits, n)) * Amount(packets[n], measure)
  {
    if k > 0 {
      ListSumLast(packets, limits, ids, k - 1, n, measure);
      ChainSumLast(packets, limits, ids[k - 1], 0, n, measure);
      OnceMore(Times(ids, k - 1, HeadOf(packets, limits, n)), Amount(packets[n], measure));
    }
  }

  /** The chains of all first packets hold every packet once: packets and bytes are conserved. */
  lemma {:induction false} ChainsPartition(packets: seq<Packet>, limits: Limits, n: nat, measure: Measure)
    requires n <= |packets|
    ensures var heads := Heads(packets, limits, |packets|);
            ListSum(packets, limits, heads, |heads|, n, measure) == Total(packets, n, measure)
  {
    var heads := Heads(packets, limits, |packets|);
    if n == 0 {
      NothingYet(packets, limits, heads, |heads|, measure);
    } else {
      var last, h := n - 1, HeadOf(packets, limits, n - 1);
      ChainsPartition(packets, limits, last, measure);
      HeadIsHead(packets, limits, last);
      HeadOnce(packets, limits, |packets|, h);
      ListSumLast(packets, limits, heads, |heads|, last, measure);
      OneTimes(Times(heads, |heads|, h), Amount(packets[last], measure));
    }
  }

  lemma OnceMore(t: nat, a: nat)
    ensures (t + 1) * a == t * a + a
  {}

  lemma OneTimes(t: nat, a: nat)
    requires t == 1
    ensures t * a == a
  {}

  lemma {:induction false} NothingYet(packets: seq<Packet>, limits: Limits, ids: seq<nat>, k: nat, measure: Measure)
    requires k <= |ids|
    ensures ListSum(packets, limits, ids, k, 0, measure) == 0
  {
    if k > 0 { NothingYet(packets, limits, ids, k - 1, measure); }
  }

  /** Reads the chains that begin at the given offsets: those of the listed packets. */
  method ReadPackets(buffer: map<nat, Packet>, offsets: seq<nat>, ghost packets: seq<Packet>, ghost limits: Limits, ghost ids: seq<nat>)
    returns (packetCount: nat, byteCount: nat)
    requires Readable(buffer, packets, limits) && |offsets| == |ids|
    requires forall k: nat :: k < |ids| ==> ChainBegins(packets, limits, offsets[k], ids[k])
    ensures packetCount == ListSum(packets, limits, ids, |ids|, |packets|, Packets)
    ensures byteCount == ListSum(packets, limits, ids, |ids|, |packets|, CapturedBytes)
  {
    packetCount, byteCount := 0, 0;
    for k := 0 to |offsets|
      invariant packetCount == ListSum(packets, limits, ids, k, |packets|, Packets)
      invariant byteCount == ListSum(packets, limits, ids, k, |packets|, CapturedBytes)
    {
      assert ChainBegins(packets, limits, offsets[k], ids[k]);
      var count, bytes, visited := ReadChain(buffer, offsets[k], packets, limits, ids[k]);
      WholeChain(packets, limits, ids[k], Packets);
      WholeChain(packets, limits, ids[k], CapturedBytes);
      packetCount, byteCount := packetCount + count, byteCount + bytes;
    }
  }

  ghost predicate ChainBegins(packets: seq<Packet>, limits: Limits, offset: nat, h: nat) {
    h < |packets| && !Linked(packets, limits, h) && offset == Start(packets, h)
  }

  lemma WholeChain(packets: seq<Packet>, limits: Limits, h: nat, measure: Measure)
    requires h < |packets| && !Linked(packets, limits, h)
    ensures WalkSum(packets, limits, h, measure) == ChainSum(packets, limits, h, 0, |packets|, measure)
  {
    WalkSumIsChainSum(packets, limits, h, measure);
    NoSum(packets, limits, h, 0, h, |packets|, measure);
  }

  /** Reading from every indexed position counts every packet and every captured byte once. */
  method ReadAll(buffer: map<nat, Packet>, index: seq<IndexStore>, ghost aggMap: map<Flow, FlowAttr>, ghost packets: seq<Packet>, ghost limits: Limits)
    returns (packetCount: nat, byteCount: nat)
    requires Parsed(limits, buffer, aggMap, index, packets, |packets|)
    ensures packetCount == |packets| && byteCount == Total(packets, |packets|, CapturedBytes)
  {
    ghost var heads := Heads(packets, limits, |packets|);
    var offsets := seq(|index|, (m: nat) requires m < |index| => index[m].position);
    forall k: nat | k < |heads| ensures ChainBegins(packets, limits, offsets[k], heads[k]) {
      HeadsAre(packets, limits, |packets|, k);
      assert IndexedAt(index, packets, heads, k);
    }
    packetCount, byteCount := ReadPackets(buffer, offsets, packets, limits, heads);
    ChainsPartition(packets, limits, |packets|, Packets);
    ChainsPartition(packets, limits, |packets|, CapturedBytes);
    TotalCounts(packets, |packets|);
  }

  lemma {:induction false} TotalCounts(packets: seq<Packet>, n: nat)
    requires n <= |packets|
    ensures Total(packets, n, Packets) == n
  {
    if n > 0 { TotalCounts(packets, n - 1); }
  }
}
