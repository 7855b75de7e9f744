/** Flow chains of a capture, the pure part. A packet is linked to the previous packet of its flow if that one
    is near enough, and otherwise begins a chain and gets an index entry. Packets are numbered in capture
    order; the program knows them by the byte offset of their header. */
module FlowChains {
  import opened Basics

  datatype Flow = Flow(source: seq<byte>, destination: seq<byte>, sourcePort: nat, destinationPort: nat)

  /** The header of a stored packet, and the flow its payload belongs to, if it is an IP packet. */
  datatype Packet = Packet(tsH: nat, tsL: nat, caplen: nat, flowNextDiff: nat, flow: Option<Flow>)

  /** The aggregator's limits on the distance and on the time between two packets of a chain. */
  datatype Limits = Limits(offset: nat, ts: nat)

  const HEADER_LEN: nat := 16
  const FIRST_OFFSET: nat := 24
  /** `flow_next_diff` of the last packet of a chain. */
  const NO_NEXT: nat := 0xFFFF_FFFF
  const NO_LAST: nat := 0xFFFF_FFFF_FFFF_FFFF

  /** a - b on 64-bit words. */
  function Sub64(a: nat, b: nat): nat {
    if a >= b then a - b else (a - b) % TWO64
  }

  function Timestamp(p: Packet): nat {
    p.tsH * 0x1_0000_0000 + p.tsL
  }

  /** Where the header of packet k lies. */
  function Start(packets: seq<Packet>, k: nat): (s: nat)
    requires k <= |packets|
    ensures s >= FIRST_OFFSET
  {
    if k == 0 then FIRST_OFFSET else Start(packets, k - 1) + packets[k - 1].caplen + HEADER_LEN
  }

  lemma {:induction false} StartOrdered(packets: seq<Packet>, j: nat, k: nat)
    requires j < k <= |packets|
    ensures Start(packets, j) + HEADER_LEN + packets[j].caplen <= Start(packets, k)
    decreases k
  {
    if j < k - 1 { StartOrdered(packets, j, k - 1); }
  }

  lemma StartInjective(packets: seq<Packet>, j: nat, k: nat)
    requires j <= |packets| && k <= |packets|
    ensures Start(packets, j) < Start(packets, k) <==> j < k
    ensures Start(packets, j) == Start(packets, k) <==> j == k
  {
    if j < k { StartOrdered(packets, j, k); }
    if k < j { StartOrdered(packets, k, j); }
  }

  // ---------- which packets are linked ----------

  /** The last of the first k packets that belongs to the flow; -1 if there is none. */
  function LastOf(packets: seq<Packet>, k: nat, flow: Option<Flow>): (j: int)
    requires k <= |packets|
    ensures -1 <= j < k && (j >= 0 ==> packets[j].flow == flow)
  {
    if k == 0 then -1 else if packets[k - 1].flow == flow then k - 1 else LastOf(packets, k - 1, flow)
  }

  lemma {:induction false} LastIsLast(packets: seq<Packet>, k: nat, flow: Option<Flow>, i: nat)
    requires i < k <= |packets| && packets[i].flow == flow
    ensures i <= LastOf(packets, k, flow)
  {
    if packets[k - 1].flow != flow { LastIsLast(packets, k - 1, flow, i); }
  }

  /** The packet before i in its flow. */
  function Prev(packets: seq<Packet>, i: nat): (j: int)
    requires i < |packets|
    ensures -1 <= j < i
  {
    LastOf(packets, i, packets[i].flow)
  }

  predicate Near(packets: seq<Packet>, limits: Limits, j: nat, i: nat)
    requires j < i < |packets|
  {
    && Sub64(Start(packets, i), Start(packets, j)) <= limits.offset
    && Sub64(Timestamp(packets[i]), Timestamp(packets[j])) <= limits.ts
  }

  /** Packet i continues the chain of the packet before it in its flow. */
  predicate Linked(packets: seq<Packet>, limits: Limits, i: nat)
    requires i < |packets|
  {
    Prev(packets, i) >= 0 && Near(packets, limits, Prev(packets, i), i)
  }

  /** Packet j is the last one before i of the same flow. */
  ghost predicate Precedes(packets: seq<Packet>, j: nat, i: nat)
    requires j < i < |packets|
  {
    packets[j].flow == packets[i].flow && forall m: nat :: j < m < i ==> packets[m].flow != packets[i].flow
  }

  lemma PrevPrecedes(packets: seq<Packet>, j: nat, i: nat)
    requires j < i < |packets|
    ensures Prev(packets, i) == j <==> Precedes(packets, j, i)
  {
    var p := Prev(packets, i);
    if packets[j].flow == packets[i].flow { LastIsLast(packets, i, packets[i].flow, j); }
    if p == j {
      forall m: nat | j < m < i ensures packets[m].flow != packets[i].flow {
        if packets[m].flow == packets[i].flow { LastIsLast(packets, i, packets[i].flow, m); }
      }
    }
  }

  lemma Sub64Within(a: nat, b: nat, limit: nat)
    requires a < TWO64 / 2 && b < TWO64 / 2 && limit < TWO64 / 2
    ensures Sub64(a, b) <= limit <==> b <= a <= b + limit
  {}

  /** For time stamps of less than half the 64-bit range: packet i continues j exactly if j is the last packet of its
      flow before, is not later, and is within both limits. */
  lemma LinkedIff(packets: seq<Packet>, limits: Limits, j: nat, i: nat)
    requires j < i < |packets| && limits.ts < TWO64 / 2 && Timestamp(packets[i]) < TWO64 / 2 && Timestamp(packets[j]) < TWO64 / 2
    ensures Linked(packets, limits, i) && Prev(packets, i) == j <==>
      && Precedes(packets, j, i) && Start(packets, i) <= Start(packets, j) + limits.offset
      && Timestamp(packets[j]) <= Timestamp(packets[i]) <= Timestamp(packets[j]) + limits.ts
  {
    PrevPrecedes(packets, j, i);
    StartOrdered(packets, j, i);
    Sub64Within(Timestamp(packets[i]), Timestamp(packets[j]), limits.ts);
  }

  /** The first packet of the chain of packet i. */
  function HeadOf(packets: seq<Packet>, limits: Limits, i: nat): (h: nat)
    requires i < |packets|
    ensures h <= i
  {
    if Linked(packets, limits, i) then HeadOf(packets, limits, Prev(packets, i)) else i
  }

  lemma {:induction false} HeadIsHead(packets: seq<Packet>, limits: Limits, i: nat)
    requires i < |packets|
    ensures !Linked(packets, limits, HeadOf(packets, limits, i))
    ensures packets[HeadOf(packets, limits, i)].flow == packets[i].flow
  {
    if Linked(packets, limits, i) { HeadIsHead(packets, limits, Prev(packets, i)); }
  }

  /** The packet among the first k that continues packet i; -1 if there is none. */
  function Succ(packets: seq<Packet>, limits: Limits, i: nat, k: nat): (s: int)
    requires k <= |packets|
    ensures s == -1 || (i < s < k && Linked(packets, limits, s) && Prev(packets, s) == i)
  {
    if k == 0 then -1
    else if Linked(packets, limits, k - 1) && Prev(packets, k - 1) == i then k - 1
    else Succ(packets, limits, i, k - 1)
  }

  lemma {:induction false} SuccUnique(packets: seq<Packet>, limits: Limits, i: nat, s: nat, k: nat)
    requires s < k <= |packets| && Linked(packets, limits, s) && Prev(packets, s) == i
    ensures Succ(packets, limits, i, k) == s
  {
    if s < k - 1 {
      if Linked(packets, limits, k - 1) && Prev(packets, k - 1) == i {
        LastIsLast(packets, k - 1, packets[k - 1].flow, s);
      }
      SuccUnique(packets, limits, i, s, k - 1);
    }
  }

  // ---------- chains ----------

  /** The packets from i on, below n, whose chain begins at h, in capture order. */
  function Members(packets: seq<Packet>, limits: Limits, h: nat, i: nat, n: nat): seq<nat>
    requires i <= n <= |packets|
    decreases n - i
  {
    if i == n then []
    else (if HeadOf(packets, limits, i) == h then [i] else []) + Members(packets, limits, h, i + 1, n)
  }

  /** No packet of the chain lies between two places. */
  lemma {:induction false} NoMembers(packets: seq<Packet>, limits: Limits, h: nat, i: nat, j: nat, n: nat)
    requires i <= j <= n <= |packets|
    requires forall m: nat :: i <= m < j ==> HeadOf(packets, limits, m) != h
    ensures Members(packets, limits, h, i, n) == Members(packets, limits, h, j, n)
    decreases j - i
  {
    if i < j { NoMembers(packets, limits, h, i + 1, j, n); }
  }

  /** After packet i, the next packet of its chain is the one that continues it. */
  lemma NextMember(packets: seq<Packet>, limits: Limits, i: nat, n: nat)
    requires i < n <= |packets|
    ensures var h, s := HeadOf(packets, limits, i), Succ(packets, limits, i, n);
            Members(packets, limits, h, i + 1, n) == if s >= 0 then Members(packets, limits, h, s, n) else []
    ensures Succ(packets, limits, i, n) >= 0 ==> HeadOf(packets, limits, Succ(packets, limits, i, n)) == HeadOf(packets, limits, i)
  {
    var h, s := HeadOf(packets, limits, i), Succ(packets, limits, i, n);
    var end := if s >= 0 then s else n;
    forall m: nat | i + 1 <= m < end ensures HeadOf(packets, limits, m) != h { NotBetween(packets, limits, i, m, end, n); }
    NoMembers(packets, limits, h, i + 1, end, n);
  }

  /** A packet of i's chain behind i comes from i through packets of the chain. */
  lemma {:induction false} NotBetween(packets: seq<Packet>, limits: Limits, i: nat, m: nat, end: nat, n: nat)
    requires i < m < end <= n <= |packets|
    requires Succ(packets, limits, i, n) == if end < n then end else -1
    ensures HeadOf(packets, limits, m) != HeadOf(packets, limits, i)
  {
    if HeadOf(packets, limits, m) == HeadOf(packets, limits, i) {
      HeadIsHead(packets, limits, i);
      HeadIsHead(packets, limits, m);
      LastIsLast(packets, m, packets[m].flow, i);
      if Linked(packets, limits, m) {
        var j := Prev(packets, m);
        if j == i { SuccUnique(packets, limits, i, m, n); } else { NotBetween(packets, limits, i, j, end, n); }
      }
    }
  }

  /** What the reader visits from packet i on: it follows `flow_next_diff` until there is none. */
  function Walk(packets: seq<Packet>, limits: Limits, i: nat): seq<nat>
    requires i < |packets|
    decreases |packets| - i
  {
    var s := Succ(packets, limits, i, |packets|);
    [i] + if s >= 0 then Walk(packets, limits, s) else []
  }

  /** The walk visits exactly the rest of the chain, each packet once, in capture order. */
  lemma {:induction false} WalkIsChain(packets: seq<Packet>, limits: Limits, i: nat)
    requires i < |packets|
    ensures Walk(packets, limits, i) == Members(packets, limits, HeadOf(packets, limits, i), i, |packets|)
    decreases |packets| - i
  {
    NextMember(packets, limits, i, |packets|);
    var s := Succ(packets, limits, i, |packets|);
    if s >= 0 { WalkIsChain(packets, limits, s); }
  }

  /** From a chain's first packet the walk visits the whole chain. */
  lemma WalkFromHead(packets: seq<Packet>, limits: Limits, h: nat)
    requires h < |packets| && !Linked(packets, limits, h)
    ensures Walk(packets, limits, h) == Members(packets, limits, h, 0, |packets|)
  {
    WalkIsChain(packets, limits, h);
    NoMembers(packets, limits, h, 0, h, |packets|);
  }

  /** One flow per chain. */
  lemma {:induction false} MembersSameFlow(packets: seq<Packet>, limits: Limits, h: nat, i: nat, n: nat, m: nat)
    requires i <= n <= |packets| && m in Members(packets, limits, h, i, n)
    ensures i <= m < n && HeadOf(packets, limits, m) == h && packets[m].flow == packets[h].flow
    decreases n - i
  {
    if m == i && HeadOf(packets, limits, i) == h {
      HeadIsHead(packets, limits, i);
    } else {
      MembersSameFlow(packets, limits, h, i + 1, n, m);
    }
  }

  /** The chain's members are exactly the packets whose first packet it is. */
  lemma {:induction false} MembersIff(packets: seq<Packet>, limits: Limits, h: nat, i: nat, n: nat, m: nat)
    requires i <= n <= |packets|
    ensures m in Members(packets, limits, h, i, n) <==> i <= m < n && HeadOf(packets, limits, m) == h
    decreases n - i
  {
    if i < n { MembersIff(packets, limits, h, i + 1, n, m); }
  }

  /** They are listed in capture order, each once. */
  lemma {:induction false} MembersAscend(packets: seq<Packet>, limits: Limits, h: nat, i: nat, n: nat, a: nat, b: nat)
    requires i <= n <= |packets| && a < b < |Members(packets, limits, h, i, n)|
    ensures Members(packets, limits, h, i, n)[a] < Members(packets, limits, h, i, n)[b]
    decreases n - i
  {
    var rest := Members(packets, limits, h, i + 1, n);
    if HeadOf(packets, limits, i) != h {
      MembersAscend(packets, limits, h, i + 1, n, a, b);
    } else if a == 0 {
      assert Members(packets, limits, h, i, n)[b] == rest[b - 1];
      MembersIff(packets, limits, h, i + 1, n, rest[b - 1]);
    } else {
      MembersAscend(packets, limits, h, i + 1, n, a - 1, b - 1);
    }
  }

  /** The walk from a chain's first packet visits exactly the packets of the chain, each once, in capture order. */
  lemma WalkVisits(packets: seq<Packet>, limits: Limits, h: nat)
    requires h < |packets| && !Linked(packets, limits, h)
    ensures forall m: nat :: m in Walk(packets, limits, h) <==> m < |packets| && HeadOf(packets, limits, m) == h
    ensures forall a: nat, b: nat :: a < b < |Walk(packets, limits, h)| ==> Walk(packets, limits, h)[a] < Walk(packets, limits, h)[b]
  {
    WalkFromHead(packets, limits, h);
    forall m: nat ensures m in Walk(packets, limits, h) <==> m < |packets| && HeadOf(packets, limits, m) == h {
      MembersIff(packets, limits, h, 0, |packets|, m);
    }
    forall a: nat, b: nat | a < b < |Walk(packets, limits, h)| ensures Walk(packets, limits, h)[a] < Walk(packets, limits, h)[b] {
      MembersAscend(packets, limits, h, 0, |packets|, a, b);
    }
  }
}
