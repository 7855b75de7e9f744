/** The stored index entries of a capture, block by block: which records of which index type belong to a block,
    and how the vectors of an index type hold them, one sorted stretch behind the other. */
module IndexEntries {
  import opened Basics
  import opened BloomRows
  import opened FilteredQuery
  import opened LittleEndian
  import opened PrefixBloom
  import opened Records

  /** An entry as it is stored: two addresses of 4 or 16 bytes, two ports, the packet's position. */
  datatype Entry = Entry(version: nat, sourceAddress: seq<byte>, destinationAddress: seq<byte>, sourcePort: seq<byte>,
                         destinationPort: seq<byte>, position: seq<byte>)
  {
    predicate Ok() {
      && version in {4, 16} && |sourceAddress| == |destinationAddress| == 16
      && |sourcePort| == |destinationPort| == 2 && |position| == 8
    }

    /** The entry's key of an index type, if it has one. */
    function Key(kind: Kind): Option<seq<byte>> {
      match kind
      case SrcPort => Some(sourcePort)
      case DstPort => Some(destinationPort)
      case SrcIp => if version == 4 && |sourceAddress| >= 4 then Some(sourceAddress[..4]) else None
      case DstIp => if version == 4 && |destinationAddress| >= 4 then Some(destinationAddress[..4]) else None
      case SrcIpV6 => if version != 4 then Some(sourceAddress) else None
      case DstIpV6 => if version != 4 then Some(destinationAddress) else None
    }

    /** The disk block of the packet. */
    function Block(): nat { Number(position) / BLOCK_BYTES }

    /** What is stored under the key. */
    function Stored(kind: Kind): seq<Record> {
      if Key(kind).Some? then [Record(Key(kind).value + position)] else []
    }

    /** Does the entry have this number in the field of the index type, and the packet at position v? Addresses of four
        bytes count for the IPv4 types only, the others for the IPv6 types only. */
    predicate Says(kind: Kind, key: nat, v: nat) {
      && Number(position) == v
      && match kind
         case SrcPort => Number(sourcePort) == key
         case DstPort => Number(destinationPort) == key
         case SrcIp => version == 4 && |sourceAddress| >= 4 && Number(sourceAddress[..4]) == key
         case DstIp => version == 4 && |destinationAddress| >= 4 && Number(destinationAddress[..4]) == key
         case SrcIpV6 => version != 4 && Number(sourceAddress) == key
         case DstIpV6 => version != 4 && Number(destinationAddress) == key
    }
  }

  const BLOCK_BYTES: nat := 1024 * 1024 * 1024

  /** Block b holds the positions of its 2^30 bytes. */
  lemma BlockHolds(e: Entry, b: nat)
    ensures e.Block() == b <==> b * 0x4000_0000 <= Number(e.position) < (b + 1) * 0x4000_0000
  {}

  /** The record has the entry's key and position. */
  lemma StoredRecord(e: Entry, kind: Kind)
    requires e.Ok() && e.Key(kind).Some?
    ensures var r := e.Stored(kind)[0];
      |r.bytes| == KeyLen(kind) + VALUE_LEN && KeyOf(r, KeyLen(kind)) == Number(e.Key(kind).value) && ValueOf(r, KeyLen(kind)) == Number(e.position)
  {
    var key, r := e.Key(kind).value, e.Stored(kind)[0];
    assert |key| == KeyLen(kind);
    assert r.bytes[..|key|] == key && r.bytes[|key|..] == e.position;
  }

  /** Ports are below 2^16. */
  lemma PortKey(e: Entry, kind: Kind)
    requires e.Ok() && e.Key(kind).Some?
    ensures KeyOk(kind, Number(e.Key(kind).value))
  {
    if IsPort(kind) {
      var key := e.Key(kind).value;
      assert Number(key[1..]) == key[1] as nat + 256 * Number(key[1..][1..]);
      assert key[1..][1..] == [];
    }
  }

  /** Positions only grow, and every block up to the last has an entry. */
  ghost predicate Dense(entries: seq<Entry>) {
    && (entries != [] ==> entries[0].Block() == 0)
    && forall i: nat :: i + 1 < |entries| ==> Follows(entries, i)
  }

  predicate Follows(entries: seq<Entry>, i: nat)
    requires i + 1 < |entries|
  {
    entries[i].Block() <= entries[i + 1].Block() <= entries[i].Block() + 1
  }

  lemma {:induction false} NotBefore(entries: seq<Entry>, i: nat, j: nat)
    requires Dense(entries) && i <= j < |entries|
    ensures entries[i].Block() <= entries[j].Block()
    decreases j
  {
    if i < j {
      NotBefore(entries, i, j - 1);
      assert Follows(entries, j - 1);
    }
  }

  /** Blocks that the first n entries reach. */
  function BlockCount(entries: seq<Entry>, n: nat): nat
    requires n <= |entries|
  {
    if n == 0 then 0 else entries[n - 1].Block() + 1
  }

  /** Filters after n entries: one more whenever a block id is not below their number. */
  function FilterCount(entries: seq<Entry>, n: nat): nat
    requires n <= |entries|
  {
    if n == 0 then 0
    else FilterCount(entries, n - 1) + if entries[n - 1].Block() >= FilterCount(entries, n - 1) then 1 else 0
  }

  /** The entry's filter is there. */
  predicate HasFilter(entries: seq<Entry>, i: nat)
    requires i < |entries|
  {
    entries[i].Block() < FilterCount(entries, i + 1)
  }

  predicate NotBack(entries: seq<Entry>, i: nat)
    requires i + 1 < |entries|
  {
    entries[i].Block() <= entries[i + 1].Block()
  }

  lemma {:induction false} FiltersAreBlocks(entries: seq<Entry>, n: nat)
    requires n <= |entries| && forall i: nat :: i + 1 < |entries| ==> NotBack(entries, i)
    requires Dense(entries) || forall i: nat :: i < |entries| ==> HasFilter(entries, i)
    ensures FilterCount(entries, n) == BlockCount(entries, n)
  {
    if n > 0 {
      FiltersAreBlocks(entries, n - 1);
      assert Dense(entries) || HasFilter(entries, n - 1);
      if n > 1 { assert NotBack(entries, n - 2) && (Dense(entries) ==> Follows(entries, n - 2)); }
    }
  }

  /** While the block ids do not go back, every entry finds its filter exactly if no block is without an entry. */
  lemma FiltersInRangeIff(entries: seq<Entry>)
    requires forall i: nat :: i + 1 < |entries| ==> NotBack(entries, i)
    ensures (forall i: nat :: i < |entries| ==> HasFilter(entries, i)) <==> Dense(entries)
  {
    if Dense(entries) {
      forall i: nat | i < |entries| ensures HasFilter(entries, i) { FiltersAreBlocks(entries, i + 1); }
    } else if forall i: nat :: i < |entries| ==> HasFilter(entries, i) {
      if entries != [] { assert HasFilter(entries, 0) && FilterCount(entries, 0) == 0; }
      forall i: nat | i + 1 < |entries| ensures Follows(entries, i) {
        assert NotBack(entries, i) && HasFilter(entries, i + 1);
        FiltersAreBlocks(entries, i + 1);
      }
      assert false;
    }
  }

  ghost predicate AllOk(entries: seq<Entry>) {
    forall i: nat :: i < |entries| ==> entries[i].Ok()
  }

  // ---------- the records of a block ----------

  /** Records of one index type that the first n entries give for block b, in order. */
  function BlockRecords(entries: seq<Entry>, kind: Kind, b: nat, n: nat): seq<Record>
    requires n <= |entries|
  {
    if n == 0 then [] else BlockRecords(entries, kind, b, n - 1) + if entries[n - 1].Block() == b then entries[n - 1].Stored(kind) else []
  }

  lemma {:induction false} BlockSized(entries: seq<Entry>, kind: Kind, b: nat, n: nat)
    requires n <= |entries| && AllOk(entries)
    ensures Sized(BlockRecords(entries, kind, b, n), KeyLen(kind) + VALUE_LEN)
  {
    if n > 0 {
      BlockSized(entries, kind, b, n - 1);
      if entries[n - 1].Key(kind).Some? { StoredRecord(entries[n - 1], kind); }
    }
  }

  lemma {:induction false} LaterBlockEmpty(entries: seq<Entry>, kind: Kind, b: nat, n: nat)
    requires n <= |entries| && forall i: nat :: i < n ==> entries[i].Block() < b
    ensures BlockRecords(entries, kind, b, n) == []
  {
    if n > 0 { LaterBlockEmpty(entries, kind, b, n - 1); }
  }

  /** Record k of a block is of one of its entries. */
  lemma {:induction false} RecordFrom(entries: seq<Entry>, kind: Kind, b: nat, n: nat, k: nat) returns (i: nat)
    requires n <= |entries| && k < |BlockRecords(entries, kind, b, n)|
    ensures i < n && entries[i].Block() == b && entries[i].Key(kind).Some? && entries[i].Stored(kind) == [BlockRecords(entries, kind, b, n)[k]]
  {
    if k < |BlockRecords(entries, kind, b, n - 1)| { i := RecordFrom(entries, kind, b, n - 1, k); } else { i := n - 1; }
  }

  // ---------- counting over all blocks ----------

  /** How often the first n entries say that v is stored under the key. */
  function Told(entries: seq<Entry>, kind: Kind, key: nat, v: nat, n: nat): nat
    requires n <= |entries|
  {
    if n == 0 then 0 else Told(entries, kind, key, v, n - 1) + if entries[n - 1].Says(kind, key, v) then 1 else 0
  }

  /** How many of the first n entries satisfy p. */
  function Entries(entries: seq<Entry>, p: Entry -> bool, n: nat): nat
    requires n <= |entries|
  {
    if n == 0 then 0 else Entries(entries, p, n - 1) + if p(entries[n - 1]) then 1 else 0
  }

  lemma {:induction false} ToldIs(entries: seq<Entry>, kind: Kind, key: nat, v: nat, n: nat, p: Entry -> bool)
    requires n <= |entries| && forall i: nat :: i < n ==> (entries[i].Says(kind, key, v) <==> p(entries[i]))
    ensures Told(entries, kind, key, v, n) == Entries(entries, p, n)
  {
    if n > 0 { ToldIs(entries, kind, key, v, n - 1, p); }
  }

  /** What is told under a port: the entries with that number in the source port, or in the destination port. */
  lemma PortsTold(entries: seq<Entry>, port: nat, v: nat)
    ensures Told(entries, SrcPort, port, v, |entries|)
         == Entries(entries, (e: Entry) => Number(e.sourcePort) == port && Number(e.position) == v, |entries|)
    ensures Told(entries, DstPort, port, v, |entries|)
         == Entries(entries, (e: Entry) => Number(e.destinationPort) == port && Number(e.position) == v, |entries|)
  {
    ToldIs(entries, SrcPort, port, v, |entries|, (e: Entry) => Number(e.sourcePort) == port && Number(e.position) == v);
    ToldIs(entries, DstPort, port, v, |entries|, (e: Entry) => Number(e.destinationPort) == port && Number(e.position) == v);
  }

  /** What is told under an address of four bytes: the entries of that version with it as their source, or destination. */
  lemma ShortAddressesTold(entries: seq<Entry>, address: nat, v: nat)
    requires AllOk(entries)
    ensures Told(entries, SrcIp, address, v, |entries|)
         == Entries(entries, (e: Entry) => e.Ok() && e.version == 4 && Number(e.sourceAddress[..4]) == address && Number(e.position) == v, |entries|)
    ensures Told(entries, DstIp, address, v, |entries|)
         == Entries(entries, (e: Entry) => e.Ok() && e.version == 4 && Number(e.destinationAddress[..4]) == address && Number(e.position) == v, |entries|)
  {
    ToldIs(entries, SrcIp, address, v, |entries|,
           (e: Entry) => e.Ok() && e.version == 4 && Number(e.sourceAddress[..4]) == address && Number(e.position) == v);
    ToldIs(entries, DstIp, address, v, |entries|,
           (e: Entry) => e.Ok() && e.version == 4 && Number(e.destinationAddress[..4]) == address && Number(e.position) == v);
  }

  /** What is told under an address of sixteen bytes. */
  lemma LongAddressesTold(entries: seq<Entry>, address: nat, v: nat)
    requires AllOk(entries)
    ensures Told(entries, SrcIpV6, address, v, |entries|)
         == Entries(entries, (e: Entry) => e.version == 16 && Number(e.sourceAddress) == address && Number(e.position) == v, |entries|)
    ensures Told(entries, DstIpV6, address, v, |entries|)
         == Entries(entries, (e: Entry) => e.version == 16 && Number(e.destinationAddress) == address && Number(e.position) == v, |entries|)
  {
    ToldIs(entries, SrcIpV6, address, v, |entries|,
           (e: Entry) => e.version == 16 && Number(e.sourceAddress) == address && Number(e.position) == v);
    ToldIs(entries, DstIpV6, address, v, |entries|,
           (e: Entry) => e.version == 16 && Number(e.destinationAddress) == address && Number(e.position) == v);
  }

  /** How often the records of block b say it. */
  function InBlock(entries: seq<Entry>, kind: Kind, key: nat, v: nat, n: nat, b: nat): nat
    requires n <= |entries|
  {
    var records := BlockRecords(entries, kind, b, n);
    Count(records, |records|, KeyLen(kind), key, key + 1, v)
  }

  /** How often the first b blocks' records say it. */
  function InBlocks(entries: seq<Entry>, kind: Kind, key: nat, v: nat, n: nat, b: nat): nat
    requires n <= |entries|
  {
    if b == 0 then 0 else InBlocks(entries, kind, key, v, n, b - 1) + InBlock(entries, kind, key, v, n, b - 1)
  }

  lemma CountStored(entries: seq<Entry>, kind: Kind, key: nat, v: nat, n: nat, b: nat)
    requires 0 < n <= |entries| && AllOk(entries)
    ensures InBlock(entries, kind, key, v, n, b)
         == InBlock(entries, kind, key, v, n - 1, b) + if entries[n - 1].Block() == b && entries[n - 1].Says(kind, key, v) then 1 else 0
  {
    var before, after, e := BlockRecords(entries, kind, b, n - 1), BlockRecords(entries, kind, b, n), entries[n - 1];
    CountSame(before, after, |before|, KeyLen(kind), key, key + 1, v);
    if e.Key(kind).Some? { StoredRecord(e, kind); }
  }

  lemma {:induction false} OneEntryMore(entries: seq<Entry>, kind: Kind, key: nat, v: nat, n: nat, b: nat)
    requires 0 < n <= |entries| && AllOk(entries)
    ensures InBlocks(entries, kind, key, v, n, b)
         == InBlocks(entries, kind, key, v, n - 1, b) + if entries[n - 1].Block() < b && entries[n - 1].Says(kind, key, v) then 1 else 0
  {
    if b > 0 {
      OneEntryMore(entries, kind, key, v, n, b - 1);
      CountStored(entries, kind, key, v, n, b - 1);
    }
  }

  /** Every entry belongs to exactly one block. */
  lemma {:induction false} BlocksTellAll(entries: seq<Entry>, kind: Kind, key: nat, v: nat, n: nat, b: nat)
    requires n <= |entries| && AllOk(entries) && forall i: nat :: i < n ==> entries[i].Block() < b
    ensures InBlocks(entries, kind, key, v, n, b) == Told(entries, kind, key, v, n)
  {
    if n == 0 { NoEntries(entries, kind, key, v, b); } else {
      BlocksTellAll(entries, kind, key, v, n - 1, b);
      OneEntryMore(entries, kind, key, v, n, b);
    }
  }

  lemma {:induction false} NoEntries(entries: seq<Entry>, kind: Kind, key: nat, v: nat, b: nat)
    ensures InBlocks(entries, kind, key, v, 0, b) == 0
  {
    if b > 0 { NoEntries(entries, kind, key, v, b - 1); }
  }

  // ---------- the vector of an index type ----------

  /** Begin and end of a block's stretch of a vector. */
  datatype Span = Span(start: nat, end: nat)

  /** The stretch of a finished block: its records, sorted by key. */
  ghost predicate Closed(entries: seq<Entry>, kind: Kind, n: nat, vector: seq<Record>, spans: seq<Span>, b: nat)
    requires n <= |entries| && b < |spans|
  {
    && spans[b].start <= spans[b].end <= |vector|
    && IsSort(BlockRecords(entries, kind, b, n), vector[spans[b].start..spans[b].end], KeyLen(kind))
  }

  /** The last block's stretch reaches to the end of the vector, in the order of the entries. */
  ghost predicate Open(entries: seq<Entry>, kind: Kind, n: nat, vector: seq<Record>, spans: seq<Span>)
    requires n <= |entries|
  {
    spans != [] ==>
      var last := |spans| - 1;
      && spans[last].start <= |vector| && vector[spans[last].start..] == BlockRecords(entries, kind, last, n)
      && forall b: nat :: b < last ==> spans[b].end <= spans[last].start
  }

  /** The vector after n entries: all blocks but the last are finished. */
  ghost predicate Filling(entries: seq<Entry>, kind: Kind, n: nat, vector: seq<Record>, spans: seq<Span>) {
    && n <= |entries| && (spans == [] ==> vector == []) && Open(entries, kind, n, vector, spans)
    && forall b: nat :: b < |spans| - 1 ==> Closed(entries, kind, n, vector, spans, b)
  }

  /** All blocks are finished, and the last one ends with the vector. */
  ghost predicate Filled(entries: seq<Entry>, kind: Kind, n: nat, vector: seq<Record>, spans: seq<Span>) {
    && n <= |entries| && (forall b: nat :: b < |spans| ==> Closed(entries, kind, n, vector, spans, b))
    && |vector| == if spans == [] then 0 else spans[|spans| - 1].end
  }

  /** An entry of the last block goes to the end of the vector. */
  lemma PushKeeps(entries: seq<Entry>, kind: Kind, n: nat, vector: seq<Record>, spans: seq<Span>)
    requires Filling(entries, kind, n, vector, spans) && n < |entries| && spans != [] && entries[n].Block() == |spans| - 1
    ensures Filling(entries, kind, n + 1, vector + entries[n].Stored(kind), spans)
  {
    var longer, last, m := vector + entries[n].Stored(kind), |spans| - 1, n + 1;
    assert longer[spans[last].start..] == vector[spans[last].start..] + entries[n].Stored(kind);
    forall b: nat | b < |spans| - 1 ensures Closed(entries, kind, m, longer, spans, b) {
      assert Closed(entries, kind, n, vector, spans, b);
      assert longer[spans[b].start..spans[b].end] == vector[spans[b].start..spans[b].end];
      assert BlockRecords(entries, kind, b, m) == BlockRecords(entries, kind, b, n);
    }
  }

  /** Sorting the last stretch, up to the end of the vector, finishes the block. */
  lemma SortFinishes(entries: seq<Entry>, kind: Kind, n: nat, vector: seq<Record>, spans: seq<Span>, sorted: seq<Record>)
    requires Filling(entries, kind, n, vector, spans) && spans != []
    requires IsSort(vector[spans[|spans| - 1].start..], sorted, KeyLen(kind))
    ensures var last := |spans| - 1;
      Filled(entries, kind, n, vector[..spans[last].start] + sorted, spans[last := spans[last].(end := |vector|)])
  {
    var last := |spans| - 1;
    var start := spans[last].start;
    var after, closed := vector[..start] + sorted, spans[last := spans[last].(end := |vector|)];
    forall b: nat | b < |closed| ensures Closed(entries, kind, n, after, closed, b) {
      if b < last {
        assert Closed(entries, kind, n, vector, spans, b);
        assert after[spans[b].start..spans[b].end] == vector[spans[b].start..spans[b].end];
      } else {
        assert after[start..|vector|] == sorted;
      }
    }
  }

  /** A new block begins where the last one ends. */
  lemma NextBlock(entries: seq<Entry>, kind: Kind, n: nat, vector: seq<Record>, spans: seq<Span>)
    requires Filled(entries, kind, n, vector, spans)
    requires forall i: nat :: i < n ==> entries[i].Block() < |spans|
    ensures Filling(entries, kind, n, vector, spans + [Span(|vector|, 0)])
  {
    var more := spans + [Span(|vector|, 0)];
    LaterBlockEmpty(entries, kind, |spans|, n);
    forall b: nat | b < |spans| ensures Closed(entries, kind, n, vector, more, b) && more[b].end <= |vector| {
      assert Closed(entries, kind, n, vector, spans, b);
    }
  }

  lemma {:induction false} PermutationFrom(a: seq<Record>, b: seq<Record>, k: nat) returns (j: nat)
    requires Permutation(a, b) && k < |b|
    ensures j < |a| && a[j] == b[k]
    decreases |a|
  {
    var p: nat :| p < |b| && b[p] == a[|a| - 1] && Permutation(a[..|a| - 1], Without(b, p));
    if k == p { j := |a| - 1; } else { j := PermutationFrom(a[..|a| - 1], Without(b, p), if k < p then k else k - 1); }
  }

  // ---------- what goes into the filters ----------

  /** The entry's key of the index type was inserted into its block's column. */
  ghost predicate KeyIn(e: Entry, kind: Kind, ops: seq<Op>) {
    e.Key(kind).Some? ==> Op.Insert(kind, Number(e.Key(kind).value), e.Block()) in ops
  }

  ghost predicate KeysIn(entries: seq<Entry>, n: nat, ops: seq<Op>) {
    && n <= |entries| && (forall c: nat :: Clear(c) !in ops)
    && forall i: nat, kind: Kind :: i < n ==> KeyIn(entries[i], kind, ops)
  }

  /** The keys of a finished block were inserted into its column. */
  lemma ClosedInserted(entries: seq<Entry>, kind: Kind, n: nat, vector: seq<Record>, spans: seq<Span>, b: nat, ops: seq<Op>)
    requires n <= |entries| && b < |spans| && Closed(entries, kind, n, vector, spans, b) && AllOk(entries) && KeysIn(entries, n, ops)
    ensures KeysInserted(ops, kind, vector[spans[b].start..spans[b].end], b)
  {
    var sorted := vector[spans[b].start..spans[b].end];
    forall k: nat | k < |sorted| ensures KeyInserted(ops, kind, sorted, b, k) {
      var j := PermutationFrom(BlockRecords(entries, kind, b, n), sorted, k);
      var i := RecordFrom(entries, kind, b, n, j);
      assert KeyIn(entries[i], kind, ops);
      StoredRecord(entries[i], kind);
      PortKey(entries[i], kind);
      var m: nat :| m < |ops| && ops[m] == Op.Insert(kind, Number(entries[i].Key(kind).value), b);
      assert InsertedAt(ops, m, kind, KeyOf(sorted[k], KeyLen(kind)), b);
    }
  }
}
