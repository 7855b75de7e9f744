/** The query index of the experiment: filled from the stored entries, then asked for a key. */
module IndexFill {
  import opened BitMap
  import opened BloomRows
  import opened Counting
  import opened FilteredQuery
  import opened IndexEntries
  import opened IndexSearch
  import opened LittleEndian
  import opened PrefixBloom
  import opened Records

  /** One value per index type. */
  datatype PerKind<T> = PerKind(srcIp: T, dstIp: T, srcPort: T, dstPort: T, srcIpV6: T, dstIpV6: T) {
    function At(kind: Kind): T {
      match kind
      case SrcIp => srcIp
      case DstIp => dstIp
      case SrcPort => srcPort
      case DstPort => dstPort
      case SrcIpV6 => srcIpV6
      case DstIpV6 => dstIpV6
    }

    function With(kind: Kind, x: T): (p: PerKind<T>)
      ensures forall other: Kind :: p.At(other) == if other == kind then x else At(other)
    {
      match kind
      case SrcIp => this.(srcIp := x)
      case DstIp => this.(dstIp := x)
      case SrcPort => this.(srcPort := x)
      case DstPort => this.(dstPort := x)
      case SrcIpV6 => this.(srcIpV6 := x)
      case DstIpV6 => this.(dstIpV6 := x)
    }
  }

  /** Where the blocks' stretches of one index type are. */
  function SpansOf(metas: seq<PerKind<Span>>, kind: Kind): (spans: seq<Span>)
    ensures |spans| == |metas| && forall b: nat :: b < |metas| ==> spans[b] == metas[b].At(kind)
  {
    seq(|metas|, b requires 0 <= b < |metas| => metas[b].At(kind))
  }

  class QueryIndex {
    const bitmap: BitMap
    const f: Filter
    /** Filter b reads and writes column b. */
    var filters: seq<PrefixBloomFilter>
    var vectors: PerKind<seq<Record>>
    var metas: seq<PerKind<Span>>
    /** Insertions into the filters so far. */
    ghost var ops: seq<Op>

    ghost predicate FilterIs(b: nat)
      requires b < |filters|
      reads `filters, filters
    {
      filters[b].bitmap == bitmap && filters[b].f == f && filters[b].writingCol == filters[b].readingCol == b < bitmap.colCount
    }

    ghost predicate Sound()
      reads `filters, `ops, filters, bitmap.bitmap
    {
      && bitmap.Valid() && bitmap.rowCount >= ROWS
      && (forall b: nat :: b < |filters| ==> FilterIs(b))
      && forall r: nat, c: nat :: bitmap.InRange(r, c) ==> (bitmap.Has(r, c) <==> BloomRows.Holds(f, ops, |ops|, r, c))
    }

    constructor (blocks: nat, backup: nat, f: Filter)
      requires 0 < blocks + backup && (blocks + backup) % 8 == 0 && backup * 8 <= blocks + backup
      ensures Sound() && filters == [] && metas == [] && ops == [] && vectors == PerKind([], [], [], [], [], []) && fresh(bitmap.bitmap)
      ensures bitmap.colCount == blocks + backup
    {
      this.f, filters, metas, ops, vectors := f, [], [], [], PerKind([], [], [], [], [], []);
      bitmap := new BitMap(ROWS, blocks, backup);
    }

    /** A key of an entry: its bits in the block's filter, and its record at the end of the type's vector. */
    method AddKey(e: Entry, kind: Kind)
      requires Sound() && e.Ok() && e.Key(kind).Some? && e.Block() < |filters|
      modifies `vectors, `ops, bitmap.bitmap
      ensures Sound() && ops == old(ops) + [Op.Insert(kind, Number(e.Key(kind).value), e.Block())]
      ensures vectors == old(vectors).With(kind, old(vectors).At(kind) + e.Stored(kind))
    {
      PortKey(e, kind);
      var filter, key := filters[e.Block()], e.Key(kind).value;
      assert FilterIs(e.Block());
      var _ := filter.Insert(kind, Number(key), ops);
      ops := ops + [Op.Insert(kind, Number(key), e.Block())];
      assert filter.Agrees(ops);
      var record := Record(key + e.position);
      assert [record] == e.Stored(kind);
      vectors := vectors.With(kind, vectors.At(kind) + [record]);
    }

    method AddAddresses(e: Entry)
      requires Sound() && e.Ok() && e.Block() < |filters|
      modifies `vectors, `ops, bitmap.bitmap
      ensures Sound() && Added(old(ops), ops)
      ensures forall kind: Kind :: vectors.At(kind) == old(vectors).At(kind) + if IsPort(kind) then [] else e.Stored(kind)
      ensures forall kind: Kind :: IsPort(kind) || KeyIn(e, kind, ops)
    {
      if e.version == 4 {
        AddKey(e, SrcIp);
        AddKey(e, DstIp);
      } else {
        AddKey(e, SrcIpV6);
        AddKey(e, DstIpV6);
      }
    }

    method AddEntry(e: Entry)
      requires Sound() && e.Ok() && e.Block() < |filters|
      modifies `vectors, `ops, bitmap.bitmap
      ensures Sound() && Added(old(ops), ops)
      ensures forall kind: Kind :: vectors.At(kind) == old(vectors).At(kind) + e.Stored(kind)
      ensures forall kind: Kind :: KeyIn(e, kind, ops)
    {
      AddAddresses(e);
      ghost var addresses := ops;
      AddKey(e, SrcPort);
      AddKey(e, DstPort);
      forall kind: Kind ensures KeyIn(e, kind, ops) { if !IsPort(kind) { KeyInMore(e, kind, addresses, ops); } }
    }

    /** Sorts a vector from `start` on. */
    method SortKind(kind: Kind, start: nat)
      requires start <= |vectors.At(kind)|
      modifies `vectors
      ensures vectors == old(vectors).With(kind, vectors.At(kind)) && SortedFrom(kind, start, old(vectors).At(kind), vectors.At(kind))
    {
      var vector := vectors.At(kind);
      var sorted := SortRecords(vector[start..], KeyLen(kind));
      vectors := vectors.With(kind, vector[..start] + sorted);
    }

    /** The last block's stretches end with the vectors, and are sorted. */
    method SortLast(last: nat)
      requires last < |metas| && forall kind: Kind :: metas[last].At(kind).start <= |vectors.At(kind)|
      modifies `vectors
      ensures forall kind: Kind :: SortedFrom(kind, metas[last].At(kind).start, old(vectors).At(kind), vectors.At(kind))
    {
      SortAddresses(metas[last]);
      SortKind(SrcPort, metas[last].srcPort.start);
      SortKind(DstPort, metas[last].dstPort.start);
    }

    method SortAddresses(meta: PerKind<Span>)
      requires forall kind: Kind :: meta.At(kind).start <= |vectors.At(kind)|
      modifies `vectors
      ensures forall kind: Kind ::
        if IsPort(kind) then vectors.At(kind) == old(vectors).At(kind)
        else SortedFrom(kind, meta.At(kind).start, old(vectors).At(kind), vectors.At(kind))
    {
      SortKind(SrcIp, meta.srcIp.start);
      SortKind(DstIp, meta.dstIp.start);
      SortKind(SrcIpV6, meta.srcIpV6.start);
      SortKind(DstIpV6, meta.dstIpV6.start);
    }

    function Ended(meta: PerKind<Span>): (m: PerKind<Span>)
      reads `vectors
      ensures forall kind: Kind :: m.At(kind) == meta.At(kind).(end := |vectors.At(kind)|)
    {
      PerKind(meta.srcIp.(end := |vectors.srcIp|), meta.dstIp.(end := |vectors.dstIp|), meta.srcPort.(end := |vectors.srcPort|),
              meta.dstPort.(end := |vectors.dstPort|), meta.srcIpV6.(end := |vectors.srcIpV6|), meta.dstIpV6.(end := |vectors.dstIpV6|))
    }

    method CloseBlock(ghost entries: seq<Entry>, ghost n: nat)
      requires metas != [] && forall kind: Kind :: Filling(entries, kind, n, vectors.At(kind), SpansOf(metas, kind))
      modifies `vectors, `metas
      ensures |metas| == |old(metas)| && forall kind: Kind :: Filled(entries, kind, n, vectors.At(kind), SpansOf(metas, kind))
    {
      var last := |metas| - 1;
      ghost var before, open := vectors, metas;
      metas := metas[last := Ended(metas[last])];
      forall kind: Kind ensures metas[last].At(kind).start <= |vectors.At(kind)| {
        assert Filling(entries, kind, n, vectors.At(kind), SpansOf(open, kind));
      }
      SortLast(last);
      forall kind: Kind ensures Filled(entries, kind, n, vectors.At(kind), SpansOf(metas, kind)) {
        FromSorted(entries, kind, n, before.At(kind), SpansOf(open, kind), vectors.At(kind), SpansOf(metas, kind));
      }
    }

    /** The first entry of a block: a filter for it, and the block before is finished. */
    method OpenBlock(ghost entries: seq<Entry>, ghost n: nat)
      requires Sound() && |filters| == |metas| < bitmap.colCount
      requires n <= |entries| && forall i: nat :: i < n ==> entries[i].Block() < |metas|
      requires if metas == [] then vectors == PerKind([], [], [], [], [], []) else forall kind: Kind :: Filling(entries, kind, n, vectors.At(kind), SpansOf(metas, kind))
      modifies `filters, `vectors, `metas
      ensures Sound() && |filters| == |metas| == |old(metas)| + 1
      ensures forall kind: Kind :: Filling(entries, kind, n, vectors.At(kind), SpansOf(metas, kind))
    {
      var b := |filters|;
      AddFilter();
      if b != 0 { CloseBlock(entries, n); }
      var meta := PerKind(Begin(SrcIp), Begin(DstIp), Begin(SrcPort), Begin(DstPort), Begin(SrcIpV6), Begin(DstIpV6));
      forall kind: Kind ensures Filling(entries, kind, n, vectors.At(kind), SpansOf(metas + [meta], kind)) {
        NextBlock(entries, kind, n, vectors.At(kind), SpansOf(metas, kind));
        assert SpansOf(metas + [meta], kind) == SpansOf(metas, kind) + [Span(|vectors.At(kind)|, 0)];
      }
      metas := metas + [meta];
    }

    function Begin(kind: Kind): Span
      reads `metas
    {
      Span(if metas == [] then 0 else metas[|metas| - 1].At(kind).end, 0)
    }

    method AddFilter()
      requires Sound() && |filters| < bitmap.colCount
      modifies `filters
      ensures Sound() && |filters| == |old(filters)| + 1
    {
      var filter := new PrefixBloomFilter(bitmap, f);
      filter.SetWritingCol(|filters|);
      filter.SetReadingCol(|filters|);
      ghost var before := filters;
      filters := filters + [filter];
      forall b: nat | b < |filters| ensures FilterIs(b) {
        if b < |before| { assert old(FilterIs(b)) && filters[b] == before[b]; }
      }
    }

    /** One entry. */
    method FillOne(e: Entry, ghost entries: seq<Entry>, ghost n: nat)
      requires n < |entries| && e == entries[n] && AllOk(entries) && Dense(entries) && e.Block() < bitmap.colCount
      requires FilledTo(entries, n)
      modifies `filters, `vectors, `metas, `ops, bitmap.bitmap
      ensures FilledTo(entries, n + 1)
    {
      BlocksBelow(entries, n);
      if e.Block() >= |filters| { OpenBlock(entries, n); }
      ghost var before, keys := vectors, ops;
      assert e.Ok();
      AddEntry(e);
      ghost var m := n + 1;
      forall kind: Kind ensures Filling(entries, kind, m, vectors.At(kind), SpansOf(metas, kind)) {
        PushKeeps(entries, kind, n, before.At(kind), SpansOf(metas, kind));
      }
      MoreKeys(entries, n, keys, ops);
    }

    ghost predicate FilledTo(entries: seq<Entry>, n: nat)
      reads this, filters, bitmap.bitmap
    {
      && Sound() && n <= |entries| && |filters| == |metas| == BlockCount(entries, n) && KeysIn(entries, n, ops)
      && if n == 0 then vectors == PerKind([], [], [], [], [], []) else forall kind: Kind :: Filling(entries, kind, n, vectors.At(kind), SpansOf(metas, kind))
    }

    /** All entries, and the last block finished. */
    ghost predicate Ready(entries: seq<Entry>)
      reads this, filters, bitmap.bitmap
    {
      && Sound() && |filters| == |metas| == BlockCount(entries, |entries|) && KeysIn(entries, |entries|, ops)
      && forall kind: Kind :: Filled(entries, kind, |entries|, vectors.At(kind), SpansOf(metas, kind))
    }

    /** `fill`: the entries in the order of their packets. */
    method Fill(entries: seq<Entry>)
      requires FilledTo(entries, 0) && entries != [] && AllOk(entries) && Dense(entries)
      requires forall i: nat :: i < |entries| ==> entries[i].Block() < bitmap.colCount
      modifies `filters, `vectors, `metas, `ops, bitmap.bitmap
      ensures Ready(entries)
    {
      for i := 0 to |entries|
        invariant FilledTo(entries, i)
      {
        FillOne(entries[i], entries, i);
      }
      CloseBlock(entries, |entries|);
    }

    lemma BlockIndexed(entries: seq<Entry>, kind: Kind, b: nat)
      requires Ready(entries) && AllOk(entries) && b < |metas|
      ensures Indexed(filters[b], kind, BlockAt(vectors.At(kind), SpansOf(metas, kind)[b]), ops)
    {
      var vector, spans := vectors.At(kind), SpansOf(metas, kind);
      assert Closed(entries, kind, |entries|, vector, spans, b);
      assert FilterIs(b) && filters[b].Agrees(ops);
      ClosedInserted(entries, kind, |entries|, vector, spans, b, ops);
      ClosedSorted(entries, kind, |entries|, vector, spans, b);
    }

    /** The filtered query over all blocks finds every position exactly as often as the entries say it under the key. */
    method Query(kind: Kind, key: nat, ghost entries: seq<Entry>) returns (found: seq<int>)
      requires Ready(entries) && AllOk(entries) && Dense(entries) && KeyOk(kind, key)
      ensures forall v: nat :: Occurs(found, |found|, v) == Told(entries, kind, key, v, |entries|)
    {
      var blocks := BlocksOf(vectors.At(kind), SpansOf(metas, kind));
      ghost var run := ops;
      ghost var runs := seq(|filters|, _ => run);
      forall b: nat | b < |blocks| ensures Indexed(filters[b], kind, blocks[b], runs[b]) { BlockIndexed(entries, kind, b); }
      found := FilteredQuery.Query(filters, kind, key, blocks, runs);
      forall v: nat ensures Scan(blocks, |blocks|, KeyLen(kind), key, v) == Told(entries, kind, key, v, |entries|) {
        BlocksTell(entries, kind, key, v, vectors.At(kind), SpansOf(metas, kind));
      }
    }
  }

  /** A block's stretch, as bytes and as records. */
  function BlockAt(vector: seq<Record>, span: Span): FilteredQuery.Block {
    var records := if span.start <= span.end <= |vector| then vector[span.start..span.end] else [];
    Block(Flat(records, |records|), records)
  }

  lemma ClosedSorted(entries: seq<Entry>, kind: Kind, n: nat, vector: seq<Record>, spans: seq<Span>, b: nat)
    requires n <= |entries| && AllOk(entries) && b < |spans| && Closed(entries, kind, n, vector, spans, b)
    ensures SortedIndex(BlockAt(vector, spans[b]).run, KeyLen(kind), BlockAt(vector, spans[b]).records)
  {
    BlockSized(entries, kind, b, n);
    AnswerIsInserted(BlockRecords(entries, kind, b, n), vector[spans[b].start..spans[b].end], KeyLen(kind), 0, 0, 0);
  }

  /** The blocks of an index type, as they are read for a query. */
  function BlocksOf(vector: seq<Record>, spans: seq<Span>): (blocks: seq<FilteredQuery.Block>)
    ensures |blocks| == |spans| && forall b: nat :: b < |spans| ==> blocks[b] == BlockAt(vector, spans[b])
  {
    seq(|spans|, b requires 0 <= b < |spans| => BlockAt(vector, spans[b]))
  }

  /** The block's records say as often as its entries that v is stored under the key. */
  ghost predicate BlockTells(entries: seq<Entry>, kind: Kind, key: nat, v: nat, blocks: seq<FilteredQuery.Block>, b: nat)
    requires b < |blocks|
  {
    Count(blocks[b].records, |blocks[b].records|, KeyLen(kind), key, key + 1, v) == InBlock(entries, kind, key, v, |entries|, b)
  }

  lemma {:induction false} ScanTells(entries: seq<Entry>, kind: Kind, key: nat, v: nat, blocks: seq<FilteredQuery.Block>, b: nat)
    requires b <= |blocks| && forall j: nat :: j < |blocks| ==> BlockTells(entries, kind, key, v, blocks, j)
    ensures Scan(blocks, b, KeyLen(kind), key, v) == InBlocks(entries, kind, key, v, |entries|, b)
  {
    if b > 0 {
      ScanTells(entries, kind, key, v, blocks, b - 1);
      assert BlockTells(entries, kind, key, v, blocks, b - 1);
    }
  }

  lemma BlocksTell(entries: seq<Entry>, kind: Kind, key: nat, v: nat, vector: seq<Record>, spans: seq<Span>)
    requires Filled(entries, kind, |entries|, vector, spans) && AllOk(entries) && Dense(entries) && |spans| == BlockCount(entries, |entries|)
    ensures Scan(BlocksOf(vector, spans), |spans|, KeyLen(kind), key, v) == Told(entries, kind, key, v, |entries|)
  {
    var blocks := BlocksOf(vector, spans);
    forall b: nat | b < |blocks| ensures BlockTells(entries, kind, key, v, blocks, b) {
      assert Closed(entries, kind, |entries|, vector, spans, b);
      PermutationCounts(BlockRecords(entries, kind, b, |entries|), blocks[b].records, KeyLen(kind), key, key + 1, v);
    }
    ScanTells(entries, kind, key, v, blocks, |blocks|);
    AllBelow(entries);
    BlocksTellAll(entries, kind, key, v, |entries|, |spans|);
  }

  lemma AllBelow(entries: seq<Entry>)
    requires Dense(entries)
    ensures forall i: nat :: i < |entries| ==> entries[i].Block() < BlockCount(entries, |entries|)
  {
    forall i: nat | i < |entries| ensures entries[i].Block() < BlockCount(entries, |entries|) { NotBefore(entries, i, |entries| - 1); }
  }

  ghost predicate SortedFrom(kind: Kind, start: nat, before: seq<Record>, after: seq<Record>) {
    start <= |before| && exists sorted: seq<Record> :: IsSort(before[start..], sorted, KeyLen(kind)) && after == before[..start] + sorted
  }

  lemma FromSorted(entries: seq<Entry>, kind: Kind, n: nat, before: seq<Record>, open: seq<Span>, after: seq<Record>, closed: seq<Span>)
    requires Filling(entries, kind, n, before, open) && open != [] && SortedFrom(kind, open[|open| - 1].start, before, after)
    requires var last := |open| - 1; |closed| == |open| && closed[last] == open[last].(end := |before|)
    requires forall b: nat :: b < |open| - 1 ==> closed[b] == open[b]
    ensures Filled(entries, kind, n, after, closed)
  {
    var last := |open| - 1;
    var sorted: seq<Record> :| IsSort(before[open[last].start..], sorted, KeyLen(kind)) && after == before[..open[last].start] + sorted;
    SortFinishes(entries, kind, n, before, open, sorted);
    assert closed == open[last := open[last].(end := |before|)];
  }

  lemma BlocksBelow(entries: seq<Entry>, n: nat)
    requires n < |entries| && Dense(entries)
    ensures forall i: nat :: i < n ==> entries[i].Block() < BlockCount(entries, n)
    ensures BlockCount(entries, n) <= entries[n].Block() + 1 <= BlockCount(entries, n) + 1
  {
    forall i: nat | i < n ensures entries[i].Block() < BlockCount(entries, n) { NotBefore(entries, i, n - 1); }
    if n > 0 { assert Follows(entries, n - 1); }
  }

  lemma MoreKeys(entries: seq<Entry>, n: nat, before: seq<Op>, after: seq<Op>)
    requires n < |entries| && KeysIn(entries, n, before) && Added(before, after) && forall kind: Kind :: KeyIn(entries[n], kind, after)
    ensures KeysIn(entries, n + 1, after)
  {
    forall i: nat, kind: Kind | i < n + 1 ensures KeyIn(entries[i], kind, after) {
      if i < n { KeyInMore(entries[i], kind, before, after); }
    }
    forall c: nat ensures Clear(c) !in after {
      forall i: nat | i < |after| ensures after[i] != Clear(c) { if i < |before| { assert after[i] == before[i]; } }
    }
  }

  lemma KeyInMore(e: Entry, kind: Kind, before: seq<Op>, after: seq<Op>)
    requires KeyIn(e, kind, before) && before <= after
    ensures KeyIn(e, kind, after)
  {
    if e.Key(kind).Some? {
      var i: nat :| i < |before| && before[i] == Op.Insert(kind, Number(e.Key(kind).value), e.Block());
      assert after[i] == before[i];
    }
  }

  /** More insertions, and no clear. */
  ghost predicate Added(before: seq<Op>, after: seq<Op>) {
    before <= after && forall i: nat :: |before| <= i < |after| ==> after[i].Insert?
  }
}
