/** The query for one key over all blocks: blocks whose filter rejects the key are skipped, the others are
    bisected. It finds exactly what a scan of all records finds. */
module FilteredQuery {
  import opened Basics
  import opened BloomRows
  import opened Counting
  import opened IndexSearch
  import opened PrefixBloom
  import opened Records

  /** A block's run of records, sorted by key, as bytes and as records. */
  datatype Block = Block(run: seq<byte>, records: seq<Record>)

  /** Bytes of a key. */
  function KeyLen(kind: Kind): nat {
    if IsPort(kind) then 2 else Len(kind)
  }

  /** The filter of a block has all rows of the keys of the block's records. */
  ghost predicate Covered(f: Filter, rows: iset<nat>, kind: Kind, records: seq<Record>) {
    forall k: nat :: k < |records| ==> KeyCovered(f, rows, kind, records, k)
  }

  ghost predicate KeyCovered(f: Filter, rows: iset<nat>, kind: Kind, records: seq<Record>, k: nat)
    requires k < |records|
  {
    Passes(f, rows, kind, KeyOf(records[k], KeyLen(kind)))
  }

  /** The record's key was inserted into the column, which was not cleared since. */
  ghost predicate KeyInserted(ops: seq<Op>, kind: Kind, records: seq<Record>, col: nat, k: nat)
    requires k < |records|
  {
    exists i: nat :: InsertedAt(ops, i, kind, KeyOf(records[k], KeyLen(kind)), col)
  }

  ghost predicate KeysInserted(ops: seq<Op>, kind: Kind, records: seq<Record>, col: nat) {
    forall k: nat :: k < |records| ==> KeyInserted(ops, kind, records, col, k)
  }

  /** A block that was indexed: its run is sorted, and its records' keys are among the operations on its filter's
      reading column, whatever else went into the filter. */
  ghost predicate Indexed(filter: PrefixBloomFilter, kind: Kind, block: Block, ops: seq<Op>)
    reads filter, filter.bitmap.bitmap
  {
    && filter.Valid() && filter.Agrees(ops) && filter.readingCol < filter.bitmap.colCount
    && SortedIndex(block.run, KeyLen(kind), block.records)
    && KeysInserted(ops, kind, block.records, filter.readingCol)
  }

  /** The filter of an indexed block misses none of its keys. */
  lemma IndexedIsCovered(filter: PrefixBloomFilter, kind: Kind, block: Block, ops: seq<Op>)
    requires Indexed(filter, kind, block, ops)
    ensures Covered(filter.f, filter.Rows(), kind, block.records)
  {
    forall k: nat | k < |block.records| ensures KeyCovered(filter.f, filter.Rows(), kind, block.records, k) {
      assert KeyInserted(ops, kind, block.records, filter.readingCol, k);
      var i: nat :| InsertedAt(ops, i, kind, KeyOf(block.records[k], KeyLen(kind)), filter.readingCol);
      InsertedIsFound(filter, ops, i, kind, KeyOf(block.records[k], KeyLen(kind)));
    }
  }

  /** How often v is stored under the key in the first n blocks. */
  function Scan(blocks: seq<Block>, n: nat, keyLen: nat, key: nat, v: nat): nat
    requires n <= |blocks|
  {
    if n == 0 then 0
    else Scan(blocks, n - 1, keyLen, key, v) + Count(blocks[n - 1].records, |blocks[n - 1].records|, keyLen, key, key + 1, v)
  }

  lemma {:induction false} NoKeyNoCount(records: seq<Record>, n: nat, keyLen: nat, key: nat, v: nat)
    requires n <= |records| && forall k: nat :: k < n ==> KeyOf(records[k], keyLen) != key
    ensures Count(records, n, keyLen, key, key + 1, v) == 0
  {
    if n > 0 { NoKeyNoCount(records, n - 1, keyLen, key, v); }
  }

  /** The check of an exact key: for addresses, of all their bytes. */
  method CheckKey(filter: PrefixBloomFilter, kind: Kind, key: nat) returns (maybe: bool)
    requires filter.Valid() && KeyOk(kind, key)
    ensures Passes(filter.f, filter.Rows(), kind, key) ==> maybe
  {
    if IsPort(kind) {
      maybe := filter.GetPort(kind, key);
    } else {
      maybe := filter.GetPrefix(kind, key, Len(kind));
      if Passes(filter.f, filter.Rows(), kind, key) { PrefixNeverMissed(filter.f, filter.Rows(), kind, key, key, Len(kind)); }
    }
  }

  /** A skipped block has no record with the key. */
  lemma SkippedHasNone(f: Filter, rows: iset<nat>, kind: Kind, block: Block, key: nat, v: nat)
    requires Covered(f, rows, kind, block.records) && !Passes(f, rows, kind, key)
    ensures Count(block.records, |block.records|, KeyLen(kind), key, key + 1, v) == 0
  {
    forall k: nat | k < |block.records| ensures KeyOf(block.records[k], KeyLen(kind)) != key {
      assert KeyCovered(f, rows, kind, block.records, k);
    }
    NoKeyNoCount(block.records, |block.records|, KeyLen(kind), key, v);
  }

  lemma {:induction false} OccursJoin(a: seq<int>, b: seq<int>, k: nat, v: int)
    requires k <= |b|
    ensures Occurs(a + b, |a| + k, v) == Occurs(a, |a|, v) + Occurs(b, k, v)
  {
    if k == 0 { OccursIn(a, b, |a|, v); } else { OccursJoin(a, b, k - 1, v); }
  }

  /** One block's contribution. */
  method QueryBlock(filter: PrefixBloomFilter, kind: Kind, key: nat, run: seq<byte>, ghost block: Block, ghost ops: seq<Op>)
    returns (found: seq<int>)
    requires Indexed(filter, kind, block, ops) && run == block.run && KeyOk(kind, key)
    ensures forall v: nat :: Occurs(found, |found|, v) == Count(block.records, |block.records|, KeyLen(kind), key, key + 1, v)
  {
    IndexedIsCovered(filter, kind, block, ops);
    var maybe := CheckKey(filter, kind, key);
    if !maybe {
      ghost var end: nat := key + 1;
      forall v: nat ensures Count(block.records, |block.records|, KeyLen(kind), key, end, v) == 0 {
        SkippedHasNone(filter.f, filter.Rows(), kind, block, key, v);
      }
      return [];
    }
    found := BinarySearch(run, KeyLen(kind), key, block.records);
    forall v: nat ensures Occurs(found, |found|, v) == Count(block.records, |block.records|, KeyLen(kind), key, key + 1, v) {
      HitsCount(block.records, |block.records|, KeyLen(kind), key, key + 1, v);
    }
  }

  /** The query over all blocks finds every value as often as a scan of all records does. */
  method Query(filters: seq<PrefixBloomFilter>, kind: Kind, key: nat, runs: seq<Block>, ghost ops: seq<seq<Op>>) returns (found: seq<int>)
    requires |filters| == |runs| == |ops| && KeyOk(kind, key)
    requires forall j: nat :: j < |runs| ==> Indexed(filters[j], kind, runs[j], ops[j])
    ensures forall v: nat :: Occurs(found, |found|, v) == Scan(runs, |runs|, KeyLen(kind), key, v)
  {
    found := [];
    for j := 0 to |runs|
      invariant forall v: nat :: Occurs(found, |found|, v) == Scan(runs, j, KeyLen(kind), key, v)
    {
      var more := QueryBlock(filters[j], kind, key, runs[j].run, runs[j], ops[j]);
      forall v: nat ensures Occurs(found + more, |found + more|, v) == Scan(runs, j + 1, KeyLen(kind), key, v) {
        OccursJoin(found, more, |more|, v);
      }
      found := found + more;
    }
  }
}
