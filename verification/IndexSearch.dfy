/** Lookup in a sorted run of records: bisection for the first key that is not smaller, then a scan. */
module IndexSearch {
  import opened Basics
  import opened Counting
  import opened Records

  function RecordsOf(run: seq<byte>, size: nat): (r: seq<Record>)
    requires size > 0
    ensures |r| == Whole(|run|, size)
  {
    seq(Whole(|run|, size), (k: nat) requires k < Whole(|run|, size) => RecordAt(run, size, k))
  }

  function Hit(r: Record, keyLen: nat, lo: nat, hi: nat): seq<int> {
    if lo <= KeyOf(r, keyLen) < hi then [ValueOf(r, keyLen)] else []
  }

  /** The values of the first n records whose keys lie in lo .. hi - 1, in order. */
  function Hits(records: seq<Record>, n: nat, keyLen: nat, lo: nat, hi: nat): seq<int>
    requires n <= |records|
  {
    if n == 0 then [] else Hits(records, n - 1, keyLen, lo, hi) + Hit(records[n - 1], keyLen, lo, hi)
  }

  lemma {:induction false} NoHits(records: seq<Record>, m: nat, n: nat, keyLen: nat, lo: nat, hi: nat)
    requires m <= n <= |records|
    requires forall k: nat :: m <= k < n ==> !(lo <= KeyOf(records[k], keyLen) < hi)
    ensures Hits(records, n, keyLen, lo, hi) == Hits(records, m, keyLen, lo, hi)
    decreases n
  {
    if m < n { NoHits(records, m, n - 1, keyLen, lo, hi); }
  }

  /** The run holds exactly these records, sorted by key. */
  ghost predicate SortedIndex(index: seq<byte>, keyLen: nat, records: seq<Record>) {
    && |records| == Whole(|index|, keyLen + VALUE_LEN)
    && (forall k: nat {:trigger RecordAt(index, keyLen + VALUE_LEN, k)} :: k < |records| ==> RecordAt(index, keyLen + VALUE_LEN, k) == records[k])
    && SortedByKey(records, keyLen)
  }

  predicate KeyBelow(records: seq<Record>, keyLen: nat, k: nat, key: nat)
    requires k < |records|
  {
    KeyOf(records[k], keyLen) < key
  }

  /** Records before `left` have smaller keys, records from `right` on have not. */
  ghost predicate Bisected(records: seq<Record>, keyLen: nat, key: nat, left: nat, right: nat) {
    && left <= right <= |records|
    && (forall k: nat :: k < left ==> KeyBelow(records, keyLen, k, key))
    && (forall k: nat :: right <= k < |records| ==> !KeyBelow(records, keyLen, k, key))
  }

  lemma Bisect(records: seq<Record>, keyLen: nat, key: nat, left: nat, right: nat, mid: nat)
    requires SortedByKey(records, keyLen) && Bisected(records, keyLen, key, left, right) && left <= mid < right
    ensures if KeyBelow(records, keyLen, mid, key) then Bisected(records, keyLen, key, mid + 1, right)
            else Bisected(records, keyLen, key, left, mid)
  {
    forall k: nat | k < |records| && k != mid
      ensures k < mid && KeyBelow(records, keyLen, mid, key) ==> KeyBelow(records, keyLen, k, key)
      ensures k > mid && !KeyBelow(records, keyLen, mid, key) ==> !KeyBelow(records, keyLen, k, key)
    {
      assert k < mid ==> KeysOrdered(records, keyLen, k, mid);
      assert k > mid ==> KeysOrdered(records, keyLen, mid, k);
    }
  }

  /** The first record whose key is not smaller than `key`. */
  method LowerBound(index: seq<byte>, keyLen: nat, key: nat, ghost records: seq<Record>) returns (left: nat)
    requires SortedIndex(index, keyLen, records)
    ensures Bisected(records, keyLen, key, left, left)
  {
    var eleLen := keyLen + VALUE_LEN;
    left := 0;
    var right: nat := Whole(|index|, eleLen);
    while left < right
      invariant Bisected(records, keyLen, key, left, right)
    {
      var mid: nat := left + (right - left) / 2;
      var keyMid := KeyOf(RecordAt(index, eleLen, mid), keyLen);
      Bisect(records, keyLen, key, left, right, mid);
      if keyMid < key { left := mid + 1; } else { right := mid; }
    }
  }

  /** Before the first key that is not smaller, and from one that is too large on, there are no hits. */
  lemma HitsEnd(records: seq<Record>, keyLen: nat, lo: nat, hi: nat, first: nat, last: nat)
    requires SortedByKey(records, keyLen) && Bisected(records, keyLen, lo, first, first) && first <= last <= |records|
    requires last < |records| ==> KeyOf(records[last], keyLen) >= hi
    ensures Hits(records, first, keyLen, lo, hi) == []
    ensures Hits(records, |records|, keyLen, lo, hi) == Hits(records, last, keyLen, lo, hi)
  {
    forall k: nat | k < first ensures !(lo <= KeyOf(records[k], keyLen) < hi) { assert KeyBelow(records, keyLen, k, lo); }
    NoHits(records, 0, first, keyLen, lo, hi);
    forall k: nat | last <= k < |records| ensures !(lo <= KeyOf(records[k], keyLen) < hi) {
      assert k == last || KeysOrdered(records, keyLen, last, k);
    }
    NoHits(records, last, |records|, keyLen, lo, hi);
  }

  /** The values stored under a key. */
  method BinarySearch(index: seq<byte>, keyLen: nat, key: nat, ghost records: seq<Record>) returns (found: seq<int>)
    requires SortedIndex(index, keyLen, records)
    ensures found == Hits(records, |records|, keyLen, key, key + 1)
  {
    var eleLen := keyLen + VALUE_LEN;
    var left := LowerBound(index, keyLen, key, records);
    found := [];
    ghost var first := left;
    HitsEnd(records, keyLen, key, key + 1, first, |records|);
    while left < Whole(|index|, eleLen)
      invariant first <= left <= |records| && found == Hits(records, left, keyLen, key, key + 1)
    {
      assert !KeyBelow(records, keyLen, left, key);
      var now := RecordAt(index, eleLen, left);
      if KeyOf(now, keyLen) != key { break; }
      found := found + [ValueOf(now, keyLen)];
      left := left + 1;
    }
    HitsEnd(records, keyLen, key, key + 1, first, left);
  }

  /** The values stored under the keys startKey .. endKey - 1. */
  method BinarySearchRange(index: seq<byte>, keyLen: nat, startKey: nat, endKey: nat, ghost records: seq<Record>) returns (found: seq<int>)
    requires SortedIndex(index, keyLen, records)
    ensures found == Hits(records, |records|, keyLen, startKey, endKey)
  {
    var eleLen := keyLen + VALUE_LEN;
    var left := LowerBound(index, keyLen, startKey, records);
    found := [];
    ghost var first := left;
    HitsEnd(records, keyLen, startKey, endKey, first, |records|);
    while left < Whole(|index|, eleLen)
      invariant first <= left <= |records| && found == Hits(records, left, keyLen, startKey, endKey)
    {
      assert !KeyBelow(records, keyLen, left, startKey);
      var now := RecordAt(index, eleLen, left);
      if KeyOf(now, keyLen) >= endKey { break; }
      found := found + [ValueOf(now, keyLen)];
      left := left + 1;
    }
    HitsEnd(records, keyLen, startKey, endKey, first, left);
  }

  /** An answer holds each value as often as the records do. */
  lemma {:induction false} HitsCount(records: seq<Record>, n: nat, keyLen: nat, lo: nat, hi: nat, v: nat)
    requires n <= |records|
    ensures Occurs(Hits(records, n, keyLen, lo, hi), |Hits(records, n, keyLen, lo, hi)|, v) == Count(records, n, keyLen, lo, hi, v)
  {
    if n > 0 {
      HitsCount(records, n - 1, keyLen, lo, hi, v);
      var hits := Hits(records, n - 1, keyLen, lo, hi);
      OccursIn(hits, [ValueOf(records[n - 1], keyLen)], |hits|, v);
      assert hits + [] == hits;
    }
  }

  lemma FlatRecordsOf(records: seq<Record>, size: nat)
    requires Sized(records, size) && size > 0
    ensures RecordsOf(Flat(records, |records|), size) == records
  {
    FlatSize(records, |records|, size);
    WholeOfOffset(|records|, size);
    forall k: nat | k < |records| ensures RecordAt(Flat(records, |records|), size, k) == records[k] { FlatRecordAt(records, size, k); }
  }

  /** From inserted records to an answer: any sort of them is a run to bisect, and the answer for a range of
      keys gives every value as often as it was inserted under those keys. */
  lemma AnswerIsInserted(inserted: seq<Record>, sorted: seq<Record>, keyLen: nat, lo: nat, hi: nat, v: nat)
    requires Sized(inserted, keyLen + VALUE_LEN) && IsSort(inserted, sorted, keyLen)
    ensures SortedIndex(Flat(sorted, |sorted|), keyLen, sorted)
    ensures var found := Hits(sorted, |sorted|, keyLen, lo, hi);
            Occurs(found, |found|, v) == Count(inserted, |inserted|, keyLen, lo, hi, v)
  {
    PermutationSized(inserted, sorted, keyLen + VALUE_LEN);
    FlatRecordsOf(sorted, keyLen + VALUE_LEN);
    HitsCount(sorted, |sorted|, keyLen, lo, hi, v);
    PermutationCounts(inserted, sorted, keyLen, lo, hi, v);
  }
}
