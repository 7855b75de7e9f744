/** Index records as they lie in memory: a key of 2, 4 or 16 bytes and the 8-byte packet position stored
    under it, both little-endian. A block's index is a sorted run of records, searched by bisection. */
module Records {
  import opened Basics
  import opened LittleEndian
  import ModArith

  datatype Record = Record(bytes: seq<byte>)

  const VALUE_LEN: nat := 8

  /** The key as a number. An IPv6 key, low half before high half, compares the same way. */
  function KeyOf(r: Record, keyLen: nat): nat {
    if keyLen <= |r.bytes| then Number(r.bytes[..keyLen]) else 0
  }

  function ValueOf(r: Record, keyLen: nat): nat {
    if keyLen <= |r.bytes| then Number(r.bytes[keyLen..]) else 0
  }

  ghost predicate Sized(records: seq<Record>, size: nat) {
    forall k: nat :: k < |records| ==> |records[k].bytes| == size
  }

  // ---------- a run of records in bytes ----------

  /** k * size. */
  function Offset(k: nat, size: nat): nat {
    if k == 0 then 0 else Offset(k - 1, size) + size
  }

  lemma {:induction false} OffsetIsProduct(k: nat, size: nat)
    ensures Offset(k, size) == k * size
  {
    if k > 0 {
      OffsetIsProduct(k - 1, size);
      assert (k - 1) * size + size == k * size;
    }
  }

  /** len / size. */
  function Whole(len: nat, size: nat): nat
    requires size > 0
  {
    if len < size then 0 else 1 + Whole(len - size, size)
  }

  lemma {:induction false} WholeIsQuotient(len: nat, size: nat)
    requires size > 0
    ensures Whole(len, size) == len / size
  {
    if len >= size {
      WholeIsQuotient(len - size, size);
      ModArith.ModAddMultiple(len - size, size, 1);
    } else {
      ModArith.ModSmall(len, size);
      Bits.DivModUnique(len, size, 0, len);
    }
  }

  lemma {:induction false} WholeFits(len: nat, size: nat, k: nat)
    requires size > 0 && k <= Whole(len, size)
    ensures Offset(k, size) <= len
  {
    if k > 0 { WholeFits(len - size, size, k - 1); }
  }

  lemma {:induction false} WholeOfOffset(n: nat, size: nat)
    requires size > 0
    ensures Whole(Offset(n, size), size) == n
  {
    if n > 0 { WholeOfOffset(n - 1, size); }
  }

  /** Record k of a run. */
  function RecordAt(run: seq<byte>, size: nat, k: nat): Record
    requires size > 0 && k < Whole(|run|, size)
  {
    WholeFits(|run|, size, k + 1);
    Record(run[Offset(k, size)..Offset(k, size) + size])
  }

  /** The first n records as bytes. */
  function Flat(records: seq<Record>, n: nat): seq<byte>
    requires n <= |records|
  {
    if n == 0 then [] else Flat(records, n - 1) + records[n - 1].bytes
  }

  lemma {:induction false} FlatSize(records: seq<Record>, n: nat, size: nat)
    requires n <= |records| && Sized(records, size)
    ensures |Flat(records, n)| == Offset(n, size)
  {
    if n > 0 { FlatSize(records, n - 1, size); }
  }

  /** Records written one after the other are read back one by one. */
  lemma {:induction false} FlatRecord(records: seq<Record>, n: nat, size: nat, k: nat)
    requires k < n <= |records| && Sized(records, size) && size > 0
    ensures Offset(k, size) + size <= |Flat(records, n)|
    ensures Flat(records, n)[Offset(k, size)..Offset(k, size) + size] == records[k].bytes
  {
    FlatSize(records, n, size);
    FlatSize(records, n - 1, size);
    if k + 1 < n { FlatRecord(records, n - 1, size, k); }
  }

  lemma FlatRecordAt(records: seq<Record>, size: nat, k: nat)
    requires k < |records| && Sized(records, size) && size > 0
    ensures Whole(|Flat(records, |records|)|, size) == |records|
    ensures RecordAt(Flat(records, |records|), size, k) == records[k]
  {
    FlatSize(records, |records|, size);
    WholeOfOffset(|records|, size);
    FlatRecord(records, |records|, size, k);
  }

  lemma {:induction false} FlatSame(a: seq<Record>, b: seq<Record>, n: nat)
    requires n <= |a| && n <= |b| && forall i: nat :: i < n ==> a[i] == b[i]
    ensures Flat(a, n) == Flat(b, n)
  {
    if n > 0 { FlatSame(a, b, n - 1); }
  }

  lemma {:induction false} FlatJoin(a: seq<Record>, b: seq<Record>, n: nat)
    requires n <= |b|
    ensures Flat(a + b, |a| + n) == Flat(a, |a|) + Flat(b, n)
  {
    if n == 0 { FlatSame(a + b, a, |a|); } else { FlatJoin(a, b, n - 1); }
  }

  // ---------- sorting ----------

  predicate KeysOrdered(records: seq<Record>, keyLen: nat, j: nat, k: nat)
    requires j < |records| && k < |records|
  {
    KeyOf(records[j], keyLen) <= KeyOf(records[k], keyLen)
  }

  ghost predicate SortedByKey(records: seq<Record>, keyLen: nat) {
    forall j: nat, k: nat :: j < k < |records| ==> KeysOrdered(records, keyLen, j, k)
  }

  function Without(b: seq<Record>, p: nat): seq<Record>
    requires p < |b|
  {
    b[..p] + b[p + 1..]
  }

  /** The last record of a is somewhere in b, and the others are the rest of b. */
  ghost predicate Permutation(a: seq<Record>, b: seq<Record>) {
    |a| == |b| && (a == [] || exists p: nat :: p < |b| && b[p] == a[|a| - 1] && Permutation(a[..|a| - 1], Without(b, p)))
  }

  /** Sorted by key and the same records: what std::sort promises. */
  ghost predicate IsSort(before: seq<Record>, after: seq<Record>, keyLen: nat) {
    Permutation(before, after) && SortedByKey(after, keyLen)
  }

  /** A sort of the records, by insertion. */
  method SortRecords(records: seq<Record>, keyLen: nat) returns (sorted: seq<Record>)
    ensures IsSort(records, sorted, keyLen)
  {
    sorted := [];
    for i := 0 to |records|
      invariant |sorted| == i && IsSort(records[..i], sorted, keyLen)
    {
      var p := i;
      while p > 0 && KeyOf(sorted[p - 1], keyLen) > KeyOf(records[i], keyLen)
        invariant 0 <= p <= i
        invariant p < i ==> KeyOf(sorted[p], keyLen) > KeyOf(records[i], keyLen)
      {
        p := p - 1;
      }
      InsertSorts(records[..i], sorted, keyLen, records[i], p);
      assert records[..i + 1] == records[..i] + [records[i]];
      sorted := sorted[..p] + [records[i]] + sorted[p..];
    }
    assert records[..|records|] == records;
  }

  lemma InsertPermutes(before: seq<Record>, sorted: seq<Record>, r: Record, p: nat)
    requires Permutation(before, sorted) && p <= |sorted|
    ensures Permutation(before + [r], sorted[..p] + [r] + sorted[p..])
  {
    var after, a := sorted[..p] + [r] + sorted[p..], before + [r];
    assert a[..|a| - 1] == before && a[|a| - 1] == r;
    assert after[p] == r && Without(after, p) == sorted;
  }

  lemma InsertOrdered(sorted: seq<Record>, keyLen: nat, r: Record, p: nat, after: seq<Record>, j: nat, k: nat)
    requires SortedByKey(sorted, keyLen) && p <= |sorted| && after == sorted[..p] + [r] + sorted[p..]
    requires p > 0 ==> KeyOf(sorted[p - 1], keyLen) <= KeyOf(r, keyLen)
    requires p < |sorted| ==> KeyOf(sorted[p], keyLen) > KeyOf(r, keyLen)
    requires j < k < |after|
    ensures KeysOrdered(after, keyLen, j, k)
  {
    if j < p {
      if k == p {
        assert j == p - 1 || KeysOrdered(sorted, keyLen, j, p - 1);
      } else {
        assert KeysOrdered(sorted, keyLen, j, if k < p then k else k - 1);
      }
    } else if j == p {
      assert k - 1 == p || KeysOrdered(sorted, keyLen, p, k - 1);
    } else {
      assert KeysOrdered(sorted, keyLen, j - 1, k - 1);
    }
  }

  lemma InsertSorts(before: seq<Record>, sorted: seq<Record>, keyLen: nat, r: Record, p: nat)
    requires IsSort(before, sorted, keyLen) && p <= |sorted|
    requires p > 0 ==> KeyOf(sorted[p - 1], keyLen) <= KeyOf(r, keyLen)
    requires p < |sorted| ==> KeyOf(sorted[p], keyLen) > KeyOf(r, keyLen)
    ensures IsSort(before + [r], sorted[..p] + [r] + sorted[p..], keyLen)
  {
    var after := sorted[..p] + [r] + sorted[p..];
    InsertPermutes(before, sorted, r, p);
    forall j: nat, k: nat | j < k < |after| ensures KeysOrdered(after, keyLen, j, k) {
      InsertOrdered(sorted, keyLen, r, p, after, j, k);
    }
  }

  // ---------- counting ----------

  predicate Holds(r: Record, keyLen: nat, lo: nat, hi: nat, v: nat) {
    lo <= KeyOf(r, keyLen) < hi && ValueOf(r, keyLen) == v
  }

  /** How many of the first n records have a key in lo .. hi - 1 and the value v. */
  function Count(records: seq<Record>, n: nat, keyLen: nat, lo: nat, hi: nat, v: nat): nat
    requires n <= |records|
  {
    if n == 0 then 0 else Count(records, n - 1, keyLen, lo, hi, v) + if Holds(records[n - 1], keyLen, lo, hi, v) then 1 else 0
  }

  lemma {:induction false} CountSame(a: seq<Record>, b: seq<Record>, n: nat, keyLen: nat, lo: nat, hi: nat, v: nat)
    requires n <= |a| && n <= |b| && forall i: nat :: i < n ==> a[i] == b[i]
    ensures Count(a, n, keyLen, lo, hi, v) == Count(b, n, keyLen, lo, hi, v)
  {
    if n > 0 { CountSame(a, b, n - 1, keyLen, lo, hi, v); }
  }

  lemma {:induction false} CountWithout(b: seq<Record>, p: nat, n: nat, keyLen: nat, lo: nat, hi: nat, v: nat)
    requires p < n <= |b|
    ensures Count(b, n, keyLen, lo, hi, v)
         == Count(Without(b, p), n - 1, keyLen, lo, hi, v) + if Holds(b[p], keyLen, lo, hi, v) then 1 else 0
  {
    if n == p + 1 { CountSame(b, Without(b, p), p, keyLen, lo, hi, v); }
    else {
      CountWithout(b, p, n - 1, keyLen, lo, hi, v);
      assert Without(b, p)[n - 2] == b[n - 1];
    }
  }

  /** Sorting loses, adds and changes nothing. */
  lemma {:induction false} PermutationCounts(a: seq<Record>, b: seq<Record>, keyLen: nat, lo: nat, hi: nat, v: nat)
    requires Permutation(a, b)
    ensures Count(a, |a|, keyLen, lo, hi, v) == Count(b, |b|, keyLen, lo, hi, v)
    decreases |a|
  {
    if a != [] {
      var front := a[..|a| - 1];
      var p: nat :| p < |b| && b[p] == a[|a| - 1] && Permutation(front, Without(b, p));
      PermutationCounts(front, Without(b, p), keyLen, lo, hi, v);
      CountSame(a, front, |front|, keyLen, lo, hi, v);
      CountWithout(b, p, |b|, keyLen, lo, hi, v);
    }
  }

  lemma {:induction false} PermutationSized(a: seq<Record>, b: seq<Record>, size: nat)
    requires Permutation(a, b) && Sized(a, size)
    ensures Sized(b, size)
    decreases |a|
  {
    if a != [] {
      var p: nat :| p < |b| && b[p] == a[|a| - 1] && Permutation(a[..|a| - 1], Without(b, p));
      var rest := Without(b, p);
      PermutationSized(a[..|a| - 1], rest, size);
      forall k: nat | k < |b| ensures |b[k].bytes| == size {
        assert k == p || b[k] == rest[if k < p then k else k - 1];
      }
    }
  }
}
