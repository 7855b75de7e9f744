/** The pools of one index type, with what was inserted into them: what is gathered of a block, and what was
    inserted for it. */
module TypeHistory {
  import opened Basics
  import opened Persist
  import PoolHistory
  import opened PoolState
  import opened Records

  /** The pools of one index type, their calls, and the key length. */
  datatype TypeView = TypeView(pools: seq<Pool>, keyLen: nat, calls: seq<PoolHistory.Trace>)

  /** What is gathered of the block, pool by pool. */
  function AllGathered(view: TypeView, id: nat): seq<Record> {
    Gathered(view.pools, id, |view.pools|)
  }

  /** What was inserted for the block into the first n pools, in order. */
  function InsertedTo(view: TypeView, id: nat, n: nat): seq<Record>
    requires n <= |view.calls|
  {
    if n == 0 then [] else InsertedTo(view, id, n - 1) + PoolHistory.Inserted(view.calls[n - 1], id, |view.calls[n - 1].ops|)
  }

  /** Everything that was inserted for the block, of one type. */
  function Inserted(view: TypeView, id: nat): seq<Record> {
    InsertedTo(view, id, |view.calls|)
  }

  /** Pool k has come to its regions by its calls, and has not recycled the block. */
  ghost predicate KnownAt(view: TypeView, id: nat, k: nat)
    requires k < |view.pools| == |view.calls|
  {
    PoolHistory.Traced(view.pools[k], view.calls[k]) && PoolHistory.Fresh(view.calls[k], id)
  }

  /** The calls are those of the pools, and the records have the type's size. */
  ghost predicate Known(view: TypeView, id: nat) {
    && |view.pools| == |view.calls| && Sized(Inserted(view, id), view.keyLen + VALUE_LEN)
    && forall k: nat :: k < |view.pools| ==> KnownAt(view, id, k)
  }

  /** In the first n pools the insertions for the block are contiguous. */
  ghost predicate ContiguousTo(view: TypeView, id: nat, n: nat)
    requires n <= |view.calls|
  {
    n == 0 || (ContiguousTo(view, id, n - 1) && PoolHistory.Contiguous(view.calls[n - 1], id))
  }

  ghost predicate AllContiguous(view: TypeView, id: nat) {
    ContiguousTo(view, id, |view.calls|)
  }

  /** Pool k gives a beginning of what was inserted, and all of it exactly for contiguous insertions. */
  ghost predicate Gives(view: TypeView, id: nat, k: nat)
    requires k < |view.pools| == |view.calls|
  {
    var first, all := RecordsIn(view.pools[k], id), PoolHistory.Inserted(view.calls[k], id, |view.calls[k].ops|);
    first <= all && (|first| == |all| <==> PoolHistory.Contiguous(view.calls[k], id))
  }

  ghost predicate AllGive(view: TypeView, id: nat) {
    |view.pools| == |view.calls| && forall k: nat :: k < |view.pools| ==> Gives(view, id, k)
  }

  lemma KnownGives(view: TypeView, id: nat)
    requires Known(view, id)
    ensures AllGive(view, id)
  {
    forall k: nat | k < |view.pools| ensures Gives(view, id, k) {
      assert KnownAt(view, id, k);
      PoolHistory.GatheredIsInserted(view.pools[k], view.calls[k], id);
    }
  }

  /** The pools together give all that was inserted exactly if every pool's insertions are contiguous. */
  lemma {:induction false} GatheredIff(view: TypeView, id: nat, n: nat)
    requires AllGive(view, id) && n <= |view.pools|
    ensures |Gathered(view.pools, id, n)| <= |InsertedTo(view, id, n)|
    ensures |Gathered(view.pools, id, n)| == |InsertedTo(view, id, n)| <==> ContiguousTo(view, id, n)
    ensures ContiguousTo(view, id, n) ==> Gathered(view.pools, id, n) == InsertedTo(view, id, n)
  {
    if n > 0 {
      GatheredIff(view, id, n - 1);
      assert Gives(view, id, n - 1);
    }
  }

  /** Values under the keys lo .. hi among the gathered records were inserted that often. */
  lemma {:induction false} GatheredCounts(view: TypeView, id: nat, n: nat, lo: nat, hi: nat, v: nat)
    requires AllGive(view, id) && n <= |view.pools|
    ensures CountIn(Gathered(view.pools, id, n), view.keyLen, lo, hi, v) <= CountIn(InsertedTo(view, id, n), view.keyLen, lo, hi, v)
  {
    if n > 0 {
      GatheredCounts(view, id, n - 1, lo, hi, v);
      assert Gives(view, id, n - 1);
      CountMore(Gathered(view.pools, id, n - 1), RecordsIn(view.pools[n - 1], id), InsertedTo(view, id, n - 1),
                PoolHistory.Inserted(view.calls[n - 1], id, |view.calls[n - 1].ops|), view.keyLen, lo, hi, v);
    }
  }

  function CountIn(records: seq<Record>, keyLen: nat, lo: nat, hi: nat, v: nat): nat {
    Count(records, |records|, keyLen, lo, hi, v)
  }

  lemma CountMore(a: seq<Record>, first: seq<Record>, b: seq<Record>, all: seq<Record>, keyLen: nat, lo: nat, hi: nat, v: nat)
    requires first <= all && CountIn(a, keyLen, lo, hi, v) <= CountIn(b, keyLen, lo, hi, v)
    ensures CountIn(a + first, keyLen, lo, hi, v) <= CountIn(b + all, keyLen, lo, hi, v)
  {
    CountJoin(a, first, |first|, keyLen, lo, hi, v);
    CountJoin(b, all, |all|, keyLen, lo, hi, v);
    CountPrefix(first, all, keyLen, lo, hi, v);
  }

  lemma CountPrefix(first: seq<Record>, all: seq<Record>, keyLen: nat, lo: nat, hi: nat, v: nat)
    requires first <= all
    ensures CountIn(first, keyLen, lo, hi, v) <= CountIn(all, keyLen, lo, hi, v)
  {
    CountSame(first, all, |first|, keyLen, lo, hi, v);
    CountGrows(all, |first|, |all|, keyLen, lo, hi, v);
  }

  lemma {:induction false} CountGrows(records: seq<Record>, m: nat, n: nat, keyLen: nat, lo: nat, hi: nat, v: nat)
    requires m <= n <= |records|
    ensures Count(records, m, keyLen, lo, hi, v) <= Count(records, n, keyLen, lo, hi, v)
  {
    if m < n { CountGrows(records, m, n - 1, keyLen, lo, hi, v); }
  }

  lemma {:induction false} CountJoin(a: seq<Record>, b: seq<Record>, n: nat, keyLen: nat, lo: nat, hi: nat, v: nat)
    requires n <= |b|
    ensures Count(a + b, |a| + n, keyLen, lo, hi, v) == Count(a, |a|, keyLen, lo, hi, v) + Count(b, n, keyLen, lo, hi, v)
  {
    if n == 0 { CountSame(a, a + b, |a|, keyLen, lo, hi, v); } else { CountJoin(a, b, n - 1, keyLen, lo, hi, v); }
  }

  /** The run is a sort by key of the records. */
  ghost predicate IsSortedRun(records: seq<Record>, keyLen: nat, run: seq<byte>) {
    exists sorted: seq<Record> :: IsSort(records, sorted, keyLen) && run == Bytes(sorted)
  }

  /** The run is a sort of everything inserted for the block. */
  ghost predicate HoldsAll(view: TypeView, id: nat, run: seq<byte>) {
    IsSortedRun(Inserted(view, id), view.keyLen, run)
  }

  /** The run is a sort by key of what is gathered, and of everything that was inserted exactly if in every pool
      the insertions for the block are contiguous. */
  ghost predicate SortedIn(view: TypeView, id: nat, run: seq<byte>) {
    && IsSortedRun(AllGathered(view, id), view.keyLen, run)
    && (Known(view, id) ==> (HoldsAll(view, id, run) <==> AllContiguous(view, id)))
  }

  lemma RunLength(records: seq<Record>, sorted: seq<Record>, keyLen: nat)
    requires IsSort(records, sorted, keyLen) && Sized(records, keyLen + VALUE_LEN)
    ensures |Bytes(sorted)| == |records| * (keyLen + VALUE_LEN)
  {
    PermutationSized(records, sorted, keyLen + VALUE_LEN);
    FlatSize(sorted, |sorted|, keyLen + VALUE_LEN);
    OffsetIsProduct(|sorted|, keyLen + VALUE_LEN);
  }

  /** A sort of what is gathered is one of everything inserted exactly for contiguous insertions. */
  lemma HoldsAllIff(view: TypeView, id: nat, sorted: seq<Record>)
    requires Known(view, id) && IsSort(AllGathered(view, id), sorted, view.keyLen)
    requires Sized(AllGathered(view, id), view.keyLen + VALUE_LEN)
    ensures HoldsAll(view, id, Bytes(sorted)) <==> AllContiguous(view, id)
  {
    KnownGives(view, id);
    GatheredIff(view, id, |view.pools|);
    if HoldsAll(view, id, Bytes(sorted)) {
      var all: seq<Record> :| IsSort(Inserted(view, id), all, view.keyLen) && Bytes(sorted) == Bytes(all);
      RunLength(AllGathered(view, id), sorted, view.keyLen);
      RunLength(Inserted(view, id), all, view.keyLen);
      SameFactor(|AllGathered(view, id)|, |Inserted(view, id)|, view.keyLen + VALUE_LEN);
    }
  }

  lemma SameFactor(a: nat, b: nat, size: nat)
    requires a * size == b * size && size > 0
    ensures a == b
  {}

  lemma SortIsIn(view: TypeView, id: nat, sorted: seq<Record>)
    requires IsSort(AllGathered(view, id), sorted, view.keyLen) && Sized(AllGathered(view, id), view.keyLen + VALUE_LEN)
    ensures SortedIn(view, id, Bytes(sorted))
  {
    if Known(view, id) { HoldsAllIff(view, id, sorted); }
  }
}
