/** The sorted index over keys and values that are numbers: a record is written from a key and a packet position, and a
    lookup gives each position exactly as often as it was written under the key. */
module IndexNumbers {
  import opened Bits
  import opened Counting
  import opened IndexSearch
  import opened LittleEndian
  import opened Records

  /** A key and the position of a packet that has it. */
  datatype Pair = Pair(key: nat, position: nat)

  ghost predicate Fits(pairs: seq<Pair>, keyLen: nat) {
    forall k: nat :: k < |pairs| ==> pairs[k].key < Pow2(8 * keyLen) && pairs[k].position < Pow2(8 * 8)
  }

  /** The record as it is written: the key in `keyLen` bytes, the position in eight. */
  function RecordOf(pair: Pair, keyLen: nat): Record {
    Record(Word(pair.key, keyLen) + Word(pair.position, 8))
  }

  function RecordsFor(pairs: seq<Pair>, keyLen: nat): (records: seq<Record>)
    ensures |records| == |pairs| && forall k: nat :: k < |pairs| ==> records[k] == RecordOf(pairs[k], keyLen)
  {
    seq(|pairs|, k requires 0 <= k < |pairs| => RecordOf(pairs[k], keyLen))
  }

  lemma RecordNumbers(pair: Pair, keyLen: nat)
    requires pair.key < Pow2(8 * keyLen) && pair.position < Pow2(8 * 8)
    ensures var r := RecordOf(pair, keyLen);
            |r.bytes| == keyLen + VALUE_LEN && KeyOf(r, keyLen) == pair.key && ValueOf(r, keyLen) == pair.position
  {
    var r := RecordOf(pair, keyLen);
    WordReadsBack(pair.key, keyLen);
    WordReadsBack(pair.position, 8);
    assert r.bytes[..keyLen] == Word(pair.key, keyLen) && r.bytes[keyLen..] == Word(pair.position, 8);
  }

  /** How many of the first n pairs have a key in lo .. hi - 1 and this position. */
  function Written(pairs: seq<Pair>, n: nat, lo: nat, hi: nat, position: nat): nat
    requires n <= |pairs|
  {
    if n == 0 then 0
    else Written(pairs, n - 1, lo, hi, position) + if lo <= pairs[n - 1].key < hi && pairs[n - 1].position == position then 1 else 0
  }

  lemma {:induction false} CountIsWritten(pairs: seq<Pair>, keyLen: nat, n: nat, lo: nat, hi: nat, position: nat)
    requires n <= |pairs| && Fits(pairs, keyLen)
    ensures Count(RecordsFor(pairs, keyLen), n, keyLen, lo, hi, position) == Written(pairs, n, lo, hi, position)
  {
    if n > 0 {
      CountIsWritten(pairs, keyLen, n - 1, lo, hi, position);
      RecordNumbers(pairs[n - 1], keyLen);
    }
  }

  /** Any sorted run of the records can be bisected, and the hits under any keys are the positions written there. */
  lemma HitsAreWritten(pairs: seq<Pair>, keyLen: nat, sorted: seq<Record>, lo: nat, hi: nat, position: nat)
    requires Fits(pairs, keyLen) && IsSort(RecordsFor(pairs, keyLen), sorted, keyLen)
    ensures SortedIndex(Flat(sorted, |sorted|), keyLen, sorted)
    ensures var found := Hits(sorted, |sorted|, keyLen, lo, hi);
            Occurs(found, |found|, position) == Written(pairs, |pairs|, lo, hi, position)
  {
    var records := RecordsFor(pairs, keyLen);
    forall k: nat | k < |records| ensures |records[k].bytes| == keyLen + VALUE_LEN { RecordNumbers(pairs[k], keyLen); }
    AnswerIsInserted(records, sorted, keyLen, lo, hi, position);
    CountIsWritten(pairs, keyLen, |pairs|, lo, hi, position);
  }

  /** Sort the records, lay them out as bytes, and look for a key: each position is found exactly as often as it was
      written with that key. */
  method SearchKey(pairs: seq<Pair>, keyLen: nat, key: nat) returns (found: seq<int>)
    requires Fits(pairs, keyLen)
    ensures forall position: nat :: Occurs(found, |found|, position) == Written(pairs, |pairs|, key, key + 1, position)
  {
    var sorted := SortRecords(RecordsFor(pairs, keyLen), keyLen);
    HitsAreWritten(pairs, keyLen, sorted, key, key + 1, 0);
    found := BinarySearch(Flat(sorted, |sorted|), keyLen, key, sorted);
    forall position: nat ensures Occurs(found, |found|, position) == Written(pairs, |pairs|, key, key + 1, position) {
      HitsAreWritten(pairs, keyLen, sorted, key, key + 1, position);
    }
  }

  /** The same for the keys lo .. hi - 1. */
  method SearchRange(pairs: seq<Pair>, keyLen: nat, lo: nat, hi: nat) returns (found: seq<int>)
    requires Fits(pairs, keyLen)
    ensures forall position: nat :: Occurs(found, |found|, position) == Written(pairs, |pairs|, lo, hi, position)
  {
    var sorted := SortRecords(RecordsFor(pairs, keyLen), keyLen);
    HitsAreWritten(pairs, keyLen, sorted, lo, hi, 0);
    found := BinarySearchRange(Flat(sorted, |sorted|), keyLen, lo, hi, sorted);
    forall position: nat ensures Occurs(found, |found|, position) == Written(pairs, |pairs|, lo, hi, position) {
      HitsAreWritten(pairs, keyLen, sorted, lo, hi, position);
    }
  }
}
