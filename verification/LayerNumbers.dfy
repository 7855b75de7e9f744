/** The layered index over keys and values that are numbers: written for a list whose keys never fall, it leads from a
    key to the first value inserted under it. */
module LayerNumbers {
  import opened Basics
  import opened Bits
  import opened Layers
  import opened LayerLookup
  import opened LayerWriter
  import opened LittleEndian

  // ---------- from the node list to its index ----------

  /** The first differing digit decides. */
  predicate KeyBefore(a: seq<byte>, b: seq<byte>)
    requires |a| == |b|
  {
    var c := Common(a, b, 0); c < |a| && Digit(a, c) < Digit(b, c)
  }

  /** The keys agree in all bytes from `from` on. */
  lemma CommonTail(a: seq<byte>, b: seq<byte>, from: nat)
    requires |a| == |b| && from <= |a| && |a| - from <= Common(a, b, 0)
    ensures a[from..] == b[from..]
  {
    forall k: nat | from <= k < |a| ensures a[k] == b[k] {
      CommonByte(a, b, 0, |a| - k - 1);
      assert Digit(a, |a| - k - 1) == a[k] && Digit(b, |a| - k - 1) == b[k];
    }
  }

  /** Of keys that agree above byte k, the larger byte k makes the larger number. */
  lemma ByteDecides(a: seq<byte>, b: seq<byte>, k: nat)
    requires k < |a| == |b| && a[k + 1..] == b[k + 1..] && a[k] < b[k]
    ensures Number(a) < Number(b)
  {
    assert a[k..][1..] == a[k + 1..] && b[k..][1..] == b[k + 1..];
    UpperDecides(a, b, k);
  }

  /** Keys of one length in order of their digits are in the order of their numbers. */
  lemma KeyBeforeIsLess(a: seq<byte>, b: seq<byte>)
    requires |a| == |b|
    ensures KeyBefore(a, b) <==> Number(a) < Number(b)
  {
    var c := Common(a, b, 0);
    if c == |a| {
      SharedAll(a, b);
    } else {
      var k := |a| - c - 1;
      CommonTail(a, b, k + 1);
      assert Digit(a, c) == a[k] && Digit(b, c) == b[k];
      if a[k] < b[k] { ByteDecides(a, b, k); } else { ByteDecides(b, a, k); }
    }
  }

  /** Node k is not before the node in front of it: the keys compare as numbers. */
  ghost predicate Follows(nodes: seq<Node>, k: nat)
    requires 0 < k < |nodes|
  {
    Number(nodes[k - 1].key) <= Number(nodes[k].key)
  }

  ghost predicate Ascending(keyLen: nat, nodes: seq<Node>)
    requires Keyed(keyLen, nodes)
  {
    forall k: nat :: 0 < k < |nodes| ==> Follows(nodes, k)
  }

  lemma OrderOfKeys(a: seq<byte>, b: seq<byte>)
    requires |a| == |b| && Number(a) <= Number(b)
    ensures a == b || KeyBefore(a, b)
  {
    KeyBeforeIsLess(a, b);
    if Number(a) == Number(b) { SameNumber(a, b); }
  }

  lemma {:induction false} HeadsSorted(keyLen: nat, nodes: seq<Node>, n: nat)
    requires keyLen > 0 && Keyed(keyLen, nodes) && Ascending(keyLen, nodes) && n <= |nodes|
    ensures Distinct(keyLen, Heads(nodes, n)) && Sorted(keyLen, Heads(nodes, n))
  {
    HeadsDistinct(keyLen, nodes, n);
    if n > 0 {
      HeadsSorted(keyLen, nodes, n - 1);
      var g, h := Heads(nodes, n - 1), Heads(nodes, n);
      forall m: nat | 0 < m < |h| ensures Rises(keyLen, h, m) {
        if m < |g| {
          assert Rises(keyLen, g, m) && g[m] == h[m] && g[m - 1] == h[m - 1];
        } else {
          assert Follows(nodes, n - 1) && Differs(h, m);
          OrderOfKeys(nodes[n - 2].key, nodes[n - 1].key);
        }
      }
    }
  }

  lemma {:induction false} HeadOf(nodes: seq<Node>, n: nat, k: nat) returns (m: nat)
    requires k < n <= |nodes|
    ensures m < |Heads(nodes, n)| && Heads(nodes, n)[m].key == nodes[k].key && Heads(nodes, n)[m].at <= k
  {
    if k < n - 1 {
      m := HeadOf(nodes, n - 1, k);
    } else if n > 1 && nodes[n - 1].key == nodes[n - 2].key {
      m := HeadOf(nodes, n - 1, k - 1);
    } else {
      m := |Heads(nodes, n)| - 1;
    }
  }

  /** In the index written for ascending nodes, every key leads to the first node that has it. */
  lemma FirstValueFound(keyLen: nat, nodes: seq<Node>, layers: seq<seq<PreIndex>>, k: nat)
    requires keyLen > 0 && Keyed(keyLen, nodes) && Ascending(keyLen, nodes)
    requires |nodes| < OFFSET_BIT && k < |nodes| && |layers| == keyLen
    requires Distinct(keyLen, Heads(nodes, |nodes|))
    requires forall i :: 0 <= i < keyLen ==>
               layers[i] == Layer(keyLen, Heads(nodes, |nodes|), |Heads(nodes, |nodes|)|, i)
    ensures var r := Lookup(keyLen, layers, 0, 0, |layers[0]|, nodes[k].key);
            && r.Some? && r.value < |nodes| && nodes[r.value].key == nodes[k].key
            && forall j :: 0 <= j < |nodes| && nodes[j].key == nodes[k].key ==> r.value <= j
  {
    var h := Heads(nodes, |nodes|);
    HeadsSorted(keyLen, nodes, |nodes|);
    LayersAreIndexes(keyLen, h, layers);
    LookupIsExact(keyLen, h, layers, nodes[k].key);
    forall j | 0 <= j < |nodes| && nodes[j].key == nodes[k].key
      ensures var r := Lookup(keyLen, layers, 0, 0, |layers[0]|, nodes[k].key);
              r.Some? && r.value <= j && r.value < |nodes| && nodes[r.value].key == nodes[k].key
    {
      var m := HeadOf(nodes, |nodes|, j);
      assert Agrees(keyLen, h, m, 0, nodes[k].key);
    }
  }

  // ---------- keys and values as numbers ----------

  /** A list of numbers as nodes: each key in `keyLen` bytes, as it lies in memory. */
  function NodesOf(keyLen: nat, keys: seq<nat>, values: seq<nat>): (nodes: seq<Node>)
    requires |keys| == |values|
    ensures |nodes| == |keys| && Keyed(keyLen, nodes)
    ensures forall k: nat :: k < |keys| ==> nodes[k] == Node(Word(keys[k], keyLen), values[k])
  {
    seq(|keys|, k requires 0 <= k < |keys| => Node(Word(keys[k], keyLen), values[k]))
  }

  /** The keys never fall, and fit their length. */
  ghost predicate KeyNumbers(keyLen: nat, keys: seq<nat>) {
    && (forall k: nat :: k < |keys| ==> keys[k] < Pow2(8 * keyLen))
    && (forall j: nat, k: nat :: j <= k < |keys| ==> keys[j] <= keys[k])
  }

  lemma NodesAscend(keyLen: nat, keys: seq<nat>, values: seq<nat>)
    requires |keys| == |values| && KeyNumbers(keyLen, keys)
    ensures Ascending(keyLen, NodesOf(keyLen, keys, values))
  {
    var nodes := NodesOf(keyLen, keys, values);
    forall k: nat | 0 < k < |nodes| ensures Follows(nodes, k) {
      WordReadsBack(keys[k - 1], keyLen);
      WordReadsBack(keys[k], keyLen);
    }
  }

  /** Serialize a list of keys that never fall and look one of them up: the answer is the place of the first pair with
      that key, and the value area has its value there. */
  method FindNumber(keyLen: nat, valueLen: nat, keys: seq<nat>, values: seq<nat>, key: nat) returns (at: nat, value: nat)
    requires keyLen > 0 && |keys| == |values| && KeyNumbers(keyLen, keys) && key in keys
    requires |keys| < OFFSET_BIT && |keys| * valueLen < 0x1_0000_0000
    requires forall k: nat :: k < |values| ==> values[k] < Pow2(8 * valueLen)
    ensures at < |keys| && keys[at] == key && value == values[at] && forall j: nat :: j < at ==> keys[j] != key
  {
    var nodes := NodesOf(keyLen, keys, values);
    NodesAscend(keyLen, keys, values);
    var layers, area := OutputToCharCompressed(keyLen, valueLen, nodes);
    ghost var k: nat :| k < |keys| && keys[k] == key;
    FirstValueFound(keyLen, nodes, layers, k);
    var found := Lookup(keyLen, layers, 0, 0, |layers[0]|, Word(key, keyLen));
    at := found.value;
    value := area[at];
    WordReadsBack(key, keyLen);
    WordReadsBack(keys[at], keyLen);
    StoredIsValue(valueLen, values[at]);
    forall j: nat | j < at ensures keys[j] != key { assert nodes[j].key == Word(keys[j], keyLen); }
  }
}
