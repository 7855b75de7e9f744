/** The layered, path-compressed key index of a skip list (`outputToCharCompressed`): layer i holds
    one entry per distinct (i+1)-byte key prefix, except that a prefix with a single key below it
    carries that key's value index and has no entries in deeper layers. The writer goes through the
    sorted keys once and trims the deeper layers when a prefix turns out to have a single key. */
module Layers {
  import opened Basics

  /** A node of the bottom level: the key as its `keyLen` bytes in memory order, and its value. */
  datatype Node = Node(key: seq<byte>, value: nat)

  datatype PreIndex = PreIndex(pre: byte, offset: nat)

  const OFFSET_BIT: nat := 0x8000_0000

  /** Byte i of the key, most significant first. */
  function Digit(key: seq<byte>, i: nat): byte
    requires i < |key|
  {
    key[|key| - i - 1]
  }

  /** A distinct key with the index of its first value. */
  datatype Head = Head(key: seq<byte>, at: nat)

  ghost predicate Keyed(keyLen: nat, nodes: seq<Node>) {
    forall k :: 0 <= k < |nodes| ==> |nodes[k].key| == keyLen
  }

  /** The distinct neighbouring keys of the first n nodes. */
  function Heads(nodes: seq<Node>, n: nat): (h: seq<Head>)
    requires n <= |nodes|
    ensures |h| <= n && (n > 0 ==> h != [] && h[|h| - 1].key == nodes[n - 1].key)
    ensures forall m :: 0 <= m < |h| ==> h[m].at < n && nodes[h[m].at].key == h[m].key
  {
    if n == 0 then []
    else
      var h := Heads(nodes, n - 1);
      if n > 1 && nodes[n - 1].key == nodes[n - 2].key then h else h + [Head(nodes[n - 1].key, n - 1)]
  }

  /** Head m has another key than the head before it. */
  ghost predicate Differs(h: seq<Head>, m: nat)
    requires 0 < m < |h|
  {
    h[m - 1].key != h[m].key
  }

  ghost predicate Distinct(keyLen: nat, h: seq<Head>) {
    && (forall m :: 0 <= m < |h| ==> |h[m].key| == keyLen)
    && (forall m: nat :: 0 < m < |h| ==> Differs(h, m))
  }

  lemma {:induction false} HeadsDistinct(keyLen: nat, nodes: seq<Node>, n: nat)
    requires Keyed(keyLen, nodes) && n <= |nodes|
    ensures Distinct(keyLen, Heads(nodes, n))
  {
    if n > 0 {
      HeadsDistinct(keyLen, nodes, n - 1);
      var g, h := Heads(nodes, n - 1), Heads(nodes, n);
      forall m: nat | 0 < m < |h| ensures Differs(h, m) {
        if m < |g| { assert Differs(g, m); }
      }
    }
  }

  /** Number of leading bytes two keys share, counted from byte i on. */
  function Common(a: seq<byte>, b: seq<byte>, i: nat): (c: nat)
    requires |a| == |b| && i <= |a|
    ensures i <= c <= |a|
    ensures c < |a| ==> Digit(a, c) != Digit(b, c)
    decreases |a| - i
  {
    if i < |a| && Digit(a, i) == Digit(b, i) then Common(a, b, i + 1) else i
  }

  lemma {:induction false} CommonByte(a: seq<byte>, b: seq<byte>, i: nat, j: nat)
    requires |a| == |b| && i <= |a| && i <= j < Common(a, b, i)
    ensures Digit(a, j) == Digit(b, j)
    decreases |a| - i
  {
    if i < j { CommonByte(a, b, i + 1, j); }
  }

  lemma SharedAll(a: seq<byte>, b: seq<byte>)
    requires |a| == |b| && Common(a, b, 0) == |a|
    ensures a == b
  {
    forall k | 0 <= k < |a| ensures a[k] == b[k] {
      CommonByte(a, b, 0, |a| - k - 1);
      assert Digit(a, |a| - k - 1) == Digit(b, |a| - k - 1);
    }
  }

  /** How many leading bytes head m shares with the head before it; 0 at both ends of the list. */
  function Shared(keyLen: nat, h: seq<Head>, m: nat): (c: nat)
    requires Distinct(keyLen, h) && m <= |h| && keyLen > 0
    ensures c < keyLen
  {
    if m == 0 || m == |h| then 0
    else
      var c := Common(h[m - 1].key, h[m].key, 0);
      assert c != keyLen by {
        assert Differs(h, m);
        if c == keyLen { SharedAll(h[m - 1].key, h[m].key); }
      }
      c
  }

  lemma SharedByte(keyLen: nat, h: seq<Head>, m: nat, j: nat)
    requires keyLen > 0 && Distinct(keyLen, h) && m < |h| && j < Shared(keyLen, h, m)
    ensures m > 0 && Digit(h[m - 1].key, j) == Digit(h[m].key, j)
  {
    CommonByte(h[m - 1].key, h[m].key, 0, j);
  }

  /** The deepest layer in which head m has an entry once the key after it is known. */
  function Depth(keyLen: nat, h: seq<Head>, m: nat): (d: nat)
    requires Distinct(keyLen, h) && m < |h| && keyLen > 0
    ensures d < keyLen
  {
    var c, c' := Shared(keyLen, h, m), Shared(keyLen, h, m + 1);
    if c < c' then c' else c
  }

  /** Does head m have an entry in layer i? */
  predicate Present(keyLen: nat, h: seq<Head>, m: nat, i: nat)
    requires Distinct(keyLen, h) && m < |h| && i < keyLen
  {
    Shared(keyLen, h, m) <= i <= Depth(keyLen, h, m)
  }

  /** Is the entry of head m in layer i its last one, above the full key length? */
  predicate Cut(keyLen: nat, h: seq<Head>, m: nat, i: nat)
    requires Distinct(keyLen, h) && m < |h| && i < keyLen
  {
    i < keyLen - 1 && i == Depth(keyLen, h, m)
  }

  /** How many entries the first m heads have in layer i. */
  function Pos(keyLen: nat, h: seq<Head>, m: nat, i: nat): (n: nat)
    requires Distinct(keyLen, h) && m <= |h| && i < keyLen
    ensures n <= m
  {
    if m == 0 then 0 else Pos(keyLen, h, m - 1, i) + if Present(keyLen, h, m - 1, i) then 1 else 0
  }

  /** Where the entry of head m in layer i points: to its value, or to its children in layer i + 1. */
  function OpenOffset(keyLen: nat, h: seq<Head>, m: nat, i: nat): nat
    requires Distinct(keyLen, h) && m < |h| && i < keyLen
  {
    if i == keyLen - 1 then h[m].at else Pos(keyLen, h, m, i + 1)
  }

  /** Head m's part of layer i: in the layers from Shared(m) to Depth(m) one entry, and in the last
      of them the value index, marked, unless that layer is the full key. */
  function Entry(keyLen: nat, h: seq<Head>, m: nat, i: nat): (e: seq<PreIndex>)
    requires Distinct(keyLen, h) && m < |h| && i < keyLen
    ensures |e| == if Present(keyLen, h, m, i) then 1 else 0
  {
    if Present(keyLen, h, m, i) then
      [PreIndex(Digit(h[m].key, i),
                if Cut(keyLen, h, m, i) then OFFSET_BIT + h[m].at else OpenOffset(keyLen, h, m, i))]
    else []
  }

  /** The entries of layer i for the first m heads. */
  function Layer(keyLen: nat, h: seq<Head>, m: nat, i: nat): (l: seq<PreIndex>)
    requires Distinct(keyLen, h) && m <= |h| && i < keyLen
  {
    if m == 0 then [] else Layer(keyLen, h, m - 1, i) + Entry(keyLen, h, m - 1, i)
  }

  lemma {:induction false} LayerLength(keyLen: nat, h: seq<Head>, m: nat, i: nat)
    requires Distinct(keyLen, h) && m <= |h| && i < keyLen
    ensures |Layer(keyLen, h, m, i)| == Pos(keyLen, h, m, i)
  {
    if m > 0 { LayerLength(keyLen, h, m - 1, i); }
  }

  /** Layer i while the last head's path is still written out in full. */
  function OpenLayer(keyLen: nat, h: seq<Head>, i: nat): seq<PreIndex>
    requires Distinct(keyLen, h) && i < keyLen
  {
    if h == [] then []
    else
      var m := |h| - 1;
      Layer(keyLen, h, m, i)
      + if Shared(keyLen, h, m) <= i then [PreIndex(Digit(h[m].key, i), OpenOffset(keyLen, h, m, i))] else []
  }

  // ---------- adding a key leaves the earlier heads' entries alone ----------

  lemma SharedStable(keyLen: nat, h: seq<Head>, h': seq<Head>, m: nat)
    requires keyLen > 0 && Distinct(keyLen, h) && Distinct(keyLen, h') && h <= h' && m < |h|
    ensures Shared(keyLen, h', m) == Shared(keyLen, h, m)
  {}

  lemma {:induction false} PosStable(keyLen: nat, h: seq<Head>, h': seq<Head>, m: nat, i: nat)
    requires Distinct(keyLen, h) && Distinct(keyLen, h') && h <= h' && m < |h| && i < keyLen
    ensures Pos(keyLen, h', m, i) == Pos(keyLen, h, m, i)
  {
    if m > 0 {
      PosStable(keyLen, h, h', m - 1, i);
      SharedStable(keyLen, h, h', m - 1);
      SharedStable(keyLen, h, h', m);
    }
  }

  lemma OpenOffsetStable(keyLen: nat, h: seq<Head>, h': seq<Head>, m: nat, i: nat)
    requires Distinct(keyLen, h) && Distinct(keyLen, h') && h <= h' && m < |h| && i < keyLen
    ensures OpenOffset(keyLen, h', m, i) == OpenOffset(keyLen, h, m, i)
  {
    if i < keyLen - 1 { PosStable(keyLen, h, h', m, i + 1); }
  }

  lemma EntryStable(keyLen: nat, h: seq<Head>, h': seq<Head>, m: nat, i: nat)
    requires Distinct(keyLen, h) && Distinct(keyLen, h') && h <= h' && m + 1 < |h| && i < keyLen
    ensures Entry(keyLen, h', m, i) == Entry(keyLen, h, m, i)
  {
    SharedStable(keyLen, h, h', m);
    SharedStable(keyLen, h, h', m + 1);
    OpenOffsetStable(keyLen, h, h', m, i);
  }

  lemma {:induction false} LayerStable(keyLen: nat, h: seq<Head>, h': seq<Head>, m: nat, i: nat)
    requires Distinct(keyLen, h) && Distinct(keyLen, h') && h <= h' && m < |h| && i < keyLen
    ensures Layer(keyLen, h', m, i) == Layer(keyLen, h, m, i)
  {
    if m > 0 {
      LayerStable(keyLen, h, h', m - 1, i);
      EntryStable(keyLen, h, h', m - 1, i);
    }
  }
}
