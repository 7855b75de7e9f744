/** Reading the layered index: descend by key byte, stop early at a marked entry. For sorted keys the
    descent decides exactly which stored prefix a byte string starts with. */
module LayerLookup {
  import opened Basics
  import opened Layers

  // ---------- the descent ----------

  /** First entry with byte `pre` among the positions lo .. hi of a layer. */
  function Find(layer: seq<PreIndex>, lo: nat, hi: nat, pre: byte): (j: Option<nat>)
    requires hi <= |layer|
    ensures j.Some? ==> lo <= j.value < hi
    decreases hi - lo
  {
    if lo >= hi then None
    else if layer[lo].pre == pre then Some(lo)
    else Find(layer, lo + 1, hi, pre)
  }

  /** Where the children before position j of a layer end: the start of the next entry's children. */
  function EndOf(layer: seq<PreIndex>, below: nat, j: nat): nat
    requires j <= |layer|
    decreases |layer| - j
  {
    if j == |layer| then below
    else if layer[j].offset < OFFSET_BIT then layer[j].offset
    else EndOf(layer, below, j + 1)
  }

  function Lookup(keyLen: nat, layers: seq<seq<PreIndex>>, i: nat, lo: nat, hi: nat, key: seq<byte>): Option<nat>
    requires |layers| == keyLen == |key| && i < keyLen
    decreases keyLen - i, 1
  {
    if hi > |layers[i]| then None
    else
      match Find(layers[i], lo, hi, Digit(key, i))
      case None => None
      case Some(j) => Follow(keyLen, layers, i, j, key)
  }

  function Follow(keyLen: nat, layers: seq<seq<PreIndex>>, i: nat, j: nat, key: seq<byte>): Option<nat>
    requires |layers| == keyLen == |key| && i < keyLen && j < |layers[i]|
    decreases keyLen - i, 0
  {
    var offset := layers[i][j].offset;
    if offset >= OFFSET_BIT then Some(offset - OFFSET_BIT)
    else if i == keyLen - 1 then Some(offset)
    else Lookup(keyLen, layers, i + 1, offset, EndOf(layers[i], |layers[i + 1]|, j + 1), key)
  }

  // ---------- positions of the heads' entries ----------

  /** Head m's key is greater than the one before it: greater in the first byte that differs. */
  ghost predicate Rises(keyLen: nat, h: seq<Head>, m: nat)
    requires keyLen > 0 && Distinct(keyLen, h) && 0 < m < |h|
  {
    var c := Shared(keyLen, h, m); Digit(h[m - 1].key, c) < Digit(h[m].key, c)
  }

  ghost predicate Sorted(keyLen: nat, h: seq<Head>)
    requires keyLen > 0 && Distinct(keyLen, h)
  {
    forall m: nat :: 0 < m < |h| ==> Rises(keyLen, h, m)
  }

  /** Layer i has all its entries, and none but those of the heads. */
  ghost predicate SizeIs(keyLen: nat, h: seq<Head>, layers: seq<seq<PreIndex>>, i: nat)
    requires keyLen > 0 && Distinct(keyLen, h) && |layers| == keyLen && i < keyLen
  {
    |layers[i]| == Pos(keyLen, h, |h|, i)
  }

  /** Head m's entry is where it belongs in layer i, and only cut entries look marked. */
  ghost predicate EntryIs(keyLen: nat, h: seq<Head>, layers: seq<seq<PreIndex>>, m: nat, i: nat)
    requires keyLen > 0 && Distinct(keyLen, h) && |layers| == keyLen && m < |h| && i < keyLen
  {
    Present(keyLen, h, m, i) ==>
      && Pos(keyLen, h, m, i) < |layers[i]|
      && [layers[i][Pos(keyLen, h, m, i)]] == Entry(keyLen, h, m, i)
      && (!Cut(keyLen, h, m, i) ==> layers[i][Pos(keyLen, h, m, i)].offset < OFFSET_BIT)
  }

  /** The layers of h. */
  ghost predicate Indexes(keyLen: nat, h: seq<Head>, layers: seq<seq<PreIndex>>)
  {
    && keyLen > 0 && Distinct(keyLen, h) && |layers| == keyLen
    && (forall i: nat :: i < keyLen ==> SizeIs(keyLen, h, layers, i))
    && (forall m: nat, i: nat :: m < |h| && i < keyLen ==> EntryIs(keyLen, h, layers, m, i))
  }

  lemma {:induction false} LayerPrefix(keyLen: nat, h: seq<Head>, m: nat, n: nat, i: nat)
    requires Distinct(keyLen, h) && m <= n <= |h| && i < keyLen
    ensures Layer(keyLen, h, m, i) <= Layer(keyLen, h, n, i)
  {
    if m < n { LayerPrefix(keyLen, h, m, n - 1, i); }
  }

  lemma {:induction false} PosOrdered(keyLen: nat, h: seq<Head>, m: nat, n: nat, i: nat)
    requires Distinct(keyLen, h) && m <= n <= |h| && i < keyLen
    ensures Pos(keyLen, h, m, i) <= Pos(keyLen, h, n, i)
  {
    if m < n { PosOrdered(keyLen, h, m, n - 1, i); }
  }

  lemma EntryPlaced(keyLen: nat, h: seq<Head>, layer: seq<PreIndex>, m: nat, i: nat)
    requires keyLen > 0 && Distinct(keyLen, h) && m < |h| && i < keyLen && Present(keyLen, h, m, i)
    requires layer == Layer(keyLen, h, |h|, i)
    ensures Pos(keyLen, h, m, i) < |layer| && [layer[Pos(keyLen, h, m, i)]] == Entry(keyLen, h, m, i)
  {
    LayerPrefix(keyLen, h, m + 1, |h|, i);
    LayerLength(keyLen, h, m, i);
    assert Layer(keyLen, h, m + 1, i) == Layer(keyLen, h, m, i) + Entry(keyLen, h, m, i);
  }

  /** What the writer produces is such an index, while value indexes and positions stay below the mark. */
  lemma LayersAreIndexes(keyLen: nat, h: seq<Head>, layers: seq<seq<PreIndex>>)
    requires keyLen > 0 && Distinct(keyLen, h) && |layers| == keyLen && |h| < OFFSET_BIT
    requires forall m :: 0 <= m < |h| ==> h[m].at < OFFSET_BIT
    requires forall i :: 0 <= i < keyLen ==> layers[i] == Layer(keyLen, h, |h|, i)
    ensures Indexes(keyLen, h, layers)
  {
    forall i: nat | i < keyLen ensures SizeIs(keyLen, h, layers, i) { LayerLength(keyLen, h, |h|, i); }
    forall m: nat, i: nat | m < |h| && i < keyLen ensures EntryIs(keyLen, h, layers, m, i) {
      if Present(keyLen, h, m, i) { EntryPlaced(keyLen, h, layers[i], m, i); }
    }
  }

  /** First head in x .. r that has an entry with byte `pre` in layer i. */
  function NextHead(keyLen: nat, h: seq<Head>, i: nat, x: nat, r: nat, pre: byte): (y: Option<nat>)
    requires Distinct(keyLen, h) && x <= r <= |h| && i < keyLen
    ensures y.Some? ==> x <= y.value < r && Present(keyLen, h, y.value, i) && Digit(h[y.value].key, i) == pre
    decreases r - x
  {
    if x == r then None
    else if Present(keyLen, h, x, i) && Digit(h[x].key, i) == pre then Some(x)
    else NextHead(keyLen, h, i, x + 1, r, pre)
  }

  lemma {:induction false} NextHeadExists(keyLen: nat, h: seq<Head>, i: nat, x: nat, r: nat, pre: byte, z: nat)
    requires Distinct(keyLen, h) && x <= z < r <= |h| && i < keyLen
    requires Present(keyLen, h, z, i) && Digit(h[z].key, i) == pre
    ensures NextHead(keyLen, h, i, x, r, pre).Some?
    decreases r - x
  {
    if x < z { NextHeadExists(keyLen, h, i, x + 1, r, pre, z); }
  }

  lemma EntryByte(keyLen: nat, h: seq<Head>, layers: seq<seq<PreIndex>>, m: nat, i: nat)
    requires Indexes(keyLen, h, layers) && m < |h| && i < keyLen && Present(keyLen, h, m, i)
    ensures Pos(keyLen, h, m, i) < |layers[i]| && layers[i][Pos(keyLen, h, m, i)].pre == Digit(h[m].key, i)
  {
    assert EntryIs(keyLen, h, layers, m, i);
  }

  lemma {:induction false} FindIsNextHead(keyLen: nat, h: seq<Head>, layers: seq<seq<PreIndex>>, i: nat, x: nat, r: nat, pre: byte)
    requires Indexes(keyLen, h, layers) && x <= r <= |h| && i < keyLen
    ensures Pos(keyLen, h, r, i) <= |layers[i]|
    ensures Find(layers[i], Pos(keyLen, h, x, i), Pos(keyLen, h, r, i), pre)
         == match NextHead(keyLen, h, i, x, r, pre) case None => None case Some(y) => Some(Pos(keyLen, h, y, i))
    decreases r - x
  {
    assert SizeIs(keyLen, h, layers, i);
    PosOrdered(keyLen, h, r, |h|, i);
    if x < r {
      FindIsNextHead(keyLen, h, layers, i, x + 1, r, pre);
      var lo, hi := Pos(keyLen, h, x, i), Pos(keyLen, h, r, i);
      if Present(keyLen, h, x, i) {
        EntryByte(keyLen, h, layers, x, i);
        PosOrdered(keyLen, h, x + 1, r, i);
        assert Pos(keyLen, h, x + 1, i) == lo + 1;
        assert Find(layers[i], lo, hi, pre) == if Digit(h[x].key, i) == pre then Some(lo) else Find(layers[i], lo + 1, hi, pre);
      } else {
        assert Pos(keyLen, h, x + 1, i) == lo;
      }
    }
  }

  /** From a head that starts a new prefix, the scan for the end finds its own children's start. */
  lemma {:induction false} EndOfIsNext(keyLen: nat, h: seq<Head>, layers: seq<seq<PreIndex>>, i: nat, x: nat)
    requires Indexes(keyLen, h, layers) && x <= |h| && i < keyLen - 1
    requires x < |h| ==> Shared(keyLen, h, x) <= i
    ensures Pos(keyLen, h, x, i) <= |layers[i]|
    ensures EndOf(layers[i], |layers[i + 1]|, Pos(keyLen, h, x, i)) == Pos(keyLen, h, x, i + 1)
    decreases |h| - x
  {
    assert SizeIs(keyLen, h, layers, i) && SizeIs(keyLen, h, layers, i + 1);
    PosOrdered(keyLen, h, x, |h|, i);
    if x < |h| {
      assert EntryIs(keyLen, h, layers, x, i);
      if !(Present(keyLen, h, x, i) && !Cut(keyLen, h, x, i)) {
        EndOfIsNext(keyLen, h, layers, i, x + 1);
      }
    }
  }

  // ---------- groups of heads with a common prefix ----------

  /** Head m and those after it up to r share their first i bytes, and all reach layer i. */
  ghost predicate Group(keyLen: nat, h: seq<Head>, i: nat, m: nat, r: nat)
    requires keyLen > 0 && Distinct(keyLen, h)
  {
    && m < r <= |h| && i < keyLen
    && Shared(keyLen, h, m) <= i
    && (r < |h| ==> Shared(keyLen, h, r) <= i)
    && (forall x :: m < x < r ==> Shared(keyLen, h, x) >= i)
    && (forall x :: m <= x < r ==> Depth(keyLen, h, x) >= i)
  }

  /** First head after x that does not share more than i bytes with its predecessor. */
  function GroupEnd(keyLen: nat, h: seq<Head>, i: nat, x: nat): (r: nat)
    requires Distinct(keyLen, h) && x < |h| && i < keyLen
    ensures x < r <= |h|
    ensures r < |h| ==> Shared(keyLen, h, r) <= i
    ensures forall z :: x < z < r ==> Shared(keyLen, h, z) > i
    decreases |h| - x
  {
    if x + 1 == |h| || Shared(keyLen, h, x + 1) <= i then x + 1 else GroupEnd(keyLen, h, i, x + 1)
  }

  /** Between two heads of a group, byte i does not go down, and goes up where a new entry starts. */
  lemma {:induction false} ByteRises(keyLen: nat, h: seq<Head>, i: nat, x: nat, y: nat)
    requires keyLen > 0 && Distinct(keyLen, h) && Sorted(keyLen, h) && x <= y < |h| && i < keyLen
    requires forall z :: x < z <= y ==> Shared(keyLen, h, z) >= i
    ensures Digit(h[x].key, i) <= Digit(h[y].key, i)
    ensures (exists z :: x < z <= y && Shared(keyLen, h, z) == i) ==> Digit(h[x].key, i) < Digit(h[y].key, i)
    decreases y - x
  {
    if x < y {
      ByteRises(keyLen, h, i, x, y - 1);
      assert Shared(keyLen, h, y) >= i && Rises(keyLen, h, y);
      if Shared(keyLen, h, y) > i { SharedByte(keyLen, h, y, i); }
    }
  }

  /** The last head at or before w with an entry in layer i: it has w's byte there. */
  lemma {:induction false} Leader(keyLen: nat, h: seq<Head>, i: nat, m: nat, r: nat, w: nat) returns (y: nat)
    requires keyLen > 0 && Distinct(keyLen, h) && Group(keyLen, h, i, m, r) && m <= w < r
    ensures m <= y <= w && Present(keyLen, h, y, i) && Digit(h[y].key, i) == Digit(h[w].key, i)
    ensures w < GroupEnd(keyLen, h, i, y)
    decreases w
  {
    if w == m || Shared(keyLen, h, w) == i {
      y := w;
    } else {
      y := Leader(keyLen, h, i, m, r, w - 1);
      SharedByte(keyLen, h, w, i);
      GroupEndPast(keyLen, h, i, y, w);
    }
  }

  lemma {:induction false} GroupEndPast(keyLen: nat, h: seq<Head>, i: nat, y: nat, w: nat)
    requires Distinct(keyLen, h) && i < keyLen && y < w < |h|
    requires w - 1 < GroupEnd(keyLen, h, i, y) && Shared(keyLen, h, w) > i
    ensures w < GroupEnd(keyLen, h, i, y)
  {}

  /** The byte string agrees with head x from byte i to the last byte stored for x. */
  ghost predicate Agrees(keyLen: nat, h: seq<Head>, x: nat, i: nat, key: seq<byte>)
    requires keyLen > 0 && Distinct(keyLen, h) && x < |h| && |key| == keyLen
  {
    forall j :: i <= j <= Depth(keyLen, h, x) ==> Digit(key, j) == Digit(h[x].key, j)
  }

  /** The heads whose byte i is `pre` are the ones the found entry stands for. */
  lemma OnlyBelow(keyLen: nat, h: seq<Head>, i: nat, m: nat, r: nat, y: nat, w: nat)
    requires keyLen > 0 && Distinct(keyLen, h) && Sorted(keyLen, h) && Group(keyLen, h, i, m, r)
    requires m <= y < r && Present(keyLen, h, y, i) && m <= w < r && Digit(h[w].key, i) == Digit(h[y].key, i)
    ensures y <= w < GroupEnd(keyLen, h, i, y)
  {
    var l := Leader(keyLen, h, i, m, r, w);
    if l < y {
      assert Shared(keyLen, h, y) == i;
      ByteRises(keyLen, h, i, l, y);
    } else if y < l {
      assert Shared(keyLen, h, l) == i;
      ByteRises(keyLen, h, i, y, l);
    }
  }

  /** An entry that is not cut leads to the group of the heads below it. */
  lemma ChildGroup(keyLen: nat, h: seq<Head>, i: nat, m: nat, r: nat, y: nat)
    requires keyLen > 0 && Distinct(keyLen, h) && Group(keyLen, h, i, m, r) && i < keyLen - 1
    requires m <= y < r && Present(keyLen, h, y, i) && !Cut(keyLen, h, y, i)
    ensures Group(keyLen, h, i + 1, y, GroupEnd(keyLen, h, i, y)) && GroupEnd(keyLen, h, i, y) <= r
  {
    var e := GroupEnd(keyLen, h, i, y);
    assert e <= r;
    forall z | y < z < e ensures Depth(keyLen, h, z) >= i + 1 { assert Shared(keyLen, h, z) > i; }
  }

  lemma ChildRange(keyLen: nat, h: seq<Head>, layers: seq<seq<PreIndex>>, i: nat, y: nat)
    requires Indexes(keyLen, h, layers) && y < |h| && i < keyLen - 1 && Present(keyLen, h, y, i)
    ensures Pos(keyLen, h, y, i) < |layers[i]|
    ensures EndOf(layers[i], |layers[i + 1]|, Pos(keyLen, h, y, i) + 1) == Pos(keyLen, h, GroupEnd(keyLen, h, i, y), i + 1)
  {
    var e := GroupEnd(keyLen, h, i, y);
    assert EntryIs(keyLen, h, layers, y, i);
    NoEntries(keyLen, h, i, y + 1, e);
    EndOfIsNext(keyLen, h, layers, i, e);
  }

  lemma {:induction false} NoEntries(keyLen: nat, h: seq<Head>, i: nat, x: nat, e: nat)
    requires Distinct(keyLen, h) && i < keyLen && x <= e <= |h|
    requires forall z :: x <= z < e ==> Shared(keyLen, h, z) > i
    ensures Pos(keyLen, h, x, i) == Pos(keyLen, h, e, i)
    decreases e
  {
    if x < e { NoEntries(keyLen, h, i, x, e - 1); }
  }

  /** One step of the descent, in terms of the heads. */
  lemma LookupStep(keyLen: nat, h: seq<Head>, layers: seq<seq<PreIndex>>, i: nat, m: nat, r: nat, key: seq<byte>)
    requires Indexes(keyLen, h, layers) && |key| == keyLen && i < keyLen && m <= r <= |h|
    ensures Lookup(keyLen, layers, i, Pos(keyLen, h, m, i), Pos(keyLen, h, r, i), key)
         == match NextHead(keyLen, h, i, m, r, Digit(key, i))
            case None => None
            case Some(y) =>
              if Cut(keyLen, h, y, i) || i == keyLen - 1 then Some(h[y].at)
              else Lookup(keyLen, layers, i + 1, Pos(keyLen, h, y, i + 1),
                          Pos(keyLen, h, GroupEnd(keyLen, h, i, y), i + 1), key)
  {
    FindIsNextHead(keyLen, h, layers, i, m, r, Digit(key, i));
    match NextHead(keyLen, h, i, m, r, Digit(key, i))
    case None =>
    case Some(y) => FollowStep(keyLen, h, layers, i, y, key);
  }

  lemma FollowStep(keyLen: nat, h: seq<Head>, layers: seq<seq<PreIndex>>, i: nat, y: nat, key: seq<byte>)
    requires Indexes(keyLen, h, layers) && |key| == keyLen && i < keyLen && y < |h| && Present(keyLen, h, y, i)
    ensures Pos(keyLen, h, y, i) < |layers[i]|
    ensures Follow(keyLen, layers, i, Pos(keyLen, h, y, i), key)
         == if Cut(keyLen, h, y, i) || i == keyLen - 1 then Some(h[y].at)
            else Lookup(keyLen, layers, i + 1, Pos(keyLen, h, y, i + 1),
                        Pos(keyLen, h, GroupEnd(keyLen, h, i, y), i + 1), key)
  {
    OffsetAt(keyLen, h, layers, y, i);
    if i < keyLen - 1 { ChildRange(keyLen, h, layers, i, y); }
  }

  lemma OffsetAt(keyLen: nat, h: seq<Head>, layers: seq<seq<PreIndex>>, m: nat, i: nat)
    requires Indexes(keyLen, h, layers) && m < |h| && i < keyLen && Present(keyLen, h, m, i)
    ensures Pos(keyLen, h, m, i) < |layers[i]|
    ensures var o := layers[i][Pos(keyLen, h, m, i)].offset;
            if Cut(keyLen, h, m, i) then o == OFFSET_BIT + h[m].at
            else o < OFFSET_BIT && o == if i == keyLen - 1 then h[m].at else Pos(keyLen, h, m, i + 1)
  {
    assert EntryIs(keyLen, h, layers, m, i);
  }

  /** `found` is the one head of the group that the byte string agrees with from byte i on. */
  ghost predicate Exact(keyLen: nat, h: seq<Head>, i: nat, m: nat, r: nat, key: seq<byte>, found: Option<nat>)
    requires keyLen > 0 && Distinct(keyLen, h) && |key| == keyLen && r <= |h|
  {
    && (found.Some? ==> m <= found.value < r && Agrees(keyLen, h, found.value, i, key))
    && forall w: nat :: m <= w < r && Agrees(keyLen, h, w, i, key) ==> found == Some(w)
  }

  /** The descent through one group finds exactly the head the byte string agrees with, if any. */
  lemma {:induction false} LookupGroup(keyLen: nat, h: seq<Head>, layers: seq<seq<PreIndex>>,
                                       i: nat, m: nat, r: nat, key: seq<byte>) returns (found: Option<nat>)
    requires Indexes(keyLen, h, layers) && Sorted(keyLen, h) && |key| == keyLen && Group(keyLen, h, i, m, r)
    ensures Exact(keyLen, h, i, m, r, key, found)
    ensures Lookup(keyLen, layers, i, Pos(keyLen, h, m, i), Pos(keyLen, h, r, i), key)
         == match found case None => None case Some(x) => Some(h[x].at)
    decreases keyLen - i
  {
    LookupStep(keyLen, h, layers, i, m, r, key);
    match NextHead(keyLen, h, i, m, r, Digit(key, i))
    case None =>
      found := None;
      NoneExact(keyLen, h, i, m, r, key);
    case Some(y) =>
      if Cut(keyLen, h, y, i) || i == keyLen - 1 {
        found := Some(y);
        HereExact(keyLen, h, i, m, r, key);
      } else {
        ChildGroup(keyLen, h, i, m, r, y);
        found := LookupGroup(keyLen, h, layers, i + 1, y, GroupEnd(keyLen, h, i, y), key);
        ChildExact(keyLen, h, i, m, r, key, found);
      }
  }

  lemma NoneExact(keyLen: nat, h: seq<Head>, i: nat, m: nat, r: nat, key: seq<byte>)
    requires keyLen > 0 && Distinct(keyLen, h) && Sorted(keyLen, h) && Group(keyLen, h, i, m, r) && |key| == keyLen
    requires NextHead(keyLen, h, i, m, r, Digit(key, i)).None?
    ensures Exact(keyLen, h, i, m, r, key, None)
  {
    forall w: nat | m <= w < r && Agrees(keyLen, h, w, i, key) ensures false { Candidate(keyLen, h, i, m, r, key, w); }
  }

  lemma HereExact(keyLen: nat, h: seq<Head>, i: nat, m: nat, r: nat, key: seq<byte>)
    requires keyLen > 0 && Distinct(keyLen, h) && Sorted(keyLen, h) && Group(keyLen, h, i, m, r) && |key| == keyLen
    requires var next := NextHead(keyLen, h, i, m, r, Digit(key, i));
             next.Some? && (Cut(keyLen, h, next.value, i) || i == keyLen - 1)
    ensures Exact(keyLen, h, i, m, r, key, NextHead(keyLen, h, i, m, r, Digit(key, i)))
  {
    var y := NextHead(keyLen, h, i, m, r, Digit(key, i)).value;
    EndsHere(keyLen, h, i, y, key);
    forall w: nat | m <= w < r && Agrees(keyLen, h, w, i, key) ensures w == y { Candidate(keyLen, h, i, m, r, key, w); }
  }

  lemma ChildExact(keyLen: nat, h: seq<Head>, i: nat, m: nat, r: nat, key: seq<byte>, found: Option<nat>)
    requires keyLen > 0 && Distinct(keyLen, h) && Sorted(keyLen, h) && Group(keyLen, h, i, m, r) && |key| == keyLen
    requires NextHead(keyLen, h, i, m, r, Digit(key, i)).Some? && i < keyLen - 1
    requires var y := NextHead(keyLen, h, i, m, r, Digit(key, i)).value;
             && GroupEnd(keyLen, h, i, y) <= r
             && Exact(keyLen, h, i + 1, y, GroupEnd(keyLen, h, i, y), key, found)
    ensures Exact(keyLen, h, i, m, r, key, found)
  {
    var y := NextHead(keyLen, h, i, m, r, Digit(key, i)).value;
    if found.Some? { ByteShared(keyLen, h, i, y, found.value); }
    forall w: nat | m <= w < r && Agrees(keyLen, h, w, i, key) ensures found == Some(w) {
      Candidate(keyLen, h, i, m, r, key, w);
      assert Agrees(keyLen, h, w, i + 1, key);
    }
  }

  /** A head the byte string agrees with is below the entry that is found. */
  lemma Candidate(keyLen: nat, h: seq<Head>, i: nat, m: nat, r: nat, key: seq<byte>, w: nat)
    requires keyLen > 0 && Distinct(keyLen, h) && Sorted(keyLen, h) && Group(keyLen, h, i, m, r) && |key| == keyLen
    requires m <= w < r && Agrees(keyLen, h, w, i, key)
    ensures var next := NextHead(keyLen, h, i, m, r, Digit(key, i));
            next.Some? && next.value <= w < GroupEnd(keyLen, h, i, next.value)
  {
    assert Digit(h[w].key, i) == Digit(key, i);
    var l := Leader(keyLen, h, i, m, r, w);
    NextHeadExists(keyLen, h, i, m, r, Digit(key, i), l);
    OnlyBelow(keyLen, h, i, m, r, NextHead(keyLen, h, i, m, r, Digit(key, i)).value, w);
  }

  lemma EndsHere(keyLen: nat, h: seq<Head>, i: nat, y: nat, key: seq<byte>)
    requires keyLen > 0 && Distinct(keyLen, h) && y < |h| && i < keyLen && |key| == keyLen
    requires Present(keyLen, h, y, i) && (Cut(keyLen, h, y, i) || i == keyLen - 1) && Digit(h[y].key, i) == Digit(key, i)
    ensures GroupEnd(keyLen, h, i, y) == y + 1 && Agrees(keyLen, h, y, i, key)
  {}

  lemma {:induction false} ByteShared(keyLen: nat, h: seq<Head>, i: nat, y: nat, x: nat)
    requires Distinct(keyLen, h) && i < keyLen && y <= x < |h|
    requires forall z :: y < z <= x ==> Shared(keyLen, h, z) > i
    ensures Digit(h[x].key, i) == Digit(h[y].key, i)
    decreases x
  {
    if y < x {
      ByteShared(keyLen, h, i, y, x - 1);
      SharedByte(keyLen, h, x, i);
    }
  }

  /** A byte string is found exactly when it starts with a stored prefix, and then at the first value
      of that prefix's key. */
  lemma LookupIsExact(keyLen: nat, h: seq<Head>, layers: seq<seq<PreIndex>>, key: seq<byte>)
    requires Indexes(keyLen, h, layers) && Sorted(keyLen, h) && |key| == keyLen
    ensures forall x :: 0 <= x < |h| && Agrees(keyLen, h, x, 0, key) ==>
              Lookup(keyLen, layers, 0, 0, |layers[0]|, key) == Some(h[x].at)
    ensures Lookup(keyLen, layers, 0, 0, |layers[0]|, key).Some? ==>
              exists x :: 0 <= x < |h| && Agrees(keyLen, h, x, 0, key)
  {
    assert SizeIs(keyLen, h, layers, 0);
    if h != [] {
      var found := LookupGroup(keyLen, h, layers, 0, 0, |h|, key);
      assert Exact(keyLen, h, 0, 0, |h|, key, found);
    }
  }
}
