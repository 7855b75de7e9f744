/** The one-pass writer of the layered index, loop by loop, proved to produce `Layers.Layer`. */
module LayerWriter {
  import opened Basics
  import opened Bits
  import opened Layers
  import opened LittleEndian

  function Last(l: seq<PreIndex>): PreIndex
    requires l != []
  {
    l[|l| - 1]
  }

  /** The layers and key counters after all keys of h, the last path still written out in full:
      `count[i]` is 1 exactly when the last key is alone under its first i + 1 bytes. */
  ghost predicate OpenState(keyLen: nat, h: seq<Head>, layers: seq<seq<PreIndex>>, count: seq<nat>)
    requires Distinct(keyLen, h)
  {
    && keyLen > 0 && |layers| == |count| == keyLen
    && forall i: nat :: i < keyLen ==> OpenAt(keyLen, h, i, layers[i], count[i])
  }

  ghost predicate OpenAt(keyLen: nat, h: seq<Head>, i: nat, layer: seq<PreIndex>, n: nat)
    requires Distinct(keyLen, h) && i < keyLen
  {
    && layer == OpenLayer(keyLen, h, i)
    && if h == [] then n == 0 else
         && n >= 1 && (n == 1 <==> Shared(keyLen, h, |h| - 1) <= i)
         && layer != [] && Last(layer).pre == Digit(h[|h| - 1].key, i)
  }

  // ---------- closing the path of the last head ----------

  /** The entry of the last head of h when a further head follows. */
  lemma ClosedEntry(keyLen: nat, h: seq<Head>, h': seq<Head>, j: nat)
    requires Distinct(keyLen, h) && Distinct(keyLen, h') && h <= h' && h != [] && j < keyLen
    ensures var m := |h| - 1;
            && Layer(keyLen, h', |h|, j) == Layer(keyLen, h, m, j) + Entry(keyLen, h', m, j)
            && Shared(keyLen, h', m) == Shared(keyLen, h, m)
            && OpenOffset(keyLen, h', m, j) == OpenOffset(keyLen, h, m, j)
  {
    var m := |h| - 1;
    SharedStable(keyLen, h, h', m);
    LayerStable(keyLen, h, h', m, j);
    OpenOffsetStable(keyLen, h, h', m, j);
  }

  /** Closing the last head of h because of a new key: above its depth its entries stay, ... */
  lemma CloseAbove(keyLen: nat, h: seq<Head>, h': seq<Head>, j: nat)
    requires Distinct(keyLen, h) && Distinct(keyLen, h') && h <= h' && h != [] && j < keyLen
    requires j < Depth(keyLen, h', |h| - 1)
    ensures Layer(keyLen, h', |h|, j) == OpenLayer(keyLen, h, j)
  {
    ClosedEntry(keyLen, h, h', j);
  }

  /** ... at its depth the entry takes the value index, ... */
  lemma CloseAt(keyLen: nat, h: seq<Head>, h': seq<Head>, j: nat)
    requires Distinct(keyLen, h) && Distinct(keyLen, h') && h <= h' && h != [] && j < keyLen
    requires j == Depth(keyLen, h', |h| - 1)
    ensures var l := OpenLayer(keyLen, h, j);
            && l != []
            && Layer(keyLen, h', |h|, j) ==
                 if j == keyLen - 1 then l
                 else l[|l| - 1 := Last(l).(offset := OFFSET_BIT + h[|h| - 1].at)]
  {
    ClosedEntry(keyLen, h, h', j);
  }

  /** ... and below it the entries go. */
  lemma CloseBelow(keyLen: nat, h: seq<Head>, h': seq<Head>, j: nat)
    requires Distinct(keyLen, h) && Distinct(keyLen, h') && h <= h' && h != [] && j < keyLen
    requires j > Depth(keyLen, h', |h| - 1)
    ensures var l := OpenLayer(keyLen, h, j);
            l != [] && Layer(keyLen, h', |h|, j) == l[..|l| - 1]
  {
    ClosedEntry(keyLen, h, h', j);
  }

  /** The bottom layer ends with the last head's value index. */
  lemma BottomEndsWithIndex(keyLen: nat, h: seq<Head>)
    requires Distinct(keyLen, h) && h != [] && keyLen > 0
    ensures var l := OpenLayer(keyLen, h, keyLen - 1); l != [] && Last(l).offset == h[|h| - 1].at
  {}

  // ---------- the trimming step ----------

  /** The single key under the last entry of layer i: its value index moves up, its entries in
      deeper layers are dropped. */
  method Trim(keyLen: nat, layers0: seq<seq<PreIndex>>, count0: seq<nat>, i: nat)
    returns (layers: seq<seq<PreIndex>>, count: seq<nat>)
    requires |layers0| == |count0| == keyLen && i < keyLen - 1
    requires forall j :: i <= j < keyLen ==> layers0[j] != []
    ensures |layers| == |count| == keyLen
    ensures forall j :: 0 <= j < i ==> layers[j] == layers0[j]
    ensures forall j :: 0 <= j <= i ==> count[j] == count0[j]
    ensures layers[i] == layers0[i][|layers0[i]| - 1 := Last(layers0[i]).(offset := OFFSET_BIT + Last(layers0[keyLen - 1]).offset)]
    ensures forall j :: i < j < keyLen ==> layers[j] == layers0[j][..|layers0[j]| - 1] && count[j] == 0
  {
    layers, count := layers0, count0;
    var off := OFFSET_BIT + Last(layers[keyLen - 1]).offset;
    layers := layers[i := layers[i][|layers[i]| - 1 := Last(layers[i]).(offset := off)]];
    for j := i + 1 to keyLen
      invariant |layers| == |count| == keyLen
      invariant forall k :: 0 <= k < i ==> layers[k] == layers0[k]
      invariant forall k :: 0 <= k <= i ==> count[k] == count0[k]
      invariant layers[i] == layers0[i][|layers0[i]| - 1 := Last(layers0[i]).(offset := off)]
      invariant forall k :: i < k < j ==> layers[k] == layers0[k][..|layers0[k]| - 1] && count[k] == 0
      invariant forall k :: j <= k < keyLen ==> layers[k] == layers0[k]
    {
      layers := layers[j := layers[j][..|layers[j]| - 1]];
      count := count[j := 0];
    }
  }

  // ---------- adding one key ----------

  /** Layer j while the new last head of h' is being added and layers below `i` are done. */
  ghost predicate MidAt(keyLen: nat, h: seq<Head>, h': seq<Head>, i: nat, j: nat, layer: seq<PreIndex>, n: nat)
    requires Distinct(keyLen, h) && Distinct(keyLen, h') && |h'| == |h| + 1 && h <= h' && j < keyLen
  {
    if j < i then OpenAt(keyLen, h', j, layer, n)
    else if h != [] && i <= Depth(keyLen, h', |h| - 1) then OpenAt(keyLen, h, j, layer, n)
    else layer == Layer(keyLen, h', |h|, j) && n == 0
  }

  ghost predicate Midway(keyLen: nat, h: seq<Head>, h': seq<Head>, i: nat, layers: seq<seq<PreIndex>>, count: seq<nat>)
    requires Distinct(keyLen, h) && Distinct(keyLen, h') && |h'| == |h| + 1 && h <= h'
  {
    && |layers| == |count| == keyLen
    && forall j: nat :: j < keyLen ==> MidAt(keyLen, h, h', i, j, layers[j], count[j])
  }

  /** A byte above the first difference: the entry is already there. */
  lemma PassShared(keyLen: nat, h: seq<Head>, h': seq<Head>, i: nat, layer: seq<PreIndex>, n: nat)
    requires Distinct(keyLen, h) && Distinct(keyLen, h') && |h'| == |h| + 1 && h <= h' && i < keyLen
    requires h != [] && i < Shared(keyLen, h', |h|) && OpenAt(keyLen, h, i, layer, n)
    ensures OpenAt(keyLen, h', i, layer, n + 1)
    ensures Last(layer).pre == Digit(h'[|h|].key, i)
  {
    SharedByte(keyLen, h', |h|, i);
    CloseAbove(keyLen, h, h', i);
  }

  /** After closing what layer i requires, layer i holds the earlier heads, and the next layer has
      as many entries as the earlier heads will keep there. */
  ghost predicate ReadyAt(keyLen: nat, h: seq<Head>, h': seq<Head>, i: nat, layers: seq<seq<PreIndex>>)
    requires Distinct(keyLen, h) && Distinct(keyLen, h') && h <= h' && i < keyLen == |layers|
  {
    && layers[i] == Layer(keyLen, h', |h|, i)
    && (i < keyLen - 1 ==> |layers[i + 1]| == |Layer(keyLen, h', |h|, i + 1)|)
  }

  /** The closed layer i + 1 has as many entries as the open one had, if the last head reaches it. */
  lemma CloseKeepsLength(keyLen: nat, h: seq<Head>, h': seq<Head>, j: nat)
    requires Distinct(keyLen, h) && Distinct(keyLen, h') && h <= h' && h != [] && j < keyLen
    requires j <= Depth(keyLen, h', |h| - 1)
    ensures |Layer(keyLen, h', |h|, j)| == |OpenLayer(keyLen, h, j)|
  {
    if j < Depth(keyLen, h', |h| - 1) { CloseAbove(keyLen, h, h', j); } else { CloseAt(keyLen, h, h', j); }
  }

  /** Below the first difference, the counter says whether the last head ends in this layer. */
  lemma CountTells(keyLen: nat, h: seq<Head>, h': seq<Head>, i: nat, layer: seq<PreIndex>, n: nat)
    requires Distinct(keyLen, h) && Distinct(keyLen, h') && |h'| == |h| + 1 && h <= h' && i < keyLen
    requires MidAt(keyLen, h, h', i, i, layer, n) && Shared(keyLen, h', |h|) <= i
    ensures n == 1 && i != keyLen - 1 <==> h != [] && Cut(keyLen, h', |h| - 1, i)
  {
    if h != [] { SharedStable(keyLen, h, h', |h| - 1); }
  }

  lemma StillOpen(keyLen: nat, h: seq<Head>, h': seq<Head>, i: nat, layers: seq<seq<PreIndex>>, count: seq<nat>)
    requires Distinct(keyLen, h) && Distinct(keyLen, h') && |h'| == |h| + 1 && h <= h' && i < keyLen
    requires Midway(keyLen, h, h', i, layers, count) && h != [] && i <= Depth(keyLen, h', |h| - 1)
    ensures forall j :: i <= j < keyLen ==> layers[j] == OpenLayer(keyLen, h, j) && layers[j] != []
  {
    forall j | i <= j < keyLen
      ensures layers[j] == OpenLayer(keyLen, h, j) && layers[j] != []
    {
      assert MidAt(keyLen, h, h', i, j, layers[j], count[j]);
    }
  }

  /** Nothing to trim in layer i while the last head's path is open: its entries are kept. */
  lemma KeptOpen(keyLen: nat, h: seq<Head>, h': seq<Head>, i: nat)
    requires Distinct(keyLen, h) && Distinct(keyLen, h') && h <= h' && h != [] && i < keyLen
    requires i <= Depth(keyLen, h', |h| - 1) && !Cut(keyLen, h', |h| - 1, i)
    ensures Layer(keyLen, h', |h|, i) == OpenLayer(keyLen, h, i)
  {
    if i < Depth(keyLen, h', |h| - 1) { CloseAbove(keyLen, h, h', i); } else { CloseAt(keyLen, h, h', i); }
  }

  /** Nothing to trim in layer i: it is ready for the new entry. */
  lemma NothingToTrim(keyLen: nat, h: seq<Head>, h': seq<Head>, i: nat, layers: seq<seq<PreIndex>>, count: seq<nat>)
    requires Distinct(keyLen, h) && Distinct(keyLen, h') && |h'| == |h| + 1 && h <= h' && i < keyLen
    requires Midway(keyLen, h, h', i, layers, count)
    requires !(h != [] && Cut(keyLen, h', |h| - 1, i))
    ensures ReadyAt(keyLen, h, h', i, layers)
  {
    if h != [] && i <= Depth(keyLen, h', |h| - 1) {
      StillOpen(keyLen, h, h', i, layers, count);
      KeptOpen(keyLen, h, h', i);
      if i < keyLen - 1 { CloseKeepsLength(keyLen, h, h', i + 1); }
    } else {
      assert MidAt(keyLen, h, h', i, i, layers[i], count[i]);
      if i < keyLen - 1 { assert MidAt(keyLen, h, h', i, i + 1, layers[i + 1], count[i + 1]); }
    }
  }

  lemma PushOpens(keyLen: nat, h: seq<Head>, h': seq<Head>, i: nat, layers: seq<seq<PreIndex>>)
    requires Distinct(keyLen, h) && Distinct(keyLen, h') && |h'| == |h| + 1 && h <= h' && i < keyLen == |layers|
    requires ReadyAt(keyLen, h, h', i, layers) && Shared(keyLen, h', |h|) <= i
    ensures var x := h'[|h|];
            var offset := if i == keyLen - 1 then x.at else |layers[i + 1]|;
            OpenAt(keyLen, h', i, layers[i] + [PreIndex(Digit(x.key, i), offset)], 1)
  {
    if i < keyLen - 1 { LayerLength(keyLen, h', |h|, i + 1); }
  }

  method AddKey(keyLen: nat, ghost h: seq<Head>, ghost h': seq<Head>, key: seq<byte>, at: nat, newPre0: bool,
                layers0: seq<seq<PreIndex>>, count0: seq<nat>)
    returns (layers: seq<seq<PreIndex>>, count: seq<nat>)
    requires Distinct(keyLen, h) && Distinct(keyLen, h') && h' == h + [Head(key, at)]
    requires OpenState(keyLen, h, layers0, count0) && newPre0 == (h == [])
    ensures OpenState(keyLen, h', layers, count)
  {
    layers, count := layers0, count0;
    var newPre := newPre0;
    assert Midway(keyLen, h, h', 0, layers, count) by {
      forall j: nat | j < keyLen ensures MidAt(keyLen, h, h', 0, j, layers[j], count[j]) {
        assert OpenAt(keyLen, h, j, layers[j], count[j]);
      }
    }
    for i := 0 to keyLen
      invariant Midway(keyLen, h, h', i, layers, count)
      invariant newPre <==> h == [] || i > Shared(keyLen, h', |h|)
    {
      var pre := Digit(key, i);
      assert MidAt(keyLen, h, h', i, i, layers[i], count[i]);
      ghost var c := Shared(keyLen, h', |h|);
      if !newPre && Last(layers[i]).pre == pre {
        KeepEntry(keyLen, h, h', i, layers, count);
        count := count[i := count[i] + 1];
      } else {
        if i < c { PassShared(keyLen, h, h', i, layers[i], count[i]); }
        assert c <= i;
        CountTells(keyLen, h, h', i, layers[i], count[i]);
        ghost var layers1, count1 := layers, count;
        if count[i] == 1 && i != keyLen - 1 {
          StillOpen(keyLen, h, h', i, layers, count);
          layers, count := Trim(keyLen, layers, count, i);
          Trimmed(keyLen, h, h', i, layers1, layers);
        } else {
          NothingToTrim(keyLen, h, h', i, layers, count);
        }
        PushOpens(keyLen, h, h', i, layers);
        PushKeepsRest(keyLen, h, h', i, layers1, count1, layers, count);
        var offset := if i == keyLen - 1 then at else |layers[i + 1]|;
        layers := layers[i := layers[i] + [PreIndex(pre, offset)]];
        count := count[i := 1];
        newPre := true;
      }
    }
    forall j: nat | j < keyLen ensures OpenAt(keyLen, h', j, layers[j], count[j]) {
      assert MidAt(keyLen, h, h', keyLen, j, layers[j], count[j]);
    }
  }

  /** The same byte as the last key's in the same group: no new entry, the counter goes up. */
  lemma KeepEntry(keyLen: nat, h: seq<Head>, h': seq<Head>, i: nat, layers: seq<seq<PreIndex>>, count: seq<nat>)
    requires Distinct(keyLen, h) && Distinct(keyLen, h') && |h'| == |h| + 1 && h <= h' && i < keyLen
    requires Midway(keyLen, h, h', i, layers, count) && h != [] && i <= Shared(keyLen, h', |h|)
    requires layers[i] != [] && Last(layers[i]).pre == Digit(h'[|h|].key, i)
    ensures i < Shared(keyLen, h', |h|)
    ensures Midway(keyLen, h, h', i + 1, layers, count[i := count[i] + 1])
  {
    assert MidAt(keyLen, h, h', i, i, layers[i], count[i]);
    PassSharedByte(keyLen, h, h', i, layers[i], count[i]);
    forall j: nat | j < keyLen
      ensures MidAt(keyLen, h, h', i + 1, j, layers[j], count[i := count[i] + 1][j])
    {
      assert MidAt(keyLen, h, h', i, j, layers[j], count[j]);
    }
  }

  lemma PassSharedByte(keyLen: nat, h: seq<Head>, h': seq<Head>, i: nat, layer: seq<PreIndex>, n: nat)
    requires Distinct(keyLen, h) && Distinct(keyLen, h') && |h'| == |h| + 1 && h <= h' && i < keyLen
    requires h != [] && i <= Shared(keyLen, h', |h|) && OpenAt(keyLen, h, i, layer, n)
    requires Last(layer).pre == Digit(h'[|h|].key, i)
    ensures i < Shared(keyLen, h', |h|) && OpenAt(keyLen, h', i, layer, n + 1)
  {
    PassShared(keyLen, h, h', i, layer, n);
  }

  /** Trimming brings layer i and the deeper ones to their closed form. */
  lemma Trimmed(keyLen: nat, h: seq<Head>, h': seq<Head>, i: nat, layers0: seq<seq<PreIndex>>, layers: seq<seq<PreIndex>>)
    requires Distinct(keyLen, h) && Distinct(keyLen, h') && h <= h' && i < keyLen - 1
    requires h != [] && Cut(keyLen, h', |h| - 1, i) && |layers| == |layers0| == keyLen
    requires forall j :: i <= j < keyLen ==> layers0[j] == OpenLayer(keyLen, h, j) && layers0[j] != []
    requires layers[i] == layers0[i][|layers0[i]| - 1 := Last(layers0[i]).(offset := OFFSET_BIT + Last(layers0[keyLen - 1]).offset)]
    requires forall j :: i < j < keyLen ==> layers[j] == layers0[j][..|layers0[j]| - 1]
    ensures ReadyAt(keyLen, h, h', i, layers)
    ensures forall j :: i < j < keyLen ==> layers[j] == Layer(keyLen, h', |h|, j)
  {
    TrimmedAt(keyLen, h, h', i, layers0[i], layers0[keyLen - 1]);
    forall j | i < j < keyLen ensures layers[j] == Layer(keyLen, h', |h|, j) {
      CloseBelow(keyLen, h, h', j);
    }
  }

  lemma TrimmedAt(keyLen: nat, h: seq<Head>, h': seq<Head>, i: nat, layer: seq<PreIndex>, bottom: seq<PreIndex>)
    requires Distinct(keyLen, h) && Distinct(keyLen, h') && h <= h' && i < keyLen - 1
    requires h != [] && Cut(keyLen, h', |h| - 1, i)
    requires layer == OpenLayer(keyLen, h, i) && layer != [] && bottom == OpenLayer(keyLen, h, keyLen - 1) && bottom != []
    ensures Layer(keyLen, h', |h|, i) == layer[|layer| - 1 := Last(layer).(offset := OFFSET_BIT + Last(bottom).offset)]
  {
    BottomEndsWithIndex(keyLen, h);
    CloseAt(keyLen, h, h', i);
  }

  /** Writing layer i leaves the layers before it, and those after it are open or closed as due. */
  lemma PushKeepsRest(keyLen: nat, h: seq<Head>, h': seq<Head>, i: nat, layers0: seq<seq<PreIndex>>, count0: seq<nat>,
                      layers: seq<seq<PreIndex>>, count: seq<nat>)
    requires Distinct(keyLen, h) && Distinct(keyLen, h') && |h'| == |h| + 1 && h <= h' && i < keyLen
    requires Midway(keyLen, h, h', i, layers0, count0) && |layers| == |count| == keyLen
    requires forall j :: 0 <= j < i ==> layers[j] == layers0[j] && count[j] == count0[j]
    requires if h != [] && Cut(keyLen, h', |h| - 1, i)
             then forall j :: i < j < keyLen ==> layers[j] == Layer(keyLen, h', |h|, j) && count[j] == 0
             else forall j :: i < j < keyLen ==> layers[j] == layers0[j] && count[j] == count0[j]
    ensures forall j: nat :: j < keyLen && j != i ==> MidAt(keyLen, h, h', i + 1, j, layers[j], count[j])
  {
    forall j: nat | j < keyLen && j != i ensures MidAt(keyLen, h, h', i + 1, j, layers[j], count[j]) {
      assert MidAt(keyLen, h, h', i, j, layers0[j], count0[j]);
    }
  }

  // ---------- the whole list ----------

  /** The `valueLen` low bytes of a value, which is what the value area stores. */
  function Stored(valueLen: nat, value: nat): nat {
    value % Pow2(8 * valueLen)
  }

  /** These bytes give the value back, cut to as many bytes: unchanged if it fits. */
  lemma StoredIsValue(valueLen: nat, value: nat)
    ensures Stored(valueLen, value) == Number(Word(value, valueLen))
    ensures value < Pow2(8 * valueLen) ==> Stored(valueLen, value) == value
  {
    WordIsMod(value, valueLen);
    if value < Pow2(8 * valueLen) { WordReadsBack(value, valueLen); }
  }

  /** After the last key, its path is closed like the others. */
  lemma CountTellsLast(keyLen: nat, h: seq<Head>, layers: seq<seq<PreIndex>>, count: seq<nat>, i: nat)
    requires Distinct(keyLen, h) && h != [] && OpenState(keyLen, h, layers, count) && i < keyLen
    ensures count[i] == 1 <==> i >= Depth(keyLen, h, |h| - 1)
  {
    assert OpenAt(keyLen, h, i, layers[i], count[i]);
  }

  lemma CloseLast(keyLen: nat, h: seq<Head>, layers: seq<seq<PreIndex>>, count: seq<nat>, j: nat)
    requires Distinct(keyLen, h) && h != [] && OpenState(keyLen, h, layers, count) && j < keyLen
    requires j < Depth(keyLen, h, |h| - 1) || (j == keyLen - 1 == Depth(keyLen, h, |h| - 1))
    ensures layers[j] == Layer(keyLen, h, |h|, j)
  {
    assert OpenAt(keyLen, h, j, layers[j], count[j]);
    if j < Depth(keyLen, h, |h| - 1) { CloseAbove(keyLen, h, h, j); } else { CloseAt(keyLen, h, h, j); }
  }

  lemma AllOpen(keyLen: nat, h: seq<Head>, layers: seq<seq<PreIndex>>, count: seq<nat>)
    requires Distinct(keyLen, h) && h != [] && OpenState(keyLen, h, layers, count)
    ensures forall j :: 0 <= j < keyLen ==> layers[j] == OpenLayer(keyLen, h, j) && layers[j] != []
  {
    forall j: nat | j < keyLen ensures layers[j] == OpenLayer(keyLen, h, j) && layers[j] != [] {
      assert OpenAt(keyLen, h, j, layers[j], count[j]);
    }
  }

  /** Nothing is cut: the layers are closed as they are. */
  lemma NoneCut(keyLen: nat, h: seq<Head>, layers: seq<seq<PreIndex>>, count: seq<nat>)
    requires Distinct(keyLen, h) && OpenState(keyLen, h, layers, count)
    requires h != [] && keyLen > 0 ==> Depth(keyLen, h, |h| - 1) == keyLen - 1
    ensures forall j :: 0 <= j < keyLen ==> layers[j] == Layer(keyLen, h, |h|, j)
  {
    forall j: nat | j < keyLen ensures layers[j] == Layer(keyLen, h, |h|, j) {
      assert OpenAt(keyLen, h, j, layers[j], count[j]);
      if h != [] { CloseLast(keyLen, h, layers, count, j); }
    }
  }

  method CloseFinal(keyLen: nat, ghost h: seq<Head>, layers0: seq<seq<PreIndex>>, count: seq<nat>)
    returns (layers: seq<seq<PreIndex>>)
    requires Distinct(keyLen, h) && OpenState(keyLen, h, layers0, count)
    ensures |layers| == keyLen
    ensures forall j :: 0 <= j < keyLen ==> layers[j] == Layer(keyLen, h, |h|, j)
  {
    layers := layers0;
    for i := 0 to keyLen
      invariant layers == layers0
      invariant h != [] ==> i <= Depth(keyLen, h, |h| - 1) || i == keyLen
      invariant h != [] && i == keyLen ==> Depth(keyLen, h, |h| - 1) == keyLen - 1
    {
      assert OpenAt(keyLen, h, i, layers[i], count[i]);
      if h != [] { CountTellsLast(keyLen, h, layers, count, i); }
      if count[i] == 1 && i != keyLen - 1 {
        AllOpen(keyLen, h, layers0, count);
        var trimmed, _ := Trim(keyLen, layers, count, i);
        Trimmed(keyLen, h, h, i, layers0, trimmed);
        forall j | 0 <= j < i ensures layers0[j] == Layer(keyLen, h, |h|, j) { CloseLast(keyLen, h, layers0, count, j); }
        return trimmed;
      }
    }
    NoneCut(keyLen, h, layers, count);
  }

  /** The value area of the first n nodes. */
  ghost predicate ValuesOf(valueLen: nat, nodes: seq<Node>, values: seq<nat>, n: nat)
    requires n <= |nodes|
  {
    |values| == n && forall k :: 0 <= k < n ==> values[k] == Stored(valueLen, nodes[k].value)
  }

  lemma NextValue(valueLen: nat, nodes: seq<Node>, values: seq<nat>, n: nat)
    requires n < |nodes| && ValuesOf(valueLen, nodes, values, n)
    ensures ValuesOf(valueLen, nodes, values + [Stored(valueLen, nodes[n].value)], n + 1)
  {}

  /** The layers and the value area for a list of nodes: the path-compressed index of its keys. */
  method OutputToCharCompressed(keyLen: nat, valueLen: nat, nodes: seq<Node>)
    returns (layers: seq<seq<PreIndex>>, values: seq<nat>)
    requires keyLen > 0 && Keyed(keyLen, nodes)
    requires |nodes| < OFFSET_BIT && |nodes| * valueLen < 0x1_0000_0000
    ensures Distinct(keyLen, Heads(nodes, |nodes|))
    ensures |layers| == keyLen
    ensures forall i :: 0 <= i < keyLen ==>
              layers[i] == Layer(keyLen, Heads(nodes, |nodes|), |Heads(nodes, |nodes|)|, i)
    ensures |values| == |nodes| && forall k :: 0 <= k < |nodes| ==> values[k] == Stored(valueLen, nodes[k].value)
  {
    layers := seq(keyLen, _ => []);
    var count := seq(keyLen, _ => 0);
    values := [];
    var lastKey: seq<byte> := [];
    var newPre := true;
    HeadsDistinct(keyLen, nodes, |nodes|);
    for n := 0 to |nodes|
      invariant Distinct(keyLen, Heads(nodes, n))
      invariant OpenState(keyLen, Heads(nodes, n), layers, count)
      invariant lastKey == if n == 0 then [] else nodes[n - 1].key
      invariant newPre <==> n == 0
      invariant ValuesOf(valueLen, nodes, values, n)
    {
      var key := nodes[n].key;
      HeadsDistinct(keyLen, nodes, n + 1);
      if key != lastKey {
        lastKey := key;
        layers, count := AddKey(keyLen, Heads(nodes, n), Heads(nodes, n + 1), key, |values|, newPre, layers, count);
      }
      NextValue(valueLen, nodes, values, n);
      values := values + [Stored(valueLen, nodes[n].value)];
      newPre := false;
    }
    layers := CloseFinal(keyLen, Heads(nodes, |nodes|), layers, count);
  }
}
