/** The prefix Bloom filter over a column of the bit matrix: insertion of ports and addresses, full checks and
    checks of an address's first bytes. */
module PrefixBloom {
  import opened BitMap
  import opened BloomRows

  /** Column of a filter that has none yet. */
  const NO_COLUMN: nat := 0xFFFF_FFFF

  /** The rows of an address set so far: the pairs, and the hashed rows from byte `low` on. */
  ghost predicate SetsRowDown(f: Filter, kind: Kind, key: nat, row: nat, low: nat) {
    || row == PairRow(kind, key)
    || (Len(kind) == 4 && row == SecondPairRow(kind, key))
    || exists i: nat :: i >= low && IsBloomRow(f, kind, key, i, row)
  }

  lemma OneByteMore(f: Filter, kind: Kind, key: nat, row: nat, low: nat)
    ensures SetsRowDown(f, kind, key, row, low) <==> SetsRowDown(f, kind, key, row, low + 1) || IsBloomRow(f, kind, key, low, row)
  {}

  lemma AllBytes(f: Filter, kind: Kind, key: nat, row: nat)
    requires !IsPort(kind)
    ensures SetsRow(f, kind, key, row) <==> SetsRowDown(f, kind, key, row, 0)
  {}

  lemma FullCheck(f: Filter, rows: iset<nat>, kind: Kind, key: nat)
    requires !IsPort(kind)
    ensures Passes(f, rows, kind, key)
       <==> PairRow(kind, key) in rows && (Len(kind) == 4 ==> SecondPairRow(kind, key) in rows) && BloomsPass(f, rows, kind, key, 0)
  {
    if Passes(f, rows, kind, key) {
      SetsPairs(f, rows, kind, key);
      SetsBlooms(f, rows, kind, key, key, Len(kind));
    }
    if BloomsPass(f, rows, kind, key, 0) {
      forall i: nat, row: nat | IsBloomRow(f, kind, key, i, row) ensures row in rows { assert BloomPasses(f, rows, kind, key, i); }
    }
  }

  class PrefixBloomFilter {
    const bitmap: BitMap
    const f: Filter
    var writingCol: nat
    var readingCol: nat

    ghost predicate Valid() {
      bitmap.Valid() && bitmap.rowCount >= ROWS
    }

    constructor (bitmap: BitMap, f: Filter)
      requires bitmap.Valid() && bitmap.rowCount >= ROWS
      ensures Valid() && this.bitmap == bitmap && this.f == f && writingCol == readingCol == NO_COLUMN
    {
      this.bitmap, this.f, writingCol, readingCol := bitmap, f, NO_COLUMN, NO_COLUMN;
    }

    method SetWritingCol(col: nat)
      requires Valid()
      modifies `writingCol
      ensures writingCol == if col < bitmap.colCount then col else old(writingCol)
    {
      if col >= bitmap.colCount { return; }
      writingCol := col;
    }

    method SetReadingCol(col: nat)
      requires Valid()
      modifies `readingCol
      ensures readingCol == if col < bitmap.colCount then col else old(readingCol)
    {
      if col >= bitmap.colCount { return; }
      readingCol := col;
    }

    /** The rows set in the reading column. */
    ghost function Rows(): iset<nat>
      requires Valid()
      reads this, bitmap.bitmap
    {
      iset row: nat | bitmap.InRange(row, readingCol) && bitmap.Has(row, readingCol)
    }

    // ---------- insertion ----------

    method SetBloom(kind: Kind, ip: nat, i: nat)
      requires Valid() && writingCol < bitmap.colCount && !IsPort(kind) && i + 3 <= Len(kind)
      modifies bitmap.bitmap
      ensures forall r: nat, c: nat :: bitmap.InRange(r, c) ==>
                (bitmap.Has(r, c) <==> old(bitmap.Has(r, c)) || (c == writingCol && IsBloomRow(f, kind, ip, i, r)))
    {
      for j := 0 to f.k
        invariant forall r: nat, c: nat :: bitmap.InRange(r, c) ==>
                    (bitmap.Has(r, c) <==> old(bitmap.Has(r, c)) || (c == writingCol && IsBloomRow(f.(k := j), kind, ip, i, r)))
      {
        var row := BloomRow(f, kind, ip, i, j);
        var _ := bitmap.Set(row, writingCol);
        forall r: nat ensures IsBloomRow(f.(k := j + 1), kind, ip, i, r) <==> IsBloomRow(f.(k := j), kind, ip, i, r) || r == row {
          OneHashMore(f, kind, ip, i, j, r);
        }
      }
      assert f.(k := f.k) == f;
    }

    /** Sets the rows of an address. Fails only if the filter has no column to write. */
    method InsertAddress(kind: Kind, ip: nat) returns (ok: bool)
      requires Valid() && !IsPort(kind)
      modifies bitmap.bitmap
      ensures ok <==> writingCol < bitmap.colCount
      ensures forall r: nat, c: nat :: bitmap.InRange(r, c) ==>
                (bitmap.Has(r, c) <==> old(bitmap.Has(r, c)) || (c == writingCol && SetsRow(f, kind, ip, r)))
    {
      PairsInExtent(kind, ip);
      ok := bitmap.Set(PairRow(kind, ip), writingCol);
      if !ok { return; }
      if Len(kind) == 4 { ok := bitmap.Set(SecondPairRow(kind, ip), writingCol); }
      var i := Len(kind) - 2;
      while i > 0
        invariant 0 <= i <= Len(kind) - 2
        invariant forall r: nat, c: nat :: bitmap.InRange(r, c) ==>
                    (bitmap.Has(r, c) <==> old(bitmap.Has(r, c)) || (c == writingCol && SetsRowDown(f, kind, ip, r, i)))
      {
        i := i - 1;
        SetBloom(kind, ip, i);
        forall r: nat { OneByteMore(f, kind, ip, r, i); }
      }
      forall r: nat { AllBytes(f, kind, ip, r); }
    }

    method InsertPort(kind: Kind, port: nat) returns (ok: bool)
      requires Valid() && IsPort(kind) && port < PORT_BITS
      modifies bitmap.bitmap
      ensures ok <==> writingCol < bitmap.colCount
      ensures forall r: nat, c: nat :: bitmap.InRange(r, c) ==>
                (bitmap.Has(r, c) <==> old(bitmap.Has(r, c)) || (c == writingCol && SetsRow(f, kind, port, r)))
    {
      ok := bitmap.Set(Offset(kind) + port, writingCol);
    }

    /** The matrix holds what a sequence of operations leaves. */
    ghost predicate Agrees(ops: seq<Op>)
      requires Valid()
      reads bitmap.bitmap
    {
      forall r: nat, c: nat :: bitmap.InRange(r, c) ==> (bitmap.Has(r, c) <==> Holds(f, ops, |ops|, r, c))
    }

    /** An insertion is one more operation of the run. */
    method Insert(kind: Kind, key: nat, ghost ops: seq<Op>) returns (ok: bool)
      requires Valid() && KeyOk(kind, key) && Agrees(ops)
      modifies bitmap.bitmap
      ensures ok <==> writingCol < bitmap.colCount
      ensures Agrees(ops + [Op.Insert(kind, key, writingCol)])
    {
      if IsPort(kind) { ok := InsertPort(kind, key); } else { ok := InsertAddress(kind, key); }
      forall r: nat, c: nat { HoldsBefore(f, ops, [Op.Insert(kind, key, writingCol)], |ops|, r, c); }
    }

    method ClearColumn(col: nat, ghost ops: seq<Op>)
      requires Valid() && Agrees(ops)
      modifies bitmap.bitmap
      ensures Agrees(ops + [Clear(col)])
    {
      bitmap.ClearCol(col);
      forall r: nat, c: nat { HoldsBefore(f, ops, [Clear(col)], |ops|, r, c); }
    }

    // ---------- checks ----------

    method GetRow(row: nat) returns (ret: bool)
      requires Valid()
      ensures ret <==> row in Rows()
    {
      ret := bitmap.Get(row, readingCol);
    }

    method GetPort(kind: Kind, port: nat) returns (ret: bool)
      requires Valid() && IsPort(kind) && port < PORT_BITS
      ensures ret <==> Passes(f, Rows(), kind, port)
    {
      ret := GetRow(Offset(kind) + port);
      assert SetsRow(f, kind, port, Offset(kind) + port);
    }

    method GetBloom(kind: Kind, ip: nat, i: nat) returns (ret: bool)
      requires Valid() && i + 3 <= Len(kind)
      ensures ret <==> BloomPasses(f, Rows(), kind, ip, i)
    {
      for j := 0 to f.k
        invariant forall m: nat :: m < j ==> BloomRow(f, kind, ip, i, m) in Rows()
      {
        ret := GetRow(BloomRow(f, kind, ip, i, j));
        if !ret { return; }
      }
      ret := true;
    }

    /** The hashed rows of the bytes from the third down to `low`. */
    method GetBlooms(kind: Kind, ip: nat, low: nat) returns (ret: bool)
      requires Valid()
      ensures ret <==> BloomsPass(f, Rows(), kind, ip, low)
    {
      var i := Len(kind) - 2;
      while i > low
        invariant 0 <= i <= Len(kind) - 2
        invariant forall m: nat :: i <= m && m + 3 <= Len(kind) ==> BloomPasses(f, Rows(), kind, ip, m)
      {
        i := i - 1;
        ret := GetBloom(kind, ip, i);
        if !ret { return; }
      }
      ret := true;
    }

    method GetAddress(kind: Kind, ip: nat) returns (ret: bool)
      requires Valid() && !IsPort(kind)
      ensures ret <==> Passes(f, Rows(), kind, ip)
    {
      FullCheck(f, Rows(), kind, ip);
      ret := GetRow(PairRow(kind, ip));
      if !ret { return; }
      if Len(kind) == 4 {
        ret := GetRow(SecondPairRow(kind, ip));
        if !ret { return; }
      }
      ret := GetBlooms(kind, ip, 0);
    }

    method AnyOfSlice(base: nat) returns (ret: bool)
      requires Valid()
      ensures ret <==> AnyInRow(Rows(), base)
    {
      for x := 0 to SLICE
        invariant forall y: nat :: y < x ==> !InRow(Rows(), base, y)
      {
        ret := GetRow(base + x);
        if ret {
          assert InRow(Rows(), base, x);
          return;
        }
      }
      ret := false;
    }

    /** Could an address with the same first n bytes be in the column? */
    method GetPrefix(kind: Kind, ip: nat, n: nat) returns (ret: bool)
      requires Valid() && !IsPort(kind) && n <= Len(kind)
      ensures ret <==> PrefixPasses(f, Rows(), kind, ip, n)
    {
      if n == 0 { return true; }
      if n == 1 {
        ret := AnyOfSlice(Offset(kind) + ByteAt(ip, Len(kind) - 1) * SLICE);
        if ret { return; }
        assert !InRow(Rows(), Offset(kind) + ByteAt(ip, Len(kind) - 1) * SLICE, ByteAt(ip, Len(kind) - 2));
      }
      ret := GetRow(PairRow(kind, ip));
      if !ret || n == 2 { return; }
      if Len(kind) == 4 && n == 3 {
        ret := AnyOfSlice(Offset(kind) + PAIR_BITS + ByteAt(ip, 1) * SLICE);
        if !ret { return; }
      }
      if Len(kind) == 4 && n == 4 {
        ret := GetRow(SecondPairRow(kind, ip));
        if !ret { return; }
      }
      ret := GetBlooms(kind, ip, Len(kind) - n);
    }
  }

  // ---------- what the checks answer after a run of operations ----------

  /** Operation i inserted the key into the column, and the column was not cleared since. */
  ghost predicate InsertedAt(ops: seq<Op>, i: nat, kind: Kind, key: nat, col: nat) {
    i < |ops| && ops[i] == Insert(kind, key, col) && KeyOk(kind, key) && forall m :: i < m < |ops| ==> ops[m] != Clear(col)
  }

  /** The filter reads what the operations left in its reading column. */
  lemma RowsHaveKey(filter: PrefixBloomFilter, ops: seq<Op>, kind: Kind, key: nat)
    requires filter.Valid() && filter.Agrees(ops) && KeyOk(kind, key) && filter.readingCol < filter.bitmap.colCount
    ensures Passes(filter.f, filter.Rows(), kind, key) <==> Passes(filter.f, Column(filter.f, ops, |ops|, filter.readingCol), kind, key)
  {
    forall row: nat | SetsRow(filter.f, kind, key, row)
      ensures row in filter.Rows() <==> row in Column(filter.f, ops, |ops|, filter.readingCol)
    {
      RowsInExtent(filter.f, kind, key, row);
    }
  }

  /** A key inserted into the reading column, not cleared since, is found: by its full check, and by the check of
      any number of first bytes of any address that shares them. */
  lemma InsertedIsFound(filter: PrefixBloomFilter, ops: seq<Op>, i: nat, kind: Kind, key: nat)
    requires filter.Valid() && filter.Agrees(ops) && filter.readingCol < filter.bitmap.colCount
    requires InsertedAt(ops, i, kind, key, filter.readingCol)
    ensures Passes(filter.f, filter.Rows(), kind, key)
    ensures !IsPort(kind) ==>
              forall ip: nat, n: nat :: n <= Len(kind) && SamePrefix(kind, key, ip, n) ==> PrefixPasses(filter.f, filter.Rows(), kind, ip, n)
  {
    NoFalseNegatives(filter.f, ops, i, 0, 0);
    RowsHaveKey(filter, ops, kind, key);
    if !IsPort(kind) {
      forall ip: nat, n: nat | n <= Len(kind) && SamePrefix(kind, key, ip, n) ensures PrefixPasses(filter.f, filter.Rows(), kind, ip, n) {
        PrefixNeverMissed(filter.f, filter.Rows(), kind, key, ip, n);
      }
    }
  }

  lemma OneHashMore(f: Filter, kind: Kind, ip: nat, i: nat, j: nat, row: nat)
    requires i + 3 <= Len(kind)
    ensures IsBloomRow(f.(k := j + 1), kind, ip, i, row) <==> IsBloomRow(f.(k := j), kind, ip, i, row) || row == BloomRow(f, kind, ip, i, j)
  {
    var more, less := f.(k := j + 1), f.(k := j);
    forall m: nat ensures BloomRow(more, kind, ip, i, m) == BloomRow(less, kind, ip, i, m) == BloomRow(f, kind, ip, i, m) {}
    if IsBloomRow(less, kind, ip, i, row) {
      var m: nat :| m < j && row == BloomRow(less, kind, ip, i, m);
      assert m < more.k && row == BloomRow(more, kind, ip, i, m);
    }
    assert row == BloomRow(f, kind, ip, i, j) ==> row == BloomRow(more, kind, ip, i, j);
  }

  lemma PairsInExtent(kind: Kind, ip: nat)
    requires !IsPort(kind)
    ensures PairRow(kind, ip) < ROWS && (Len(kind) == 4 ==> SecondPairRow(kind, ip) < ROWS)
  {}
}
