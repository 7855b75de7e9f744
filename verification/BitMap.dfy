/** A bit matrix, one column per disk block: a column's bits lie in one bit position of one byte per row. */
module BitMap {
  import Bits

  /** 1 << b. */
  function Mask(b: nat): bv8
    requires b < 8
  {
    match b case 0 => 1 case 1 => 2 case 2 => 4 case 3 => 8 case 4 => 16 case 5 => 32 case 6 => 64 case _ => 128
  }

  lemma SetBit(x: bv8, b: nat, j: nat)
    requires b < 8 && j < 8
    ensures ((x | Mask(b)) & Mask(j)) != 0 <==> (x & Mask(j)) != 0 || b == j
  {
    if b == j { MaskHit(x, b); } else { MaskMiss(x, b, j); }
  }

  lemma ClearBit(x: bv8, b: nat, j: nat)
    requires b < 8 && j < 8
    ensures ((x & !Mask(b)) & Mask(j)) != 0 <==> (x & Mask(j)) != 0 && b != j
  {
    if b == j { MaskHit(x, b); } else { MaskMiss(x, b, j); }
  }

  lemma MaskHit(x: bv8, b: nat)
    requires b < 8
    ensures ((x | Mask(b)) & Mask(b)) != 0 && ((x & !Mask(b)) & Mask(b)) == 0
  {
    assert ((x | 1) & 1) != 0 && ((x & !1) & 1) == 0;
    assert ((x | 2) & 2) != 0 && ((x & !2) & 2) == 0;
    assert ((x | 4) & 4) != 0 && ((x & !4) & 4) == 0;
    assert ((x | 8) & 8) != 0 && ((x & !8) & 8) == 0;
    assert ((x | 16) & 16) != 0 && ((x & !16) & 16) == 0;
    assert ((x | 32) & 32) != 0 && ((x & !32) & 32) == 0;
    assert ((x | 64) & 64) != 0 && ((x & !64) & 64) == 0;
    assert ((x | 128) & 128) != 0 && ((x & !128) & 128) == 0;
  }

  lemma MaskMiss(x: bv8, b: nat, j: nat)
    requires b < 8 && j < 8 && b != j
    ensures ((x | Mask(b)) & Mask(j)) == x & Mask(j) && ((x & !Mask(b)) & Mask(j)) == x & Mask(j)
  {
    MaskApart(b, j);
    Apart(x, Mask(b), Mask(j));
  }

  lemma MaskApart(b: nat, j: nat)
    requires b < 8 && j < 8 && b != j
    ensures Mask(b) & Mask(j) == 0
  {}

  lemma Apart(x: bv8, m: bv8, n: bv8)
    requires m & n == 0
    ensures ((x | m) & n) == x & n && ((x & !m) & n) == x & n
  {}

  predicate BitOf(x: bv8, j: nat)
    requires j < 8
  {
    x & Mask(j) != 0
  }

  method WithBit(x: bv8, b: nat) returns (y: bv8)
    requires b < 8
    ensures forall j: nat :: j < 8 ==> (BitOf(y, j) <==> BitOf(x, j) || j == b)
  {
    y := x | Mask(b);
    forall j: nat | j < 8 ensures BitOf(y, j) <==> BitOf(x, j) || j == b { SetBit(x, b, j); }
  }

  method WithoutBit(x: bv8, b: nat) returns (y: bv8)
    requires b < 8
    ensures forall j: nat :: j < 8 ==> (BitOf(y, j) <==> BitOf(x, j) && j != b)
  {
    y := x & !Mask(b);
    forall j: nat | j < 8 ensures BitOf(y, j) <==> BitOf(x, j) && j != b { ClearBit(x, b, j); }
  }

  class BitMap {
    const rowCount: nat
    const colCount: nat
    /** Bytes per row. */
    const width: nat
    const bitmap: array<bv8>

    ghost predicate Valid() {
      0 < width && colCount == 8 * width && bitmap.Length == rowCount * width
    }

    predicate InRange(row: nat, col: nat) {
      row < rowCount && col < colCount
    }

    lemma BitFits(col: nat)
      requires Valid() && col < colCount
      ensures col / width < 8
    {
      var q := col / width;
      assert col == q * width + col % width;
      assert q >= 8 ==> q * width >= 8 * width;
    }

    lemma CellFits(row: nat, col: nat)
      requires Valid() && InRange(row, col)
      ensures col % width < width && row * width + col % width < bitmap.Length && col / width < 8
    {
      assert (row + 1) * width <= rowCount * width;
      BitFits(col);
    }

    function ByteIndex(row: nat, col: nat): (i: nat)
      requires Valid() && InRange(row, col)
      ensures i < bitmap.Length
    {
      CellFits(row, col);
      row * width + col % width
    }

    function BitIndex(col: nat): (b: nat)
      requires Valid() && col < colCount
      ensures b < 8
    {
      BitFits(col);
      col / width
    }

    /** Different places of the matrix are different bits. */
    lemma PlacesApart(row: nat, col: nat, row': nat, col': nat)
      requires Valid() && InRange(row, col) && InRange(row', col')
      requires ByteIndex(row, col) == ByteIndex(row', col') && BitIndex(col) == BitIndex(col')
      ensures row == row' && col == col'
    {
      CellFits(row, col);
      CellFits(row', col');
      Bits.DivModUnique(ByteIndex(row, col), width, row, col % width);
      Bits.DivModUnique(ByteIndex(row, col), width, row', col' % width);
    }

    /** Is the bit at a place set? */
    predicate Has(row: nat, col: nat)
      requires Valid() && InRange(row, col)
      reads bitmap
    {
      BitOf(bitmap[ByteIndex(row, col)], BitIndex(col))
    }

    constructor (rowCount: nat, logicColCount: nat, backupColCount: nat)
      requires 0 < logicColCount + backupColCount && (logicColCount + backupColCount) % 8 == 0
      requires backupColCount * 8 <= logicColCount + backupColCount
      ensures Valid() && fresh(bitmap) && this.rowCount == rowCount && colCount == logicColCount + backupColCount
      ensures forall row: nat, col: nat :: InRange(row, col) ==> !Has(row, col)
    {
      this.rowCount, colCount, width := rowCount, logicColCount + backupColCount, (logicColCount + backupColCount) / 8;
      bitmap := new bv8[rowCount * ((logicColCount + backupColCount) / 8)](_ => 0);
    }

    method Get(row: nat, col: nat) returns (ret: bool)
      requires Valid()
      ensures ret <==> InRange(row, col) && Has(row, col)
    {
      if row >= rowCount || col >= colCount { return false; }
      ret := BitOf(bitmap[ByteIndex(row, col)], BitIndex(col));
    }

    /** Sets one bit, and changes no other. */
    method Set(row: nat, col: nat) returns (ok: bool)
      requires Valid()
      modifies bitmap
      ensures ok <==> InRange(row, col)
      ensures forall r: nat, c: nat :: InRange(r, c) ==> (Has(r, c) <==> old(Has(r, c)) || (r == row && c == col))
    {
      if row >= rowCount || col >= colCount { return false; }
      var i, b := ByteIndex(row, col), BitIndex(col);
      var y := WithBit(bitmap[i], b);
      bitmap[i] := y;
      forall r: nat, c: nat | InRange(r, c) ensures Has(r, c) <==> old(Has(r, c)) || (r == row && c == col) {
        if ByteIndex(r, c) == i {
          if BitIndex(c) == b { PlacesApart(r, c, row, col); }
        }
      }
      ok := true;
    }

    method Unset(row: nat, col: nat)
      requires Valid() && InRange(row, col)
      modifies bitmap
      ensures forall r: nat, c: nat :: InRange(r, c) ==> (Has(r, c) <==> old(Has(r, c)) && !(r == row && c == col))
    {
      var i, b := ByteIndex(row, col), BitIndex(col);
      var y := WithoutBit(bitmap[i], b);
      bitmap[i] := y;
      forall r: nat, c: nat | InRange(r, c) ensures Has(r, c) <==> old(Has(r, c)) && !(r == row && c == col) {
        if ByteIndex(r, c) == i {
          if BitIndex(c) == b { PlacesApart(r, c, row, col); }
        }
      }
    }

    /** Clears one column, and no other. */
    method ClearCol(col: nat)
      requires Valid()
      modifies bitmap
      ensures forall r: nat, c: nat :: InRange(r, c) ==> (Has(r, c) <==> old(Has(r, c)) && c != col)
    {
      if col >= colCount { return; }
      for row := 0 to rowCount
        invariant forall r: nat, c: nat :: InRange(r, c) ==> (Has(r, c) <==> old(Has(r, c)) && !(r < row && c == col))
      {
        Unset(row, col);
      }
    }
  }
}
