/** What the tree's search answers on a rectangle. It compares digit by digit, so it never returns a point
    outside; it returns every point inside exactly when both sides of the rectangle are aligned. */
module ZBox {
  import opened Bits
  import opened ZCode
  import opened ZTree

  /** Coordinates are below 4^24 = 2^48. */
  predicate OnBoard(x: nat) {
    x < Pow2(2 * LEVELS)
  }

  ghost predicate CodeOf(z: ZOrderIPv4, x: nat, y: nat) {
    OnBoard(x) && OnBoard(y) && Value(z) == Interleaved(x, y, 48)
  }

  /** The n lowest base-4 digits of x lie between those of lo and hi. */
  predicate DigitsBetween(lo: nat, hi: nat, x: nat, n: nat) {
    n == 0 || (lo % 4 <= x % 4 <= hi % 4 && DigitsBetween(lo / 4, hi / 4, x / 4, n - 1))
  }

  /** Below the first digit where they differ, lo has only 0 and hi only 3. */
  predicate Aligned(lo: nat, hi: nat) {
    lo / 4 == hi / 4 || (lo % 4 == 0 && hi % 4 == 3 && Aligned(lo / 4, hi / 4))
  }

  predicate InRectangle(box: Box, x: nat, y: nat) {
    box.xMin <= x <= box.xMax && box.yMin <= y <= box.yMax
  }

  predicate DigitsInBox(box: Box, x: nat, y: nat) {
    DigitsBetween(box.xMin, box.xMax, x, LEVELS) && DigitsBetween(box.yMin, box.yMax, y, LEVELS)
  }

  // ---------- one coordinate ----------

  lemma {:induction false} BetweenNext(lo: nat, hi: nat, x: nat, n: nat)
    ensures DigitsBetween(lo, hi, x, n + 1) <==> DigitsBetween(lo, hi, x, n) && Digit4(lo, n) <= Digit4(x, n) <= Digit4(hi, n)
  {
    if n > 0 {
      BetweenNext(lo / 4, hi / 4, x / 4, n - 1);
      DropDigit4(lo, n);
      DropDigit4(hi, n);
      DropDigit4(x, n);
    }
  }

  lemma Pow4Step(n: nat)
    requires n > 0
    ensures Pow2(2 * n) == 4 * Pow2(2 * (n - 1))
  {
    var k := 2 * n - 2;
    assert 2 * n == k + 2 && 2 * (n - 1) == k;
    assert Pow2(k + 2) == 2 * Pow2(k + 1);
    assert Pow2(k + 1) == 2 * Pow2(k);
  }

  lemma {:induction false} BetweenIsWithin(lo: nat, hi: nat, x: nat, n: nat)
    requires lo < Pow2(2 * n) && x < Pow2(2 * n) && DigitsBetween(lo, hi, x, n)
    ensures lo <= x <= hi
  {
    if n > 0 {
      Pow4Step(n);
      BetweenIsWithin(lo / 4, hi / 4, x / 4, n - 1);
    }
  }

  lemma {:induction false} BetweenSame(x: nat, n: nat)
    ensures DigitsBetween(x, x, x, n)
  {
    if n > 0 { BetweenSame(x / 4, n - 1); }
  }

  lemma {:induction false} AlignedIsFull(lo: nat, hi: nat, x: nat, n: nat)
    requires Aligned(lo, hi) && lo <= x <= hi
    ensures DigitsBetween(lo, hi, x, n)
  {
    if n > 0 {
      if lo / 4 == hi / 4 { BetweenSame(x / 4, n - 1); } else { AlignedIsFull(lo / 4, hi / 4, x / 4, n - 1); }
    }
  }

  /** A number between lo and hi with a digit that is not. */
  lemma {:induction false} MissedPoint(lo: nat, hi: nat, n: nat) returns (x: nat)
    requires lo <= hi < Pow2(2 * n) && !Aligned(lo, hi)
    ensures lo <= x <= hi && !DigitsBetween(lo, hi, x, n)
  {
    if n > 0 { Pow4Step(n); }
    if lo % 4 != 0 {
      x := 4 * (lo / 4 + 1);
    } else if hi % 4 != 3 {
      x := 4 * (lo / 4) + 3;
    } else {
      var above := MissedPoint(lo / 4, hi / 4, n - 1);
      x := 4 * above;
    }
  }

  // ---------- the search ----------

  /** The digits of a code are those of its two coordinates. */
  ghost predicate Carries(z: ZOrderIPv4, x: nat, y: nat) {
    forall level: nat {:trigger Nibble(Value(z), level)} :: level < LEVELS ==>
      && DecodeX(Nibble(Value(z), level)) == Digit4(x, level)
      && DecodeY(Nibble(Value(z), level)) == Digit4(y, level)
  }

  lemma CodeCarries(z: ZOrderIPv4, x: nat, y: nat)
    requires CodeOf(z, x, y)
    ensures Carries(z, x, y)
  {
    forall level: nat | level < LEVELS
      ensures DecodeX(Nibble(Value(z), level)) == Digit4(x, level) && DecodeY(Nibble(Value(z), level)) == Digit4(y, level)
    {
      CodeDigits(x, y, 48, level);
    }
  }

  lemma {:induction false} InBoxIsDigits(data: seq<ZOrderIPv4>, box: Box, i: nat, x: nat, y: nat, digits: nat)
    requires i < |data| && Carries(data[i], x, y) && digits <= LEVELS
    ensures InBox(data, box, i, digits)
       <==> DigitsBetween(box.xMin, box.xMax, x, digits) && DigitsBetween(box.yMin, box.yMax, y, digits)
  {
    if digits > 0 {
      InBoxIsDigits(data, box, i, x, y, digits - 1);
      BetweenNext(box.xMin, box.xMax, x, digits - 1);
      BetweenNext(box.yMin, box.yMax, y, digits - 1);
    }
  }

  lemma {:induction false} SelectedExactly(data: seq<ZOrderIPv4>, box: Box, lo: nat, hi: nat, digits: nat, i: nat)
    requires lo <= hi <= |data|
    ensures i in Selected(data, box, lo, hi, digits) <==> lo <= i < hi && InBox(data, box, i, digits)
    decreases hi
  {
    if lo < hi { SelectedExactly(data, box, lo, hi - 1, digits, i); }
  }

  lemma {:induction false} SelectedAscending(data: seq<ZOrderIPv4>, box: Box, lo: nat, hi: nat, digits: nat, j: nat, k: nat)
    requires lo <= hi <= |data| && j < k < |Selected(data, box, lo, hi, digits)|
    ensures Selected(data, box, lo, hi, digits)[j] < Selected(data, box, lo, hi, digits)[k]
    decreases hi
  {
    var shorter := Selected(data, box, lo, hi - 1, digits);
    if k < |shorter| {
      SelectedAscending(data, box, lo, hi - 1, digits, j, k);
    } else {
      SelectedExactly(data, box, lo, hi - 1, digits, shorter[j]);
    }
  }

  /** A position is returned exactly if every base-4 digit of its point lies between the box's digits. */
  lemma SearchIsDigitwise(data: seq<ZOrderIPv4>, box: Box, i: nat, x: nat, y: nat)
    requires i < |data| && CodeOf(data[i], x, y)
    ensures i in Selected(data, box, 0, |data|, LEVELS) <==> DigitsInBox(box, x, y)
  {
    SelectedExactly(data, box, 0, |data|, LEVELS, i);
    CodeCarries(data[i], x, y);
    InBoxIsDigits(data, box, i, x, y, LEVELS);
  }

  /** Every returned point lies in the rectangle. */
  lemma SearchIsSound(data: seq<ZOrderIPv4>, box: Box, i: nat, x: nat, y: nat)
    requires i in Selected(data, box, 0, |data|, LEVELS) && i < |data| && CodeOf(data[i], x, y)
    requires OnBoard(box.xMin) && OnBoard(box.yMin)
    ensures InRectangle(box, x, y)
  {
    SearchIsDigitwise(data, box, i, x, y);
    BetweenIsWithin(box.xMin, box.xMax, x, LEVELS);
    BetweenIsWithin(box.yMin, box.yMax, y, LEVELS);
  }

  ghost predicate Finds(box: Box, x: nat, y: nat) {
    InRectangle(box, x, y) ==> DigitsInBox(box, x, y)
  }

  /** No point of the rectangle can be missed, whatever points are stored. */
  ghost predicate MissesNothing(box: Box) {
    forall x: nat, y: nat :: OnBoard(x) && OnBoard(y) ==> Finds(box, x, y)
  }

  /** The search is complete for a rectangle exactly if both its sides are aligned. */
  lemma CompleteIffAligned(box: Box)
    requires box.xMin <= box.xMax && box.yMin <= box.yMax && OnBoard(box.xMax) && OnBoard(box.yMax)
    ensures MissesNothing(box) <==> Aligned(box.xMin, box.xMax) && Aligned(box.yMin, box.yMax)
  {
    if Aligned(box.xMin, box.xMax) && Aligned(box.yMin, box.yMax) {
      forall x: nat, y: nat | OnBoard(x) && OnBoard(y) ensures Finds(box, x, y) {
        if InRectangle(box, x, y) {
          AlignedIsFull(box.xMin, box.xMax, x, LEVELS);
          AlignedIsFull(box.yMin, box.yMax, y, LEVELS);
        }
      }
    } else if !Aligned(box.xMin, box.xMax) {
      var x := MissedPoint(box.xMin, box.xMax, LEVELS);
      assert !Finds(box, x, box.yMin);
    } else {
      var y := MissedPoint(box.yMin, box.yMax, LEVELS);
      assert !Finds(box, box.xMin, y);
    }
  }

  /** On an aligned rectangle the search returns exactly the stored points inside. */
  lemma AlignedSearchIsExact(data: seq<ZOrderIPv4>, box: Box, i: nat, x: nat, y: nat)
    requires i < |data| && CodeOf(data[i], x, y) && OnBoard(box.xMin) && OnBoard(box.yMin)
    requires Aligned(box.xMin, box.xMax) && Aligned(box.yMin, box.yMax)
    ensures i in Selected(data, box, 0, |data|, LEVELS) <==> InRectangle(box, x, y)
  {
    SearchIsDigitwise(data, box, i, x, y);
    if InRectangle(box, x, y) {
      AlignedIsFull(box.xMin, box.xMax, x, LEVELS);
      AlignedIsFull(box.yMin, box.yMax, y, LEVELS);
    } else if DigitsInBox(box, x, y) {
      SearchIsSound(data, box, i, x, y);
    }
  }
}
