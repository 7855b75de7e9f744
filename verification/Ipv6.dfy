/** IPv6 addresses in two words: the comparisons are the order of the double-width numbers, the shift is their shift.
    The program's words have w = 64 bits. */
module Ipv6 {
  import opened Bits

  datatype IPv6Address = IPv6Address(low: nat, high: nat)

  predicate Words(a: IPv6Address, w: nat) {
    a.low < Pow2(w) && a.high < Pow2(w)
  }

  /** The address as one number. */
  function Value(a: IPv6Address, w: nat): nat {
    a.low + Shl(a.high, w)
  }

  predicate Less(a: IPv6Address, other: IPv6Address) {
    if a.high < other.high then true
    else if a.high > other.high then false
    else a.low < other.low
  }

  predicate Greater(a: IPv6Address, other: IPv6Address) {
    if a.high > other.high then true
    else if a.high < other.high then false
    else a.low > other.low
  }

  predicate AtMost(a: IPv6Address, other: IPv6Address) { !Greater(a, other) }

  predicate AtLeast(a: IPv6Address, other: IPv6Address) { !Less(a, other) }

  predicate Same(a: IPv6Address, other: IPv6Address) { a.high == other.high && a.low == other.low }

  /** The n low bits: what a word of n bits keeps. */
  function Low(x: nat, n: nat): (r: nat)
    ensures r < Pow2(n)
  {
    if n == 0 then 0 else x % 2 + 2 * Low(x / 2, n - 1)
  }

  function ShiftRight(a: IPv6Address, w: nat, shift: nat): IPv6Address {
    if shift == 0 then a
    else if shift < w then IPv6Address(Or(Shr(a.low, shift), Low(Shl(a.high, w - shift), w)), Shr(a.high, shift))
    else if shift < 2 * w then IPv6Address(Shr(a.high, shift - w), 0)
    else IPv6Address(0, 0)
  }

  /** The six comparisons agree with the numbers. */
  lemma CompareIsNumeric(a: IPv6Address, b: IPv6Address, w: nat)
    requires Words(a, w) && Words(b, w)
    ensures Less(a, b) <==> Value(a, w) < Value(b, w)
    ensures Greater(a, b) <==> Value(a, w) > Value(b, w)
    ensures AtMost(a, b) <==> Value(a, w) <= Value(b, w)
    ensures AtLeast(a, b) <==> Value(a, w) >= Value(b, w)
    ensures Same(a, b) <==> Value(a, w) == Value(b, w)
  {
    SplitOrder(a.low, a.high, b.low, b.high, w);
    SplitOrder(b.low, b.high, a.low, a.high, w);
  }

  /** Keeping n bits is the remainder by 2^n. */
  lemma {:induction false} LowIsMod(x: nat, n: nat)
    ensures Low(x, n) == x % Pow2(n)
  {
    if n > 0 {
      LowIsMod(x / 2, n - 1);
      HalfMod(x, Pow2(n - 1));
    }
  }

  lemma {:induction false} LowAndRest(x: nat, n: nat)
    ensures x == Low(x, n) + Shl(Shr(x, n), n)
  {
    if n > 0 { LowAndRest(x / 2, n - 1); }
  }

  lemma {:induction false} LowOfShl(x: nat, k: nat, n: nat)
    ensures Low(Shl(x, k), n + k) == Shl(Low(x, n), k)
    decreases k
  {
    if k > 0 { LowOfShl(x, k - 1, n); }
  }

  lemma {:induction false} ShlSum(x: nat, y: nat, k: nat)
    ensures Shl(x + y, k) == Shl(x, k) + Shl(y, k)
  {
    if k > 0 { ShlSum(x, y, k - 1); }
  }

  lemma {:induction false} Pow2Ordered(j: nat, k: nat)
    requires j <= k
    ensures Pow2(j) <= Pow2(k)
  {
    if j < k { Pow2Ordered(j, k - 1); }
  }

  lemma {:induction false} ShlZero(k: nat)
    ensures Shl(0, k) == 0
  {
    if k > 0 { ShlZero(k - 1); }
  }

  /** A shift within the words of w bits: the high word's low bits move into the low word. */
  lemma SmallShift(low: nat, high: nat, w: nat, s: nat, t: nat)
    requires low < Pow2(w) && s + t == w
    ensures Or(Shr(low, s), Low(Shl(high, t), w)) + Shl(Shr(high, s), w) == Shr(low + Shl(high, w), s)
  {
    ShrSplit(low, high, w, s);
    LowOfShl(high, t, s);
    OrAbove(Shr(low, s), Low(high, s), t);
    LowAndRest(high, s);
    ShlSum(Low(high, s), Shl(Shr(high, s), s), t);
    ShlAdd(Shr(high, s), s, t);
  }

  /** A shift beyond the low word. */
  lemma BigShift(low: nat, high: nat, w: nat, s: nat)
    requires low < Pow2(w) && s >= w
    ensures Shr(low + Shl(high, w), s) == Shr(high, s - w)
  {
    ShrAdd(low + Shl(high, w), w, s - w);
    ShrSplit(low, high, w, w);
    ShrZero(low, w);
  }

  /** Shifting the two words is shifting the number. */
  lemma ShiftIsNumeric(a: IPv6Address, w: nat, shift: nat)
    requires Words(a, w)
    ensures Value(ShiftRight(a, w, shift), w) == Shr(Value(a, w), shift)
  {
    if shift == 0 {
    } else if shift < w {
      SmallShift(a.low, a.high, w, shift, w - shift);
    } else {
      BigShift(a.low, a.high, w, shift);
      ShlZero(w);
      if shift >= 2 * w {
        Pow2Ordered(w, shift - w);
        ShrZero(a.high, shift - w);
      }
    }
  }
}
