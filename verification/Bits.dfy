/** Bit operations of the program on natural numbers, written out bit by bit. */
module Bits {

  /** 1 << k */
  function Pow2(k: nat): (r: nat)
    ensures r >= 1
  {
    if k == 0 then 1 else 2 * Pow2(k - 1)
  }

  /** x >> k */
  function Shr(x: nat, k: nat): nat {
    if k == 0 then x else Shr(x / 2, k - 1)
  }

  /** x << k */
  function Shl(x: nat, k: nat): nat {
    if k == 0 then x else 2 * Shl(x, k - 1)
  }

  function And(a: nat, b: nat): nat
  {
    if a == 0 || b == 0 then 0 else 2 * And(a / 2, b / 2) + (a % 2) * (b % 2)
  }

  function Xor(a: nat, b: nat): nat
  {
    if a == 0 && b == 0 then 0
    else 2 * Xor(a / 2, b / 2) + (if a % 2 == b % 2 then 0 else 1)
  }

  function Or(a: nat, b: nat): nat
  {
    if a == 0 && b == 0 then 0
    else 2 * Or(a / 2, b / 2) + (if a % 2 == 0 && b % 2 == 0 then 0 else 1)
  }

  // ---------- shifts ----------

  lemma {:induction false} ShrAdd(x: nat, a: nat, b: nat)
    ensures Shr(x, a + b) == Shr(Shr(x, a), b)
  {
    if a > 0 { ShrAdd(x / 2, a - 1, b); }
  }

  lemma {:induction false} ShlAdd(x: nat, a: nat, b: nat)
    ensures Shl(x, a + b) == Shl(Shl(x, a), b)
  {
    if b > 0 {
      ShlAdd(x, a, b - 1);
      assert Shl(x, a + b) == 2 * Shl(x, a + (b - 1));
    }
  }

  /** Shifts by up to four places, spelled out. */
  lemma ShlSmall(x: nat)
    ensures Shl(x, 1) == 2 * x && Shl(x, 2) == 4 * x && Shl(x, 3) == 8 * x && Shl(x, 4) == 16 * x
  {
    assert Shl(x, 0) == x;
    assert Shl(x, 1) == 2 * Shl(x, 0);
    assert Shl(x, 2) == 2 * Shl(x, 1);
    assert Shl(x, 3) == 2 * Shl(x, 2);
    assert Shl(x, 4) == 2 * Shl(x, 3);
  }

  lemma ShrSmall(x: nat)
    ensures Shr(x, 1) == x / 2 && Shr(x, 2) == x / 4 && Shr(x, 3) == x / 8 && Shr(x, 4) == x / 16
  {
    var a, b, c := x / 2, x / 2 / 2, x / 2 / 2 / 2;
    assert Shr(c / 2, 0) == c / 2;
    assert Shr(c, 1) == Shr(c / 2, 0) && Shr(b, 1) == b / 2 && Shr(a, 1) == a / 2;
    assert Shr(b, 2) == Shr(c, 1) && Shr(a, 2) == Shr(b, 1);
    assert Shr(a, 3) == Shr(b, 2);
  }

  lemma {:induction false} Pow2IsShl(k: nat)
    ensures Pow2(k) == Shl(1, k)
  {
    if k > 0 { Pow2IsShl(k - 1); }
  }

  lemma {:induction false} ShrShl(x: nat, k: nat)
    ensures Shr(Shl(x, k), k) == x
  {
    if k > 0 { ShrShl(x, k - 1); }
  }

  lemma {:induction false} ShrOrdered(x: nat, y: nat, k: nat)
    requires x <= y
    ensures Shr(x, k) <= Shr(y, k)
  {
    if k > 0 { ShrOrdered(x / 2, y / 2, k - 1); }
  }

  lemma {:induction false} ShrZero(x: nat, k: nat)
    requires x < Pow2(k)
    ensures Shr(x, k) == 0
  {
    if k > 0 { ShrZero(x / 2, k - 1); }
  }

  /** The n low bits `low` and the bits above them, shifted by k <= n together. */
  lemma {:induction false} ShrSplit(low: nat, rest: nat, n: nat, k: nat)
    requires low < Pow2(n) && k <= n
    ensures Shr(low + Shl(rest, n), k) == Shr(low, k) + Shl(rest, n - k)
    ensures Shr(low, k) < Pow2(n - k)
  {
    if k > 0 { ShrSplit(low / 2, rest, n - 1, k - 1); }
  }

  /** The two parts of a split number are unique. */
  lemma {:induction false} SplitUnique(a: nat, b: nat, a': nat, b': nat, n: nat)
    requires a < Pow2(n) && a' < Pow2(n)
    ensures a + Shl(b, n) == a' + Shl(b', n) <==> a == a' && b == b'
  {
    if n > 0 {
      SplitUnique(a / 2, b, a' / 2, b', n - 1);
      assert (a + Shl(b, n)) / 2 == a / 2 + Shl(b, n - 1) && (a' + Shl(b', n)) / 2 == a' / 2 + Shl(b', n - 1);
      assert (a + Shl(b, n)) % 2 == a % 2 && (a' + Shl(b', n)) % 2 == a' % 2;
    }
  }

  lemma {:induction false} SplitOrder(a: nat, b: nat, a': nat, b': nat, n: nat)
    requires a < Pow2(n) && a' < Pow2(n)
    ensures a + Shl(b, n) < a' + Shl(b', n) <==> b < b' || (b == b' && a < a')
  {
    if n > 0 {
      SplitOrder(a / 2, b, a' / 2, b', n - 1);
      SplitUnique(a / 2, b, a' / 2, b', n - 1);
    }
  }

  // ---------- masks ----------

  ghost predicate IsPow2(n: nat) {
    exists k: nat :: n == Pow2(k)
  }

  /** Masking with 2^k - 1 is the remainder by 2^k. */
  lemma {:induction false} AndMask(a: nat, k: nat)
    ensures And(a, Pow2(k) - 1) == a % Pow2(k)
  {
    if k == 0 || a == 0 {
    } else {
      AndMask(a / 2, k - 1);
      var h := Pow2(k - 1);
      assert (2 * h - 1) / 2 == h - 1 && (2 * h - 1) % 2 == 1;
      HalfMod(a, h);
    }
  }

  lemma HalfMod(a: nat, h: nat)
    requires h > 0
    ensures a % (2 * h) == 2 * (a / 2 % h) + a % 2
  {
    var q, r := a / 2 / h, a / 2 % h;
    assert a == 2 * (a / 2) + a % 2;
    assert a / 2 == q * h + r;
    assert a == q * (2 * h) + (2 * r + a % 2) by { assert 2 * (q * h) == q * (2 * h); }
    DivModUnique(a, 2 * h, q, 2 * r + a % 2);
  }

  lemma DivModUnique(a: int, d: int, q: int, r: int)
    requires 0 <= r < d && a == q * d + r
    ensures a / d == q && a % d == r
  {
    var q', r' := a / d, a % d;
    assert a == q' * d + r' && 0 <= r' < d;
    assert (q - q') * d == r' - r;
    assert q - q' >= 1 ==> (q - q') * d >= d;
    assert q - q' <= -1 ==> (q - q') * d <= -d;
  }

  /** The emptiness test `x & (x - 1)` of the constructors accepts exactly the powers of two. */
  lemma {:induction false} Pow2Test(x: nat)
    requires x > 0
    ensures And(x, x - 1) == 0 <==> IsPow2(x)
  {
    if x == 1 {
      assert x == Pow2(0);
    } else if x % 2 == 1 {
      assert (x - 1) / 2 == x / 2 && (x - 1) % 2 == 0;
      AndSelf(x / 2);
      forall k: nat ensures x != Pow2(k) { if k > 0 { assert Pow2(k) == 2 * Pow2(k - 1); } }
    } else {
      var h := x / 2;
      Pow2Test(h);
      assert (x - 1) / 2 == h - 1;
      if IsPow2(h) {
        var k: nat :| h == Pow2(k);
        assert x == Pow2(k + 1);
      }
      if IsPow2(x) {
        var k: nat :| x == Pow2(k);
        assert k > 0 && h == Pow2(k - 1);
      }
    }
  }

  lemma {:induction false} AndSelf(a: nat)
    ensures And(a, a) == a
  {
    if a > 0 { AndSelf(a / 2); }
  }

  function Bit(x: nat, k: nat): (b: nat)
    ensures b < 2
  {
    Shr(x, k) % 2
  }

  /** Masking with a single bit. */
  lemma {:induction false} AndBit(x: nat, k: nat)
    ensures And(x, Pow2(k)) == Shl(Bit(x, k), k)
  {
    if k > 0 {
      assert Pow2(k) / 2 == Pow2(k - 1) && Pow2(k) % 2 == 0;
      AndBit(x / 2, k - 1);
      if x == 0 { assert And(0, Pow2(k - 1)) == 0; }
    } else {
      assert And(x / 2, 0) == 0;
    }
  }

  /** Two numbers differ only below bit k exactly when their xor is below 2^k. */
  lemma {:induction false} XorBelow(a: nat, b: nat, k: nat)
    ensures Xor(a, b) < Pow2(k) <==> Shr(a, k) == Shr(b, k)
  {
    if k == 0 {
      XorZero(a, b);
    } else {
      XorBelow(a / 2, b / 2, k - 1);
      if a == 0 && b == 0 { assert Xor(a / 2, b / 2) == 0; }
    }
  }

  lemma {:induction false} XorZero(a: nat, b: nat)
    ensures Xor(a, b) < 1 <==> a == b
  {
    if a != 0 || b != 0 { XorZero(a / 2, b / 2); }
  }

  // ---------- or of disjoint bits ----------

  lemma OrHalves(a: nat, b: nat)
    ensures Or(a, b) == 2 * Or(a / 2, b / 2) + (if a % 2 == 0 && b % 2 == 0 then 0 else 1)
  {
    if a == 0 && b == 0 { assert Or(0, 0) == 0; }
  }

  /** Or-ing in bits above all bits of the other operand is addition. */
  lemma {:induction false} OrAbove(a: nat, b: nat, k: nat)
    requires a < Pow2(k)
    ensures Or(a, Shl(b, k)) == a + Shl(b, k)
  {
    if k == 0 {
      OrZero(b);
    } else {
      OrAbove(a / 2, b, k - 1);
      OrHalves(a, Shl(b, k));
    }
  }

  lemma {:induction false} OrZero(b: nat)
    ensures Or(0, b) == b
  {
    if b > 0 { OrZero(b / 2); }
  }
}
