/** Facts about `/` and `%` with divisors that are not literals. */
module ModArith {
  import opened Bits

  lemma ModAddMultiple(a: int, d: int, k: int)
    requires d > 0
    ensures (a + k * d) % d == a % d
    ensures (a + k * d) / d == a / d + k
  {
    var q := a / d;
    assert a + k * d == (q + k) * d + a % d by {
      assert a == q * d + a % d;
      assert (q + k) * d == q * d + k * d;
    }
    DivModUnique(a + k * d, d, q + k, a % d);
  }

  lemma ModSmall(a: int, d: int)
    requires 0 <= a < d
    ensures a % d == a
  {}

  /** Reducing by a multiple of k first does not change the remainder by k. */
  lemma ModOfMod(x: int, t: int, k: int)
    requires k > 0 && t > 0 && t % k == 0
    ensures x % t % k == x % k
  {
    var m, q := t / k, x / t;
    assert t == m * k;
    assert x == x % t + (q * m) * k by {
      assert q * t == q * (m * k) == (q * m) * k;
    }
    ModAddMultiple(x % t, k, q * m);
  }

  lemma AddMod(x: int, y: int, d: int)
    requires d > 0
    ensures (x % d + y) % d == (x + y) % d
  {
    var q := x / d;
    assert x + y == x % d + y + q * d;
    ModAddMultiple(x % d + y, d, q);
  }

  /** Congruent numbers in order are at least one modulus apart. */
  lemma CongruentApart(x: int, y: int, k: int)
    requires k > 0 && x % k == y % k && x > y
    ensures x >= y + k
  {
    var qx, qy := x / k, y / k;
    assert x - y == (qx - qy) * k;
    assert qx - qy <= 0 ==> (qx - qy) * k <= 0;
    assert qx - qy >= 1 ==> (qx - qy) * k >= k;
  }

  lemma CongruentEqual(x: int, y: int, k: int)
    requires k > 0 && x % k == y % k && -k < x - y < k
    ensures x == y
  {
    if x > y { CongruentApart(x, y, k); }
    if y > x { CongruentApart(y, x, k); }
  }

  lemma DivDiv(x: nat, a: nat, b: nat)
    requires a > 0 && b > 0
    ensures a * b > 0 && x / (a * b) == x / a / b
  {
    var q, r, e := x / a / b, x / a % b, x % a;
    assert x / a == q * b + r;
    Regroup(q, r, e, a, b);
    DivModUnique(x, a * b, q, r * a + e);
  }

  lemma Regroup(q: nat, r: nat, e: nat, a: nat, b: nat)
    requires r < b && e < a
    ensures (q * b + r) * a + e == q * (a * b) + (r * a + e)
    ensures r * a + e < a * b
  {
    assert (q * b + r) * a == (q * b) * a + r * a;
    assert (q * b) * a == q * (a * b);
    assert (r + 1) * a <= b * a;
  }

  /** Where a position on the circular disk falls: block and offset survive the wrap. */
  lemma WrapPosition(pos: nat, b: nat, d: nat)
    requires b > 0 && d > 0
    ensures d * b > 0
    ensures pos % (d * b) / b == pos / b % d
    ensures pos % (d * b) % b == pos % b
  {
    var q, r, e := pos / b / d, pos / b % d, pos % b;
    assert pos / b == q * d + r;
    Regroup(q, r, e, b, d);
    DivModUnique(pos, d * b, q, r * b + e);
    DivModUnique(r * b + e, b, r, e);
  }

  lemma MultipleOfProduct(d: nat, t: nat, b: nat)
    requires t > 0 && b > 0 && d % t == 0
    ensures t * b > 0 && (d * b) % (t * b) == 0
  {
    var m := d / t;
    assert d * b == m * (t * b) by { assert d == m * t; assert m * t * b == m * (t * b); }
    DivModUnique(d * b, t * b, m, 0);
  }

  // ---------- remainder and quotient by counting down ----------

  /** x % d and x / d, by repeated subtraction: what the protocol proofs reason with. */
  function Rem(x: nat, d: nat): (r: nat)
    requires d > 0
    ensures r < d
  {
    if x < d then x else Rem(x - d, d)
  }

  function Quot(x: nat, d: nat): nat
    requires d > 0
  {
    if x < d then 0 else 1 + Quot(x - d, d)
  }

  lemma {:induction false} RemQuot(x: nat, d: nat)
    requires d > 0
    ensures Rem(x, d) == x % d && Quot(x, d) == x / d
  {
    if x >= d {
      RemQuot(x - d, d);
      ModAddMultiple(x - d, d, 1);
    }
  }

  lemma RemOfRem(x: nat, t: nat, k: nat)
    requires k > 0 && t > 0 && Rem(t, k) == 0
    ensures Rem(Rem(x, t), k) == Rem(x, k)
  {
    RemQuot(x, t);
    RemQuot(t, k);
    RemQuot(x, k);
    RemQuot(x % t, k);
    ModOfMod(x, t, k);
  }

  /** Numbers with the same remainder that are less than one divisor apart are equal. */
  lemma SameRem(x: nat, y: nat, d: nat)
    requires d > 0 && Rem(x, d) == Rem(y, d)
    ensures x > y ==> x >= y + d
  {
    RemQuot(x, d);
    RemQuot(y, d);
    if x > y { CongruentApart(x, y, d); }
  }

  lemma {:induction false} RemAddMultiple(x: nat, t: nat, k: nat)
    requires k > 0 && Rem(t, k) == 0
    ensures Rem(x + t, k) == Rem(x, k)
    decreases t
  {
    if t >= k {
      RemAddMultiple(x, t - k, k);
      assert Rem(x + t, k) == Rem(x + t - k, k);
    }
  }

  lemma {:induction false} QuotOrdered(x: nat, y: nat, d: nat)
    requires d > 0 && x <= y
    ensures Quot(x, d) <= Quot(y, d)
  {
    if x >= d { QuotOrdered(x - d, y - d, d); }
  }

  lemma {:induction false} RemAtMost(x: nat, d: nat)
    requires d > 0
    ensures Rem(x, d) <= x
  {
    if x >= d { RemAtMost(x - d, d); }
  }

  /** Positions at the same place of a ring of t blocks of b: same slot; same block only if equal. */
  lemma SameRingPlace(q: nat, q': nat, b: nat, t: nat)
    requires b > 0 && t > 0 && t * b > 0 && q % (t * b) == q' % (t * b)
    ensures q / b % t == q' / b % t
    ensures q / b == q' / b ==> q == q'
  {
    WrapPosition(q, b, t);
    WrapPosition(q', b, t);
    SplitPosition(q, b);
    SplitPosition(q', b);
  }

  lemma SplitPosition(q: nat, b: nat)
    requires b > 0
    ensures q == (q / b) * b + q % b
  {}

  /** x % n for x below 2 * n. */
  function Wrap(x: nat, n: nat): nat
    requires x < 2 * n
  {
    if x < n then x else x - n
  }

  lemma WrapIsMod(x: nat, n: nat)
    requires x < 2 * n
    ensures Wrap(x, n) == x % n
  {
    if x < n {
      ModSmall(x, n);
    } else {
      ModAddMultiple(x, n, -1);
      ModSmall(x - n, n);
    }
  }
}
