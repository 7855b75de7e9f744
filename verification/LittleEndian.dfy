/** Numbers as they lie in memory: the lowest byte first. */
module LittleEndian {
  import opened Basics
  import opened Bits

  /** The k lowest bytes of n, lowest first. */
  function Word(n: nat, k: nat): (w: seq<byte>)
    ensures |w| == k
  {
    if k == 0 then [] else [(n % 256) as byte] + Word(n / 256, k - 1)
  }

  /** The number that bytes stand for. */
  function Number(w: seq<byte>): nat {
    if w == [] then 0 else w[0] as nat + 256 * Number(w[1..])
  }

  lemma {:induction false} WordReadsBack(n: nat, k: nat)
    requires n < Pow2(8 * k)
    ensures Number(Word(n, k)) == n
  {
    if k == 0 {
    } else {
      EightBits(k - 1);
      WordReadsBack(n / 256, k - 1);
      assert Word(n, k)[1..] == Word(n / 256, k - 1);
    }
  }

  lemma EightBits(k: nat)
    ensures Pow2(8 * (k + 1)) == 256 * Pow2(8 * k)
  {
    var e := 8 * k;
    assert Pow2(e + 8) == 2 * Pow2(e + 7) && Pow2(e + 7) == 2 * Pow2(e + 6) && Pow2(e + 6) == 2 * Pow2(e + 5);
    assert Pow2(e + 5) == 2 * Pow2(e + 4) && Pow2(e + 4) == 2 * Pow2(e + 3) && Pow2(e + 3) == 2 * Pow2(e + 2);
    assert Pow2(e + 2) == 2 * Pow2(e + 1) && Pow2(e + 1) == 2 * Pow2(e);
  }

  /** k bytes stand for a number below 256^k, and for no two numbers. */
  lemma {:induction false} NumberIsBelow(w: seq<byte>)
    ensures Number(w) < Pow2(8 * |w|)
    ensures Word(Number(w), |w|) == w
  {
    if w == [] {
    } else {
      NumberIsBelow(w[1..]);
      EightBits(|w| - 1);
      assert Number(w) % 256 == w[0] as nat && Number(w) / 256 == Number(w[1..]);
    }
  }

  lemma SameNumber(a: seq<byte>, b: seq<byte>)
    requires |a| == |b| && Number(a) == Number(b)
    ensures a == b
  {
    NumberIsBelow(a);
    NumberIsBelow(b);
  }

  lemma TimesByte(r: nat, p: nat, n: nat)
    ensures 256 * (r + p * n) == 256 * r + 256 * p * n
  {}

  /** The bytes behind count for 256 to the number of bytes before. */
  lemma {:induction false} NumberSplit(a: seq<byte>, b: seq<byte>)
    ensures Number(a + b) == Number(a) + Pow2(8 * |a|) * Number(b)
  {
    if a == [] {
      assert a + b == b && Pow2(0) == 1;
    } else {
      var rest, p := a[1..], Pow2(8 * (|a| - 1));
      NumberSplit(rest, b);
      EightBits(|a| - 1);
      assert (a + b)[1..] == rest + b;
      TimesByte(Number(rest), p, Number(b));
    }
  }

  /** The bytes from k on decide which number is larger. */
  lemma UpperDecides(a: seq<byte>, b: seq<byte>, k: nat)
    requires k <= |a| == |b| && Number(a[k..]) < Number(b[k..])
    ensures Number(a) < Number(b)
  {
    NumberSplit(a[..k], a[k..]);
    NumberSplit(b[..k], b[k..]);
    NumberIsBelow(a[..k]);
    assert a == a[..k] + a[k..] && b == b[..k] + b[k..];
    TimesLess(Pow2(8 * k), Number(a[k..]), Number(b[k..]));
  }

  lemma TimesLess(p: nat, x: nat, y: nat)
    requires x < y
    ensures p * x + p <= p * y
  {
    assert p * (y - x - 1) >= 0;
  }

  /** Keeping k bytes is the remainder by 256^k. */
  lemma {:induction false} WordIsMod(n: nat, k: nat)
    ensures Number(Word(n, k)) == n % Pow2(8 * k)
  {
    if k == 0 {
      assert Pow2(0) == 1;
    } else {
      EightBits(k - 1);
      WordIsMod(n / 256, k - 1);
      assert Word(n, k)[1..] == Word(n / 256, k - 1);
      ByteAndRest(n, Pow2(8 * (k - 1)));
    }
  }

  lemma ByteAndRest(n: nat, p: nat)
    requires p > 0
    ensures n % (256 * p) == n % 256 + 256 * (n / 256 % p)
  {
    var h := n / 256;
    var q, r := h / p, h % p;
    assert n == q * (256 * p) + (n % 256 + 256 * r) by { assert h == q * p + r; assert 256 * (q * p) == q * (256 * p); }
    DivModUnique(n, 256 * p, q, n % 256 + 256 * r);
  }
}
