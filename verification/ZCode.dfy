/** Z-order codes of a packet's address and port pairs: 96 bits in three words, compared and cut
    into 24 four-bit digits word by word. The proofs see a code as one number. */
module ZCode {
  import opened Bits

  datatype ZOrderIPv4 = ZOrderIPv4(low: nat, mid: nat, high: nat)

  /** 2^32: the words of a code are below it. */
  const WORD: nat := 0x1_0000_0000

  predicate Words(z: ZOrderIPv4) {
    z.low < WORD && z.mid < WORD && z.high < WORD
  }

  /** A low word and what is above it, as one number. */
  function Join(low: nat, rest: nat): nat {
    low + WORD * rest
  }

  /** The code as one number. */
  function Value(z: ZOrderIPv4): nat {
    Join(z.low, Join(z.mid, z.high))
  }

  const PREFIX_MASK: nat := 15

  function GetSuffix(z: ZOrderIPv4, id: nat): nat {
    if id < 8 then And(Shr(z.low, id * 4), PREFIX_MASK)
    else if id < 16 then And(Shr(z.mid, (id - 8) * 4), PREFIX_MASK)
    else if id >= 24 then 0
    else And(Shr(z.high, (id - 16) * 4), PREFIX_MASK)
  }

  predicate PrefixCompare(z: ZOrderIPv4, other: ZOrderIPv4, id: nat) {
    if id < 8 then z.high == other.high && z.mid == other.mid && Xor(z.low, other.low) < Pow2(id * 4)
    else if id < 16 then z.high == other.high && Xor(z.mid, other.mid) < Pow2((id - 8) * 4)
    else if id >= 24 then true
    else Xor(z.high, other.high) < Pow2((id - 16) * 4)
  }

  predicate Less(z: ZOrderIPv4, other: ZOrderIPv4) {
    if z.high < other.high then true
    else if z.high > other.high then false
    else if z.mid < other.mid then true
    else if z.mid > other.mid then false
    else z.low < other.low
  }

  /** What is left of a number above its `level` lowest four-bit digits. */
  function Above(v: nat, level: nat): nat {
    Shr(v, level * 4)
  }

  function Nibble(v: nat, level: nat): (d: nat)
    ensures d < 16
  {
    Above(v, level) % 16
  }

  /** One more digit is cut off by dividing by 16. */
  lemma AboveNext(v: nat, level: nat)
    ensures Above(v, level + 1) == Above(v, level) / 16
  {
    ShrAdd(v, level * 4, 4);
    ShrSmall(Above(v, level));
  }

  // ---------- splitting a number at the word boundary ----------

  lemma Shl8(x: nat)
    ensures Shl(x, 8) == 256 * x
  {
    ShlAdd(x, 4, 4);
    ShlSmall(x);
    ShlSmall(Shl(x, 4));
  }

  lemma Shl16(x: nat)
    ensures Shl(x, 16) == 0x1_0000 * x
  {
    ShlAdd(x, 8, 8);
    Shl8(x);
    Shl8(Shl(x, 8));
  }

  lemma WordBits(rest: nat)
    ensures Pow2(32) == WORD && Shl(rest, 32) == WORD * rest
  {
    Shl32(1);
    Shl32(rest);
    Pow2IsShl(32);
  }

  lemma Shl32(x: nat)
    ensures Shl(x, 32) == WORD * x
  {
    ShlAdd(x, 16, 16);
    Shl16(x);
    Shl16(Shl(x, 16));
  }

  lemma JoinShr(low: nat, rest: nat, k: nat)
    requires low < WORD && k <= 32
    ensures Shr(Join(low, rest), k) == Shr(low, k) + Shl(rest, 32 - k)
    ensures Shr(low, k) < Pow2(32 - k)
  {
    WordBits(rest);
    ShrSplit(low, rest, 32, k);
  }

  /** The digit of the low word at k is the digit of the whole number there. */
  lemma WordDigit(low: nat, rest: nat, k: nat)
    requires low < WORD && k < 8
    ensures Shr(Join(low, rest), k * 4) % 16 == Shr(low, k * 4) % 16
  {
    var j := k * 4;
    JoinShr(low, rest, j);
    var n := 32 - j - 4;
    ShlAdd(rest, n, 4);
    ShlSmall(Shl(rest, n));
    SixteenAbove(Shr(low, j), Shl(rest, n));
  }

  lemma SixteenAbove(x: nat, y: nat)
    ensures (x + 16 * y) % 16 == x % 16
  {}

  lemma WordPrefix(low: nat, rest: nat, low': nat, rest': nat, k: nat)
    requires low < WORD && low' < WORD && k <= 32
    ensures Shr(Join(low, rest), k) == Shr(Join(low', rest'), k)
       <==> Shr(low, k) == Shr(low', k) && rest == rest'
  {
    JoinShr(low, rest, k);
    JoinShr(low', rest', k);
    SplitUnique(Shr(low, k), rest, Shr(low', k), rest', 32 - k);
  }

  /** Shifting past the low word leaves the rest. */
  lemma PastWord(low: nat, rest: nat, k: nat)
    requires low < WORD && k >= 32
    ensures Shr(Join(low, rest), k) == Shr(rest, k - 32)
  {
    JoinShr(low, rest, 32);
    ShrAdd(Join(low, rest), 32, k - 32);
  }

  lemma MaskIsMod(x: nat)
    ensures And(x, PREFIX_MASK) == x % 16
  {
    Pow2IsShl(4);
    ShlSmall(1);
    AndMask(x, 4);
  }

  lemma PastHigh(high: nat, k: nat)
    requires high < WORD && k >= 32
    ensures Shr(high, k) == 0
  {
    WordBits(0);
    ShrZero(high, 32);
    ShrAdd(high, 32, k - 32);
    ShrZero(0, k - 32);
  }

  /** `GetSuffix` is the digit of the whole number. */
  lemma SuffixIsNibble(z: ZOrderIPv4, id: nat)
    requires Words(z)
    ensures GetSuffix(z, id) == Nibble(Value(z), id)
  {
    if id < 8 {
      MaskIsMod(Shr(z.low, id * 4));
      WordDigit(z.low, Join(z.mid, z.high), id);
    } else if id < 16 {
      MaskIsMod(Shr(z.mid, (id - 8) * 4));
      PastWord(z.low, Join(z.mid, z.high), id * 4);
      WordDigit(z.mid, z.high, id - 8);
    } else {
      PastWord(z.low, Join(z.mid, z.high), id * 4);
      PastWord(z.mid, z.high, id * 4 - 32);
      if id < 24 { MaskIsMod(Shr(z.high, (id - 16) * 4)); } else { PastHigh(z.high, id * 4 - 64); }
    }
  }

  /** `PrefixCompare` tells whether two codes agree above their `id` lowest digits. */
  lemma PrefixCompareIsAbove(z: ZOrderIPv4, other: ZOrderIPv4, id: nat)
    requires Words(z) && Words(other)
    ensures PrefixCompare(z, other, id) <==> Above(Value(z), id) == Above(Value(other), id)
  {
    if id < 8 {
      XorBelow(z.low, other.low, id * 4);
      WordPrefix(z.low, Join(z.mid, z.high), other.low, Join(other.mid, other.high), id * 4);
    } else {
      PastWord(z.low, Join(z.mid, z.high), id * 4);
      PastWord(other.low, Join(other.mid, other.high), id * 4);
      if id < 16 {
        XorBelow(z.mid, other.mid, (id - 8) * 4);
        WordPrefix(z.mid, z.high, other.mid, other.high, (id - 8) * 4);
      } else {
        PastWord(z.mid, z.high, id * 4 - 32);
        PastWord(other.mid, other.high, id * 4 - 32);
        if id < 24 {
          XorBelow(z.high, other.high, (id - 16) * 4);
        } else {
          PastHigh(z.high, id * 4 - 64);
          PastHigh(other.high, id * 4 - 64);
        }
      }
    }
  }

  /** The program's comparison of codes is that of the numbers. */
  lemma LessIsLess(z: ZOrderIPv4, other: ZOrderIPv4)
    requires Words(z) && Words(other)
    ensures Less(z, other) <==> Value(z) < Value(other)
  {}

  // ---------- interleaving two coordinates ----------

  /** The n lowest bits of x moved to the even bit positions. */
  function Spread(x: nat, n: nat): (r: nat)
  {
    if n == 0 then 0 else x % 2 + 4 * Spread(x / 2, n - 1)
  }

  /** The bits of x moved to the even bit positions, as the program does it: bit by bit. */
  method InterleaveBits(x: nat, n: nat) returns (result: nat)
    ensures result == Spread(x, n)
  {
    result := 0;
    for i := 0 to n
      invariant result == Spread(x, i)
    {
      AndBit(x, i);
      ShrShl(Bit(x, i), i);
      SpreadBelow(x, i);
      OrAbove(result, Bit(x, i), 2 * i);
      SpreadNext(x, i);
      result := Or(result, Shl(Shr(And(x, Pow2(i)), i), 2 * i));
    }
  }

  lemma {:induction false} SpreadBelow(x: nat, n: nat)
    ensures Spread(x, n) < Pow2(2 * n)
  {
    if n > 0 {
      SpreadBelow(x / 2, n - 1);
      assert Pow2(2 * n) == 2 * Pow2(2 * n - 1) == 4 * Pow2(2 * (n - 1));
    }
  }

  lemma {:induction false} SpreadNext(x: nat, i: nat)
    ensures Spread(x, i + 1) == Spread(x, i) + Shl(Bit(x, i), 2 * i)
  {
    if i > 0 {
      SpreadNext(x / 2, i - 1);
      var b := Bit(x, i);
      assert Shl(b, 2 * i) == 2 * Shl(b, 2 * i - 1) == 4 * Shl(b, 2 * (i - 1));
    }
  }

  /** x on the odd, y on the even bit positions. */
  function Interleaved(x: nat, y: nat, n: nat): nat {
    2 * Spread(x, n) + Spread(y, n)
  }

  lemma {:induction false} OrSpreads(x: nat, y: nat, n: nat)
    ensures Or(2 * Spread(x, n), Spread(y, n)) == Interleaved(x, y, n)
  {
    if n > 0 {
      OrSpreads(x / 2, y / 2, n - 1);
      OrHalves(2 * Spread(x, n), Spread(y, n));
      OrHalves(Spread(x, n), 2 * Spread(y / 2, n - 1));
    }
  }

  method ComputeZOrder(x: nat, y: nat, n: nat) returns (z: nat)
    ensures z == Interleaved(x, y, n)
  {
    var interleavedX := InterleaveBits(x, n);
    var interleavedY := InterleaveBits(y, n);
    z := Or(2 * interleavedX, interleavedY);
    OrSpreads(x, y, n);
  }

  lemma {:induction false} InterleavedBelow(x: nat, y: nat, n: nat)
    ensures Interleaved(x, y, n) < Pow2(2 * n)
  {
    if n > 0 {
      InterleavedBelow(x / 2, y / 2, n - 1);
      assert Pow2(2 * n) == 2 * Pow2(2 * n - 1) == 4 * Pow2(2 * (n - 1));
    }
  }

  /** A packet's coordinates: the port, and the address above it. */
  function Coordinate(port: nat, address: nat): nat {
    port + 0x1_0000 * address
  }

  /** The code of a packet: ports in the low word, addresses in the two upper words. */
  method OfPacket(sourceAddress: nat, destinationAddress: nat, sourcePort: nat, destinationPort: nat) returns (z: ZOrderIPv4)
    requires sourcePort < 0x1_0000 && destinationPort < 0x1_0000
    requires sourceAddress < WORD && destinationAddress < WORD
    ensures Words(z)
    ensures Value(z) == Interleaved(Coordinate(sourcePort, sourceAddress), Coordinate(destinationPort, destinationAddress), 48)
  {
    var low := ComputeZOrder(sourcePort, destinationPort, 16);
    var tmp := ComputeZOrder(sourceAddress, destinationAddress, 32);
    z := ZOrderIPv4(low, And(tmp, WORD - 1), Shr(tmp, 32));
    CodeWords(sourceAddress, destinationAddress, sourcePort, destinationPort);
    CoordinateSpread(sourcePort, sourceAddress);
    CoordinateSpread(destinationPort, destinationAddress);
  }

  lemma CodeWords(sa: nat, da: nat, sp: nat, dp: nat)
    ensures var low, tmp := Interleaved(sp, dp, 16), Interleaved(sa, da, 32);
            && low < WORD && And(tmp, WORD - 1) < WORD && Shr(tmp, 32) < WORD
            && Join(And(tmp, WORD - 1), Shr(tmp, 32)) == tmp
  {
    var tmp := Interleaved(sa, da, 32);
    InterleavedBelow(sp, dp, 16);
    InterleavedBelow(sa, da, 32);
    WordBits(0);
    AndMask(tmp, 32);
    Halves(tmp, 32, 32);
    WordBits(Shr(tmp, 32));
  }

  /** A number below 2^(n+m) is its n low bits and m bits above them. */
  lemma {:induction false} Halves(t: nat, n: nat, m: nat)
    requires t < Pow2(n + m)
    ensures t % Pow2(n) + Shl(Shr(t, n), n) == t && Shr(t, n) < Pow2(m)
  {
    if n > 0 {
      Halves(t / 2, n - 1, m);
      HalfMod(t, Pow2(n - 1));
    }
  }

  lemma {:induction false} SpreadSplit(a: nat, b: nat, n: nat, m: nat)
    requires a < Pow2(n)
    ensures Spread(a + Shl(b, n), n + m) == Spread(a, n) + Shl(Spread(b, m), 2 * n)
  {
    if n > 0 {
      SpreadSplit(a / 2, b, n - 1, m);
      var s := Spread(b, m);
      assert (a + Shl(b, n)) / 2 == a / 2 + Shl(b, n - 1) && (a + Shl(b, n)) % 2 == a % 2;
      assert Shl(s, 2 * n) == 2 * Shl(s, 2 * n - 1) == 4 * Shl(s, 2 * (n - 1));
    }
  }

  lemma CoordinateSpread(port: nat, address: nat)
    requires port < 0x1_0000
    ensures Spread(Coordinate(port, address), 48) == Join(Spread(port, 16), Spread(address, 32))
  {
    Shl16(address);
    Shl16(1);
    Pow2IsShl(16);
    SpreadSplit(port, address, 16, 32);
    WordBits(Spread(address, 32));
  }

  // ---------- digits of the coordinates ----------

  /** Base-4 digit of a coordinate. */
  function Digit4(x: nat, level: nat): (d: nat)
    ensures d < 4
  {
    Shr(x, 2 * level) % 4
  }

  /** `decodeZOrder` on a four-bit digit: its odd bits and its even bits. */
  function DecodeX(z: nat): nat { Shr(And(z, 2), 1) + Shr(And(z, 8), 2) }

  function DecodeY(z: nat): nat { And(z, 1) + Shr(And(z, 4), 1) }

  lemma DecodeDigit(z: nat)
    requires z < 16
    ensures DecodeX(z) == z / 2 % 2 + 2 * (z / 8 % 2)
    ensures DecodeY(z) == z % 2 + 2 * (z / 4 % 2)
  {
    AndBit(z, 0);
    AndBit(z, 1);
    AndBit(z, 2);
    AndBit(z, 3);
    assert Pow2(0) == 1 && Pow2(1) == 2 && Pow2(2) == 4 && Pow2(3) == 8;
    ShrSmall(z);
    ShrBit(Bit(z, 1));
    ShrBit(Bit(z, 3));
    ShrBit(Bit(z, 2));
  }

  /** A decoded bit at its new place. */
  lemma ShrBit(b: nat)
    ensures Shr(Shl(b, 1), 1) == b && Shr(Shl(b, 2), 1) == 2 * b && Shr(Shl(b, 3), 2) == 2 * b
  {
    ShlSmall(b);
    ShrSmall(Shl(b, 1));
    ShrSmall(Shl(b, 2));
    ShrSmall(Shl(b, 3));
  }

  /** The digit of the code at a level holds the base-4 digits of both coordinates there. */
  lemma {:induction false} CodeDigits(x: nat, y: nat, n: nat, level: nat)
    requires 2 * level + 2 <= n
    ensures DecodeX(Nibble(Interleaved(x, y, n), level)) == Digit4(x, level)
    ensures DecodeY(Nibble(Interleaved(x, y, n), level)) == Digit4(y, level)
    decreases level
  {
    if level == 0 {
      CodeDigit0(x, y, n);
    } else {
      CodeDigits(x / 4, y / 4, n - 2, level - 1);
      DropDigit(x, y, n, level);
      DropDigit4(x, level);
      DropDigit4(y, level);
    }
  }

  /** The four bits of two base-4 digits, interleaved. */
  function Weave(x: nat, y: nat): (w: nat) {
    y % 2 + 2 * (x % 2) + 4 * (y / 2 % 2) + 8 * (x / 2 % 2)
  }

  lemma FirstNibble(x: nat, y: nat, n: nat)
    requires n >= 2
    ensures Nibble(Interleaved(x, y, n), 0) == Weave(x, y)
  {
    SpreadTwice(x, n);
    SpreadTwice(y, n);
    WeaveSum(x % 2, x / 2 % 2, y % 2, y / 2 % 2, Spread(x / 4, n - 2), Spread(y / 4, n - 2));
  }

  lemma WeaveSum(x0: nat, x1: nat, y0: nat, y1: nat, a: nat, b: nat)
    requires x0 < 2 && x1 < 2 && y0 < 2 && y1 < 2
    ensures (2 * (x0 + 4 * x1 + 16 * a) + (y0 + 4 * y1 + 16 * b)) % 16 == y0 + 2 * x0 + 4 * y1 + 8 * x1
  {}

  lemma CodeDigit0(x: nat, y: nat, n: nat)
    requires n >= 2
    ensures DecodeX(Nibble(Interleaved(x, y, n), 0)) == Digit4(x, 0)
    ensures DecodeY(Nibble(Interleaved(x, y, n), 0)) == Digit4(y, 0)
  {
    FirstNibble(x, y, n);
    FourBits(x % 2, x / 2 % 2, y % 2, y / 2 % 2);
    DecodeDigit(Weave(x, y));
    TwoBits(x);
    TwoBits(y);
  }

  lemma TwoBits(x: nat)
    ensures Digit4(x, 0) == x % 2 + 2 * (x / 2 % 2)
  {}

  lemma FourBits(x0: nat, x1: nat, y0: nat, y1: nat)
    requires x0 < 2 && x1 < 2 && y0 < 2 && y1 < 2
    ensures var w := y0 + 2 * x0 + 4 * y1 + 8 * x1;
            w < 16 && w % 2 == y0 && w / 2 % 2 == x0 && w / 4 % 2 == y1 && w / 8 % 2 == x1
  {}

  lemma DropDigit(x: nat, y: nat, n: nat, level: nat)
    requires n >= 2 && level > 0
    ensures Nibble(Interleaved(x, y, n), level) == Nibble(Interleaved(x / 4, y / 4, n - 2), level - 1)
  {
    SpreadTwice(x, n);
    SpreadTwice(y, n);
    ShrAdd(Interleaved(x, y, n), 4, level * 4 - 4);
    ShrSmall(Interleaved(x, y, n));
  }

  lemma DropDigit4(x: nat, level: nat)
    requires level > 0
    ensures Digit4(x, level) == Digit4(x / 4, level - 1)
  {
    ShrAdd(x, 2, 2 * level - 2);
    ShrSmall(x);
  }

  lemma SpreadTwice(x: nat, n: nat)
    requires n >= 2
    ensures Spread(x, n) == x % 2 + 4 * (x / 2 % 2) + 16 * Spread(x / 4, n - 2)
  {
    assert Spread(x, n) == x % 2 + 4 * Spread(x / 2, n - 1);
    assert Spread(x / 2, n - 1) == x / 2 % 2 + 4 * Spread(x / 2 / 2, n - 2);
  }
}
