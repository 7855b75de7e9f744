/** The rows of the prefix Bloom filter: which bits a key sets, which bits a check asks for, and what the
    matrix holds after any sequence of insertions and column clears. Hash functions are arbitrary. */
module BloomRows {
  import opened Bits

  datatype Kind = SrcIp | DstIp | SrcPort | DstPort | SrcIpV6 | DstIpV6

  /** k hash functions; the i-th maps a prefix, as a number and its length in bytes, to a number. */
  datatype Filter = Filter(k: nat, hash: (nat, nat, nat) -> nat)

  const SLICE: nat := 256
  const PORT_BITS: nat := 0x1_0000
  const PAIR_BITS: nat := 0x1_0000
  const BLOOM_LEN: nat := 1024
  const SLOT_BITS: nat := 0x4_0000
  const IPV4_BITS: nat := 655360
  const IPV6_BITS: nat := 3735552
  const ROWS: nat := 8912896

  predicate IsPort(kind: Kind) { kind.SrcPort? || kind.DstPort? }

  /** Bytes of an address. */
  function Len(kind: Kind): nat {
    if kind.SrcIpV6? || kind.DstIpV6? then 16 else 4
  }

  /** First row of a kind. */
  function Offset(kind: Kind): nat {
    match kind
    case SrcPort => 0
    case DstPort => PORT_BITS
    case SrcIp => PORT_BITS * 2
    case DstIp => PORT_BITS * 2 + IPV4_BITS
    case SrcIpV6 => PORT_BITS * 2 + IPV4_BITS * 2
    case DstIpV6 => PORT_BITS * 2 + IPV4_BITS * 2 + IPV6_BITS
  }

  function Extent(kind: Kind): nat {
    match kind
    case SrcPort => PORT_BITS
    case DstPort => PORT_BITS
    case SrcIp => IPV4_BITS
    case DstIp => IPV4_BITS
    case SrcIpV6 => IPV6_BITS
    case DstIpV6 => IPV6_BITS
  }

  // ---------- the rows of a key ----------

  /** Byte i of an address, lowest first. */
  function ByteAt(ip: nat, i: nat): (b: nat)
    ensures b < SLICE
  {
    Shr(ip, 8 * i) % SLICE
  }

  /** What is above byte i. */
  function PrefixAt(ip: nat, i: nat): nat {
    Shr(ip, 8 * (i + 1))
  }

  function PairRow(kind: Kind, ip: nat): nat {
    Offset(kind) + ByteAt(ip, Len(kind) - 1) * SLICE + ByteAt(ip, Len(kind) - 2)
  }

  /** The row of the third and fourth byte, for IPv4. */
  function SecondPairRow(kind: Kind, ip: nat): nat {
    Offset(kind) + PAIR_BITS + ByteAt(ip, 1) * SLICE + ByteAt(ip, 0)
  }

  /** First row of the hashed part. */
  function BloomOffset(kind: Kind): nat {
    Offset(kind) + if Len(kind) == 4 then PAIR_BITS * 2 else PAIR_BITS
  }

  function BloomRow(f: Filter, kind: Kind, ip: nat, i: nat, j: nat): nat
    requires i + 3 <= Len(kind)
  {
    BloomOffset(kind) + SLOT_BITS * (Len(kind) - i - 3) + ByteAt(ip, i) * SLICE + f.hash(PrefixAt(ip, i), Len(kind), j) % BLOOM_LEN
  }

  ghost predicate IsBloomRow(f: Filter, kind: Kind, ip: nat, i: nat, row: nat) {
    i + 3 <= Len(kind) && exists j: nat :: j < f.k && row == BloomRow(f, kind, ip, i, j)
  }

  /** The rows that inserting a key sets. */
  ghost predicate SetsRow(f: Filter, kind: Kind, key: nat, row: nat) {
    if IsPort(kind) then row == Offset(kind) + key
    else
      || row == PairRow(kind, key)
      || (Len(kind) == 4 && row == SecondPairRow(kind, key))
      || exists i: nat :: IsBloomRow(f, kind, key, i, row)
  }

  predicate KeyOk(kind: Kind, key: nat) {
    IsPort(kind) ==> key < PORT_BITS
  }

  /** Every row of a key lies in the part of its kind. */
  lemma RowsInExtent(f: Filter, kind: Kind, key: nat, row: nat)
    requires KeyOk(kind, key) && SetsRow(f, kind, key, row)
    ensures Offset(kind) <= row < Offset(kind) + Extent(kind) <= ROWS
  {
    if !IsPort(kind) && row != PairRow(kind, key) && !(Len(kind) == 4 && row == SecondPairRow(kind, key)) {
      var i: nat :| IsBloomRow(f, kind, key, i, row);
      var j: nat :| j < f.k && row == BloomRow(f, kind, key, i, j);
    }
  }

  /** Hashed rows are the same exactly for the same place in the address and the same sum of 256 times the byte and the
      hash modulo 1024. So the rows of a byte reach into those of the next three: they are no rows of their own. */
  lemma HashedRowIff(f: Filter, kind: Kind, a: nat, b: nat, i: nat, i': nat, j: nat, j': nat)
    requires i + 3 <= Len(kind) && i' + 3 <= Len(kind)
    ensures var h, h' := f.hash(PrefixAt(a, i), Len(kind), j) % 1024, f.hash(PrefixAt(b, i'), Len(kind), j') % 1024;
      && (BloomRow(f, kind, a, i, j) == BloomRow(f, kind, b, i', j') <==> i == i' && 256 * ByteAt(a, i) + h == 256 * ByteAt(b, i') + h')
      && (BloomRow(f, kind, a, i, j) == BloomRow(f, kind, b, i', j') ==> ByteAt(a, i) <= ByteAt(b, i') + 3)
  {}

  /** The parts of different kinds do not overlap. */
  lemma KindsApart(kind: Kind, kind': Kind, row: nat)
    requires Offset(kind) <= row < Offset(kind) + Extent(kind)
    requires Offset(kind') <= row < Offset(kind') + Extent(kind')
    ensures kind == kind'
  {}

  // ---------- checks ----------

  /** A full check asks for every row of the key. */
  ghost predicate Passes(f: Filter, rows: iset<nat>, kind: Kind, key: nat) {
    forall row: nat :: SetsRow(f, kind, key, row) ==> row in rows
  }

  /** The hashed rows of byte i. */
  ghost predicate BloomPasses(f: Filter, rows: iset<nat>, kind: Kind, ip: nat, i: nat)
    requires i + 3 <= Len(kind)
  {
    forall j: nat :: j < f.k ==> BloomRow(f, kind, ip, i, j) in rows
  }

  ghost predicate BloomsPass(f: Filter, rows: iset<nat>, kind: Kind, ip: nat, low: nat) {
    forall i: nat :: low <= i && i + 3 <= Len(kind) ==> BloomPasses(f, rows, kind, ip, i)
  }

  ghost predicate InRow(rows: iset<nat>, base: nat, x: nat) {
    x < SLICE && base + x in rows
  }

  ghost predicate AnyInRow(rows: iset<nat>, base: nat) {
    exists x: nat :: InRow(rows, base, x)
  }

  /** A check for the first n bytes of an address. */
  ghost predicate PrefixPasses(f: Filter, rows: iset<nat>, kind: Kind, ip: nat, n: nat)
    requires !IsPort(kind) && n <= Len(kind)
  {
    if n == 0 then true
    else if n == 1 then AnyInRow(rows, Offset(kind) + ByteAt(ip, Len(kind) - 1) * SLICE)
    else if n == 2 then PairRow(kind, ip) in rows
    else
      && PairRow(kind, ip) in rows
      && (Len(kind) == 4 && n == 3 ==> AnyInRow(rows, Offset(kind) + PAIR_BITS + ByteAt(ip, 1) * SLICE))
      && (Len(kind) == 4 && n == 4 ==> SecondPairRow(kind, ip) in rows)
      && BloomsPass(f, rows, kind, ip, Len(kind) - n)
  }

  ghost predicate SamePrefix(kind: Kind, a: nat, b: nat, n: nat)
    requires n <= Len(kind)
  {
    Shr(a, 8 * (Len(kind) - n)) == Shr(b, 8 * (Len(kind) - n))
  }

  /** Addresses with the same first n bytes agree in each of these bytes and in what is above. */
  lemma SameBytes(kind: Kind, a: nat, b: nat, n: nat, i: nat)
    requires n <= Len(kind) && SamePrefix(kind, a, b, n) && i >= Len(kind) - n
    ensures ByteAt(a, i) == ByteAt(b, i) && PrefixAt(a, i) == PrefixAt(b, i)
  {
    var cut := 8 * (Len(kind) - n);
    ShrAdd(a, cut, 8 * i - cut);
    ShrAdd(b, cut, 8 * i - cut);
    ShrAdd(a, cut, 8 * (i + 1) - cut);
    ShrAdd(b, cut, 8 * (i + 1) - cut);
  }

  lemma SetsPairs(f: Filter, rows: iset<nat>, kind: Kind, key: nat)
    requires !IsPort(kind) && Passes(f, rows, kind, key)
    ensures PairRow(kind, key) in rows && (Len(kind) == 4 ==> SecondPairRow(kind, key) in rows)
  {
    assert SetsRow(f, kind, key, PairRow(kind, key));
    assert Len(kind) == 4 ==> SetsRow(f, kind, key, SecondPairRow(kind, key));
  }

  lemma SetsBlooms(f: Filter, rows: iset<nat>, kind: Kind, key: nat, ip: nat, n: nat)
    requires !IsPort(kind) && Passes(f, rows, kind, key) && n <= Len(kind) && SamePrefix(kind, key, ip, n)
    ensures BloomsPass(f, rows, kind, ip, Len(kind) - n)
  {
    forall i: nat | Len(kind) - n <= i && i + 3 <= Len(kind) ensures BloomPasses(f, rows, kind, ip, i) {
      SameBytes(kind, key, ip, n, i);
      forall j: nat | j < f.k ensures BloomRow(f, kind, ip, i, j) in rows {
        var row := BloomRow(f, kind, key, i, j);
        assert IsBloomRow(f, kind, key, i, row) && SetsRow(f, kind, key, row);
      }
    }
  }

  /** If all rows of an address are set, every address with the same first n bytes passes the n-byte check. */
  lemma PrefixNeverMissed(f: Filter, rows: iset<nat>, kind: Kind, key: nat, ip: nat, n: nat)
    requires !IsPort(kind) && n <= Len(kind) && Passes(f, rows, kind, key) && SamePrefix(kind, key, ip, n)
    ensures PrefixPasses(f, rows, kind, ip, n)
  {
    SetsPairs(f, rows, kind, key);
    SetsBlooms(f, rows, kind, key, ip, n);
    if n >= 1 { SameBytes(kind, key, ip, n, Len(kind) - 1); }
    if n >= 2 { SameBytes(kind, key, ip, n, Len(kind) - 2); }
    if n == 1 { assert InRow(rows, Offset(kind) + ByteAt(ip, Len(kind) - 1) * SLICE, ByteAt(key, Len(kind) - 2)); }
    if Len(kind) == 4 && n >= 3 {
      SameBytes(kind, key, ip, n, 1);
      assert InRow(rows, Offset(kind) + PAIR_BITS + ByteAt(ip, 1) * SLICE, ByteAt(key, 0));
      if n == 4 { SameBytes(kind, key, ip, n, 0); }
    }
  }

  // ---------- runs ----------

  datatype Op = Insert(kind: Kind, key: nat, col: nat) | Clear(col: nat)

  predicate OpOk(op: Op) {
    op.Insert? ==> KeyOk(op.kind, op.key)
  }

  /** Is a bit set after the first n operations? */
  ghost predicate Holds(f: Filter, ops: seq<Op>, n: nat, row: nat, col: nat)
    requires n <= |ops|
  {
    n > 0 &&
    match ops[n - 1]
    case Insert(kind, key, c) => Holds(f, ops, n - 1, row, col) || (c == col && SetsRow(f, kind, key, row))
    case Clear(c) => Holds(f, ops, n - 1, row, col) && c != col
  }

  lemma {:induction false} HoldsBefore(f: Filter, ops: seq<Op>, more: seq<Op>, n: nat, row: nat, col: nat)
    requires n <= |ops|
    ensures Holds(f, ops + more, n, row, col) <==> Holds(f, ops, n, row, col)
  {
    if n > 0 { HoldsBefore(f, ops, more, n - 1, row, col); }
  }

  /** The rows set in a column after the first n operations. */
  ghost function Column(f: Filter, ops: seq<Op>, n: nat, col: nat): iset<nat>
    requires n <= |ops|
  {
    iset row: nat | Holds(f, ops, n, row, col)
  }

  /** A bit that an insertion set stays set until its column is cleared. */
  lemma {:induction false} StaysSet(f: Filter, ops: seq<Op>, i: nat, n: nat, row: nat)
    requires i < n <= |ops| && ops[i].Insert? && SetsRow(f, ops[i].kind, ops[i].key, row)
    requires forall m :: i < m < n ==> ops[m] != Clear(ops[i].col)
    ensures Holds(f, ops, n, row, ops[i].col)
  {
    if i < n - 1 { StaysSet(f, ops, i, n - 1, row); }
  }

  /** No false negatives: whatever else happened, a key inserted into a column that was not cleared since
      passes its check, and so does every address with the same first bytes, for every number of bytes. */
  lemma NoFalseNegatives(f: Filter, ops: seq<Op>, i: nat, ip: nat, n: nat)
    requires i < |ops| && ops[i].Insert? && forall m :: i < m < |ops| ==> ops[m] != Clear(ops[i].col)
    ensures Passes(f, Column(f, ops, |ops|, ops[i].col), ops[i].kind, ops[i].key)
    ensures !IsPort(ops[i].kind) && n <= Len(ops[i].kind) && SamePrefix(ops[i].kind, ops[i].key, ip, n) ==>
              PrefixPasses(f, Column(f, ops, |ops|, ops[i].col), ops[i].kind, ip, n)
  {
    var rows := Column(f, ops, |ops|, ops[i].col);
    forall row: nat | SetsRow(f, ops[i].kind, ops[i].key, row) ensures row in rows { StaysSet(f, ops, i, |ops|, row); }
    if !IsPort(ops[i].kind) && n <= Len(ops[i].kind) && SamePrefix(ops[i].kind, ops[i].key, ip, n) {
      PrefixNeverMissed(f, rows, ops[i].kind, ops[i].key, ip, n);
    }
  }

  /** Has the port been inserted since the column was last cleared? */
  predicate PortInserted(ops: seq<Op>, n: nat, kind: Kind, port: nat, col: nat)
    requires n <= |ops|
  {
    n > 0 && ops[n - 1] != Clear(col) && (ops[n - 1] == Insert(kind, port, col) || PortInserted(ops, n - 1, kind, port, col))
  }

  /** The filter is exact for ports. */
  lemma {:induction false} PortsExact(f: Filter, ops: seq<Op>, n: nat, kind: Kind, port: nat, col: nat)
    requires n <= |ops| && (forall m :: 0 <= m < |ops| ==> OpOk(ops[m])) && IsPort(kind) && port < PORT_BITS
    ensures Holds(f, ops, n, Offset(kind) + port, col) <==> PortInserted(ops, n, kind, port, col)
  {
    if n > 0 {
      PortsExact(f, ops, n - 1, kind, port, col);
      var op := ops[n - 1];
      assert OpOk(op);
      if op.Insert? && SetsRow(f, op.kind, op.key, Offset(kind) + port) {
        RowsInExtent(f, op.kind, op.key, Offset(kind) + port);
        KindsApart(kind, op.kind, Offset(kind) + port);
      }
    }
  }

  /** Has an address with these first two bytes been inserted since the column was last cleared? */
  predicate BytesInserted(ops: seq<Op>, n: nat, kind: Kind, first: nat, second: nat, col: nat)
    requires n <= |ops|
  {
    n > 0 && ops[n - 1] != Clear(col)
    && ((ops[n - 1].Insert? && ops[n - 1].kind == kind && ops[n - 1].col == col
         && ByteAt(ops[n - 1].key, Len(kind) - 1) == first && ByteAt(ops[n - 1].key, Len(kind) - 2) == second)
        || BytesInserted(ops, n - 1, kind, first, second, col))
  }

  /** The row of two first bytes. */
  function FirstRow(kind: Kind, first: nat, second: nat): nat {
    Offset(kind) + first * SLICE + second
  }

  lemma FirstRowMeansBytes(kind: Kind, first: nat, second: nat, key: nat)
    requires first < SLICE && second < SLICE
    ensures PairRow(kind, key) == FirstRow(kind, first, second)
       <==> ByteAt(key, Len(kind) - 1) == first && ByteAt(key, Len(kind) - 2) == second
  {}

  /** Rows of an address other than its first pair lie behind the first pairs. */
  lemma OnlyPair(f: Filter, kind: Kind, key: nat, row: nat)
    requires !IsPort(kind) && row < Offset(kind) + PAIR_BITS && SetsRow(f, kind, key, row)
    ensures row == PairRow(kind, key)
  {
    forall i: nat ensures !IsBloomRow(f, kind, key, i, row) {
      if IsBloomRow(f, kind, key, i, row) { BloomRowsBehind(f, kind, key, i, row); }
    }
  }

  lemma BloomRowsBehind(f: Filter, kind: Kind, key: nat, i: nat, row: nat)
    requires IsBloomRow(f, kind, key, i, row)
    ensures row >= Offset(kind) + PAIR_BITS
  {
    var j: nat :| j < f.k && row == BloomRow(f, kind, key, i, j);
  }

  /** The rows of first bytes are exact: one is set only if an address with these two first bytes was inserted. */
  lemma {:induction false} RowsExact(f: Filter, ops: seq<Op>, n: nat, kind: Kind, first: nat, second: nat, col: nat)
    requires n <= |ops| && (forall m :: 0 <= m < |ops| ==> OpOk(ops[m])) && !IsPort(kind) && first < SLICE && second < SLICE
    ensures Holds(f, ops, n, FirstRow(kind, first, second), col) <==> BytesInserted(ops, n, kind, first, second, col)
  {
    if n > 0 {
      RowsExact(f, ops, n - 1, kind, first, second, col);
      var op, row := ops[n - 1], FirstRow(kind, first, second);
      assert OpOk(op);
      if op.Insert? { FirstRowMeansBytes(kind, first, second, op.key); }
      if op.Insert? && SetsRow(f, op.kind, op.key, row) {
        RowsInExtent(f, op.kind, op.key, row);
        KindsApart(kind, op.kind, row);
        OnlyPair(f, kind, op.key, row);
      }
    }
  }

  /** The two-byte check is exact: it passes only if an address with these two first bytes was inserted. */
  lemma PairsExact(f: Filter, ops: seq<Op>, kind: Kind, ip: nat, col: nat)
    requires (forall m :: 0 <= m < |ops| ==> OpOk(ops[m])) && !IsPort(kind)
    ensures PrefixPasses(f, Column(f, ops, |ops|, col), kind, ip, 2)
       <==> BytesInserted(ops, |ops|, kind, ByteAt(ip, Len(kind) - 1), ByteAt(ip, Len(kind) - 2), col)
  {
    RowsExact(f, ops, |ops|, kind, ByteAt(ip, Len(kind) - 1), ByteAt(ip, Len(kind) - 2), col);
  }

  /** Has an address with this first byte been inserted since the column was last cleared? */
  ghost predicate FirstByteInserted(ops: seq<Op>, kind: Kind, first: nat, col: nat) {
    exists second: nat :: second < SLICE && BytesInserted(ops, |ops|, kind, first, second, col)
  }

  /** So is the one-byte check: it passes only if an address with this first byte was inserted, whatever the second. */
  lemma FirstByteExact(f: Filter, ops: seq<Op>, kind: Kind, ip: nat, col: nat)
    requires (forall m :: 0 <= m < |ops| ==> OpOk(ops[m])) && !IsPort(kind)
    ensures PrefixPasses(f, Column(f, ops, |ops|, col), kind, ip, 1)
       <==> FirstByteInserted(ops, kind, ByteAt(ip, Len(kind) - 1), col)
  {
    var rows, first := Column(f, ops, |ops|, col), ByteAt(ip, Len(kind) - 1);
    var base := Offset(kind) + first * SLICE;
    forall second: nat | second < SLICE ensures InRow(rows, base, second) <==> BytesInserted(ops, |ops|, kind, first, second, col) {
      RowsExact(f, ops, |ops|, kind, first, second, col);
      assert base + second == FirstRow(kind, first, second);
    }
    if AnyInRow(rows, base) {
      var x: nat :| InRow(rows, base, x);
      assert BytesInserted(ops, |ops|, kind, first, x, col);
    }
    if FirstByteInserted(ops, kind, first, col) {
      var x: nat :| x < SLICE && BytesInserted(ops, |ops|, kind, first, x, col);
      assert InRow(rows, base, x);
    }
  }

  /** Has anything of the kind been inserted since the column was last cleared? */
  predicate KindInserted(ops: seq<Op>, n: nat, kind: Kind, col: nat)
    requires n <= |ops|
  {
    n > 0 && ops[n - 1] != Clear(col)
    && ((ops[n - 1].Insert? && ops[n - 1].kind == kind && ops[n - 1].col == col) || KindInserted(ops, n - 1, kind, col))
  }

  lemma {:induction false} BytesOfKind(ops: seq<Op>, n: nat, kind: Kind, first: nat, second: nat, col: nat)
    requires n <= |ops| && BytesInserted(ops, n, kind, first, second, col)
    ensures KindInserted(ops, n, kind, col)
  {
    if !(ops[n - 1].Insert? && ops[n - 1].kind == kind && ops[n - 1].col == col) { BytesOfKind(ops, n - 1, kind, first, second, col); }
  }

  /** On a column without an address of the kind every check of at least one byte fails, and so does the full check. */
  lemma NothingPasses(f: Filter, ops: seq<Op>, kind: Kind, ip: nat, col: nat, n: nat)
    requires (forall m :: 0 <= m < |ops| ==> OpOk(ops[m])) && !IsPort(kind) && !KindInserted(ops, |ops|, kind, col) && 0 < n <= Len(kind)
    ensures !PrefixPasses(f, Column(f, ops, |ops|, col), kind, ip, n)
    ensures !Passes(f, Column(f, ops, |ops|, col), kind, ip)
  {
    var rows := Column(f, ops, |ops|, col);
    var first, second := ByteAt(ip, Len(kind) - 1), ByteAt(ip, Len(kind) - 2);
    forall x: nat | x < SLICE ensures !BytesInserted(ops, |ops|, kind, first, x, col) {
      if BytesInserted(ops, |ops|, kind, first, x, col) { BytesOfKind(ops, |ops|, kind, first, x, col); }
    }
    FirstByteExact(f, ops, kind, ip, col);
    PairsExact(f, ops, kind, ip, col);
    assert !BytesInserted(ops, |ops|, kind, first, second, col);
    if Passes(f, rows, kind, ip) { SetsPairs(f, rows, kind, ip); }
  }
}
