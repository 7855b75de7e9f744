/** How a packet reader lays packets out in cells: one after the other, the last eight bytes of a full cell naming
    the next one. The pure part: places of packets, what the disk holds of them, and that the places tile the cells. */
module CellLayout {
  import opened Basics
  import opened Bits
  import opened LittleEndian

  const HEADER_LEN: nat := 16
  const POINTER_LEN: nat := 8

  /** Bytes per cell and cells on the disk. */
  datatype Cells = Cells(size: nat, count: nat)

  datatype Packet = Packet(header: seq<byte>, payload: seq<byte>)

  /** A packet begins in `cell` at `offset`; if the cell has too little room the rest is in `next`. */
  datatype Place = Place(cell: nat, offset: nat, next: nat, packet: Packet)

  /** The captured length in a packet header. */
  function CapLen(header: seq<byte>): nat
    requires |header| == HEADER_LEN
  {
    Number(header[8..12])
  }

  /** A header as its four fields of four bytes. */
  function Header(tsH: nat, tsL: nat, capLen: nat, flowNextDiff: nat): (h: seq<byte>)
    ensures |h| == HEADER_LEN
  {
    Word(tsH, 4) + Word(tsL, 4) + Word(capLen, 4) + Word(flowNextDiff, 4)
  }

  /** The captured length is the third field. */
  lemma CapLenIsField(tsH: nat, tsL: nat, capLen: nat, flowNextDiff: nat)
    requires capLen < 0x1_0000_0000
    ensures CapLen(Header(tsH, tsL, capLen, flowNextDiff)) == capLen
  {
    assert Header(tsH, tsL, capLen, flowNextDiff)[8..12] == Word(capLen, 4);
    EightBits(0);
    EightBits(1);
    EightBits(2);
    EightBits(3);
    assert Pow2(8 * 0) == 1;
    WordReadsBack(capLen, 4);
  }

  // ---------- positions ----------

  /** Where a cell begins: `size` bytes per cell before it. */
  function CellStart(g: Cells, cell: nat): nat {
    if cell == 0 then 0 else CellStart(g, cell - 1) + g.size
  }

  lemma {:induction false} CellStartIs(g: Cells, cell: nat)
    ensures CellStart(g, cell) == cell * g.size
  {
    if cell > 0 {
      CellStartIs(g, cell - 1);
      assert cell * g.size == (cell - 1) * g.size + g.size;
    }
  }

  function DiskBytes(g: Cells): nat {
    CellStart(g, g.count)
  }

  lemma {:induction false} CellsInOrder(g: Cells, c: nat, d: nat)
    requires c < d
    ensures CellStart(g, c) + g.size <= CellStart(g, d)
  {
    if c < d - 1 { CellsInOrder(g, c, d - 1); }
  }

  lemma CellFits(g: Cells, cell: nat)
    requires cell < g.count
    ensures CellStart(g, cell) + g.size <= DiskBytes(g)
  {
    CellsInOrder(g, cell, g.count);
  }

  function Length(p: Packet): nat {
    HEADER_LEN + |p.payload|
  }

  /** Bytes left in the cell before its pointer. */
  function Room(g: Cells, offset: nat): nat
    requires offset + POINTER_LEN <= g.size
  {
    g.size - offset - POINTER_LEN
  }

  predicate IsPlace(g: Cells, p: Place) {
    && p.cell < g.count && p.next < g.count && p.offset + POINTER_LEN <= g.size
    && |p.packet.header| == HEADER_LEN && Length(p.packet) + POINTER_LEN <= g.size
  }

  predicate Spills(g: Cells, p: Place)
    requires IsPlace(g, p)
  {
    Length(p.packet) > Room(g, p.offset)
  }

  // ---------- what is stored ----------

  /** What the writer stores of a packet, as one string: a payload that is split begins anew in the next cell. */
  function Stored(p: Packet, room: nat): (s: seq<byte>)
    requires |p.header| == HEADER_LEN
    ensures |s| == Length(p)
  {
    if room < HEADER_LEN || Length(p) <= room then p.header + p.payload
    else p.header + p.payload[..room - HEADER_LEN] + p.payload[..Length(p) - room]
  }

  /** Where byte j of the stored string lies. */
  function ByteAt(g: Cells, p: Place, j: nat): (i: nat)
    requires IsPlace(g, p) && j < Length(p.packet)
    ensures i < DiskBytes(g)
  {
    CellFits(g, p.cell);
    CellFits(g, p.next);
    var room := Room(g, p.offset);
    if j < room then CellStart(g, p.cell) + p.offset + j else CellStart(g, p.next) + j - room
  }

  function PointerAt(g: Cells, p: Place, k: nat): (i: nat)
    requires IsPlace(g, p) && k < POINTER_LEN
    ensures i < DiskBytes(g)
  {
    CellFits(g, p.cell);
    CellStart(g, p.cell) + g.size - POINTER_LEN + k
  }

  ghost predicate ByteKept(g: Cells, disk: seq<byte>, p: Place, j: nat)
    requires |disk| == DiskBytes(g) && IsPlace(g, p) && j < Length(p.packet)
  {
    disk[ByteAt(g, p, j)] == Stored(p.packet, Room(g, p.offset))[j]
  }

  ghost predicate PointerKept(g: Cells, disk: seq<byte>, p: Place, k: nat)
    requires |disk| == DiskBytes(g) && IsPlace(g, p) && k < POINTER_LEN
  {
    disk[PointerAt(g, p, k)] == Word(p.next, POINTER_LEN)[k]
  }

  /** The disk holds the packet, and the pointer if there is a rest. */
  ghost predicate Kept(g: Cells, disk: seq<byte>, p: Place)
    requires |disk| == DiskBytes(g) && IsPlace(g, p)
  {
    && (forall j: nat :: j < Length(p.packet) ==> ByteKept(g, disk, p, j))
    && (Spills(g, p) ==> forall k: nat :: k < POINTER_LEN ==> PointerKept(g, disk, p, k))
  }

  // ---------- one packet after the other ----------

  /** The cells the first n packets went to, and the cell and offset where the next one begins. */
  function CellsOf(g: Cells, first: nat, places: seq<Place>, n: nat): (cells: seq<nat>)
    requires n <= |places|
    requires forall m: nat :: m < n ==> IsPlace(g, places[m])
    ensures |cells| > 0
  {
    if n == 0 then [first]
    else CellsOf(g, first, places, n - 1) + if Spills(g, places[n - 1]) then [places[n - 1].next] else []
  }

  function EndCell(g: Cells, first: nat, places: seq<Place>, n: nat): nat
    requires n <= |places|
    requires forall m: nat :: m < n ==> IsPlace(g, places[m])
  {
    if n == 0 then first else if Spills(g, places[n - 1]) then places[n - 1].next else places[n - 1].cell
  }

  function EndOffset(g: Cells, places: seq<Place>, n: nat): nat
    requires n <= |places|
    requires forall m: nat :: m < n ==> IsPlace(g, places[m])
  {
    if n == 0 then 0
    else
      var p := places[n - 1];
      if Spills(g, p) then Length(p.packet) - Room(g, p.offset) else p.offset + Length(p.packet)
  }

  /** Packet n begins where the one before it ends, and takes a cell that was not taken before. */
  ghost predicate Follows(g: Cells, first: nat, places: seq<Place>, n: nat)
    requires n < |places|
    requires forall m: nat :: m <= n ==> IsPlace(g, places[m])
  {
    && places[n].cell == EndCell(g, first, places, n) && places[n].offset == EndOffset(g, places, n)
    && (Spills(g, places[n]) ==> places[n].next !in CellsOf(g, first, places, n))
  }

  ghost predicate Sequential(g: Cells, first: nat, places: seq<Place>) {
    && (forall m: nat :: m < |places| ==> IsPlace(g, places[m]))
    && (forall n: nat :: n < |places| ==> Follows(g, first, places, n))
  }

  lemma {:induction false} EndIsTaken(g: Cells, first: nat, places: seq<Place>, n: nat)
    requires Sequential(g, first, places) && n <= |places|
    ensures EndCell(g, first, places, n) in CellsOf(g, first, places, n)
  {
    if n > 0 {
      assert Follows(g, first, places, n - 1);
      EndIsTaken(g, first, places, n - 1);
    }
  }

  lemma EndFits(g: Cells, first: nat, places: seq<Place>, n: nat)
    requires Sequential(g, first, places) && n <= |places| && POINTER_LEN <= g.size
    ensures EndOffset(g, places, n) + POINTER_LEN <= g.size
  {
    if n > 0 { assert Follows(g, first, places, n - 1); }
  }

  // ---------- no gap, no overlap ----------

  /** Byte x of a cell belongs to the packet. */
  predicate Covers(g: Cells, p: Place, cell: nat, x: nat)
    requires IsPlace(g, p)
  {
    || (cell == p.cell && p.offset <= x < p.offset + Length(p.packet) && x < g.size - POINTER_LEN)
    || (Spills(g, p) && cell == p.next && x < Length(p.packet) - Room(g, p.offset))
  }

  /** How many of the first n packets byte x of a cell belongs to. */
  function Coverage(g: Cells, places: seq<Place>, n: nat, cell: nat, x: nat): nat
    requires n <= |places|
    requires forall m: nat :: m < n ==> IsPlace(g, places[m])
  {
    if n == 0 then 0 else Coverage(g, places, n - 1, cell, x) + if Covers(g, places[n - 1], cell, x) then 1 else 0
  }

  /** The writer has passed byte x of a cell: up to the pointer in full cells, up to the next packet in the last one. */
  predicate Passed(g: Cells, first: nat, places: seq<Place>, n: nat, cell: nat, x: nat)
    requires n <= |places|
    requires forall m: nat :: m < n ==> IsPlace(g, places[m])
  {
    && cell in CellsOf(g, first, places, n)
    && (if cell == EndCell(g, first, places, n) then x < EndOffset(g, places, n) else x < g.size - POINTER_LEN)
  }

  /** Every byte passed belongs to exactly one packet, every other byte to none. */
  lemma {:induction false} PlacesTile(g: Cells, first: nat, places: seq<Place>, n: nat, cell: nat, x: nat)
    requires Sequential(g, first, places) && n <= |places|
    ensures Coverage(g, places, n, cell, x) == if Passed(g, first, places, n, cell, x) then 1 else 0
  {
    if n > 0 {
      PlacesTile(g, first, places, n - 1, cell, x);
      assert Follows(g, first, places, n - 1);
      EndIsTaken(g, first, places, n - 1);
    }
  }
}
