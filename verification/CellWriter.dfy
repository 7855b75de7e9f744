/** The packet reader's writer: takes a place for every packet, and writes the packet in pieces, with a pointer to
    the next cell where one is full. After every packet the disk holds all of them. */
module CellWriter {
  import opened Basics
  import opened Bits
  import opened ModArith
  import opened CellLayout
  import opened LittleEndian

  // ---------- the disk after a packet ----------

  /** Two ranges of the disk have no byte in common. */
  predicate Apart(at: nat, n: nat, next: nat, m: nat) {
    at + n <= next || next + m <= at
  }

  /** Byte i of the disk after a string is stored: into the room at `at`, a pointer behind it, the rest at `next`. */
  function ByteAfter(disk: seq<byte>, at: nat, stored: seq<byte>, room: nat, next: nat, pointer: seq<byte>, i: nat): byte
    requires i < |disk|
  {
    if at <= i < at + room && i < at + |stored| then stored[i - at]
    else if room >= |stored| then disk[i]
    else if at + room <= i < at + room + |pointer| then pointer[i - at - room]
    else if next <= i < next + |stored| - room then stored[i - next + room]
    else disk[i]
  }

  /** The disk after the writes for a packet. */
  function AfterPacket(g: Cells, disk: seq<byte>, p: Place): (r: seq<byte>)
    requires IsPlace(g, p) && |disk| == DiskBytes(g)
    ensures |r| == |disk|
    ensures forall i: nat :: i < |disk| ==> r[i] == ByteAfterPacket(g, disk, p, i)
  {
    seq(|disk|, i requires 0 <= i < |disk| => ByteAfterPacket(g, disk, p, i))
  }

  function ByteAfterPacket(g: Cells, disk: seq<byte>, p: Place, i: nat): byte
    requires IsPlace(g, p) && i < |disk|
  {
    var room := Room(g, p.offset);
    ByteAfter(disk, CellStart(g, p.cell) + p.offset, Stored(p.packet, room), room, CellStart(g, p.next), Word(p.next, POINTER_LEN), i)
  }

  // ---------- packets stay ----------

  /** Not where the packet goes: before it in its cell, or in a cell it does not use. */
  ghost predicate Untouched(g: Cells, p: Place, cell: nat, x: nat)
    requires IsPlace(g, p)
  {
    !(cell == p.cell && p.offset <= x) && !(Spills(g, p) && cell == p.next)
  }

  lemma KeepsByte(g: Cells, disk: seq<byte>, p: Place, cell: nat, x: nat)
    requires IsPlace(g, p) && |disk| == DiskBytes(g) && cell < g.count && x < g.size && (Spills(g, p) ==> p.next != p.cell)
    requires Untouched(g, p, cell, x)
    ensures CellStart(g, cell) + x < DiskBytes(g)
    ensures AfterPacket(g, disk, p)[CellStart(g, cell) + x] == disk[CellStart(g, cell) + x]
  {
    CellFits(g, cell);
    var i := CellStart(g, cell) + x;
    if cell < p.cell { CellsInOrder(g, cell, p.cell); }
    if p.cell < cell { CellsInOrder(g, p.cell, cell); }
    if cell < p.next { CellsInOrder(g, cell, p.next); }
    if p.next < cell { CellsInOrder(g, p.next, cell); }
  }

  /** A packet just written can be found at its place. */
  lemma PacketIsKept(g: Cells, disk: seq<byte>, p: Place)
    requires IsPlace(g, p) && |disk| == DiskBytes(g) && (Spills(g, p) ==> p.next != p.cell)
    ensures Kept(g, AfterPacket(g, disk, p), p)
  {
    var after := AfterPacket(g, disk, p);
    if p.cell < p.next { CellsInOrder(g, p.cell, p.next); }
    if p.next < p.cell { CellsInOrder(g, p.next, p.cell); }
    forall j: nat | j < Length(p.packet) ensures ByteKept(g, after, p, j) { CellFits(g, p.cell); CellFits(g, p.next); }
    if Spills(g, p) {
      forall k: nat | k < POINTER_LEN ensures PointerKept(g, after, p, k) { CellFits(g, p.cell); }
    }
  }

  /** All packets so far lie where the next packet does not go. */
  lemma {:induction false} EarlierCells(g: Cells, first: nat, places: seq<Place>, m: nat, n: nat)
    requires Sequential(g, first, places) && m < n <= |places|
    ensures places[m].cell in CellsOf(g, first, places, n)
    ensures Spills(g, places[m]) ==> places[m].next in CellsOf(g, first, places, n) && places[m].cell != EndCell(g, first, places, n)
    ensures var p := places[m];
            if Spills(g, p) then p.next == EndCell(g, first, places, n) ==> Length(p.packet) - Room(g, p.offset) <= EndOffset(g, places, n)
            else p.cell == EndCell(g, first, places, n) ==> p.offset + Length(p.packet) <= EndOffset(g, places, n)
    decreases n
  {
    var last := places[n - 1];
    assert Follows(g, first, places, n - 1);
    EndIsTaken(g, first, places, n - 1);
    if m < n - 1 { EarlierCells(g, first, places, m, n - 1); }
  }

  /** A new packet leaves the packets before it. */
  lemma EarlierIsKept(g: Cells, disk: seq<byte>, first: nat, places: seq<Place>, m: nat, n: nat)
    requires Sequential(g, first, places) && m < n < |places| && |disk| == DiskBytes(g)
    requires Kept(g, disk, places[m])
    ensures Kept(g, AfterPacket(g, disk, places[n]), places[m])
  {
    var p, q, after := places[m], places[n], AfterPacket(g, disk, places[n]);
    EarlierCells(g, first, places, m, n);
    EndIsTaken(g, first, places, n);
    assert Follows(g, first, places, n);
    var room := Room(g, p.offset);
    forall j: nat | j < Length(p.packet) ensures ByteKept(g, after, p, j) {
      assert ByteKept(g, disk, p, j);
      if j < room { KeepsByte(g, disk, q, p.cell, p.offset + j); } else { KeepsByte(g, disk, q, p.next, j - room); }
    }
    if Spills(g, p) {
      forall k: nat | k < POINTER_LEN ensures PointerKept(g, after, p, k) {
        assert PointerKept(g, disk, p, k);
        KeepsByte(g, disk, q, p.cell, g.size - POINTER_LEN + k);
      }
    }
  }

  ghost predicate AllKept(g: Cells, disk: seq<byte>, first: nat, places: seq<Place>)
    requires |disk| == DiskBytes(g) && Sequential(g, first, places)
  {
    forall m: nat :: m < |places| ==> Kept(g, disk, places[m])
  }

  lemma {:induction false} SameStart(g: Cells, first: nat, places: seq<Place>, p: Place, n: nat)
    requires n <= |places| && IsPlace(g, p) && forall m: nat :: m < |places| ==> IsPlace(g, places[m])
    ensures CellsOf(g, first, places + [p], n) == CellsOf(g, first, places, n)
    ensures EndCell(g, first, places + [p], n) == EndCell(g, first, places, n)
    ensures EndOffset(g, places + [p], n) == EndOffset(g, places, n)
  {
    if n > 0 { SameStart(g, first, places, p, n - 1); }
  }

  /** The next packet joins the places, and everything is on the disk. */
  lemma OneMoreKept(g: Cells, disk: seq<byte>, first: nat, places: seq<Place>, p: Place)
    requires |disk| == DiskBytes(g) && Sequential(g, first, places) && AllKept(g, disk, first, places) && IsPlace(g, p)
    requires p.cell == EndCell(g, first, places, |places|) && p.offset == EndOffset(g, places, |places|)
    requires Spills(g, p) ==> p.next !in CellsOf(g, first, places, |places|)
    ensures Sequential(g, first, places + [p]) && AllKept(g, AfterPacket(g, disk, p), first, places + [p])
  {
    var all, n := places + [p], |places|;
    forall m: nat | m < |all| ensures Follows(g, first, all, m) {
      SameStart(g, first, places, p, m);
      if m < n { assert Follows(g, first, places, m); }
    }
    EndIsTaken(g, first, places, n);
    PacketIsKept(g, disk, p);
    forall m: nat | m < |all| ensures Kept(g, AfterPacket(g, disk, p), all[m]) {
      if m < n { EarlierIsKept(g, disk, first, all, m, n); }
    }
  }

  lemma OffsetInCell(g: Cells, cell: nat, offset: nat)
    requires offset < g.size
    ensures (CellStart(g, cell) + offset) % g.size == offset
  {
    CellStartIs(g, cell);
    DivModUnique(CellStart(g, cell) + offset, g.size, cell, offset);
  }

  // ---------- the writer ----------

  class DPDKReader {
    const cells: Cells
    const disk: array<byte>
    var writeCell: nat
    var writeOffset: nat
    /** The first cell, and the places of all packets so far. */
    ghost const first: nat
    ghost var places: seq<Place>

    ghost predicate Valid()
      reads this, disk
    {
      && disk.Length == DiskBytes(cells) && writeCell < cells.count && POINTER_LEN <= cells.size
      && Sequential(cells, first, places) && AllKept(cells, disk[..], first, places)
      && writeCell == EndCell(cells, first, places, |places|) && writeOffset == EndOffset(cells, places, |places|)
    }

    constructor (cells: Cells, disk: array<byte>, cell: nat)
      requires disk.Length == DiskBytes(cells) && cell < cells.count && POINTER_LEN <= cells.size
      ensures Valid() && this.cells == cells && this.disk == disk && first == cell && places == []
    {
      this.cells, this.disk, this.writeCell, this.writeOffset := cells, disk, cell, 0;
      this.first, this.places := cell, [];
    }

    /** `writeBlock` once it is accepted. */
    method Put(data: seq<byte>, at: nat)
      requires at + |data| <= disk.Length
      modifies disk
      ensures forall i: nat :: i < disk.Length ==> disk[i] == if at <= i < at + |data| then data[i - at] else old(disk[..])[i]
    {
      for n := 0 to |data|
        invariant forall i: nat :: i < disk.Length ==> disk[i] == if at <= i < at + n then data[i - at] else old(disk[..])[i]
      {
        disk[at + n] := data[n];
      }
    }

    /** Where the packet goes. Adds the pointer's length if the packet reaches into it. */
    method GetOffset(len: nat) returns (offset: nat)
      requires writeCell < cells.count && writeOffset + POINTER_LEN <= cells.size
      modifies `writeOffset
      ensures offset == CellStart(cells, writeCell) + old(writeOffset)
      ensures writeOffset == old(writeOffset) + HEADER_LEN + len
              + if old(writeOffset) + HEADER_LEN + len + POINTER_LEN > cells.size then POINTER_LEN else 0
    {
      CellStartIs(cells, writeCell);
      CellStartIs(cells, cells.count);
      var totalLen := HEADER_LEN + len;
      offset := writeOffset + writeCell * cells.size;
      writeOffset := writeOffset + totalLen;
      if writeOffset + POINTER_LEN > cells.size { writeOffset := writeOffset + POINTER_LEN; }
      CellFits(cells, writeCell);
      ModSmall(offset, DiskBytes(cells));
      offset := offset % (cells.count * cells.size);
    }

    /** Writes the packet; `fetched` is the next value of the shared cell counter. */
    method WritePacketToPacketBuffer(header: seq<byte>, data: seq<byte>, offset: nat, fetched: nat, ghost p: Place)
      requires disk.Length == DiskBytes(cells) && IsPlace(cells, p) && p.packet == Packet(header, data)
      requires Spills(cells, p) ==> p.next != p.cell
      requires p.cell == writeCell && offset == CellStart(cells, writeCell) + p.offset && p.next == fetched % cells.count
      requires writeOffset == p.offset + Length(p.packet) + if Spills(cells, p) then POINTER_LEN else 0
      modifies disk, `writeCell, `writeOffset
      ensures disk[..] == AfterPacket(cells, old(disk[..]), p)
      ensures writeCell == if Spills(cells, p) then p.next else p.cell
      ensures writeOffset == if Spills(cells, p) then Length(p.packet) - Room(cells, p.offset) else p.offset + Length(p.packet)
    {
      CellFits(cells, p.cell);
      CellFits(cells, p.next);
      if writeOffset > cells.size {
        writeCell := fetched % cells.count;
        WrapIsMod(writeOffset, cells.size);
        writeOffset := writeOffset % cells.size;
        OffsetInCell(cells, p.cell, p.offset);
        var basicOffset := offset % cells.size;
        var room := cells.size - basicOffset - POINTER_LEN;
        CellStartIs(cells, writeCell);
        var newOffset := writeCell * cells.size;
        CellsInOrder(cells, if p.cell < p.next then p.cell else p.next, if p.cell < p.next then p.next else p.cell);
        if HEADER_LEN > room {
          WriteSplitHeader(header, data, offset, room, newOffset, writeCell);
          return;
        }
        WriteSplitPayload(header, data, offset, room, newOffset, writeCell);
        return;
      }
      WriteWhole(header, data, offset);
    }

    method WriteWhole(header: seq<byte>, data: seq<byte>, offset: nat)
      requires |header| == HEADER_LEN && offset + HEADER_LEN + |data| <= disk.Length
      modifies disk
      ensures forall i: nat :: i < disk.Length ==>
        disk[i] == if offset <= i < offset + HEADER_LEN + |data| then (header + data)[i - offset] else old(disk[..])[i]
    {
      Put(header, offset);
      Put(data, offset + HEADER_LEN);
    }

    /** The header does not fit: its rest and the payload go to the next cell. */
    method WriteSplitHeader(header: seq<byte>, data: seq<byte>, offset: nat, room: nat, newOffset: nat, nextPos: nat)
      requires room < |header| == HEADER_LEN && offset + room + POINTER_LEN <= disk.Length
      requires newOffset + HEADER_LEN + |data| - room <= disk.Length
      requires Apart(offset, room + POINTER_LEN, newOffset, HEADER_LEN + |data| - room)
      modifies disk
      ensures forall i: nat :: i < disk.Length ==>
        disk[i] == ByteAfter(old(disk[..]), offset, Stored(Packet(header, data), room), room, newOffset, Word(nextPos, POINTER_LEN), i)
    {
      var pointer := Word(nextPos, POINTER_LEN);
      if room != 0 { Put(header[..room], offset); }
      Put(pointer, offset + room);
      if room == 0 { Put(header, newOffset); } else { Put(header[room..], newOffset); }
      Put(data, newOffset + HEADER_LEN - room);
    }

    /** The header fits: what the cell has room for of the payload, then the payload from its begin in the next cell. */
    method WriteSplitPayload(header: seq<byte>, data: seq<byte>, offset: nat, room: nat, newOffset: nat, nextPos: nat)
      requires |header| == HEADER_LEN <= room < HEADER_LEN + |data| && offset + room + POINTER_LEN <= disk.Length
      requires newOffset + HEADER_LEN + |data| - room <= disk.Length
      requires Apart(offset, room + POINTER_LEN, newOffset, HEADER_LEN + |data| - room)
      modifies disk
      ensures forall i: nat :: i < disk.Length ==>
        disk[i] == ByteAfter(old(disk[..]), offset, Stored(Packet(header, data), room), room, newOffset, Word(nextPos, POINTER_LEN), i)
    {
      var pointer := Word(nextPos, POINTER_LEN);
      Put(header, offset);
      if room > HEADER_LEN { Put(data[..room - HEADER_LEN], offset + HEADER_LEN); }
      Put(pointer, offset + room);
      Put(data[..|data| + HEADER_LEN - room], newOffset);
    }

    /** One packet: its place comes after the last one, and all packets are on the disk. */
    method Capture(header: seq<byte>, data: seq<byte>, fetched: nat) returns (offset: nat)
      requires Valid() && |header| == HEADER_LEN && HEADER_LEN + |data| + POINTER_LEN <= cells.size
      requires writeOffset + HEADER_LEN + |data| + POINTER_LEN > cells.size ==>
                 fetched % cells.count !in CellsOf(cells, first, places, |places|)
      modifies this, disk
      ensures Valid()
      ensures places == old(places) + [Place(old(writeCell), old(writeOffset), fetched % cells.count, Packet(header, data))]
      ensures offset == CellStart(cells, old(writeCell)) + old(writeOffset)
    {
      ghost var p := Place(writeCell, writeOffset, fetched % cells.count, Packet(header, data));
      EndFits(cells, first, places, |places|);
      EndIsTaken(cells, first, places, |places|);
      offset := GetOffset(|data|);
      WritePacketToPacketBuffer(header, data, offset, fetched, p);
      OneMoreKept(cells, old(disk[..]), first, places, p);
      places := places + [p];
    }
  }
}
