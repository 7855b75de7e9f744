/** The querier's packet reader on the cells that the writer left: it finds every header again, also a header in two
    cells, and every payload that is in one cell. Of a payload in two cells it finds exactly what was stored. */
module CellReader {
  import opened Basics
  import opened Bits
  import opened CellLayout
  import opened LittleEndian
  import opened CellWriter

  lemma EightBytes()
    ensures Pow2(8 * POINTER_LEN) == TWO64
  {
    EightBits(0);
    EightBits(1);
    EightBits(2);
    EightBits(3);
    EightBits(4);
    EightBits(5);
    EightBits(6);
    EightBits(7);
    assert Pow2(8 * 0) == 1;
  }

  /** How many bytes of the payload are on the disk: all of them, unless some but not all of them are before the pointer. */
  function Recoverable(g: Cells, p: Place): nat
    requires IsPlace(g, p)
  {
    var room := Room(g, p.offset);
    if !Spills(g, p) || room <= HEADER_LEN then |p.packet.payload|
    else Max(room - HEADER_LEN, Length(p.packet) - room)
  }

  /** The whole payload can be found exactly if it is not split. */
  lemma RecoverableIff(g: Cells, p: Place)
    requires IsPlace(g, p)
    ensures Recoverable(g, p) <= |p.packet.payload|
    ensures Recoverable(g, p) == |p.packet.payload| <==> !(Spills(g, p) && Room(g, p.offset) > HEADER_LEN)
  {}

  /** The other bytes are lost: the disk is the same for payloads that differ only there. */
  lemma RestIsLost(g: Cells, disk: seq<byte>, p: Place, q: Place)
    requires IsPlace(g, p) && |disk| == DiskBytes(g)
    requires q == p.(packet := Packet(p.packet.header, q.packet.payload)) && |q.packet.payload| == |p.packet.payload|
    requires forall k: nat :: k < Recoverable(g, p) ==> p.packet.payload[k] == q.packet.payload[k]
    ensures AfterPacket(g, disk, p) == AfterPacket(g, disk, q)
  {
    var room := Room(g, p.offset);
    if Recoverable(g, p) == |p.packet.payload| { assert p.packet.payload == q.packet.payload; }
    assert Stored(p.packet, room) == Stored(q.packet, room);
  }

  /** Reads one cell. */
  function ReadCell(g: Cells, disk: seq<byte>, cell: nat): (r: seq<byte>)
    requires |disk| == DiskBytes(g) && cell < g.count
    ensures |r| == g.size
  {
    CellFits(g, cell);
    disk[CellStart(g, cell)..CellStart(g, cell) + g.size]
  }

  lemma PlaceOfOffset(g: Cells, p: Place)
    requires IsPlace(g, p)
    ensures (CellStart(g, p.cell) + p.offset) / g.size == p.cell && (CellStart(g, p.cell) + p.offset) % g.size == p.offset
  {
    CellStartIs(g, p.cell);
    DivModUnique(CellStart(g, p.cell) + p.offset, g.size, p.cell, p.offset);
  }

  /** The pointer read back. */
  lemma PointerReadsBack(g: Cells, disk: seq<byte>, p: Place)
    requires |disk| == DiskBytes(g) && IsPlace(g, p) && Kept(g, disk, p) && Spills(g, p) && g.count <= TWO64
    ensures Number(ReadCell(g, disk, p.cell)[g.size - POINTER_LEN..]) == p.next
  {
    CellFits(g, p.cell);
    var tail := ReadCell(g, disk, p.cell)[g.size - POINTER_LEN..];
    forall k: nat | k < POINTER_LEN ensures tail[k] == Word(p.next, POINTER_LEN)[k] { assert PointerKept(g, disk, p, k); }
    assert tail == Word(p.next, POINTER_LEN);
    EightBytes();
    WordReadsBack(p.next, POINTER_LEN);
  }

  lemma HeaderInCell(g: Cells, disk: seq<byte>, p: Place)
    requires |disk| == DiskBytes(g) && IsPlace(g, p) && Kept(g, disk, p) && Room(g, p.offset) >= HEADER_LEN
    ensures ReadCell(g, disk, p.cell)[p.offset..p.offset + HEADER_LEN] == p.packet.header
  {
    CellFits(g, p.cell);
    forall k: nat | k < HEADER_LEN ensures ReadCell(g, disk, p.cell)[p.offset + k] == p.packet.header[k] {
      assert ByteKept(g, disk, p, k);
    }
  }

  lemma PayloadInCell(g: Cells, disk: seq<byte>, p: Place)
    requires |disk| == DiskBytes(g) && IsPlace(g, p) && Kept(g, disk, p) && !Spills(g, p)
    ensures ReadCell(g, disk, p.cell)[p.offset + HEADER_LEN..p.offset + Length(p.packet)] == p.packet.payload
  {
    CellFits(g, p.cell);
    forall k: nat | k < |p.packet.payload| ensures ReadCell(g, disk, p.cell)[p.offset + HEADER_LEN + k] == p.packet.payload[k] {
      assert ByteKept(g, disk, p, HEADER_LEN + k);
    }
  }

  lemma HeaderInTwo(g: Cells, disk: seq<byte>, p: Place)
    requires |disk| == DiskBytes(g) && IsPlace(g, p) && Kept(g, disk, p) && Room(g, p.offset) < HEADER_LEN
    ensures var room := Room(g, p.offset);
            ReadCell(g, disk, p.cell)[p.offset..p.offset + room] + ReadCell(g, disk, p.next)[..HEADER_LEN - room] == p.packet.header
  {
    CellFits(g, p.cell);
    CellFits(g, p.next);
    var room := Room(g, p.offset);
    forall k: nat | k < HEADER_LEN
      ensures p.packet.header[k] == if k < room then ReadCell(g, disk, p.cell)[p.offset + k] else ReadCell(g, disk, p.next)[k - room]
    {
      assert ByteKept(g, disk, p, k);
    }
  }

  lemma PayloadInNext(g: Cells, disk: seq<byte>, p: Place)
    requires |disk| == DiskBytes(g) && IsPlace(g, p) && Kept(g, disk, p) && Room(g, p.offset) < HEADER_LEN
    ensures var from := HEADER_LEN - Room(g, p.offset);
            ReadCell(g, disk, p.next)[from..from + |p.packet.payload|] == p.packet.payload
  {
    CellFits(g, p.next);
    var from := HEADER_LEN - Room(g, p.offset);
    forall k: nat | k < |p.packet.payload| ensures ReadCell(g, disk, p.next)[from + k] == p.packet.payload[k] {
      assert ByteKept(g, disk, p, HEADER_LEN + k);
    }
  }

  /** A split payload: its begin before the pointer, and its begin again in the next cell. */
  lemma PayloadInTwo(g: Cells, disk: seq<byte>, p: Place)
    requires |disk| == DiskBytes(g) && IsPlace(g, p) && Kept(g, disk, p) && Spills(g, p) && Room(g, p.offset) >= HEADER_LEN
    ensures var room, payload := Room(g, p.offset), p.packet.payload;
      && ReadCell(g, disk, p.cell)[p.offset + HEADER_LEN..p.offset + room] == payload[..room - HEADER_LEN]
      && ReadCell(g, disk, p.next)[..Length(p.packet) - room] == payload[..Length(p.packet) - room]
  {
    CellFits(g, p.cell);
    CellFits(g, p.next);
    var room, payload := Room(g, p.offset), p.packet.payload;
    forall k: nat | k < room - HEADER_LEN ensures ReadCell(g, disk, p.cell)[p.offset + HEADER_LEN + k] == payload[k] {
      assert ByteKept(g, disk, p, HEADER_LEN + k);
    }
    forall k: nat | k < Length(p.packet) - room ensures ReadCell(g, disk, p.next)[k] == payload[k] {
      assert ByteKept(g, disk, p, room + k);
    }
  }

  /** Reads the packet at an offset; `p` is where it was put. */
  method ReadPacket(g: Cells, disk: seq<byte>, offset: nat, ghost p: Place) returns (header: seq<byte>, packet: seq<byte>)
    requires |disk| == DiskBytes(g) && IsPlace(g, p) && Kept(g, disk, p) && g.count <= TWO64
    requires offset == CellStart(g, p.cell) + p.offset && CapLen(p.packet.header) == |p.packet.payload|
    ensures header == p.packet.header && |packet| == |p.packet.payload|
    ensures forall k: nat :: k < Recoverable(g, p) ==> packet[k] == p.packet.payload[k]
  {
    PlaceOfOffset(g, p);
    var cellPos, cellId := offset % g.size, offset / g.size;
    var cell := ReadCell(g, disk, cellId);
    if cellPos + HEADER_LEN + POINTER_LEN > g.size {
      PointerReadsBack(g, disk, p);
      header, packet := ReadSplitHeader(g, disk, cell, cellPos, p);
      return;
    }
    HeaderInCell(g, disk, p);
    header := cell[cellPos..cellPos + HEADER_LEN];
    var packetLen := CapLen(header);
    if cellPos + HEADER_LEN + POINTER_LEN + packetLen > g.size {
      PointerReadsBack(g, disk, p);
      var cellTail := Number(cell[g.size - POINTER_LEN..]);
      var tmpLen := g.size - cellPos - POINTER_LEN - HEADER_LEN;
      var next := ReadCell(g, disk, cellTail);
      PayloadInTwo(g, disk, p);
      packet := CopyOver(cell[cellPos + HEADER_LEN..cellPos + HEADER_LEN + tmpLen], next[..packetLen - tmpLen], packetLen, p.packet.payload);
    } else {
      PayloadInCell(g, disk, p);
      packet := cell[cellPos + HEADER_LEN..cellPos + HEADER_LEN + packetLen];
    }
  }

  /** The header's begin is before the pointer, the rest and the payload are in the next cell. */
  method ReadSplitHeader(g: Cells, disk: seq<byte>, cell: seq<byte>, cellPos: nat, ghost p: Place) returns (header: seq<byte>, packet: seq<byte>)
    requires |disk| == DiskBytes(g) && IsPlace(g, p) && Kept(g, disk, p) && Room(g, p.offset) < HEADER_LEN
    requires cell == ReadCell(g, disk, p.cell) && cellPos == p.offset && CapLen(p.packet.header) == |p.packet.payload|
    requires Number(cell[g.size - POINTER_LEN..]) == p.next
    ensures header == p.packet.header && packet == p.packet.payload
  {
    var cellTail := Number(cell[g.size - POINTER_LEN..]);
    var tmpLen := g.size - cellPos - POINTER_LEN;
    var next := ReadCell(g, disk, cellTail);
    HeaderInTwo(g, disk, p);
    PayloadInNext(g, disk, p);
    header := cell[cellPos..cellPos + tmpLen] + next[..HEADER_LEN - tmpLen];
    var packetLen := CapLen(header);
    packet := next[HEADER_LEN - tmpLen..HEADER_LEN - tmpLen + packetLen];
  }

  /** A new buffer with both pieces copied to its begin, the second over the first; both begin like `data`. */
  method CopyOver(first: seq<byte>, second: seq<byte>, len: nat, ghost data: seq<byte>) returns (r: seq<byte>)
    requires |first| <= len == |data| && |second| <= len
    requires first == data[..|first|] && second == data[..|second|]
    ensures |r| == len
    ensures forall k: nat :: k < Max(|first|, |second|) ==> r[k] == data[k]
  {
    var buffer := new byte[len];
    for k := 0 to |first|
      invariant forall j: nat :: j < k ==> buffer[j] == data[j]
    {
      buffer[k] := first[k];
    }
    for k := 0 to |second|
      invariant forall j: nat :: j < k || j < |first| ==> buffer[j] == data[j]
    {
      buffer[k] := second[k];
    }
    r := buffer[..];
  }

  /** Every packet that the writer has taken can be read from its offset. */
  method ReadCaptured(w: DPDKReader, offset: nat, ghost m: nat) returns (header: seq<byte>, packet: seq<byte>)
    requires w.Valid() && m < |w.places| && w.cells.count <= TWO64
    requires offset == CellStart(w.cells, w.places[m].cell) + w.places[m].offset
    requires CapLen(w.places[m].packet.header) == |w.places[m].packet.payload|
    ensures header == w.places[m].packet.header && |packet| == |w.places[m].packet.payload|
    ensures forall k: nat :: k < Recoverable(w.cells, w.places[m]) ==> packet[k] == w.places[m].packet.payload[k]
  {
    header, packet := ReadPacket(w.cells, w.disk[..], offset, w.places[m]);
  }
}
