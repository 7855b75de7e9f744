/** The block buffer object. Every method changes its fields exactly as the corresponding
    function of `BlockRing` says, which is what the protocol proofs in `HandOff` are about. */
module DataBlocks {
  import opened Basics
  import opened Bits
  import opened BlockRing

  class DataBlockBuffer {
    const geo: Geometry
    var blockDiskId: array<nat>
    var packetCounts: array<nat>
    var bufferBlocks: array<byte>
    var diskWriteIds: seq<nat>
    var blockCheckIds: seq<nat>

    ghost predicate Valid()
      reads this, blockDiskId, packetCounts, bufferBlocks
    {
      && geo.Sound()
      && blockDiskId != packetCounts
      && Shaped(geo, View())
    }

    ghost function View(): Ring
      reads this, blockDiskId, packetCounts, bufferBlocks
    {
      Ring(blockDiskId[..], diskWriteIds, blockCheckIds, packetCounts[..], bufferBlocks[..])
    }

    /** Refuses a buffer size that is no power of two and a disk less than four rings long. */
    static method Open(slots: nat, blockSize: nat, diskBlocks: nat, writers: nat, delay: nat)
      returns (buf: DataBlockBuffer?)
      ensures buf != null <==> And(slots * blockSize, Decrement(slots * blockSize)) == 0 && slots * 4 < diskBlocks
      ensures buf != null ==> buf.geo == Geometry(slots, blockSize, diskBlocks, delay, writers) && fresh(buf)
      ensures buf != null && slots > 0 && blockSize > 0 ==>
                && buf.Valid()
                && buf.View() == FreshRing(buf.geo, 0).(published := [])
                && fresh(buf.blockDiskId) && fresh(buf.packetCounts) && fresh(buf.bufferBlocks)
    {
      var bufferSize := slots * blockSize;
      if And(bufferSize, Decrement(bufferSize)) != 0 || slots * 4 >= diskBlocks {
        return null;
      }
      buf := new DataBlockBuffer(Geometry(slots, blockSize, diskBlocks, delay, writers));
    }

    constructor (g: Geometry)
      ensures geo == g
      ensures diskWriteIds == [] && blockCheckIds == []
      ensures fresh(blockDiskId) && fresh(packetCounts) && fresh(bufferBlocks) && blockDiskId != packetCounts
      ensures blockDiskId[..] == seq(g.slots, i => i)
      ensures packetCounts[..] == seq(g.slots * g.writers, _ => 0)
      ensures bufferBlocks[..] == seq(g.RingBytes(), _ => 0)
    {
      geo := g;
      diskWriteIds, blockCheckIds := [], [];
      blockDiskId := new nat[g.slots](i => i);
      packetCounts := new nat[g.slots * g.writers](_ => 0);
      bufferBlocks := new byte[g.RingBytes()](_ => 0);
    }

    /** Writer ids are handed out in order, and the id itself is the writer's first published block. */
    method AddWriteThread() returns (id: Option<nat>)
      requires Valid()
      modifies this`diskWriteIds
      ensures Valid()
      ensures id == if |old(diskWriteIds)| >= geo.slots then None else Some(|old(diskWriteIds)|)
      ensures diskWriteIds == old(diskWriteIds) + (if id.Some? then [id.value] else [])
    {
      if |diskWriteIds| >= geo.slots { return None; }
      id := Some(|diskWriteIds|);
      diskWriteIds := diskWriteIds + [|diskWriteIds|];
    }

    method AddCheckThread() returns (id: Option<nat>)
      requires Valid()
      modifies this`blockCheckIds
      ensures Valid()
      ensures id == if |old(blockCheckIds)| >= geo.slots then None else Some(|old(blockCheckIds)|)
      ensures blockCheckIds == old(blockCheckIds) + (if id.Some? then [id.value] else [])
    {
      if |blockCheckIds| >= geo.slots { return None; }
      id := Some(|blockCheckIds|);
      blockCheckIds := blockCheckIds + [|blockCheckIds|];
    }

    /** memcpy of data[from..to] to position `at` of the ring memory. */
    method CopyIn(at: nat, data: seq<byte>, from: nat, to: nat)
      requires from <= to <= |data| && at + (to - from) <= bufferBlocks.Length
      modifies bufferBlocks
      ensures forall j :: 0 <= j < bufferBlocks.Length ==>
                bufferBlocks[j] == if at <= j < at + (to - from) then data[from + (j - at)] else old(bufferBlocks[j])
    {
      for k := from to to
        invariant forall j :: 0 <= j < bufferBlocks.Length ==>
                    bufferBlocks[j] == if at <= j < at + (k - from) then data[from + (j - at)] else old(bufferBlocks[j])
      {
        bufferBlocks[at + (k - from)] := data[k];
      }
    }

    /** Copies the data to ring position `at`, in two pieces when it passes the end of the ring. */
    method CopyRound(at: nat, data: seq<byte>)
      requires at < bufferBlocks.Length && |data| <= bufferBlocks.Length
      modifies bufferBlocks
      ensures bufferBlocks[..] == RingWrite(old(bufferBlocks[..]), at, data)
    {
      var n := bufferBlocks.Length;
      if at + |data| > n {
        var tmp := n - at;
        CopyIn(at, data, 0, tmp);
        CopyIn(0, data, tmp, |data|);
      } else {
        CopyIn(at, data, 0, |data|);
      }
    }

    /** Are the touched blocks resident, and which block id is to be published? */
    method Examine(pos: nat, len: nat) returns (verdict: Verdict)
      requires Valid()
      ensures verdict == Judge(geo, blockDiskId[..], pos, len)
    {
      var slot := pos / geo.blockSize % geo.slots;
      var disk := pos / geo.blockSize % geo.diskBlocks;
      if blockDiskId[slot] != disk { return Refused(disk); }
      if pos % geo.blockSize + len >= geo.blockSize {
        slot := (slot + 1) % geo.slots;
        disk := (disk + 1) % geo.diskBlocks;
        if blockDiskId[slot] != disk { return Refused(disk); }
      }
      return Accepted(disk);
    }

    /** Byte k of the data is in the ring, k places behind the disk position. */
    ghost predicate StoredAt(pos: nat, data: seq<byte>, k: nat)
      requires k < |data| && bufferBlocks.Length > 0
      reads this, bufferBlocks
    {
      bufferBlocks[(pos + k) % bufferBlocks.Length] == data[k]
    }

    /** Stores `data` at disk position `pos` if the blocks it touches are resident; publishes the
        writer's block either way. */
    method WriteBlock(data: seq<byte>, pos: nat, writer: nat, newData: bool, newIndex: bool) returns (ok: bool)
      requires Valid() && |data| <= geo.blockSize
      requires writer < |diskWriteIds| && writer < geo.writers
      modifies this`diskWriteIds, bufferBlocks, packetCounts
      ensures Valid()
      ensures (View(), ok) == WriteEffect(geo, old(View()), pos, data, writer, newData, newIndex)
      ensures ok ==> forall k: nat :: k < |data| ==> StoredAt(pos, data, k)
      ensures !newData ==> diskWriteIds == old(diskWriteIds) && packetCounts[..] == old(packetCounts[..])
    {
      BlockFits(geo);
      ghost var before := View();
      var verdict := Examine(pos, |data|);
      if newData { diskWriteIds := diskWriteIds[writer := verdict.publish]; }
      if verdict.Refused? { return false; }
      CopyRound(pos % geo.RingBytes(), data);
      assert blockDiskId[..] == before.diskId && packetCounts[..] == before.counts;
      if newData && newIndex {
        var c := CountAt(geo, pos / geo.blockSize % geo.slots, writer);
        packetCounts[c] := packetCounts[c] + 1;
        assert packetCounts[..] == before.counts[c := before.counts[c] + 1];
      }
      assert View() == WriteEffect(geo, before, pos, data, writer, newData, newIndex).0;
      forall k: nat | k < |data| ensures StoredAt(pos, data, k) {
        AcceptedIsStored(geo, before, pos, data, writer, newData, newIndex, k);
      }
      return true;
    }

    /** The checker's next slot, if every writer has left its barrier. */
    method CheckBlock(k: nat) returns (slot: Option<nat>)
      requires Valid() && k < |blockCheckIds| && geo.writers <= |diskWriteIds|
      ensures slot == if MayRelease(geo, View(), k) then Some(blockCheckIds[k]) else None
    {
      var c := blockCheckIds[k];
      for i := 0 to geo.writers
        invariant forall j :: 0 <= j < i ==> CheckRss(geo, blockDiskId[c], diskWriteIds[j])
      {
        if !CheckRss(geo, blockDiskId[c], diskWriteIds[i]) { return None; }
      }
      return Some(c);
    }

    method CountIndexes(slot: nat) returns (count: nat)
      requires Valid() && slot < geo.slots
      ensures count == SumCounts(geo, packetCounts[..], slot, geo.writers)
    {
      count := 0;
      for i := 0 to geo.writers
        invariant count == SumCounts(geo, packetCounts[..], slot, i)
      {
        count := count + packetCounts[CountAt(geo, slot, i)];
      }
    }

    method ResetCounts(slot: nat)
      requires Valid() && slot < geo.slots
      modifies packetCounts
      ensures packetCounts[..] == ClearCounts(geo, old(packetCounts[..]), slot, geo.writers)
    {
      for i := 0 to geo.writers
        invariant packetCounts[..] == ClearCounts(geo, old(packetCounts[..]), slot, i)
      {
        packetCounts[CountAt(geo, slot, i)] := 0;
      }
    }

    /** Takes the checker's next slot: its block with the index count, counters back to zero. */
    method GetBlock(k: nat) returns (block: DataBlock)
      requires Valid() && k < |blockCheckIds|
      modifies this`blockCheckIds, packetCounts
      ensures Valid()
      ensures (View(), block) == GetEffect(geo, old(View()), k)
    {
      var slot := blockCheckIds[k];
      var count := CountIndexes(slot);
      ResetCounts(slot);
      SlotFits(geo, slot);
      block := DataBlock(slot, blockDiskId[slot], count,
                         bufferBlocks[slot * geo.blockSize .. slot * geo.blockSize + geo.blockSize]);
      blockCheckIds := blockCheckIds[k := (slot + |blockCheckIds|) % geo.slots];
      assert block.buffer == SlotBytes(geo, old(bufferBlocks[..]), slot);
    }

    method RecycleBlock(slot: nat)
      requires Valid() && slot < geo.slots
      modifies blockDiskId
      ensures Valid()
      ensures View() == RecycleEffect(geo, old(View()), slot)
    {
      blockDiskId[slot] := (blockDiskId[slot] + geo.slots) % geo.diskBlocks;
    }
  }

  /** x - 1 on machine words: zero becomes the all-ones word. */
  function Decrement(x: nat): nat {
    if x == 0 then 0xFFFF_FFFF_FFFF_FFFF else x - 1
  }
}
