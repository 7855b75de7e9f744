/** The single-producer single-consumer pointer ring. Neighbouring positions lie eight slots apart, so that they
    do not share a cache line; every interleaving of one producer's and one consumer's steps is a bounded queue. */
module SpscRing {
  import opened Basics
  import opened Bits
  import opened ModArith

  // ---------- the slot order ----------

  /** A capacity the ring works with: a power of two, and at least one full row of eight. */
  ghost predicate Capacity(c: nat) {
    IsPow2(c) && c >= 8
  }

  /** Slot of a position, with the masks and shifts of the program. */
  function SlotOf(c: nat, position: nat): nat
    requires c >= 8
  {
    var pos := And(position, c - 1);
    ShrSmall(c);
    Transpose(Shr(c, 3), pos)
  }

  function Transpose(w: nat, pos: nat): nat
    requires w > 0
  {
    Shl(And(pos, w - 1), 3) + pos / w
  }

  lemma {:induction false} EighthOfPow2(m: nat)
    requires Pow2(m) >= 8
    ensures m >= 3 && Pow2(m) == 8 * Pow2(m - 3)
  {
    assert Pow2(0) == 1 && Pow2(1) == 2 && Pow2(2) == 4;
    if m >= 3 { assert Pow2(m) == 2 * Pow2(m - 1) && Pow2(m - 1) == 2 * Pow2(m - 2) && Pow2(m - 2) == 2 * Pow2(m - 3); }
  }

  /** Rows of eight: position p of a round of 8 * w goes to row p % w, place p / w. */
  function Transposed(w: nat, p: nat): nat
    requires w > 0
  {
    p % w * 8 + p / w
  }

  lemma TransposedParts(w: nat, p: nat)
    requires w > 0 && p < 8 * w
    ensures p / w < 8 && p == p / w * w + p % w && Transposed(w, p) / 8 == p % w && Transposed(w, p) % 8 == p / w
    ensures Transposed(w, p) < 8 * w
  {
    var q := p / w;
    assert p == q * w + p % w;
    assert q >= 8 ==> q * w >= 8 * w;
    DivModUnique(Transposed(w, p), 8, p % w, p / w);
  }

  /** Different positions of a round have different slots. */
  lemma TransposedApart(w: nat, p: nat, q: nat)
    requires w > 0 && p < 8 * w && q < 8 * w && Transposed(w, p) == Transposed(w, q)
    ensures p == q
  {
    TransposedParts(w, p);
    TransposedParts(w, q);
  }

  /** Every slot belongs to a position. */
  lemma TransposedOnto(w: nat, slot: nat) returns (p: nat)
    requires w > 0 && slot < 8 * w
    ensures p < 8 * w && Transposed(w, p) == slot
  {
    var row, place := slot / 8, slot % 8;
    p := place * w + row;
    assert place * w <= 7 * w;
    DivModUnique(p, w, place, row);
  }

  lemma SlotIsTransposed(c: nat, position: nat)
    requires Capacity(c)
    ensures c / 8 > 0 && 8 * (c / 8) == c && position % c < c
    ensures SlotOf(c, position) == Transposed(c / 8, position % c)
  {
    var m: nat :| c == Pow2(m);
    EighthOfPow2(m);
    ShrSmall(c);
    MasksAreMods(c, c / 8, m, position);
    ShlSmall(position % c % (c / 8));
  }

  lemma MasksAreMods(c: nat, w: nat, m: nat, position: nat)
    requires c == Pow2(m) && m >= 3 && w == Pow2(m - 3)
    ensures And(position, c - 1) == position % c && And(position % c, w - 1) == position % c % w
  {
    AndMask(position, m);
    AndMask(position % c, m - 3);
  }

  /** The slot map is a bijection between the positions of one round and the slots. */
  lemma SlotInRange(c: nat, position: nat)
    requires Capacity(c)
    ensures SlotOf(c, position) < c
  {
    SlotIsTransposed(c, position);
    TransposedParts(c / 8, position % c);
  }

  lemma SlotsApart(c: nat, p: nat, q: nat)
    requires Capacity(c) && SlotOf(c, p) == SlotOf(c, q)
    ensures p % c == q % c
  {
    SlotIsTransposed(c, p);
    SlotIsTransposed(c, q);
    TransposedApart(c / 8, p % c, q % c);
  }

  lemma EverySlotIsUsed(c: nat, slot: nat) returns (p: nat)
    requires Capacity(c) && slot < c
    ensures p < c && SlotOf(c, p) == slot
  {
    SlotIsTransposed(c, 0);
    p := TransposedOnto(c / 8, slot);
    SlotIsTransposed(c, p);
    ModSmall(p, c);
  }

  /** Positions less than one round apart have different slots. */
  lemma RoundApart(c: nat, p: nat, q: nat)
    requires Capacity(c) && p < q < p + c
    ensures SlotOf(c, p) != SlotOf(c, q)
  {
    if SlotOf(c, p) == SlotOf(c, q) {
      SlotsApart(c, p, q);
      CongruentApart(q, p, c);
    }
  }

  // ---------- producer and consumer, step by step ----------

  /** `put` waits for room, stores, and publishes; `get` looks for an item, loads it, and frees its slot. */
  datatype Producer<T> = Idle | Room(item: T) | StoredItem(item: T)
  datatype Consumer<T> = Ready | Seen | Loaded(item: T)

  datatype Channel<T> = Channel(capacity: nat, pointers: seq<T>, writePos: nat, readPos: nat, producer: Producer<T>, consumer: Consumer<T>,
                          puts: seq<T>, gets: seq<T>)

  /** The call's item for `put`; the other steps go on with what was begun. */
  datatype Step<T> = PutBegin(item: T) | PutStore | PutPublish | GetBegin | GetLoad | GetFree

  predicate Enabled<T>(r: Channel<T>, step: Step<T>) {
    match step
    case PutBegin(_) => r.producer.Idle? && r.writePos != r.capacity - 1 + r.readPos
    case PutStore => r.producer.Room?
    case PutPublish => r.producer.StoredItem?
    case GetBegin => r.consumer.Ready? && r.writePos != r.readPos
    case GetLoad => r.consumer.Seen?
    case GetFree => r.consumer.Loaded?
  }

  function After<T>(r: Channel<T>, step: Step<T>): Channel<T>
    requires Enabled(r, step) && r.capacity >= 8 && |r.pointers| == r.capacity
    requires SlotOf(r.capacity, r.writePos) < r.capacity && SlotOf(r.capacity, r.readPos) < r.capacity
  {
    match step
    case PutBegin(item) => r.(producer := Room(item))
    case PutStore => r.(pointers := r.pointers[SlotOf(r.capacity, r.writePos) := r.producer.item], producer := StoredItem(r.producer.item))
    case PutPublish => r.(writePos := r.writePos + 1, producer := Idle, puts := r.puts + [r.producer.item])
    case GetBegin => r.(consumer := Seen)
    case GetLoad => r.(consumer := Loaded(r.pointers[SlotOf(r.capacity, r.readPos)]))
    case GetFree => r.(readPos := r.readPos + 1, consumer := Ready, gets := r.gets + [r.consumer.item])
  }

  /** Item i, put but not yet freed, is in its slot. */
  ghost predicate Holds<T>(r: Channel<T>, i: nat) {
    && r.capacity >= 8 && i < |r.puts| && SlotOf(r.capacity, i) < |r.pointers|
    && r.pointers[SlotOf(r.capacity, i)] == r.puts[i]
  }

  ghost predicate Good<T(!new)>(r: Channel<T>) {
    && Capacity(r.capacity) && |r.pointers| == r.capacity
    && r.readPos <= r.writePos <= r.readPos + r.capacity - 1
    && |r.puts| == r.writePos && r.gets == r.puts[..r.readPos]
    && (forall i: nat :: r.readPos <= i < r.writePos ==> Holds(r, i))
    && (r.producer != Idle ==> r.writePos < r.readPos + r.capacity - 1)
    && (r.producer.StoredItem? ==> r.pointers[SlotWithin(r.capacity, r.writePos)] == r.producer.item)
    && (r.consumer != Ready ==> r.readPos < r.writePos)
    && (r.consumer.Loaded? ==> r.readPos < |r.puts| && r.consumer.item == r.puts[r.readPos])
  }

  function SlotWithin(c: nat, position: nat): (s: nat)
    requires Capacity(c)
    ensures s < c && s == SlotOf(c, position)
  {
    SlotInRange(c, position);
    SlotOf(c, position)
  }

  lemma StoreKeeps<T(!new)>(r: Channel<T>)
    requires Good(r) && r.producer.Room? && SlotOf(r.capacity, r.writePos) < r.capacity && SlotOf(r.capacity, r.readPos) < r.capacity
    ensures Good(After(r, PutStore))
  {
    var r' := After(r, PutStore);
    forall i: nat | r'.readPos <= i < r'.writePos ensures Holds(r', i) {
      assert Holds(r, i);
      RoundApart(r.capacity, i, r.writePos);
    }
  }

  lemma PublishKeeps<T(!new)>(r: Channel<T>)
    requires Good(r) && r.producer.StoredItem? && SlotOf(r.capacity, r.writePos) < r.capacity && SlotOf(r.capacity, r.readPos) < r.capacity
    ensures Good(After(r, PutPublish))
  {
    var r' := After(r, PutPublish);
    forall i: nat | r'.readPos <= i < r'.writePos ensures Holds(r', i) { assert i == r.writePos || Holds(r, i); }
    assert r'.puts[..r'.readPos] == r.puts[..r.readPos];
  }

  lemma FreeKeeps<T(!new)>(r: Channel<T>)
    requires Good(r) && r.consumer.Loaded? && SlotOf(r.capacity, r.writePos) < r.capacity && SlotOf(r.capacity, r.readPos) < r.capacity
    ensures Good(After(r, GetFree))
  {
    var r' := After(r, GetFree);
    forall i: nat | r'.readPos <= i < r'.writePos ensures Holds(r', i) { assert Holds(r, i); }
    assert r.puts[..r.readPos + 1] == r.puts[..r.readPos] + [r.puts[r.readPos]];
  }

  /** Every step of either side keeps the ring a queue: what was got is what was put first, in order, and
      what was put and not yet got is still there. */
  lemma StepKeeps<T(!new)>(r: Channel<T>, step: Step<T>)
    requires Good(r) && Enabled(r, step)
    ensures SlotOf(r.capacity, r.writePos) < r.capacity && SlotOf(r.capacity, r.readPos) < r.capacity && Good(After(r, step))
  {
    SlotInRange(r.capacity, r.writePos);
    SlotInRange(r.capacity, r.readPos);
    match step
    case PutStore => StoreKeeps(r);
    case PutPublish => PublishKeeps(r);
    case GetFree => FreeKeeps(r);
    case GetLoad => OthersKeep(r, step);
    case PutBegin(_) => OthersKeep(r, step);
    case GetBegin => OthersKeep(r, step);
  }

  lemma OthersKeep<T(!new)>(r: Channel<T>, step: Step<T>)
    requires Good(r) && Enabled(r, step) && (step.PutBegin? || step.GetBegin? || step.GetLoad?)
    requires SlotOf(r.capacity, r.writePos) < r.capacity && SlotOf(r.capacity, r.readPos) < r.capacity
    ensures Good(After(r, step))
  {
    var r' := After(r, step);
    if step.GetLoad? { assert Holds(r, r.readPos); }
    forall i: nat | r'.readPos <= i < r'.writePos ensures Holds(r', i) { assert Holds(r, i); }
  }

  function Init<T>(capacity: nat, empty: T): Channel<T> {
    Channel(capacity, seq(capacity, _ => empty), 0, 0, Idle, Ready, [], [])
  }

  ghost predicate StepAt<T(!new)>(run: seq<Channel<T>>, steps: seq<Step<T>>, k: nat)
    requires k < |steps| && k + 1 < |run|
  {
    Good(run[k]) ==>
      && Enabled(run[k], steps[k])
      && SlotWithin(run[k].capacity, run[k].writePos) < run[k].capacity && SlotWithin(run[k].capacity, run[k].readPos) < run[k].capacity
      && run[k + 1] == After(run[k], steps[k])
  }

  /** In every interleaving the items got are a prefix of the items put, and at most capacity - 1 are under way. */
  lemma {:induction false} RunIsQueue<T(!new)>(capacity: nat, empty: T, run: seq<Channel<T>>, steps: seq<Step<T>>, k: nat)
    requires Capacity(capacity) && |run| == |steps| + 1 && run[0] == Init(capacity, empty)
    requires forall j: nat :: j < |steps| ==> StepAt(run, steps, j)
    requires k < |run|
    ensures Good(run[k]) && run[k].gets <= run[k].puts && |run[k].puts| - |run[k].gets| <= run[k].capacity - 1
  {
    if k > 0 {
      RunIsQueue(capacity, empty, run, steps, k - 1);
      assert StepAt(run, steps, k - 1);
      StepKeeps(run[k - 1], steps[k - 1]);
    }
  }

  /** The items that the first k steps begin to put. */
  function Offered<T>(steps: seq<Step<T>>, k: nat): seq<T>
    requires k <= |steps|
  {
    if k == 0 then [] else Offered(steps, k - 1) + if steps[k - 1].PutBegin? then [steps[k - 1].item] else []
  }

  /** What was put, with an item that is under way, are the items offered, in order. */
  lemma {:induction false} PutsAreOffered<T(!new)>(capacity: nat, empty: T, run: seq<Channel<T>>, steps: seq<Step<T>>, k: nat)
    requires Capacity(capacity) && |run| == |steps| + 1 && run[0] == Init(capacity, empty)
    requires forall j: nat :: j < |steps| ==> StepAt(run, steps, j)
    requires k < |run|
    ensures Offered(steps, k) == run[k].puts + if run[k].producer.Idle? then [] else [run[k].producer.item]
  {
    if k > 0 {
      PutsAreOffered(capacity, empty, run, steps, k - 1);
      RunIsQueue(capacity, empty, run, steps, k - 1);
      assert StepAt(run, steps, k - 1);
    }
  }

  // ---------- the ring object ----------

  class PointerRingBuffer<T> {
    const capacity: nat
    const pointers: array<T>
    var writePos: nat
    var readPos: nat
    /** The items in the ring, oldest first. */
    ghost var contents: seq<T>

    ghost predicate HoldsAt(k: nat)
      requires Capacity(capacity) && pointers.Length == capacity && k < |contents|
      reads this, pointers
    {
      pointers[SlotWithin(capacity, readPos + k)] == contents[k]
    }

    ghost predicate ApartAt(k: nat, slot: nat)
      requires Capacity(capacity)
      reads this
    {
      SlotWithin(capacity, readPos + k) != slot
    }

    ghost predicate Valid()
      reads this, pointers
    {
      && Capacity(capacity) && pointers.Length == capacity
      && writePos == readPos + |contents| && |contents| <= capacity - 1
      && forall k: nat :: k < |contents| ==> HoldsAt(k)
    }

    constructor (capacity: nat, empty: T)
      requires Capacity(capacity)
      ensures Valid() && fresh(pointers) && this.capacity == capacity && contents == []
    {
      this.capacity, writePos, readPos := capacity, 0, 0;
      pointers := new T[capacity](_ => empty);
      contents := [];
    }

    /** `put` while the ring has room; the program spins otherwise. */
    method Put(data: T) returns (ok: bool)
      requires Valid()
      modifies this, pointers
      ensures Valid() && ok == (|old(contents)| < capacity - 1)
      ensures contents == if ok then old(contents) + [data] else old(contents)
    {
      if writePos == capacity - 1 + readPos { return false; }
      var slot := SlotWithin(capacity, writePos);
      ghost var before := contents;
      forall k: nat | k < |contents| ensures ApartAt(k, slot) { RoundApart(capacity, readPos + k, writePos); }
      assert forall k: nat :: k < |contents| ==> HoldsAt(k);
      pointers[slot] := data;
      writePos := writePos + 1;
      contents := contents + [data];
      forall k: nat | k < |contents| ensures HoldsAt(k) {
        if k < |before| { assert old(HoldsAt(k)) && old(ApartAt(k, slot)); }
      }
      ok := true;
    }

    method Get() returns (item: Option<T>)
      requires Valid()
      modifies `readPos, `contents
      ensures Valid()
      ensures if old(contents) == [] then item == None && contents == []
              else item == Some(old(contents)[0]) && contents == old(contents)[1..]
    {
      if writePos == readPos { return None; }
      assert HoldsAt(0);
      item := Some(pointers[SlotWithin(capacity, readPos)]);
      readPos := readPos + 1;
      ghost var before := contents;
      contents := contents[1..];
      forall k: nat | k < |contents| ensures HoldsAt(k) { assert old(HoldsAt(k + 1)); }
    }
  }
}
