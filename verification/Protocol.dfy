/** The block hand-off protocol with ids that never wrap around: writers fill cells taken from a
    shared counter, checkers release blocks that every writer has left behind, completions give
    slots back. `HandOff` shows that the program's modular arithmetic performs just these steps. */
module Protocol {
  import opened Basics
  import opened Bits
  import opened ModArith

  /** slots of the ring, release delay in blocks, writers (also: cells per block), check threads */
  datatype Plan = Plan(slots: nat, delay: nat, writers: nat, checkers: nat)
  {
    ghost predicate Sound() {
      && slots > 0 && writers > 0 && checkers > 0
      && Rem(slots, checkers) == 0
      && checkers <= delay <= slots
      && writers <= delay + 1
    }

    function Slot(block: nat): (c: nat) requires slots > 0 ensures c < slots { Rem(block, slots) }

    function Checker(slot: nat): (k: nat) requires checkers > 0 ensures k < checkers { Rem(slot, checkers) }

    function Block(cell: nat): nat requires writers > 0 { Quot(cell, writers) }
  }

  /** `cur`: the cell being filled; `next`: a cell taken but not entered yet; `tried`: block of the
      last write call; `pub`: the published block id; `done`: the last write into `cur` was accepted. */
  datatype Writer = Writer(cur: Option<nat>, next: Option<nat>, tried: Option<nat>, pub: nat, done: bool)

  /** `block`: the block every slot stands for; `owed`: the block every checker releases next;
      `inFlight`: released slots not yet recycled; `counter`: cells taken so far. */
  datatype State = State(block: seq<nat>, owed: seq<nat>, inFlight: set<nat>, writers: seq<Writer>, counter: nat)

  /** `toEnd`: the write reaches the end of its block. */
  datatype Step =
    | TakeCell(i: nat)
    | EnterCell(i: nat)
    | Write(i: nat, toEnd: bool)
    | Release(k: nat)
    | Recycle(slot: nat)

  ghost predicate Sized(p: Plan, s: State) {
    && |s.block| == p.slots && |s.owed| == p.checkers && |s.writers| == p.writers
    && (forall c :: c in s.inFlight ==> c < p.slots)
  }

  ghost function Start(p: Plan): State {
    State(seq(p.slots, (c: nat) => c), seq(p.checkers, (k: nat) => k), {},
          seq(p.writers, (i: nat) => Writer(None, None, None, i, false)), 0)
  }

  ghost predicate Resident(p: Plan, s: State, b: nat)
    requires p.Sound() && Sized(p, s)
  {
    s.block[p.Slot(b)] == b
  }

  /** A write into block b that reaches the end of b also needs the following block. */
  ghost predicate Accepts(p: Plan, s: State, b: nat, toEnd: bool)
    requires p.Sound() && Sized(p, s)
  {
    Resident(p, s, b) && (toEnd ==> Resident(p, s, b + 1))
  }

  /** The calls a thread can make. */
  ghost predicate Possible(p: Plan, s: State, step: Step)
    requires p.Sound() && Sized(p, s)
  {
    match step
    case TakeCell(i) => i < p.writers && s.writers[i].next.None?
    case EnterCell(i) => i < p.writers && s.writers[i].next.Some? && (s.writers[i].cur.None? || s.writers[i].done)
    case Write(i, _) => i < p.writers && s.writers[i].cur.Some?
    case Release(k) => k < p.checkers
    case Recycle(slot) => slot < p.slots && slot in s.inFlight
  }

  /** A block is released only when every writer has published one more than `delay` beyond it. */
  ghost predicate Enabled(p: Plan, s: State, step: Step)
    requires p.Sound() && Sized(p, s)
  {
    && Possible(p, s, step)
    && (step.Release? ==> forall i :: 0 <= i < p.writers ==> s.writers[i].pub > s.owed[step.k] + p.delay)
  }

  ghost function AfterWrite(p: Plan, s: State, i: nat, toEnd: bool): Writer
    requires p.Sound() && Sized(p, s) && i < p.writers && s.writers[i].cur.Some?
  {
    var b := p.Block(s.writers[i].cur.value);
    s.writers[i].(tried := Some(b), done := Accepts(p, s, b, toEnd),
                  pub := if toEnd && Resident(p, s, b) then b + 1 else b)
  }

  ghost function After(p: Plan, s: State, step: Step): State
    requires p.Sound() && Sized(p, s) && Possible(p, s, step)
  {
    match step
    case TakeCell(i) =>
      s.(writers := s.writers[i := s.writers[i].(next := Some(s.counter))], counter := s.counter + 1)
    case EnterCell(i) =>
      s.(writers := s.writers[i := s.writers[i].(cur := s.writers[i].next, next := None, done := false)])
    case Write(i, toEnd) =>
      s.(writers := s.writers[i := AfterWrite(p, s, i, toEnd)])
    case Release(k) =>
      s.(owed := s.owed[k := s.owed[k] + p.checkers], inFlight := s.inFlight + {p.Slot(s.owed[k])})
    case Recycle(slot) =>
      s.(block := s.block[slot := s.block[slot] + p.slots], inFlight := s.inFlight - {slot})
  }

  // ---------- the invariant ----------

  /** Checker k finds its next slot carrying the block it owes. */
  ghost predicate OwedHere(p: Plan, s: State, k: nat)
    requires p.Sound() && Sized(p, s) && k < p.checkers
  {
    Rem(s.owed[k], p.checkers) == k && Resident(p, s, s.owed[k])
  }

  ghost predicate OwedPresent(p: Plan, s: State)
    requires p.Sound() && Sized(p, s)
  {
    forall k: nat :: k < p.checkers ==> OwedHere(p, s, k)
  }

  /** Slot c is in flight exactly when its block is behind its checker, and never a full ring away. */
  ghost predicate SlotNear(p: Plan, s: State, c: nat)
    requires p.Sound() && Sized(p, s) && c < p.slots
  {
    && p.Slot(s.block[c]) == c
    && s.owed[p.Checker(c)] <= s.block[c] + p.slots
    && s.block[c] < s.owed[p.Checker(c)] + p.slots
    && (c in s.inFlight <==> s.block[c] < s.owed[p.Checker(c)])
  }

  ghost predicate SlotsNear(p: Plan, s: State)
    requires p.Sound() && Sized(p, s)
  {
    forall c: nat :: c < p.slots ==> SlotNear(p, s, c)
  }

  /** The slot of block b has reached b. */
  ghost predicate Reached(p: Plan, s: State, b: nat)
    requires p.Sound() && Sized(p, s)
  {
    s.block[p.Slot(b)] >= b
  }

  ghost predicate WriterSane(p: Plan, s: State, i: nat)
    requires p.Sound() && Sized(p, s) && i < p.writers
  {
    var w := s.writers[i];
    && (w.tried.None? ==> w.pub == i)
    && (w.tried.Some? ==>
          && w.cur.Some? && w.tried.value <= p.Block(w.cur.value)
          && (w.pub == w.tried.value || (w.pub == w.tried.value + 1 && Reached(p, s, w.tried.value))))
    && (w.cur.Some? ==> w.cur.value < s.counter)
    && (w.next.Some? ==> w.next.value < s.counter)
    && (w.cur.Some? && w.next.Some? ==> w.cur.value < w.next.value)
    && (w.cur.Some? && w.done ==> Reached(p, s, p.Block(w.cur.value)))
  }

  ghost predicate WritersSane(p: Plan, s: State)
    requires p.Sound() && Sized(p, s)
  {
    forall i: nat :: i < p.writers ==> WriterSane(p, s, i)
  }

  /** After checker k's first release, writer i has called a write at least `delay` further. */
  ghost predicate WriterAhead(p: Plan, s: State, k: nat, i: nat)
    requires p.Sound() && Sized(p, s) && k < p.checkers && i < p.writers
  {
    s.owed[k] >= p.checkers ==>
      s.writers[i].tried.Some? && s.writers[i].tried.value + p.checkers >= s.owed[k] + p.delay
  }

  ghost predicate WritersAhead(p: Plan, s: State)
    requires p.Sound() && Sized(p, s)
  {
    forall k: nat, i: nat :: k < p.checkers && i < p.writers ==> WriterAhead(p, s, k, i)
  }

  ghost predicate HeldBy(s: State, i: nat, cell: nat)
    requires i < |s.writers|
  {
    s.writers[i].cur == Some(cell) || s.writers[i].next == Some(cell)
  }

  ghost predicate Held(s: State, cell: nat) {
    exists i: nat :: i < |s.writers| && HeldBy(s, i, cell)
  }

  /** A cell that was taken and is held no more was written, so its block has been resident. */
  ghost predicate CellsPassed(p: Plan, s: State)
    requires p.Sound() && Sized(p, s)
  {
    forall e: nat {:trigger Held(s, e)} :: e < s.counter && !Held(s, e) ==> Reached(p, s, p.Block(e))
  }

  ghost predicate Inv(p: Plan, s: State) {
    && p.Sound()
    && Sized(p, s)
    && OwedPresent(p, s)
    && SlotsNear(p, s)
    && WritersSane(p, s)
    && WritersAhead(p, s)
    && CellsPassed(p, s)
  }

  lemma StartHolds(p: Plan)
    requires p.Sound()
    ensures Inv(p, Start(p))
  {
    var s := Start(p);
    forall c: nat | c < p.slots ensures SlotNear(p, s, c) { RemAtMost(c, p.checkers); }
    forall k: nat | k < p.checkers ensures OwedHere(p, s, k) {}
  }

  // ---------- how far writers can be ahead ----------

  ghost function OptionSet(o: Option<nat>): (r: set<nat>)
    ensures |r| <= 1
  {
    if o.Some? then {o.value} else {}
  }

  /** The cells that the first n writers hold: at most two each. */
  ghost function HeldCells(writers: seq<Writer>, n: nat): (r: set<nat>)
    requires n <= |writers|
    ensures |r| <= 2 * n
  {
    if n == 0 then {}
    else
      var rest, a, b := HeldCells(writers, n - 1), OptionSet(writers[n - 1].cur), OptionSet(writers[n - 1].next);
      assert |rest + a + b| <= |rest| + |a| + |b|;
      rest + a + b
  }

  lemma {:induction false} HeldCellsContain(writers: seq<Writer>, n: nat, i: nat, cell: nat)
    requires i < n <= |writers|
    requires writers[i].cur == Some(cell) || writers[i].next == Some(cell)
    ensures cell in HeldCells(writers, n)
  {
    if i < n - 1 { HeldCellsContain(writers, n - 1, i, cell); }
  }

  ghost function Range(lo: nat, n: nat): (r: set<nat>)
    ensures |r| == n
    ensures forall x :: x in r <==> lo <= x < lo + n
  {
    if n == 0 then {} else Range(lo, n - 1) + {lo + n - 1}
  }

  /** The cells of a block: as many as there are writers, all before the cells of later blocks. */
  lemma CellsOfBlock(p: Plan, b: nat) returns (cells: set<nat>)
    requires p.writers > 0
    ensures |cells| == p.writers
    ensures forall e :: e in cells ==> p.Block(e) == b
    ensures forall e, later: nat :: e in cells && p.Block(later) > b ==> e < later
  {
    cells := Range(b * p.writers, p.writers);
    forall e | e in cells ensures p.Block(e) == b {
      CellQuotient(b, p.writers, e - b * p.writers);
    }
    forall e, later: nat | e in cells && p.Block(later) > b ensures e < later {
      if later <= e { QuotOrdered(later, e, p.writers); }
    }
  }

  lemma CellQuotient(b: nat, w: nat, r: nat)
    requires r < w
    ensures Quot(b * w + r, w) == b
  {
    DivModUnique(b * w + r, w, b, r);
    RemQuot(b * w + r, w);
  }

  lemma Subset(a: set<nat>, b: set<nat>)
    requires a <= b
    ensures |a| <= |b|
  {
    assert |b - a| == |b| - |a|;
  }

  /** The blocks one ring, and one ring and a round of checkers, beyond an owed block are not resident yet. */
  lemma NotYetReached(p: Plan, s: State, k: nat)
    requires p.Sound() && Sized(p, s) && OwedPresent(p, s) && SlotsNear(p, s) && k < p.checkers
    ensures !Reached(p, s, s.owed[k] + p.slots)
    ensures !Reached(p, s, s.owed[k] + p.slots + p.checkers)
  {
    var b := s.owed[k] + p.slots;
    RemAddMultiple(s.owed[k], p.slots, p.checkers);
    RemOfRem(b, p.slots, p.checkers);
    RemOfRem(b + p.checkers, p.slots, p.checkers);
    assert OwedHere(p, s, k);
    assert SlotNear(p, s, p.Slot(b)) && SlotNear(p, s, p.Slot(b + p.checkers));
  }

  /** The taken cells of a block that was never reached are all held. */
  lemma UnreachedCellsHeld(p: Plan, s: State, b: nat, cells: set<nat>)
    requires p.Sound() && Sized(p, s) && CellsPassed(p, s) && !Reached(p, s, b)
    requires forall e :: e in cells ==> p.Block(e) == b && e < s.counter
    ensures cells <= HeldCells(s.writers, p.writers)
  {
    forall e | e in cells ensures e in HeldCells(s.writers, p.writers) {
      assert Held(s, e);
      var j: nat :| j < |s.writers| && HeldBy(s, j, e);
      HeldCellsContain(s.writers, p.writers, j, e);
    }
  }

  /** Two blocks that were never reached cannot both be behind a held cell: their cells and this
      one are more than the writers can hold. */
  lemma TooManyHeld(p: Plan, s: State, i: nat, cell: nat, b0: nat, b1: nat)
    requires p.Sound() && Sized(p, s) && CellsPassed(p, s)
    requires !Reached(p, s, b0) && !Reached(p, s, b1) && b0 < b1
    requires i < p.writers && s.writers[i].cur == Some(cell) && cell < s.counter
    ensures p.Block(cell) <= b1
  {
    if p.Block(cell) > b1 {
      var cells0 := CellsOfBlock(p, b0);
      var cells1 := CellsOfBlock(p, b1);
      UnreachedCellsHeld(p, s, b0, cells0);
      UnreachedCellsHeld(p, s, b1, cells1);
      HeldCellsContain(s.writers, p.writers, i, cell);
      assert cells0 !! cells1 && cell !in cells0 + cells1;
      assert |cells0 + cells1 + {cell}| == 2 * p.writers + 1;
      Subset(cells0 + cells1 + {cell}, HeldCells(s.writers, p.writers));
    }
  }

  /** No writer is further than one ring and one round of checkers beyond what a checker owes. */
  lemma CellInReach(p: Plan, s: State, i: nat, k: nat)
    requires p.Sound() && Sized(p, s) && OwedPresent(p, s) && SlotsNear(p, s) && CellsPassed(p, s)
    requires i < p.writers && WriterSane(p, s, i) && k < p.checkers && s.writers[i].cur.Some?
    ensures p.Block(s.writers[i].cur.value) <= s.owed[k] + p.slots + p.checkers
  {
    NotYetReached(p, s, k);
    TooManyHeld(p, s, i, s.writers[i].cur.value, s.owed[k] + p.slots, s.owed[k] + p.slots + p.checkers);
  }

  /** The published ids stay in a window around what any checker owes. */
  lemma PublishedInReach(p: Plan, s: State, i: nat, k: nat)
    requires Inv(p, s) && i < p.writers && k < p.checkers
    ensures s.writers[i].pub <= s.owed[k] + p.slots + p.checkers
    ensures s.owed[k] + p.delay <= s.writers[i].pub + 2 * p.slots
  {
    var w := s.writers[i];
    assert WriterSane(p, s, i) && WriterAhead(p, s, k, i);
    if w.tried.Some? {
      CellInReach(p, s, i, k);
      NotYetReached(p, s, k);
      assert w.pub == w.tried.value + 1 ==> w.tried.value != s.owed[k] + p.slots + p.checkers;
    } else {
      assert s.owed[k] < p.checkers;
    }
  }

  /** A writer's block, and the one after it, are not behind any checker. */
  lemma AheadOfChecker(p: Plan, s: State, i: nat, b: nat)
    requires Inv(p, s) && i < p.writers && s.writers[i].cur.Some? && b >= p.Block(s.writers[i].cur.value)
    ensures s.owed[p.Checker(p.Slot(b))] <= b
  {
    var k := p.Checker(p.Slot(b));
    assert WriterSane(p, s, i) && WriterAhead(p, s, k, i) && OwedHere(p, s, k);
    RemOfRem(b, p.slots, p.checkers);
    RemAtMost(b, p.checkers);
  }
}
