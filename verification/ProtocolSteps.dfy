/** Every step of the protocol keeps its invariant, and what follows for whole runs. */
module ProtocolSteps {
  import opened Basics
  import opened ModArith
  import opened Protocol

  // ---------- parts of the invariant that only depend on a part of the state ----------

  /** Slots only move forward, and so does the counter. */
  ghost predicate Grows(p: Plan, s: State, s': State)
    requires Sized(p, s) && Sized(p, s')
  {
    && s.counter <= s'.counter
    && forall c :: 0 <= c < p.slots ==> s.block[c] <= s'.block[c]
  }

  lemma ReachedKept(p: Plan, s: State, s': State, b: nat)
    requires p.Sound() && Sized(p, s) && Sized(p, s') && Grows(p, s, s') && Reached(p, s, b)
    ensures Reached(p, s', b)
  {}

  lemma SaneKept(p: Plan, s: State, s': State, j: nat)
    requires p.Sound() && Sized(p, s) && Sized(p, s') && Grows(p, s, s')
    requires j < p.writers && WriterSane(p, s, j) && s'.writers[j] == s.writers[j]
    ensures WriterSane(p, s', j)
  {
    var w := s.writers[j];
    if w.tried.Some? && Reached(p, s, w.tried.value) { ReachedKept(p, s, s', w.tried.value); }
    if w.cur.Some? && w.done { ReachedKept(p, s, s', p.Block(w.cur.value)); }
  }

  ghost predicate SameCells(p: Plan, s: State, s': State)
    requires Sized(p, s) && Sized(p, s')
  {
    forall j: nat :: j < p.writers ==> s.writers[j].cur == s'.writers[j].cur && s.writers[j].next == s'.writers[j].next
  }

  lemma PassedKept(p: Plan, s: State, s': State)
    requires p.Sound() && Sized(p, s) && Sized(p, s') && Grows(p, s, s') && s.counter == s'.counter
    requires CellsPassed(p, s) && SameCells(p, s, s')
    ensures CellsPassed(p, s')
  {
    forall e: nat | e < s'.counter && !Held(s', e) ensures Reached(p, s', p.Block(e)) {
      if Held(s, e) {
        var j: nat :| j < |s.writers| && HeldBy(s, j, e);
        assert HeldBy(s', j, e);
      }
      ReachedKept(p, s, s', p.Block(e));
    }
  }

  lemma SlotsKept(p: Plan, s: State, s': State)
    requires p.Sound() && Sized(p, s) && Sized(p, s') && SlotsNear(p, s) && OwedPresent(p, s)
    requires s.block == s'.block && s.owed == s'.owed && s.inFlight == s'.inFlight
    ensures SlotsNear(p, s') && OwedPresent(p, s')
  {
    forall c: nat | c < p.slots ensures SlotNear(p, s', c) { assert SlotNear(p, s, c); }
    forall k: nat | k < p.checkers ensures OwedHere(p, s', k) { assert OwedHere(p, s, k); }
  }

  /** Writers keep their lead over the checkers when their last write calls do not move back. */
  lemma AheadKept(p: Plan, s: State, s': State)
    requires p.Sound() && Sized(p, s) && Sized(p, s') && WritersAhead(p, s) && s.owed == s'.owed
    requires forall i: nat :: i < p.writers && s.writers[i].tried.Some? ==>
               s'.writers[i].tried.Some? && s.writers[i].tried.value <= s'.writers[i].tried.value
    ensures WritersAhead(p, s')
  {
    forall k: nat, i: nat | k < p.checkers && i < p.writers ensures WriterAhead(p, s', k, i) {
      assert WriterAhead(p, s, k, i);
    }
  }

  // ---------- taking, entering and filling cells ----------

  lemma TakeCellKeeps(p: Plan, s: State, i: nat)
    requires Inv(p, s) && Enabled(p, s, TakeCell(i))
    ensures Inv(p, After(p, s, TakeCell(i)))
  {
    var s' := After(p, s, TakeCell(i));
    forall j: nat | j < p.writers ensures WriterSane(p, s', j) {
      assert WriterSane(p, s, j);
      if j != i { SaneKept(p, s, s', j); }
    }
    TakenCellPassed(p, s, i);
    SlotsKept(p, s, s');
    AheadKept(p, s, s');
  }

  lemma TakenCellPassed(p: Plan, s: State, i: nat)
    requires p.Sound() && Sized(p, s) && CellsPassed(p, s) && Enabled(p, s, TakeCell(i))
    ensures CellsPassed(p, After(p, s, TakeCell(i)))
  {
    var s' := After(p, s, TakeCell(i));
    forall e: nat | e < s'.counter && !Held(s', e) ensures Reached(p, s', p.Block(e)) {
      assert HeldBy(s', i, s.counter);
      if Held(s, e) {
        var j: nat :| j < |s.writers| && HeldBy(s, j, e);
        assert HeldBy(s', j, e);
      }
      ReachedKept(p, s, s', p.Block(e));
    }
  }

  lemma EnterCellKeeps(p: Plan, s: State, i: nat)
    requires Inv(p, s) && Enabled(p, s, EnterCell(i))
    ensures Inv(p, After(p, s, EnterCell(i)))
  {
    var s' := After(p, s, EnterCell(i));
    forall j: nat | j < p.writers ensures WriterSane(p, s', j) {
      assert WriterSane(p, s, j);
      if j == i && s.writers[i].cur.Some? {
        QuotOrdered(s.writers[i].cur.value, s'.writers[i].cur.value, p.writers);
      }
    }
    forall e: nat | e < s'.counter && !Held(s', e) ensures Reached(p, s', p.Block(e)) {
      if Held(s, e) {
        var j: nat :| j < |s.writers| && HeldBy(s, j, e);
        assert WriterSane(p, s, j);
        if j != i || s.writers[i].cur != Some(e) { assert HeldBy(s', j, e); }
      }
    }
    SlotsKept(p, s, s');
    AheadKept(p, s, s');
  }

  lemma WriteKeeps(p: Plan, s: State, i: nat, toEnd: bool)
    requires Inv(p, s) && Enabled(p, s, Write(i, toEnd))
    ensures Inv(p, After(p, s, Write(i, toEnd)))
  {
    var s' := After(p, s, Write(i, toEnd));
    assert WriterSane(p, s, i);
    forall j: nat | j < p.writers ensures WriterSane(p, s', j) {
      assert WriterSane(p, s, j);
      if j != i { SaneKept(p, s, s', j); }
    }
    PassedKept(p, s, s');
    SlotsKept(p, s, s');
    AheadKept(p, s, s');
  }

  // ---------- releasing and recycling blocks ----------

  /** When checker k may release, the slot of the block it owes next already stands for that block:
      some cell of it was filled, or a writer reached its end. */
  lemma NextOwedReached(p: Plan, s: State, k: nat)
    requires Inv(p, s) && Enabled(p, s, Release(k))
    ensures Reached(p, s, s.owed[k] + p.checkers)
  {
    var b := s.owed[k] + p.checkers;
    if !Reached(p, s, b) {
      forall j: nat | j < p.writers
        ensures var w := s.writers[j];
          && w.cur.Some? && w.cur.value < s.counter && p.Block(w.cur.value) > b
          && (w.next.Some? ==> w.next.value > w.cur.value)
      {
        assert WriterSane(p, s, j);
        BeyondBlock(p, s, k, j);
      }
      CellLeftUnwritten(p, s, b);
    }
  }

  /** A block all writers are beyond has a cell that was taken and is held no more. */
  lemma CellLeftUnwritten(p: Plan, s: State, b: nat)
    requires p.Sound() && Sized(p, s) && CellsPassed(p, s)
    requires forall j: nat :: j < p.writers ==> var w := s.writers[j];
          && w.cur.Some? && w.cur.value < s.counter && p.Block(w.cur.value) > b
          && (w.next.Some? ==> w.next.value > w.cur.value)
    ensures Reached(p, s, b)
  {
    var cells := CellsOfBlock(p, b);
    assert cells != {};
    var e :| e in cells;
    forall j: nat | j < p.writers ensures !HeldBy(s, j, e) {
      assert e < s.writers[j].cur.value;
    }
    assert e < s.writers[0].cur.value;
    assert !Held(s, e);
  }

  /** ... because otherwise every writer is in a later cell. */
  lemma BeyondBlock(p: Plan, s: State, k: nat, j: nat)
    requires p.Sound() && Sized(p, s) && Enabled(p, s, Release(k)) && j < p.writers && WriterSane(p, s, j)
    requires !Reached(p, s, s.owed[k] + p.checkers)
    ensures s.writers[j].cur.Some? && s.writers[j].cur.value < s.counter
    ensures p.Block(s.writers[j].cur.value) > s.owed[k] + p.checkers
    ensures s.writers[j].next.Some? ==> s.writers[j].next.value > s.writers[j].cur.value
  {
    assert s.writers[j].pub > s.owed[k] + p.delay;
  }

  /** A slot of checker k other than the released one is at least one round away. */
  lemma OtherSlotApart(p: Plan, q: nat, u: nat)
    requires p.Sound() && Rem(q, p.checkers) == p.Checker(p.Slot(u)) && u + p.slots >= q
    ensures p.Slot(u) != p.Slot(q) ==> q + p.checkers <= u + p.slots && (u >= q ==> u >= q + p.checkers)
  {
    RemOfRem(u, p.slots, p.checkers);
    RemAddMultiple(u, p.slots, p.checkers);
    SameRem(u + p.slots, q, p.checkers);
    SameRem(u, q, p.checkers);
    assert Rem(u + p.slots, p.slots) == p.Slot(u);
  }

  lemma ReleaseSlots(p: Plan, s: State, k: nat)
    requires p.Sound() && Sized(p, s) && OwedPresent(p, s) && SlotsNear(p, s) && Enabled(p, s, Release(k))
    ensures var s' := After(p, s, Release(k)); Sized(p, s') && SlotsNear(p, s')
  {
    var s' := After(p, s, Release(k));
    var q := s.owed[k];
    assert OwedHere(p, s, k);
    RemOfRem(q, p.slots, p.checkers);
    RemAtMost(p.slots, p.checkers);
    forall c: nat | c < p.slots ensures SlotNear(p, s', c) {
      assert SlotNear(p, s, c);
      if p.Checker(c) == k { OtherSlotApart(p, q, s.block[c]); }
    }
  }

  lemma ReleaseKeeps(p: Plan, s: State, k: nat)
    requires Inv(p, s) && Enabled(p, s, Release(k))
    ensures Inv(p, After(p, s, Release(k)))
  {
    var s' := After(p, s, Release(k));
    ReleaseSlots(p, s, k);
    NextOwedReached(p, s, k);
    ReleaseOwed(p, s, k);
    forall j: nat | j < p.writers ensures WriterSane(p, s', j) {
      assert WriterSane(p, s, j);
      SaneKept(p, s, s', j);
    }
    PassedKept(p, s, s');
  }

  lemma ReleaseOwed(p: Plan, s: State, k: nat)
    requires Inv(p, s) && Enabled(p, s, Release(k))
    requires Reached(p, s, s.owed[k] + p.checkers)
    ensures var s' := After(p, s, Release(k)); Sized(p, s') && OwedPresent(p, s') && WritersAhead(p, s')
  {
    var s' := After(p, s, Release(k));
    var q := s.owed[k] + p.checkers;
    assert OwedHere(p, s, k) && SlotNear(p, s, p.Slot(q));
    RemOfRem(q, p.slots, p.checkers);
    SameRem(s.block[p.Slot(q)], q, p.slots);
    forall j: nat | j < p.checkers ensures OwedHere(p, s', j) { assert OwedHere(p, s, j); }
    forall j: nat, i: nat | j < p.checkers && i < p.writers ensures WriterAhead(p, s', j, i) {
      assert WriterAhead(p, s, j, i) && WriterSane(p, s, i);
      assert s.writers[i].pub > s.owed[k] + p.delay;
    }
  }

  lemma RecycledSlots(p: Plan, s: State, c: nat)
    requires p.Sound() && Sized(p, s) && OwedPresent(p, s) && SlotsNear(p, s) && Enabled(p, s, Recycle(c))
    ensures var s' := After(p, s, Recycle(c)); Sized(p, s') && OwedPresent(p, s') && SlotsNear(p, s')
  {
    var s' := After(p, s, Recycle(c));
    assert SlotNear(p, s, c);
    forall d: nat | d < p.slots ensures SlotNear(p, s', d) { assert SlotNear(p, s, d); }
    forall k: nat | k < p.checkers ensures OwedHere(p, s', k) {
      assert OwedHere(p, s, k);
      RemOfRem(s.owed[k], p.slots, p.checkers);
    }
  }

  lemma RecycleKeeps(p: Plan, s: State, c: nat)
    requires Inv(p, s) && Enabled(p, s, Recycle(c))
    ensures Inv(p, After(p, s, Recycle(c)))
  {
    var s' := After(p, s, Recycle(c));
    RecycledSlots(p, s, c);
    AheadKept(p, s, s');
    forall j: nat | j < p.writers ensures WriterSane(p, s', j) {
      assert WriterSane(p, s, j);
      SaneKept(p, s, s', j);
    }
    PassedKept(p, s, s');
  }

  lemma StepKeeps(p: Plan, s: State, step: Step)
    requires Inv(p, s) && Enabled(p, s, step)
    ensures Inv(p, After(p, s, step))
  {
    match step
    case TakeCell(i) => TakeCellKeeps(p, s, i);
    case EnterCell(i) => EnterCellKeeps(p, s, i);
    case Write(i, toEnd) => WriteKeeps(p, s, i, toEnd);
    case Release(k) => ReleaseKeeps(p, s, k);
    case Recycle(c) => RecycleKeeps(p, s, c);
  }
}
