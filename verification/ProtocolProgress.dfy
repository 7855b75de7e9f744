/** When the hand-off goes on: what a refused writer publishes, and for which delays a checker may then release. */
module ProtocolProgress {
  import opened ModArith
  import opened Protocol
  import opened ProtocolSteps

  /** With a delay of a whole ring no block is ever released: the block one ring beyond the owed one is not
      resident, so a writer that is past it would have left a taken cell of it unwritten. */
  lemma NeverReleases(p: Plan, s: State, k: nat)
    requires Inv(p, s) && p.delay == p.slots && k < p.checkers
    ensures !Enabled(p, s, Release(k))
  {
    if Enabled(p, s, Release(k)) {
      var b := s.owed[k] + p.slots;
      NotYetReached(p, s, k);
      forall j: nat | j < p.writers
        ensures var w := s.writers[j];
          && w.cur.Some? && w.cur.value < s.counter && p.Block(w.cur.value) > b
          && (w.next.Some? ==> w.next.value > w.cur.value)
      {
        assert WriterSane(p, s, j);
      }
      CellLeftUnwritten(p, s, b);
    }
  }

  /** The writer's last call was refused, and the same call again changes nothing. */
  ghost predicate Refused(p: Plan, s: State, i: nat, toEnd: bool)
    requires p.Sound() && Sized(p, s) && i < p.writers
  {
    s.writers[i].cur.Some? && !s.writers[i].done && AfterWrite(p, s, i, toEnd) == s.writers[i]
  }

  /** Every writer waits, and no slot waits to be recycled. */
  ghost predicate AllWait(p: Plan, s: State)
    requires p.Sound() && Sized(p, s)
  {
    s.inFlight == {} && forall i: nat :: i < p.writers ==> Refused(p, s, i, true) || Refused(p, s, i, false)
  }

  /** What a refused writer publishes is a block, at or behind its own, that is not resident. */
  lemma RefusedPublishes(p: Plan, s: State, i: nat, toEnd: bool)
    requires p.Sound() && Sized(p, s) && i < p.writers && Refused(p, s, i, toEnd)
    ensures !Resident(p, s, s.writers[i].pub) && s.writers[i].pub >= p.Block(s.writers[i].cur.value)
  {}

  /** With nothing in flight, a block that is not resident and not behind its checker is a ring beyond it. */
  lemma AbsentIsFar(p: Plan, s: State, b: nat)
    requires p.Sound() && Sized(p, s) && SlotsNear(p, s) && s.inFlight == {} && !Resident(p, s, b)
    requires s.owed[p.Checker(p.Slot(b))] <= b
    ensures s.owed[p.Checker(p.Slot(b))] + p.slots <= b
  {
    var c := p.Slot(b);
    assert SlotNear(p, s, c);
    if b < s.block[c] + p.slots { RemEqualNear(b, s.block[c], p.slots); }
  }

  lemma RemEqualNear(x: nat, y: nat, d: nat)
    requires d > 0 && x < y + d && y < x + d && Rem(x, d) == Rem(y, d)
    ensures x == y
  {
    SameRem(x, y, d);
    SameRem(y, x, d);
  }

  /** The checker that is furthest behind. */
  lemma {:induction false} Slowest(owed: seq<nat>, n: nat) returns (k: nat)
    requires 0 < n <= |owed|
    ensures k < n && forall j: nat :: j < n ==> owed[k] <= owed[j]
  {
    k := 0;
    if n > 1 {
      k := Slowest(owed, n - 1);
      if owed[n - 1] < owed[k] { k := n - 1; }
    }
  }

  lemma RefusedIsFar(p: Plan, s: State, i: nat, k: nat)
    requires Inv(p, s) && AllWait(p, s) && i < p.writers && k < p.checkers && forall j: nat :: j < p.checkers ==> s.owed[k] <= s.owed[j]
    ensures s.owed[k] + p.slots <= s.writers[i].pub
  {
    var toEnd := Refused(p, s, i, true);
    RefusedPublishes(p, s, i, toEnd);
    AheadOfChecker(p, s, i, s.writers[i].pub);
    AbsentIsFar(p, s, s.writers[i].pub);
  }

  /** When all writers wait, some checker may release a block exactly if the delay is less than the ring. */
  lemma ReleasesIff(p: Plan, s: State)
    requires Inv(p, s) && AllWait(p, s)
    ensures (exists k: nat :: k < p.checkers && Enabled(p, s, Release(k))) <==> p.delay < p.slots
  {
    if p.delay < p.slots {
      var k := Slowest(s.owed, p.checkers);
      forall i: nat | i < p.writers ensures s.writers[i].pub > s.owed[k] + p.delay { RefusedIsFar(p, s, i, k); }
      assert Enabled(p, s, Release(k));
    } else {
      forall k: nat | k < p.checkers ensures !Enabled(p, s, Release(k)) { NeverReleases(p, s, k); }
    }
  }
}
