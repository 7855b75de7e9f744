/** The hand-off in terms of the calls of a run: what a taken block holds is what the accepted calls stored there last,
    and its count is the number of accepted calls that announced an index entry. */
module HandOffCalls {
  import opened Basics
  import opened ModArith
  import opened BlockRing
  import opened HandOff
  import opened HandOffRuns

  /** Call u stores its data: a write or a patch that is answered with true. */
  ghost predicate Stores(g: Geometry, checkers: nat, states: seq<System>, calls: seq<Call>, u: nat)
    requires Deployed(g, checkers) && u < |calls| && |states| == |calls| + 1
  {
    && Fits(g, checkers, states[u]) && MayCall(g, checkers, states[u], calls[u])
    && match calls[u]
       case WriteBlock(i, pos, data, newIndex) => WriteEffect(g, states[u].ring, DiskPos(g, pos), data, i, true, newIndex).1
       case PatchBlock(i, pos, data) => WriteEffect(g, states[u].ring, DiskPos(g, pos), data, i, false, false).1
       case _ => false
  }

  /** Call u stores a byte at q. */
  ghost predicate StoresAt(g: Geometry, checkers: nat, states: seq<System>, calls: seq<Call>, u: nat, q: nat)
    requires Deployed(g, checkers) && u < |calls| && |states| == |calls| + 1
  {
    Stores(g, checkers, states, calls, u) && Aims(calls[u], q)
  }

  /** That byte. */
  function ByteOf(call: Call, q: nat): byte
    requires Aims(call, q)
  {
    match call
    case WriteBlock(_, pos, data, _) => data[q - pos]
    case PatchBlock(_, pos, data) => data[q - pos]
  }

  /** One call, seen at position q. */
  lemma CallAt(g: Geometry, checkers: nat, states: seq<System>, calls: seq<Call>, u: nat, q: nat)
    requires Deployed(g, checkers) && IsRun(g, checkers, states, calls) && u < |calls|
    ensures StoresAt(g, checkers, states, calls, u, q) ==> q in states[u + 1].written && states[u + 1].written[q] == ByteOf(calls[u], q)
    ensures !StoresAt(g, checkers, states, calls, u, q) ==>
              (q in states[u + 1].written <==> q in states[u].written)
              && (q in states[u].written ==> states[u + 1].written[q] == states[u].written[q])
  {
    assert IsStep(g, checkers, states[u], calls[u], states[u + 1]);
  }

  /** The last of the first t calls that stores at q; -1 if there is none. */
  ghost function LastStore(g: Geometry, checkers: nat, states: seq<System>, calls: seq<Call>, t: nat, q: nat): (u: int)
    requires Deployed(g, checkers) && t <= |calls| && |states| == |calls| + 1
    ensures -1 <= u < t && (u >= 0 ==> StoresAt(g, checkers, states, calls, u, q))
    ensures forall v: nat :: u < v < t ==> !StoresAt(g, checkers, states, calls, v, q)
  {
    if t == 0 then -1 else if StoresAt(g, checkers, states, calls, t - 1, q) then t - 1 else LastStore(g, checkers, states, calls, t - 1, q)
  }

  /** What was accepted at q is the byte of the last call that stored there. */
  lemma {:induction false} WrittenIsLast(g: Geometry, checkers: nat, states: seq<System>, calls: seq<Call>, t: nat, q: nat)
    requires Deployed(g, checkers) && IsRun(g, checkers, states, calls) && t <= |calls|
    ensures var u := LastStore(g, checkers, states, calls, t, q);
            if u < 0 then q !in states[t].written else q in states[t].written && states[t].written[q] == ByteOf(calls[u], q)
  {
    if t > 0 {
      WrittenIsLast(g, checkers, states, calls, t - 1, q);
      CallAt(g, checkers, states, calls, t - 1, q);
    }
  }

  /** Call u announces an index entry of writer i in block b, and is accepted. */
  ghost predicate Announces(g: Geometry, checkers: nat, states: seq<System>, calls: seq<Call>, u: nat, i: nat, b: nat)
    requires Deployed(g, checkers) && u < |calls| && |states| == |calls| + 1
  {
    Stores(g, checkers, states, calls, u) && calls[u].WriteBlock? && calls[u].newIndex && calls[u].i == i && calls[u].pos / g.blockSize == b
  }

  ghost function Announced(g: Geometry, checkers: nat, states: seq<System>, calls: seq<Call>, t: nat, i: nat, b: nat): nat
    requires Deployed(g, checkers) && t <= |calls| && |states| == |calls| + 1
  {
    if t == 0 then 0 else Announced(g, checkers, states, calls, t - 1, i, b) + if Announces(g, checkers, states, calls, t - 1, i, b) then 1 else 0
  }

  lemma CallCounts(g: Geometry, checkers: nat, states: seq<System>, calls: seq<Call>, u: nat, i: nat, b: nat)
    requires Deployed(g, checkers) && IsRun(g, checkers, states, calls) && u < |calls|
    ensures Indexed(states[u + 1].indexed, i, b)
         == Indexed(states[u].indexed, i, b) + if Announces(g, checkers, states, calls, u, i, b) then 1 else 0
  {
    assert IsStep(g, checkers, states[u], calls[u], states[u + 1]);
    if calls[u].WriteBlock? { RemQuot(calls[u].pos, g.blockSize); }
  }

  /** The index entries of a writer in a block are the accepted calls that announced one. */
  lemma {:induction false} IndexedIsAnnounced(g: Geometry, checkers: nat, states: seq<System>, calls: seq<Call>, t: nat, i: nat, b: nat)
    requires Deployed(g, checkers) && IsRun(g, checkers, states, calls) && t <= |calls|
    ensures Indexed(states[t].indexed, i, b) == Announced(g, checkers, states, calls, t, i, b)
  {
    if t > 0 {
      IndexedIsAnnounced(g, checkers, states, calls, t - 1, i, b);
      CallCounts(g, checkers, states, calls, t - 1, i, b);
    }
  }

  /** Announced by the first n writers. */
  ghost function AllAnnounced(g: Geometry, checkers: nat, states: seq<System>, calls: seq<Call>, t: nat, b: nat, n: nat): nat
    requires Deployed(g, checkers) && t <= |calls| && |states| == |calls| + 1
  {
    if n == 0 then 0 else AllAnnounced(g, checkers, states, calls, t, b, n - 1) + Announced(g, checkers, states, calls, t, n - 1, b)
  }

  lemma {:induction false} SumIsAnnounced(g: Geometry, checkers: nat, states: seq<System>, calls: seq<Call>, t: nat, b: nat, n: nat)
    requires Deployed(g, checkers) && IsRun(g, checkers, states, calls) && t <= |calls|
    ensures SumIndexed(states[t].indexed, b, n) == AllAnnounced(g, checkers, states, calls, t, b, n)
  {
    if n > 0 {
      SumIsAnnounced(g, checkers, states, calls, t, b, n - 1);
      IndexedIsAnnounced(g, checkers, states, calls, t, n - 1, b);
    }
  }

  /** The block that a checker takes holds, at every position of it where a call stored, the byte of the last such
      call, links that were patched included; and it counts every accepted call that announced an index entry. */
  lemma TakenBlockOfCalls(g: Geometry, checkers: nat, states: seq<System>, calls: seq<Call>, t: nat, k: nat, q: nat)
    requires Deployed(g, checkers) && IsRun(g, checkers, states, calls) && t < |calls| && calls[t] == GetBlock(k)
    ensures Fits(g, checkers, states[t]) && k < checkers
    ensures var taken, owed := GetEffect(g, states[t].ring, k).1, states[t].prot.owed[k];
      && taken.packetCount == AllAnnounced(g, checkers, states, calls, t, owed, g.writers)
      && (q / g.blockSize == owed && LastStore(g, checkers, states, calls, t, q) >= 0 ==>
            taken.buffer[q % g.blockSize] == ByteOf(calls[LastStore(g, checkers, states, calls, t, q)], q))
  {
    TakenBlockIsComplete(g, checkers, states, calls, t, k);
    WrittenIsLast(g, checkers, states, calls, t, q);
    SumIsAnnounced(g, checkers, states, calls, t, states[t].prot.owed[k], g.writers);
  }

  /** How often checker k has taken a block. */
  function Takes(calls: seq<Call>, t: nat, k: nat): nat
    requires t <= |calls|
  {
    if t == 0 then 0 else Takes(calls, t - 1, k) + if calls[t - 1] == GetBlock(k) then 1 else 0
  }

  /** The block that a checker owes after its takes: one round of checkers further for each. */
  function Owed(calls: seq<Call>, t: nat, k: nat, checkers: nat): nat
    requires t <= |calls|
  {
    if t == 0 then k else Owed(calls, t - 1, k, checkers) + if calls[t - 1] == GetBlock(k) then checkers else 0
  }

  lemma {:induction false} OwedIsTakes(calls: seq<Call>, t: nat, k: nat, checkers: nat)
    requires t <= |calls|
    ensures Owed(calls, t, k, checkers) == k + Takes(calls, t, k) * checkers
  {
    if t > 0 {
      OwedIsTakes(calls, t - 1, k, checkers);
      assert (Takes(calls, t - 1, k) + 1) * checkers == Takes(calls, t - 1, k) * checkers + checkers;
    }
  }

  lemma {:induction false} OwedInRun(g: Geometry, checkers: nat, states: seq<System>, calls: seq<Call>, t: nat, k: nat)
    requires Deployed(g, checkers) && IsRun(g, checkers, states, calls) && t <= |calls| && k < checkers
    ensures k < |states[t].prot.owed| && states[t].prot.owed[k] == Owed(calls, t, k, checkers)
  {
    if t > 0 {
      OwedInRun(g, checkers, states, calls, t - 1, k);
      OneTakeMore(g, checkers, states, calls, t - 1, k);
    }
  }

  /** A checker takes block k first, and then one round of checkers further each time: every block once, in order. */
  lemma TakesInTurn(g: Geometry, checkers: nat, states: seq<System>, calls: seq<Call>, t: nat, k: nat)
    requires Deployed(g, checkers) && IsRun(g, checkers, states, calls) && t <= |calls| && k < checkers
    ensures k < |states[t].prot.owed| && states[t].prot.owed[k] == k + Takes(calls, t, k) * checkers
  {
    OwedInRun(g, checkers, states, calls, t, k);
    OwedIsTakes(calls, t, k, checkers);
  }

  lemma OneTakeMore(g: Geometry, checkers: nat, states: seq<System>, calls: seq<Call>, u: nat, k: nat)
    requires Deployed(g, checkers) && IsRun(g, checkers, states, calls) && u < |calls| && k < |states[u].prot.owed|
    ensures k < |states[u + 1].prot.owed|
    ensures states[u + 1].prot.owed[k] == states[u].prot.owed[k] + if calls[u] == GetBlock(k) then checkers else 0
  {
    assert IsStep(g, checkers, states[u], calls[u], states[u + 1]);
  }
}
