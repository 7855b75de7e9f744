/** Runs of the concurrent skip list: any number of inserters arrive and take their steps in any order. */
module ConcurrentRuns {
  import opened Counting
  import opened SkipLevel
  import opened ConcurrentSkipList
  import SkipFind

  datatype Event = Arrive(key: int, value: int, height: nat) | Move(inserter: nat)

  ghost predicate Possible(s: State, e: Event) {
    match e
    case Arrive(_, _, height) => 0 < height <= |s.chains|
    case Move(t) => t < |s.inserters|
  }

  function After(s: State, e: Event): State
    requires Good(s) && Possible(s, e)
  {
    match e
    case Arrive(key, value, height) => Start(s, key, value, height)
    case Move(t) => Step(s, t)
  }

  lemma InitIsGood(maxLevel: nat)
    ensures Good(Init(maxLevel))
  {
    var s := Init(maxLevel);
    forall i: nat | i < |s.chains| ensures LevelOk(s, i) {
      forall p: nat | p < |s.chains[i]| ensures LinkAt(s.next[i], s.chains[i], p) {}
    }
    forall i: nat, n: nat {:trigger Linked(s, i, n)} | i > 0 && Linked(s, i, n) ensures Linked(s, i - 1, n) {}
  }

  lemma GrownLevel(s: State, i: nat, node: Node, s': State)
    requires |s.next| == |s.chains| == |s'.next| && i < |s.next| && LevelOk(s, i)
    requires s'.nodes == s.nodes + [node] && s'.chains == s.chains && s'.next[i] == s.next[i] + [NULL]
    ensures LevelOk(s', i) && !Linked(s', i, |s.nodes|)
  {
    var chain := s.chains[i];
    forall p: nat | p < |chain| ensures LinkAt(s'.next[i], chain, p) { assert LinkAt(s.next[i], chain, p); }
    forall p: nat, q: nat | 0 < p <= q < |chain| ensures InKeyOrder(s'.nodes, chain, p, q) { assert InKeyOrder(s.nodes, chain, p, q); }
    assert |s.nodes| in chain ==> LinkAt(s.next[i], chain, Position(chain, |s.nodes|));
  }

  lemma StartKeeps(s: State, key: int, value: int, height: nat)
    requires Good(s) && 0 < height <= |s.chains|
    ensures Good(Start(s, key, value, height)) && Extends(s, Start(s, key, value, height))
  {
    var s' := Start(s, key, value, height);
    var count, n := |s.inserters|, |s.nodes|;
    forall i: nat | i < |s'.chains| ensures LevelOk(s', i) && !Linked(s', i, n) {
      assert LevelOk(s, i);
      GrownLevel(s, i, Node(key, value, height), s');
    }
    forall i: nat, c: nat {:trigger Linked(s, i, c)} | Linked(s, i, c) ensures LinkKept(s, s', i, c) {}
    forall i: nat, c: nat {:trigger Linked(s', i, c)} | i > 0 && Linked(s', i, c) ensures Linked(s', i - 1, c) {
      assert Linked(s, i, c) && Linked(s, i - 1, c);
    }
    forall t: nat | t < |s'.inserters| ensures InserterOk(s', t) {
      if t < count {
        assert InserterOk(s, t) && NoNewLinks(s, s', t + 1);
        OtherKept(s, s', t);
      } else {
        var top := s'.inserters[t].pc.level;
        assert LevelOk(s', top) && Linked(s', top, HEAD);
        assert OnLevels(s', n, 0);
      }
    }
  }

  lemma EventKeeps(s: State, e: Event)
    requires Good(s) && Possible(s, e)
    ensures Good(After(s, e)) && Extends(s, After(s, e))
  {
    match e
    case Arrive(key, value, height) => StartKeeps(s, key, value, height);
    case Move(t) => StepKeeps(s, t);
  }

  // ---------- runs ----------

  ghost predicate StepAt(run: seq<State>, events: seq<Event>, k: nat)
    requires k < |events| && k + 1 < |run|
  {
    Good(run[k]) ==> Possible(run[k], events[k]) && run[k + 1] == After(run[k], events[k])
  }

  ghost predicate IsRun(maxLevel: nat, run: seq<State>, events: seq<Event>) {
    && |run| == |events| + 1 && run[0] == Init(maxLevel)
    && forall k: nat :: k < |events| ==> StepAt(run, events, k)
  }

  /** In every state of every run all levels are sorted chains, nested, and all inserters are where they should be. */
  lemma {:induction false} RunIsGood(maxLevel: nat, run: seq<State>, events: seq<Event>, k: nat)
    requires IsRun(maxLevel, run, events) && k < |run|
    ensures Good(run[k]) && |run[k].chains| == maxLevel
  {
    if k == 0 {
      InitIsGood(maxLevel);
    } else {
      RunIsGood(maxLevel, run, events, k - 1);
      assert StepAt(run, events, k - 1);
      EventKeeps(run[k - 1], events[k - 1]);
    }
  }

  /** A node once linked on a level stays linked there, whatever is inserted later. */
  lemma {:induction false} NeverUnlinked(maxLevel: nat, run: seq<State>, events: seq<Event>, j: nat, k: nat, i: nat, n: nat)
    requires IsRun(maxLevel, run, events) && j <= k < |run| && Linked(run[j], i, n)
    ensures Linked(run[k], i, n)
  {
    if j < k {
      NeverUnlinked(maxLevel, run, events, j, k - 1, i, n);
      RunIsGood(maxLevel, run, events, k - 1);
      assert StepAt(run, events, k - 1);
      EventKeeps(run[k - 1], events[k - 1]);
      assert LinkKept(run[k - 1], run[k], i, n);
    }
  }

  // ---------- what the events bring ----------

  /** The nodes that the first n events bring, one for each arrival, in order. */
  function Arrived(events: seq<Event>, n: nat): seq<Node>
    requires n <= |events|
  {
    if n == 0 then []
    else
      match events[n - 1]
      case Arrive(key, value, height) => Arrived(events, n - 1) + [Node(key, value, height)]
      case Move(_) => Arrived(events, n - 1)
  }

  /** An arrival of a key in lo .. hi - 1 whose value has the low 32 bits v. */
  predicate Brings(e: Event, lo: int, hi: int, v: int) {
    e.Arrive? && lo <= e.key < hi && e.value % 0x1_0000_0000 == v
  }

  /** How many of the first n events bring it. */
  function Brought(events: seq<Event>, n: nat, lo: int, hi: int, v: int): nat
    requires n <= |events|
  {
    if n == 0 then 0 else Brought(events, n - 1, lo, hi, v) + if Brings(events[n - 1], lo, hi, v) then 1 else 0
  }

  lemma StepKeepsNodes(s: State, t: nat)
    requires Good(s) && t < |s.inserters|
    ensures Step(s, t).nodes == s.nodes
  {
    assert InserterOk(s, t);
    match s.inserters[t].pc
    case Lock(i) => assert UpdateOk(s, s.inserters[t].update, i, s.nodes[t + 1].key) && LevelOk(s, i);
    case _ =>
  }

  /** In every state of every run the nodes behind the head are exactly those of the arrivals, in order, with their
      keys, values and heights. */
  lemma {:induction false} NodesAreArrivals(maxLevel: nat, run: seq<State>, events: seq<Event>, k: nat)
    requires IsRun(maxLevel, run, events) && k < |run|
    ensures run[k].nodes == [Node(0, 0, maxLevel)] + Arrived(events, k)
  {
    if k > 0 {
      NodesAreArrivals(maxLevel, run, events, k - 1);
      RunIsGood(maxLevel, run, events, k - 1);
      assert StepAt(run, events, k - 1);
      if events[k - 1].Move? { StepKeepsNodes(run[k - 1], events[k - 1].inserter); }
    }
  }

  lemma {:induction false} StoredNext(nodes: seq<Node>, node: Node, n: nat, lo: int, hi: int, v: int)
    requires n < |nodes|
    ensures SkipFind.Stored(nodes + [node], n, lo, hi, v) == SkipFind.Stored(nodes, n, lo, hi, v)
  {
    if n > 0 { StoredNext(nodes, node, n - 1, lo, hi, v); }
  }

  /** Behind the nodes there already, those of the arrivals count as often as they are brought. */
  lemma {:induction false} StoredIsBrought(nodes: seq<Node>, events: seq<Event>, n: nat, lo: int, hi: int, v: int)
    requires n <= |events| && nodes != []
    ensures var more := Arrived(events, n);
            SkipFind.Stored(nodes + more, |nodes| + |more| - 1, lo, hi, v) == SkipFind.Stored(nodes, |nodes| - 1, lo, hi, v) + Brought(events, n, lo, hi, v)
  {
    if n == 0 {
      assert nodes + [] == nodes;
    } else {
      StoredIsBrought(nodes, events, n - 1, lo, hi, v);
      var before := Arrived(events, n - 1);
      match events[n - 1]
      case Arrive(key, value, height) =>
        StoredNext(nodes + before, Node(key, value, height), |nodes| + |before| - 1, lo, hi, v);
        assert nodes + Arrived(events, n) == nodes + before + [Node(key, value, height)];
      case Move(_) =>
    }
  }

  ghost predicate Quiet(s: State) {
    forall t: nat :: t < |s.inserters| ==> s.inserters[t].pc == Done
  }

  ghost predicate OnceOn(chain: seq<nat>, n: nat) {
    n in chain && forall p: nat, q: nat :: p < q < |chain| && chain[p] == n ==> chain[q] != n
  }

  /** When no inserter is at work, every inserted node is exactly once on each of its levels and on no
      other, and the level counter has reached it. */
  lemma QuietListIsComplete(s: State, n: nat, i: nat)
    requires Good(s) && Quiet(s) && 0 < n < |s.nodes| && i < |s.chains|
    ensures if i < s.nodes[n].height then OnceOn(s.chains[i], n) else n !in s.chains[i]
    ensures s.nodes[n].height <= s.nowLevel
  {
    assert InserterOk(s, n - 1) && LevelOk(s, i);
    assert Linked(s, i, n) <==> i < s.nodes[n].height;
    forall p: nat, q: nat | p < q < |s.chains[i]| ensures s.chains[i][p] != s.chains[i][q] {
      NoRepeat(s.next[i], s.chains[i], p, q);
    }
  }

  // ---------- lookups ----------

  lemma GoodLevels(s: State)
    requires Good(s) && |s.chains| > 0
    ensures SkipFind.Levels(s.nodes, s.next, s.chains)
  {
    forall i: nat | i < |s.chains| ensures SkipFind.LevelOk(s.nodes, s.next, s.chains, i) { assert LevelOk(s, i); }
    forall i: nat, n: nat | 0 < i < |s.chains| ensures SkipFind.OnBoth(s.chains, i, n) {
      if n in s.chains[i] { assert Linked(s, i, n) && Linked(s, i - 1, n); }
    }
  }

  /** `findByKey` while no inserter moves: what the bottom level holds under the key. */
  method FindByKey(s: State, key: int) returns (found: seq<int>)
    requires Good(s) && |s.chains| > 0
    ensures found == SkipFind.Hits(s.nodes, s.chains[0], key, key + 1)
  {
    GoodLevels(s);
    found := SkipFind.FindByKey(s.nodes, s.next, s.nowLevel, s.chains, key);
  }

  method FindByRange(s: State, begin: int, end: int) returns (found: seq<int>)
    requires Good(s) && |s.chains| > 0
    ensures found == SkipFind.Hits(s.nodes, s.chains[0], begin, end)
  {
    GoodLevels(s);
    found := SkipFind.FindByRange(s.nodes, s.next, s.nowLevel, s.chains, begin, end);
  }

  /** When no inserter is at work, a lookup answers with each value as often as the nodes have it under those keys. */
  lemma QuietStored(s: State, lo: int, hi: int, v: int)
    requires Good(s) && |s.chains| > 0 && Quiet(s)
    ensures var found := SkipFind.Hits(s.nodes, s.chains[0], lo, hi);
            Occurs(found, |found|, v) == SkipFind.Stored(s.nodes, |s.nodes| - 1, lo, hi, v)
  {
    assert LevelOk(s, 0);
    var chain, last := s.chains[0], |s.nodes| - 1;
    var ids := chain[1..];
    assert chain == [HEAD] + ids;
    forall k: nat | 0 < k <= last ensures k in ids {
      assert InserterOk(s, k - 1);
      QuietListIsComplete(s, k, 0);
    }
    forall i: nat | i < |ids| ensures SkipFind.IdAt(ids, i, last) {
      assert InKeyOrder(s.nodes, chain, i + 1, i + 1);
      forall j: nat | j < i ensures ids[j] != ids[i] { NoRepeat(s.next[0], chain, j + 1, i + 1); }
    }
    SkipFind.HitsAreStored(s.nodes, ids, last, lo, hi, v);
  }

  /** When no inserter is at work, a lookup answers with each value as often as the arrivals brought it under those
      keys. */
  lemma QuietAnswer(maxLevel: nat, run: seq<State>, events: seq<Event>, k: nat, lo: int, hi: int, v: int)
    requires IsRun(maxLevel, run, events) && k < |run| && maxLevel > 0 && Quiet(run[k])
    ensures Good(run[k]) && |run[k].chains| > 0
    ensures var found := SkipFind.Hits(run[k].nodes, run[k].chains[0], lo, hi);
            Occurs(found, |found|, v) == Brought(events, k, lo, hi, v)
  {
    RunIsGood(maxLevel, run, events, k);
    NodesAreArrivals(maxLevel, run, events, k);
    QuietStored(run[k], lo, hi, v);
    StoredIsBrought([Node(0, 0, maxLevel)], events, k, lo, hi, v);
  }
}
