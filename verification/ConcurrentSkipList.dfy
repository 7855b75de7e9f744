/** The lock-per-node skip list. Every inserter first looks for its neighbours without a lock, then goes
    through its levels from the bottom: it locks the node it wants to go behind, checks again, and either
    moves on or splices its node in. One step is one read of a pointer, one locked section, or one access
    to the level counter; the inserters' steps interleave in any order. */
module ConcurrentSkipList {
  import opened SkipLevel
  import SkipFind

  /** Where an inserter is. */
  datatype Pc =
    | Test(level: nat, curr: nat)      // about to compare the node after `curr`
    | Advance(level: nat, curr: nat)   // found it smaller: about to read the pointer again and go there
    | Lock(level: nat)                 // about to lock the node to go behind
    | MoveOn(level: nat)               // found a smaller node after it, unlocked: about to read the pointer
    | Load                             // all levels linked: about to read the level counter
    | Cas(level: nat)                  // about to compare and exchange it
    | Done

  /** An inserter: where it is, and the nodes to go behind (`update`), by level. */
  datatype Inserter = Inserter(pc: Pc, update: map<nat, nat>)

  /** The list: nodes, next pointers by level, level counter and the inserters; inserter t brings node t + 1.
      The chains record what the pointers spell. */
  datatype State = State(nodes: seq<Node>, next: seq<seq<int>>, nowLevel: nat, inserters: seq<Inserter>, chains: seq<seq<nat>>)

  function Init(maxLevel: nat): State {
    State([Node(0, 0, maxLevel)], seq(maxLevel, _ => [NULL]), 0, [], seq(maxLevel, _ => [HEAD]))
  }

  // ---------- what holds between steps ----------

  ghost predicate LevelOk(s: State, i: nat)
    requires i < |s.next| == |s.chains|
  {
    SkipFind.LevelOk(s.nodes, s.next, s.chains, i)
  }

  predicate Linked(s: State, i: nat, n: nat) {
    i < |s.chains| && n in s.chains[i]
  }

  /** Node c is linked on level i, and is the head or has a smaller key. */
  predicate Before(s: State, i: nat, c: nat, key: int) {
    Linked(s, i, c) && (c == HEAD || (c < |s.nodes| && s.nodes[c].key < key))
  }

  /** The node after c on level i has a smaller key. */
  predicate NextSmaller(s: State, i: nat, c: nat, key: int) {
    && i < |s.next| && c < |s.next[i]|
    && 0 <= s.next[i][c] < |s.nodes| && s.nodes[s.next[i][c]].key < key
  }

  function LevelsLinked(pc: Pc, height: nat): nat {
    match pc
    case Test(_, _) => 0
    case Advance(_, _) => 0
    case Lock(i) => i
    case MoveOn(i) => i
    case _ => height
  }

  ghost predicate UpdateOk(s: State, update: map<nat, nat>, i: nat, key: int) {
    i in update && Before(s, i, update[i], key)
  }

  ghost predicate UpdatesOk(s: State, update: map<nat, nat>, from: nat, to: nat, key: int) {
    forall i: nat :: from <= i < to ==> UpdateOk(s, update, i, key)
  }

  ghost predicate PcOk(s: State, pc: Pc, update: map<nat, nat>, key: int, height: nat) {
    match pc
    case Test(i, c) => i < |s.chains| && Before(s, i, c, key) && UpdatesOk(s, update, i + 1, height, key)
    case Advance(i, c) => i < |s.chains| && Before(s, i, c, key) && UpdatesOk(s, update, i + 1, height, key) && NextSmaller(s, i, c, key)
    case Lock(i) => i < height && UpdatesOk(s, update, i, height, key)
    case MoveOn(i) => i < height && UpdatesOk(s, update, i, height, key) && i in update && NextSmaller(s, i, update[i], key)
    case Load => true
    case Cas(seen) => seen < height
    case Done => height <= s.nowLevel
  }

  /** An inserter's node is on exactly the levels it has gone through. */
  ghost predicate OnLevels(s: State, n: nat, levels: nat) {
    forall i: nat :: i < |s.chains| ==> (Linked(s, i, n) <==> i < levels)
  }

  ghost predicate InserterOk(s: State, t: nat)
    requires t < |s.inserters| && |s.nodes| == |s.inserters| + 1
  {
    var task, node := s.inserters[t], s.nodes[t + 1];
    && 0 < node.height <= |s.chains|
    && OnLevels(s, t + 1, LevelsLinked(task.pc, node.height))
    && PcOk(s, task.pc, task.update, node.key, node.height)
  }

  /** Whatever is linked on a level is linked on the level below. */
  ghost predicate Nested(s: State) {
    forall i: nat, n: nat {:trigger Linked(s, i, n)} :: i > 0 && Linked(s, i, n) ==> Linked(s, i - 1, n)
  }

  ghost predicate Good(s: State) {
    && |s.next| == |s.chains| && |s.nodes| == |s.inserters| + 1 && s.nowLevel <= |s.chains|
    && (forall i: nat :: i < |s.chains| ==> LevelOk(s, i))
    && Nested(s)
    && (forall t: nat :: t < |s.inserters| ==> InserterOk(s, t))
  }

  // ---------- steps ----------

  /** A new inserter: its node is allocated, and the search starts at the highest level in use. */
  function Start(s: State, key: int, value: int, height: nat): State
    requires height > 0
  {
    var top := if s.nowLevel > height then s.nowLevel else height;
    s.(nodes := s.nodes + [Node(key, value, height)],
       next := seq(|s.next|, (i: nat) requires i < |s.next| => s.next[i] + [NULL]),
       inserters := s.inserters + [Inserter(Test(top - 1, HEAD), map[])])
  }

  function With(s: State, t: nat, pc: Pc, update: map<nat, nat>): State
    requires t < |s.inserters|
  {
    s.(inserters := s.inserters[t := Inserter(pc, update)])
  }

  /** Node n goes behind node u on level i: the two pointer writes of the locked section. */
  function Splice(s: State, i: nat, u: nat, n: nat): State
    requires i < |s.next| == |s.chains| && u < |s.next[i]| && n < |s.next[i]| && Linked(s, i, u)
  {
    s.(next := s.next[i := s.next[i][n := s.next[i][u]][u := n]],
       chains := s.chains[i := Inserted(s.chains[i], Position(s.chains[i], u), n)])
  }

  /** The next step of inserter t. */
  function Step(s: State, t: nat): State
    requires Good(s) && t < |s.inserters|
  {
    var key, height, update := s.nodes[t + 1].key, s.nodes[t + 1].height, s.inserters[t].update;
    assert InserterOk(s, t);
    match s.inserters[t].pc
    case Test(i, c) =>
      if NextSmaller(s, i, c, key) then With(s, t, Advance(i, c), update)
      else With(s, t, if i == 0 then Lock(0) else Test(i - 1, c), update[i := c])
    case Advance(i, c) => With(s, t, Test(i, s.next[i][c]), update)
    case Lock(i) =>
      assert UpdateOk(s, update, i, key) && LevelOk(s, i);
      if NextSmaller(s, i, update[i], key) then With(s, t, MoveOn(i), update)
      else
        assert LinkAt(s.next[i], s.chains[i], Position(s.chains[i], update[i]));
        With(Splice(s, i, update[i], t + 1), t, if i + 1 < height then Lock(i + 1) else Load, update)
    case MoveOn(i) => With(s, t, Lock(i), update[i := s.next[i][update[i]]])
    case Load => if s.nowLevel < height then With(s, t, Cas(s.nowLevel), update) else With(s, t, Done, update)
    case Cas(seen) => if s.nowLevel == seen then With(s.(nowLevel := height), t, Done, update) else With(s, t, Load, update)
    case Done => s
  }

  // ---------- what a step never disturbs ----------

  /** On level i, node c stays linked, and a node after it is only ever replaced by one with a key not larger. */
  ghost predicate LinkKept(s: State, s': State, i: nat, c: nat) {
    && Linked(s', i, c)
    && (i < |s.next| && c < |s.next[i]| && 0 <= s.next[i][c] < |s.nodes| ==>
          && i < |s'.next| && c < |s'.next[i]| && 0 <= s'.next[i][c] < |s'.nodes|
          && s'.nodes[s'.next[i][c]].key <= s.nodes[s.next[i][c]].key)
  }

  ghost predicate Extends(s: State, s': State) {
    && |s.chains| == |s'.chains| && s.nowLevel <= s'.nowLevel && s.nodes <= s'.nodes
    && forall i: nat, c: nat {:trigger Linked(s, i, c)} :: Linked(s, i, c) ==> LinkKept(s, s', i, c)
  }

  lemma PcKept(s: State, s': State, pc: Pc, update: map<nat, nat>, key: int, height: nat)
    requires PcOk(s, pc, update, key, height) && Extends(s, s')
    ensures PcOk(s', pc, update, key, height)
  {
    forall i: nat | UpdateOk(s, update, i, key) ensures UpdateOk(s', update, i, key) {}
    match pc
    case Test(i, c) => assert Linked(s, i, c);
    case Advance(i, c) => assert Linked(s, i, c);
    case MoveOn(i) => assert UpdateOk(s, update, i, key) && Linked(s, i, update[i]);
    case _ =>
  }

  ghost predicate NoNewLinks(s: State, s': State, n: nat) {
    forall i: nat :: Linked(s', i, n) ==> Linked(s, i, n)
  }

  lemma SameLevels(s: State, s': State, n: nat, levels: nat)
    requires OnLevels(s, n, levels) && Extends(s, s') && NoNewLinks(s, s', n)
    ensures OnLevels(s', n, levels)
  {
    forall i: nat | i < |s'.chains| ensures Linked(s', i, n) <==> i < levels {
      assert Linked(s, i, n) <==> i < levels;
    }
  }

  /** An inserter that does not move stays right. */
  lemma OtherKept(s: State, s': State, t: nat)
    requires |s.nodes| == |s.inserters| + 1 && |s'.nodes| == |s'.inserters| + 1 && t < |s.inserters| && t < |s'.inserters|
    requires InserterOk(s, t) && s'.inserters[t] == s.inserters[t] && Extends(s, s')
    requires NoNewLinks(s, s', t + 1)
    ensures InserterOk(s', t)
  {
    var task, node := s.inserters[t], s.nodes[t + 1];
    PcKept(s, s', task.pc, task.update, node.key, node.height);
    SameLevels(s, s', t + 1, LevelsLinked(task.pc, node.height));
  }

  // ---------- the locked section ----------

  /** Node n may go behind u on level i. */
  ghost predicate MaySplice(s: State, i: nat, u: nat, n: nat) {
    && |s.next| == |s.chains| && i < |s.chains| && LevelOk(s, i)
    && 0 < n < |s.nodes| && !Linked(s, i, n)
    && Before(s, i, u, s.nodes[n].key) && !NextSmaller(s, i, u, s.nodes[n].key)
  }

  lemma SpliceLevel(s: State, i: nat, u: nat, n: nat)
    requires MaySplice(s, i, u, n)
    ensures u < |s.next[i]| && LevelOk(Splice(s, i, u, n), i)
  {
    var chain, next := s.chains[i], s.next[i];
    var p := Position(chain, u);
    assert LinkAt(next, chain, p);
    if p + 1 < |chain| { assert InKeyOrder(s.nodes, chain, p + 1, p + 1); }
    SpliceSpells(next, chain, p, n, next[n := next[u]][u := n]);
    SpliceSorted(s.nodes, chain, p, n);
  }

  lemma SpliceLinks(s: State, i: nat, u: nat, n: nat, j: nat, m: nat)
    requires MaySplice(s, i, u, n) && u < |s.next[i]|
    ensures Linked(Splice(s, i, u, n), j, m) <==> Linked(s, j, m) || (j == i && m == n)
  {
    InsertedMembers(s.chains[i], Position(s.chains[i], u), n, m);
  }

  lemma SpliceExtends(s: State, i: nat, u: nat, n: nat)
    requires MaySplice(s, i, u, n) && u < |s.next[i]|
    ensures Extends(s, Splice(s, i, u, n))
  {
    var s' := Splice(s, i, u, n);
    forall j: nat, c: nat {:trigger Linked(s, j, c)} | Linked(s, j, c) ensures LinkKept(s, s', j, c) {
      SpliceLinks(s, i, u, n, j, c);
    }
  }

  // ---------- every step keeps the list good ----------

  /** A step that only moves inserter t along, and perhaps raises the level counter. */
  lemma MoveKeeps(s: State, t: nat, pc: Pc, update: map<nat, nat>, nowLevel: nat)
    requires Good(s) && t < |s.inserters| && s.nowLevel <= nowLevel <= |s.chains|
    requires var node, s' := s.nodes[t + 1], With(s.(nowLevel := nowLevel), t, pc, update);
             LevelsLinked(pc, node.height) == LevelsLinked(s.inserters[t].pc, node.height) && PcOk(s', pc, update, node.key, node.height)
    ensures Good(With(s.(nowLevel := nowLevel), t, pc, update))
    ensures Extends(s, With(s.(nowLevel := nowLevel), t, pc, update))
  {
    var s' := With(s.(nowLevel := nowLevel), t, pc, update);
    assert Extends(s, s') by {
      forall i: nat, c: nat {:trigger Linked(s, i, c)} | Linked(s, i, c) ensures LinkKept(s, s', i, c) {}
    }
    forall i: nat | i < |s'.chains| ensures LevelOk(s', i) { assert LevelOk(s, i); }
    assert Nested(s') by {
      forall i: nat, n: nat {:trigger Linked(s', i, n)} | i > 0 && Linked(s', i, n) ensures Linked(s', i - 1, n) {
        assert Linked(s, i, n) && Linked(s, i - 1, n);
      }
    }
    forall o: nat | o < |s'.inserters| ensures InserterOk(s', o) {
      assert InserterOk(s, o) && NoNewLinks(s, s', o + 1);
      if o != t { OtherKept(s, s', o); } else { SameLevels(s, s', t + 1, LevelsLinked(pc, s.nodes[t + 1].height)); }
    }
  }

  lemma TaskMoves(s: State, t: nat, pc: Pc, update: map<nat, nat>)
    requires Good(s) && t < |s.inserters|
    requires var node := s.nodes[t + 1];
             LevelsLinked(pc, node.height) == LevelsLinked(s.inserters[t].pc, node.height) && PcOk(s, pc, update, node.key, node.height)
    ensures Good(With(s, t, pc, update)) && Extends(s, With(s, t, pc, update))
  {
    var s', node := With(s, t, pc, update), s.nodes[t + 1];
    forall i: nat, c: nat {:trigger Linked(s, i, c)} | Linked(s, i, c) ensures LinkKept(s, s', i, c) {}
    PcKept(s, s', pc, update, node.key, node.height);
    MoveKeeps(s, t, pc, update, s.nowLevel);
    assert s == s.(nowLevel := s.nowLevel);
  }

  /** The smaller node found next is linked, too. */
  lemma NextIsBefore(s: State, i: nat, c: nat, key: int)
    requires Good(s) && Before(s, i, c, key) && NextSmaller(s, i, c, key)
    ensures Before(s, i, s.next[i][c], key)
  {
    assert LevelOk(s, i) && LinkAt(s.next[i], s.chains[i], Position(s.chains[i], c));
  }

  /** The locked section has linked the node of inserter t on one more level, and no other node. */
  lemma InsertersKept(s: State, s': State, t: nat, i: nat, pc: Pc)
    requires Good(s) && t < |s.inserters| && s.inserters[t].pc == Lock(i) && Extends(s, s') && s'.nodes == s.nodes
    requires s'.inserters == s.inserters[t := Inserter(pc, s.inserters[t].update)]
    requires pc == if i + 1 < s.nodes[t + 1].height then Lock(i + 1) else Load
    requires forall j: nat, m: nat :: Linked(s', j, m) <==> Linked(s, j, m) || (j == i && m == t + 1)
    ensures forall o: nat :: o < |s'.inserters| ==> InserterOk(s', o)
  {
    var n, height, update := t + 1, s.nodes[t + 1].height, s.inserters[t].update;
    forall o: nat | o < |s'.inserters| ensures InserterOk(s', o) {
      assert InserterOk(s, o);
      if o != t {
        assert NoNewLinks(s, s', o + 1);
        OtherKept(s, s', o);
      } else {
        PcKept(s, s', Lock(i), update, s.nodes[n].key, height);
        forall j: nat | j < |s'.chains| ensures Linked(s', j, n) <==> j < LevelsLinked(pc, height) {
          assert Linked(s, j, n) <==> j < i;
        }
      }
    }
  }

  lemma SpliceKeeps(s: State, t: nat, i: nat, pc: Pc)
    requires Good(s) && t < |s.inserters| && s.inserters[t].pc == Lock(i) && i in s.inserters[t].update
    requires !NextSmaller(s, i, s.inserters[t].update[i], s.nodes[t + 1].key)
    requires pc == if i + 1 < s.nodes[t + 1].height then Lock(i + 1) else Load
    ensures MaySplice(s, i, s.inserters[t].update[i], t + 1) && s.inserters[t].update[i] < |s.next[i]|
    ensures var s' := With(Splice(s, i, s.inserters[t].update[i], t + 1), t, pc, s.inserters[t].update);
            Good(s') && Extends(s, s')
  {
    var n, height, update := t + 1, s.nodes[t + 1].height, s.inserters[t].update;
    var u := update[i];
    assert InserterOk(s, t) && UpdateOk(s, update, i, s.nodes[n].key) && LevelOk(s, i);
    SpliceLevel(s, i, u, n);
    SpliceExtends(s, i, u, n);
    var spliced := Splice(s, i, u, n);
    var s' := With(spliced, t, pc, update);
    forall j: nat, c: nat {:trigger Linked(s, j, c)} | Linked(s, j, c) ensures LinkKept(s, s', j, c) {
      assert LinkKept(s, spliced, j, c);
    }
    forall j: nat | j < |s'.chains| ensures LevelOk(s', j) { assert LevelOk(s, j); }
    forall j: nat, m: nat ensures Linked(s', j, m) <==> Linked(s, j, m) || (j == i && m == n) {
      SpliceLinks(s, i, u, n, j, m);
    }
    assert Nested(s') by {
      forall j: nat, m: nat {:trigger Linked(s', j, m)} | j > 0 && Linked(s', j, m) ensures Linked(s', j - 1, m) {
        if Linked(s, j, m) { assert Linked(s, j - 1, m); } else { assert Linked(s, i - 1, n); }
      }
    }
    InsertersKept(s, s', t, i, pc);
  }

  lemma UpdatesChanged(s: State, update: map<nat, nat>, i: nat, c: nat, height: nat, key: int)
    requires UpdatesOk(s, update, i + 1, height, key) && Before(s, i, c, key)
    ensures UpdatesOk(s, update[i := c], i, height, key)
  {
    var update' := update[i := c];
    forall j: nat | i <= j < height ensures UpdateOk(s, update', j, key) {
      if j > i { assert UpdateOk(s, update, j, key); }
    }
  }

  lemma SearchGoesDown(s: State, t: nat, i: nat, c: nat)
    requires Good(s) && t < |s.inserters| && s.inserters[t].pc == Test(i, c) && !NextSmaller(s, i, c, s.nodes[t + 1].key)
    ensures Good(Step(s, t)) && Extends(s, Step(s, t))
  {
    var key, height, update := s.nodes[t + 1].key, s.nodes[t + 1].height, s.inserters[t].update;
    assert InserterOk(s, t);
    UpdatesChanged(s, update, i, c, height, key);
    if i == 0 {
      TaskMoves(s, t, Lock(0), update[i := c]);
    } else {
      assert Linked(s, i, c) && Linked(s, i - 1, c);
      TaskMoves(s, t, Test(i - 1, c), update[i := c]);
    }
  }

  lemma SearchGoesOn(s: State, t: nat, i: nat, c: nat)
    requires Good(s) && t < |s.inserters| && s.inserters[t].pc == Advance(i, c)
    ensures Good(Step(s, t)) && Extends(s, Step(s, t))
  {
    assert InserterOk(s, t);
    NextIsBefore(s, i, c, s.nodes[t + 1].key);
    TaskMoves(s, t, Test(i, s.next[i][c]), s.inserters[t].update);
  }

  lemma LockedSection(s: State, t: nat, i: nat)
    requires Good(s) && t < |s.inserters| && s.inserters[t].pc == Lock(i)
    ensures Good(Step(s, t)) && Extends(s, Step(s, t))
  {
    var key, height, update := s.nodes[t + 1].key, s.nodes[t + 1].height, s.inserters[t].update;
    assert InserterOk(s, t) && UpdateOk(s, update, i, key);
    if NextSmaller(s, i, update[i], key) {
      TaskMoves(s, t, MoveOn(i), update);
    } else {
      SpliceKeeps(s, t, i, if i + 1 < height then Lock(i + 1) else Load);
    }
  }

  lemma LockGoesOn(s: State, t: nat, i: nat)
    requires Good(s) && t < |s.inserters| && s.inserters[t].pc == MoveOn(i)
    ensures Good(Step(s, t)) && Extends(s, Step(s, t))
  {
    var key, height, update := s.nodes[t + 1].key, s.nodes[t + 1].height, s.inserters[t].update;
    assert InserterOk(s, t) && UpdateOk(s, update, i, key);
    NextIsBefore(s, i, update[i], key);
    UpdatesChanged(s, update, i, s.next[i][update[i]], height, key);
    TaskMoves(s, t, Lock(i), update[i := s.next[i][update[i]]]);
  }

  /** No step of an inserter breaks the list, unlinks a node or puts a larger node where a smaller one was. */
  lemma StepKeeps(s: State, t: nat)
    requires Good(s) && t < |s.inserters|
    ensures Good(Step(s, t)) && Extends(s, Step(s, t))
  {
    var key, height, update := s.nodes[t + 1].key, s.nodes[t + 1].height, s.inserters[t].update;
    assert InserterOk(s, t);
    match s.inserters[t].pc
    case Test(i, c) =>
      if NextSmaller(s, i, c, key) { TaskMoves(s, t, Advance(i, c), update); } else { SearchGoesDown(s, t, i, c); }
    case Advance(i, c) => SearchGoesOn(s, t, i, c);
    case Lock(i) => LockedSection(s, t, i);
    case MoveOn(i) => LockGoesOn(s, t, i);
    case Load => TaskMoves(s, t, if s.nowLevel < height then Cas(s.nowLevel) else Done, update);
    case Cas(seen) =>
      if s.nowLevel == seen { MoveKeeps(s, t, Done, update, height); } else { TaskMoves(s, t, Load, update); }
    case Done => MoveKeeps(s, t, Done, update, s.nowLevel);
  }
}
