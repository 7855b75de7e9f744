/** A lookup that runs while inserters move. It takes its steps between theirs: it reads one pointer at a time,
    goes down behind smaller keys, and then along the bottom level. */
module ConcurrentLookup {
  import opened ConcurrentRuns
  import opened ConcurrentSkipList
  import opened Counting
  import SkipFind
  import opened SkipLevel

  /** Where a lookup is. */
  datatype Spot =
    | Look(level: nat, curr: nat)   // about to compare the node after `curr`
    | Go(level: nat, curr: nat)     // found it smaller: about to read the pointer again and go there
    | Enter(curr: nat)              // about to read the first node to visit
    | Visit(node: nat)              // about to compare this node, and to read the pointer behind it
    | Answered

  /** A lookup of the keys lo .. hi - 1: its answer so far, and the nodes it is taken from. */
  datatype Lookup = Lookup(spot: Spot, lo: int, hi: int, found: seq<int>, taken: seq<nat>)

  function Begin(s: State, lo: int, hi: int): Lookup {
    Lookup(if s.nowLevel > 0 then Look(s.nowLevel - 1, HEAD) else Enter(HEAD), lo, hi, [], [])
  }

  // ---------- order on a chain ----------

  ghost predicate Places(chain: seq<nat>, a: nat, b: nat, p: nat, q: nat) {
    p < q < |chain| && chain[p] == a && chain[q] == b
  }

  /** b stands behind a. */
  ghost predicate Behind(chain: seq<nat>, a: nat, b: nat) {
    exists p: nat, q: nat :: Places(chain, a, b, p, q)
  }

  lemma InsertedOrder(chain: seq<nat>, at: nat, n: nat, a: nat, b: nat)
    requires at < |chain| && Behind(chain, a, b)
    ensures Behind(Inserted(chain, at, n), a, b)
  {
    var p: nat, q: nat :| Places(chain, a, b, p, q);
    assert Places(Inserted(chain, at, n), a, b, if p <= at then p else p + 1, if q <= at then q else q + 1);
  }

  /** No event changes the order of the bottom level. */
  lemma OrderKept(s: State, e: Event, a: nat, b: nat)
    requires Good(s) && Possible(s, e) && |s.chains| > 0 && Behind(s.chains[0], a, b)
    ensures |After(s, e).chains| > 0 && Behind(After(s, e).chains[0], a, b)
  {
    match e
    case Arrive(_, _, _) =>
    case Move(t) => MoveKeepsOrder(s, t, a, b);
  }

  lemma MoveKeepsOrder(s: State, t: nat, a: nat, b: nat)
    requires Good(s) && t < |s.inserters| && |s.chains| > 0 && Behind(s.chains[0], a, b)
    ensures |Step(s, t).chains| > 0 && Behind(Step(s, t).chains[0], a, b)
  {
    var u, key := s.inserters[t].update, s.nodes[t + 1].key;
    assert InserterOk(s, t);
    match s.inserters[t].pc
    case Lock(i) =>
      assert UpdateOk(s, u, i, key) && LevelOk(s, i);
      if i == 0 && !NextSmaller(s, 0, u[0], key) { InsertedOrder(s.chains[0], Position(s.chains[0], u[0]), t + 1, a, b); }
    case _ =>
      assert Step(s, t).chains == s.chains;
  }

  lemma BehindOnce(next: seq<int>, chain: seq<nat>, a: nat, b: nat)
    requires Spells(next, chain) && Behind(chain, a, b)
    ensures a != b
  {
    var p: nat, q: nat :| Places(chain, a, b, p, q);
    NoRepeat(next, chain, p, q);
  }

  lemma BehindFrom(next: seq<int>, chain: seq<nat>, a: nat, b: nat, c: nat)
    requires Spells(next, chain) && Behind(chain, a, b) && Behind(chain, b, c)
    ensures Behind(chain, a, c)
  {
    var p: nat, q: nat :| Places(chain, a, b, p, q);
    var q': nat, r: nat :| Places(chain, b, c, q', r);
    if q < q' { NoRepeat(next, chain, q, q'); }
    if q' < q { NoRepeat(next, chain, q', q); }
    assert Places(chain, a, c, p, r);
  }

  /** The pointer of a node leads to the node behind it; there is nothing between, and nothing behind the last. */
  lemma NextBehind(next: seq<int>, chain: seq<nat>, n: nat)
    requires Spells(next, chain) && n in chain
    ensures n < |next| && (next[n] == NULL || (next[n] > 0 && next[n] in chain && Behind(chain, n, next[n])))
    ensures forall m: nat :: Behind(chain, n, m) ==> next[n] != NULL && (m == next[n] || Behind(chain, next[n], m))
  {
    var p := Position(chain, n);
    assert LinkAt(next, chain, p);
    if p + 1 < |chain| {
      assert Places(chain, n, next[n], p, p + 1);
      NoRepeat(next, chain, 0, p + 1);
    }
    forall m: nat | Behind(chain, n, m) ensures next[n] != NULL && (m == next[n] || Behind(chain, next[n], m)) {
      var p': nat, q: nat :| Places(chain, n, m, p', q);
      if p < p' { NoRepeat(next, chain, p, p'); }
      if p' < p { NoRepeat(next, chain, p', p); }
      if q > p + 1 { assert Places(chain, next[n], m, p + 1, q); }
    }
  }

  lemma BehindLarger(nodes: seq<Node>, chain: seq<nat>, a: nat, b: nat)
    requires Sorted(nodes, chain) && chain != [] && chain[0] == HEAD && Behind(chain, a, b) && a != HEAD
    ensures 0 < a < |nodes| && 0 < b < |nodes| && nodes[a].key <= nodes[b].key
  {
    var p: nat, q: nat :| Places(chain, a, b, p, q);
    assert InKeyOrder(nodes, chain, p, q);
  }

  /** A node with a larger key stands behind. */
  lemma LargerBehind(nodes: seq<Node>, chain: seq<nat>, c: nat, m: nat, key: int)
    requires Sorted(nodes, chain) && chain != [] && chain[0] == HEAD && c in chain && m in chain && m != HEAD && m < |nodes|
    requires c == HEAD || (c < |nodes| && nodes[c].key < key)
    requires nodes[m].key >= key
    ensures Behind(chain, c, m)
  {
    var q := Position(chain, m);
    if c == HEAD {
      assert Places(chain, c, m, 0, q);
    } else {
      var p := Position(chain, c);
      assert InKeyOrder(nodes, chain, if p < q then p else q, if p < q then q else p);
      assert Places(chain, c, m, p, q);
    }
  }

  // ---------- steps ----------

  predicate InRange(nodes: seq<Node>, l: Lookup, m: nat) {
    0 < m < |nodes| && l.lo <= nodes[m].key < l.hi
  }

  /** A node that the lookup must find: linked on the bottom level of s0, where the lookup began. */
  ghost predicate Wanted(s0: State, l: Lookup, m: nat) {
    Linked(s0, 0, m) && InRange(s0.nodes, l, m)
  }

  ghost predicate SpotOk(s: State, l: Lookup) {
    match l.spot
    case Look(i, c) => i < |s.chains| && Before(s, i, c, l.lo)
    case Go(i, c) => i < |s.chains| && Before(s, i, c, l.lo) && NextSmaller(s, i, c, l.lo)
    case Enter(c) => Before(s, 0, c, l.lo)
    case Visit(n) => Linked(s, 0, n) && n != HEAD
    case Answered => true
  }

  /** The k-th taken node is in range, was not taken before, and is behind the lookup. */
  ghost predicate TakenOk(s: State, l: Lookup, k: nat)
    requires k < |l.taken| && |s.chains| > 0
  {
    && Linked(s, 0, l.taken[k]) && InRange(s.nodes, l, l.taken[k])
    && (l.spot.Visit? ==> Behind(s.chains[0], l.taken[k], l.spot.node))
    && forall j: nat :: j < k ==> l.taken[j] != l.taken[k]
  }

  /** The lookup is still to come to the node. */
  ghost predicate Ahead(s: State, l: Lookup, m: nat)
    requires |s.chains| > 0
  {
    match l.spot
    case Visit(n) => m == n || Behind(s.chains[0], n, m)
    case Answered => false
    case _ => true
  }

  /** A node to be found is taken already, or ahead. */
  ghost predicate NotMissed(s: State, l: Lookup, m: nat)
    requires |s.chains| > 0
  {
    Linked(s, 0, m) && InRange(s.nodes, l, m) && (m in l.taken || Ahead(s, l, m))
  }

  function Values(nodes: seq<Node>, taken: seq<nat>, k: nat): seq<int>
    requires k <= |taken|
  {
    if k == 0 then [] else Values(nodes, taken, k - 1) + if taken[k - 1] < |nodes| then [SkipFind.Cut32(nodes[taken[k - 1]].value)] else []
  }

  ghost predicate LookOk(s0: State, s: State, l: Lookup) {
    && |s.chains| > 0 && SpotOk(s, l) && (l.taken == [] || l.spot.Visit? || l.spot.Answered?)
    && l.found == Values(s.nodes, l.taken, |l.taken|)
    && (forall k: nat :: k < |l.taken| ==> TakenOk(s, l, k))
    && forall m: nat {:trigger Wanted(s0, l, m)} :: Wanted(s0, l, m) ==> NotMissed(s, l, m)
  }

  function To(next: int): Spot {
    if next >= 0 then Visit(next) else Answered
  }

  /** The next step of a lookup. */
  function LookStep(s: State, l: Lookup): Lookup
    requires Good(s) && |s.chains| > 0 && SpotOk(s, l)
  {
    match l.spot
    case Look(i, c) => l.(spot := if NextSmaller(s, i, c, l.lo) then Go(i, c) else if i == 0 then Enter(c) else Look(i - 1, c))
    case Go(i, c) => l.(spot := Look(i, s.next[i][c]))
    case Enter(c) =>
      assert LevelOk(s, 0);
      NextBehind(s.next[0], s.chains[0], c);
      l.(spot := To(s.next[0][c]))
    case Visit(n) =>
      assert LevelOk(s, 0);
      NextBehind(s.next[0], s.chains[0], n);
      if s.nodes[n].key < l.lo then l.(spot := To(s.next[0][n]))
      else if s.nodes[n].key >= l.hi then l.(spot := Answered)
      else l.(spot := To(s.next[0][n]), found := l.found + [SkipFind.Cut32(s.nodes[n].value)], taken := l.taken + [n])
    case Answered => l
  }

  lemma BeginOk(s: State, lo: int, hi: int)
    requires Good(s) && |s.chains| > 0
    ensures LookOk(s, s, Begin(s, lo, hi))
  {
    assert LevelOk(s, 0) && LevelOk(s, if s.nowLevel > 0 then s.nowLevel - 1 else 0);
  }

  lemma DownKeeps(s0: State, s: State, l: Lookup)
    requires Good(s) && LookOk(s0, s, l) && (l.spot.Look? || l.spot.Go?)
    ensures LookOk(s0, s, LookStep(s, l))
  {
    var l' := LookStep(s, l);
    forall m: nat {:trigger Wanted(s0, l', m)} | Wanted(s0, l', m) ensures NotMissed(s, l', m) { assert Wanted(s0, l, m); }
    match l.spot
    case Look(i, c) => if i > 0 { assert Linked(s, i, c) && Linked(s, i - 1, c); }
    case Go(i, c) => NextIsBefore(s, i, c, l.lo);
  }

  lemma EnterKeeps(s0: State, s: State, l: Lookup)
    requires Good(s) && LookOk(s0, s, l) && l.spot.Enter?
    ensures LookOk(s0, s, LookStep(s, l))
  {
    var c, l' := l.spot.curr, LookStep(s, l);
    assert LevelOk(s, 0);
    NextBehind(s.next[0], s.chains[0], c);
    forall m: nat {:trigger Wanted(s0, l', m)} | Wanted(s0, l', m) ensures NotMissed(s, l', m) {
      assert Wanted(s0, l, m) && NotMissed(s, l, m);
      LargerBehind(s.nodes, s.chains[0], c, m, l.lo);
    }
  }

  /** A visited node is passed: nothing that must be found is lost. */
  lemma VisitMisses(s0: State, s: State, l: Lookup, m: nat)
    requires Good(s) && LookOk(s0, s, l) && l.spot.Visit? && Wanted(s0, l, m)
    ensures NotMissed(s, LookStep(s, l), m)
  {
    var n := l.spot.node;
    assert NotMissed(s, l, m) && LevelOk(s, 0);
    NextBehind(s.next[0], s.chains[0], n);
    if m !in l.taken && m != n { BehindLarger(s.nodes, s.chains[0], n, m); }
  }

  lemma VisitTakes(s0: State, s: State, l: Lookup, k: nat)
    requires Good(s) && LookOk(s0, s, l) && l.spot.Visit? && k < |LookStep(s, l).taken|
    ensures TakenOk(s, LookStep(s, l), k)
  {
    var n, l', next, chain := l.spot.node, LookStep(s, l), s.next[0], s.chains[0];
    assert LevelOk(s, 0);
    NextBehind(next, chain, n);
    if k < |l.taken| {
      assert TakenOk(s, l, k);
      if l'.spot.Visit? { BehindFrom(next, chain, l.taken[k], n, l'.spot.node); }
    } else {
      NodeKnown(s, n);
      forall j: nat | j < k ensures l'.taken[j] != n {
        assert TakenOk(s, l, j);
        BehindOnce(next, chain, l.taken[j], n);
      }
    }
  }

  lemma NodeKnown(s: State, n: nat)
    requires Good(s) && Linked(s, 0, n) && n != HEAD
    ensures n < |s.nodes|
  {
    assert LevelOk(s, 0);
    var p := Position(s.chains[0], n);
    assert InKeyOrder(s.nodes, s.chains[0], p, p);
  }

  lemma {:induction false} ValuesSame(nodes: seq<Node>, nodes': seq<Node>, a: seq<nat>, b: seq<nat>, k: nat)
    requires k <= |a| && k <= |b| && nodes <= nodes' && forall j: nat :: j < k ==> a[j] == b[j] < |nodes|
    ensures Values(nodes, a, k) == Values(nodes', b, k)
  {
    if k > 0 { ValuesSame(nodes, nodes', a, b, k - 1); }
  }

  lemma VisitKeeps(s0: State, s: State, l: Lookup)
    requires Good(s) && LookOk(s0, s, l) && l.spot.Visit?
    ensures LookOk(s0, s, LookStep(s, l))
  {
    var n, l' := l.spot.node, LookStep(s, l);
    assert LevelOk(s, 0);
    NextBehind(s.next[0], s.chains[0], n);
    NodeKnown(s, n);
    forall k: nat | k < |l'.taken| ensures TakenOk(s, l', k) { VisitTakes(s0, s, l, k); }
    forall k: nat | k < |l.taken| ensures l.taken[k] < |s.nodes| { assert TakenOk(s, l, k); }
    ValuesSame(s.nodes, s.nodes, l.taken, l'.taken, |l.taken|);
    forall m: nat {:trigger Wanted(s0, l', m)} | Wanted(s0, l', m) ensures NotMissed(s, l', m) {
      assert Wanted(s0, l, m);
      VisitMisses(s0, s, l, m);
    }
  }

  lemma LookKeeps(s0: State, s: State, l: Lookup)
    requires Good(s) && LookOk(s0, s, l)
    ensures LookOk(s0, s, LookStep(s, l))
  {
    match l.spot
    case Visit(_) => VisitKeeps(s0, s, l);
    case Enter(_) => EnterKeeps(s0, s, l);
    case Answered =>
    case _ => DownKeeps(s0, s, l);
  }

  // ---------- while inserters move ----------

  lemma OthersKeepSpot(s: State, e: Event, l: Lookup)
    requires Good(s) && Possible(s, e) && |s.chains| > 0 && SpotOk(s, l)
    ensures SpotOk(After(s, e), l)
  {
    EventKeeps(s, e);
    var s' := After(s, e);
    match l.spot
    case Look(i, c) => assert LinkKept(s, s', i, c);
    case Go(i, c) => assert LinkKept(s, s', i, c);
    case Enter(c) => assert LinkKept(s, s', 0, c);
    case Visit(n) => assert LinkKept(s, s', 0, n);
    case Answered =>
  }

  lemma OthersKeep(s0: State, s: State, e: Event, l: Lookup)
    requires Good(s) && Possible(s, e) && LookOk(s0, s, l)
    ensures LookOk(s0, After(s, e), l)
  {
    var s' := After(s, e);
    EventKeeps(s, e);
    OthersKeepSpot(s, e, l);
    forall k: nat | k < |l.taken| ensures TakenOk(s', l, k) && l.taken[k] < |s.nodes| {
      assert TakenOk(s, l, k) && LinkKept(s, s', 0, l.taken[k]);
      if l.spot.Visit? { OrderKept(s, e, l.taken[k], l.spot.node); }
    }
    ValuesSame(s.nodes, s'.nodes, l.taken, l.taken, |l.taken|);
    forall m: nat {:trigger Wanted(s0, l, m)} | Wanted(s0, l, m) ensures NotMissed(s', l, m) {
      assert NotMissed(s, l, m) && LinkKept(s, s', 0, m);
      if l.spot.Visit? && m !in l.taken && m != l.spot.node { OrderKept(s, e, l.spot.node, m); }
    }
  }

  // ---------- runs ----------

  /** A step of the lookup, or of the inserters. */
  datatype Turn = Mine | Others(e: Event)

  ghost predicate TurnAt(run: seq<State>, looks: seq<Lookup>, turns: seq<Turn>, k: nat)
    requires k < |turns| && k + 1 < |run| && k + 1 < |looks|
  {
    Good(run[k]) && |run[k].chains| > 0 && SpotOk(run[k], looks[k]) ==>
      match turns[k]
      case Mine => run[k + 1] == run[k] && looks[k + 1] == LookStep(run[k], looks[k])
      case Others(e) => Possible(run[k], e) && run[k + 1] == After(run[k], e) && looks[k + 1] == looks[k]
  }

  /** A lookup that begins on a good list, and whatever inserters arrive and move meanwhile. */
  ghost predicate IsLookupRun(run: seq<State>, looks: seq<Lookup>, turns: seq<Turn>, lo: int, hi: int) {
    && |run| == |looks| == |turns| + 1 && Good(run[0]) && |run[0].chains| > 0 && looks[0] == Begin(run[0], lo, hi)
    && forall k: nat :: k < |turns| ==> TurnAt(run, looks, turns, k)
  }

  lemma {:induction false} LookupRunIsOk(run: seq<State>, looks: seq<Lookup>, turns: seq<Turn>, lo: int, hi: int, k: nat)
    requires IsLookupRun(run, looks, turns, lo, hi) && k < |run|
    ensures Good(run[k]) && LookOk(run[0], run[k], looks[k]) && looks[k].lo == lo && looks[k].hi == hi
  {
    if k == 0 {
      BeginOk(run[0], lo, hi);
    } else {
      var j := k - 1;
      LookupRunIsOk(run, looks, turns, lo, hi, j);
      assert TurnAt(run, looks, turns, j);
      match turns[j]
      case Mine => LookKeeps(run[0], run[j], looks[j]);
      case Others(e) =>
        EventKeeps(run[j], e);
        OthersKeep(run[0], run[j], e, looks[j]);
    }
  }

  /** The finished lookup has taken every node in range that was linked when it began, and no node twice or out of
      range. */
  lemma NothingMissed(run: seq<State>, looks: seq<Lookup>, turns: seq<Turn>, lo: int, hi: int, k: nat)
    requires IsLookupRun(run, looks, turns, lo, hi) && k < |run| && looks[k].spot.Answered?
    ensures forall m: nat :: Linked(run[0], 0, m) && InRange(run[0].nodes, looks[k], m) ==> m in looks[k].taken
    ensures forall i: nat :: i < |looks[k].taken| ==> Linked(run[k], 0, looks[k].taken[i]) && InRange(run[k].nodes, looks[k], looks[k].taken[i])
    ensures forall i: nat, j: nat :: i < j < |looks[k].taken| ==> looks[k].taken[i] != looks[k].taken[j]
    ensures looks[k].found == Values(run[k].nodes, looks[k].taken, |looks[k].taken|)
  {
    LookupRunIsOk(run, looks, turns, lo, hi, k);
    var s, l := run[k], looks[k];
    forall m: nat | Linked(run[0], 0, m) && InRange(run[0].nodes, l, m) ensures m in l.taken { assert Wanted(run[0], l, m) && NotMissed(s, l, m); }
    forall i: nat | i < |l.taken| ensures Linked(s, 0, l.taken[i]) && InRange(s.nodes, l, l.taken[i]) { assert TakenOk(s, l, i); }
    forall i: nat, j: nat | i < j < |l.taken| ensures l.taken[i] != l.taken[j] { assert TakenOk(s, l, j); }
  }

  // ---------- how often a value is found ----------

  /** The list holds no node twice. */
  ghost predicate Single(ids: seq<nat>) {
    forall i: nat, j: nat :: i < j < |ids| ==> ids[i] != ids[j]
  }

  /** Every node of a that counts is in b. */
  ghost predicate Within(nodes: seq<Node>, a: seq<nat>, b: seq<nat>, lo: int, hi: int, v: int) {
    forall i: nat :: i < |a| && SkipFind.Matches(nodes, a[i], lo, hi, v) ==> a[i] in b
  }

  lemma SingleWithout(ids: seq<nat>, p: nat, rest: seq<nat>)
    requires Single(ids) && p < |ids| && rest == ids[..p] + ids[p + 1..]
    ensures Single(rest) && forall m: nat :: m in rest <==> m in ids && m != ids[p]
  {
    forall i: nat, j: nat | i < j < |rest| ensures rest[i] != rest[j] {
      assert rest[i] == ids[if i < p then i else i + 1] && rest[j] == ids[if j < p then j else j + 1];
    }
    forall m: nat ensures m in rest <==> m in ids && m != ids[p] {
      if m in ids && m != ids[p] {
        var i := Position(ids, m);
        assert rest[if i < p then i else i - 1] == m;
      }
      if m in rest {
        var i := Position(rest, m);
        assert ids[if i < p then i else i + 1] == m;
      }
    }
  }

  /** Without repetition, a list within another counts no more. */
  lemma {:induction false} WithinCounts(nodes: seq<Node>, a: seq<nat>, b: seq<nat>, lo: int, hi: int, v: int)
    requires Single(a) && Single(b) && Within(nodes, a, b, lo, hi, v)
    ensures SkipFind.Listed(nodes, a, |a|, lo, hi, v) <= SkipFind.Listed(nodes, b, |b|, lo, hi, v)
    decreases |a|
  {
    if a != [] {
      var front, m := a[..|a| - 1], a[|a| - 1];
      SkipFind.ListedSame(nodes, a, front, |front|, lo, hi, v);
      if SkipFind.Matches(nodes, m, lo, hi, v) {
        var p := Position(b, m);
        var rest := b[..p] + b[p + 1..];
        SingleWithout(b, p, rest);
        WithinCounts(nodes, front, rest, lo, hi, v);
        SkipFind.ListedWithout(nodes, b, rest, p, |b|, lo, hi, v);
      } else {
        WithinCounts(nodes, front, b, lo, hi, v);
      }
    }
  }

  lemma {:induction false} ListedLater(nodes: seq<Node>, nodes': seq<Node>, ids: seq<nat>, k: nat, lo: int, hi: int, v: int)
    requires k <= |ids| && nodes <= nodes' && forall i: nat :: i < k ==> ids[i] < |nodes|
    ensures SkipFind.Listed(nodes, ids, k, lo, hi, v) == SkipFind.Listed(nodes', ids, k, lo, hi, v)
  {
    if k > 0 { ListedLater(nodes, nodes', ids, k - 1, lo, hi, v); }
  }

  lemma {:induction false} ValuesListed(nodes: seq<Node>, l: Lookup, k: nat, v: int)
    requires k <= |l.taken| && forall i: nat :: i < |l.taken| ==> InRange(nodes, l, l.taken[i])
    ensures Occurs(Values(nodes, l.taken, k), |Values(nodes, l.taken, k)|, v) == SkipFind.Listed(nodes, l.taken, k, l.lo, l.hi, v)
  {
    if k > 0 {
      ValuesListed(nodes, l, k - 1, v);
      var before := Values(nodes, l.taken, k - 1);
      assert InRange(nodes, l, l.taken[k - 1]);
      OccursIn(before, [SkipFind.Cut32(nodes[l.taken[k - 1]].value)], |before|, v);
    }
  }

  lemma ChainSingle(s: State)
    requires Good(s) && |s.chains| > 0
    ensures Single(s.chains[0]) && forall i: nat :: i < |s.chains[0]| ==> s.chains[0][i] < |s.nodes|
  {
    assert LevelOk(s, 0);
    forall i: nat, j: nat | i < j < |s.chains[0]| ensures s.chains[0][i] != s.chains[0][j] { NoRepeat(s.next[0], s.chains[0], i, j); }
    forall i: nat | i < |s.chains[0]| ensures s.chains[0][i] < |s.nodes| { assert LinkAt(s.next[0], s.chains[0], i); }
  }

  lemma {:induction false} NodesStay(run: seq<State>, looks: seq<Lookup>, turns: seq<Turn>, lo: int, hi: int, k: nat)
    requires IsLookupRun(run, looks, turns, lo, hi) && k < |run|
    ensures run[0].nodes <= run[k].nodes
  {
    if k > 0 {
      NodesStay(run, looks, turns, lo, hi, k - 1);
      LookupRunIsOk(run, looks, turns, lo, hi, k - 1);
      assert TurnAt(run, looks, turns, k - 1);
      if turns[k - 1].Others? { EventKeeps(run[k - 1], turns[k - 1].e); }
    }
  }

  /** A finished lookup gives each value at least as often as the list held it under those keys when the lookup
      began, and at most as often as the list holds it now. */
  lemma AnswerIsBetween(run: seq<State>, looks: seq<Lookup>, turns: seq<Turn>, lo: int, hi: int, k: nat, v: int)
    requires IsLookupRun(run, looks, turns, lo, hi) && k < |run| && looks[k].spot.Answered?
    ensures Good(run[k]) && |run[k].chains| > 0
    ensures var before, now, found := SkipFind.Hits(run[0].nodes, run[0].chains[0], lo, hi), SkipFind.Hits(run[k].nodes, run[k].chains[0], lo, hi), looks[k].found;
      Occurs(before, |before|, v) <= Occurs(found, |found|, v) <= Occurs(now, |now|, v)
  {
    LookupRunIsOk(run, looks, turns, lo, hi, k);
    NothingMissed(run, looks, turns, lo, hi, k);
    NodesStay(run, looks, turns, lo, hi, k);
    var s0, s, l := run[0], run[k], looks[k];
    ChainSingle(s0);
    ChainSingle(s);
    SkipFind.HitsListed(s0.nodes, s0.chains[0], |s0.chains[0]|, lo, hi, v);
    SkipFind.HitsListed(s.nodes, s.chains[0], |s.chains[0]|, lo, hi, v);
    ListedLater(s0.nodes, s.nodes, s0.chains[0], |s0.chains[0]|, lo, hi, v);
    ValuesListed(s.nodes, l, |l.taken|, v);
    WithinCounts(s.nodes, s0.chains[0], l.taken, lo, hi, v);
    WithinCounts(s.nodes, l.taken, s.chains[0], lo, hi, v);
  }

  // ---------- what the events brought ----------

  /** The inserters' events among the first n turns. */
  function OthersOf(turns: seq<Turn>, n: nat): seq<Event>
    requires n <= |turns|
  {
    if n == 0 then [] else OthersOf(turns, n - 1) + if turns[n - 1].Others? then [turns[n - 1].e] else []
  }

  lemma {:induction false} ArrivedSame(a: seq<Event>, b: seq<Event>, n: nat)
    requires n <= |a| && a <= b
    ensures Arrived(a, n) == Arrived(b, n)
  {
    if n > 0 { ArrivedSame(a, b, n - 1); }
  }

  lemma {:induction false} NodesBrought(run: seq<State>, looks: seq<Lookup>, turns: seq<Turn>, lo: int, hi: int, k: nat)
    requires IsLookupRun(run, looks, turns, lo, hi) && k < |run|
    ensures run[k].nodes == run[0].nodes + Arrived(OthersOf(turns, k), |OthersOf(turns, k)|)
  {
    if k > 0 {
      var j := k - 1;
      NodesBrought(run, looks, turns, lo, hi, j);
      LookupRunIsOk(run, looks, turns, lo, hi, j);
      assert TurnAt(run, looks, turns, j);
      var events := OthersOf(turns, j);
      match turns[j]
      case Mine => assert OthersOf(turns, k) == events;
      case Others(e) =>
        ArrivedSame(events, OthersOf(turns, k), |events|);
        if e.Move? { StepKeepsNodes(run[j], e.inserter); }
    }
  }

  function Ids(n: nat): (ids: seq<nat>)
    ensures |ids| == n && forall i: nat :: i < n ==> ids[i] == i
  {
    seq(n, i => i)
  }

  lemma {:induction false} ListedAll(nodes: seq<Node>, ids: seq<nat>, n: nat, lo: int, hi: int, v: int)
    requires n < |ids| && forall i: nat :: i < |ids| ==> ids[i] == i
    ensures SkipFind.Listed(nodes, ids, n + 1, lo, hi, v) == SkipFind.Stored(nodes, n, lo, hi, v)
  {
    if n == 0 {
      assert SkipFind.Listed(nodes, ids, 0, lo, hi, v) == 0;
    } else {
      ListedAll(nodes, ids, n - 1, lo, hi, v);
    }
  }

  /** No list holds a value more often than its nodes. */
  lemma HitsAtMostStored(s: State, lo: int, hi: int, v: int)
    requires Good(s) && |s.chains| > 0
    ensures var now := SkipFind.Hits(s.nodes, s.chains[0], lo, hi);
            Occurs(now, |now|, v) <= SkipFind.Stored(s.nodes, |s.nodes| - 1, lo, hi, v)
  {
    var chain, ids := s.chains[0], Ids(|s.nodes|);
    ChainSingle(s);
    SkipFind.HitsListed(s.nodes, chain, |chain|, lo, hi, v);
    forall i: nat | i < |chain| ensures chain[i] in ids { assert ids[chain[i]] == chain[i]; }
    WithinCounts(s.nodes, chain, ids, lo, hi, v);
    ListedAll(s.nodes, ids, |s.nodes| - 1, lo, hi, v);
  }

  /** In a run of the inserters a lookup begins at moment b. Its answer gives each value at most as often as the
      arrivals until its end brought it under those keys; and if no inserter was at work at the begin, at least as
      often as the arrivals until then. */
  lemma AnswerCountsArrivals(maxLevel: nat, states: seq<State>, events: seq<Event>, b: nat,
                             run: seq<State>, looks: seq<Lookup>, turns: seq<Turn>, lo: int, hi: int, k: nat, v: int)
    requires IsRun(maxLevel, states, events) && b < |states|
    requires IsLookupRun(run, looks, turns, lo, hi) && run[0] == states[b] && k < |run| && looks[k].spot.Answered?
    ensures var found, later := looks[k].found, OthersOf(turns, k);
      && (Quiet(states[b]) ==> Brought(events, b, lo, hi, v) <= Occurs(found, |found|, v))
      && Occurs(found, |found|, v) <= Brought(events, b, lo, hi, v) + Brought(later, |later|, lo, hi, v)
  {
    var later, head := OthersOf(turns, k), [Node(0, 0, maxLevel)];
    RunIsGood(maxLevel, states, events, b);
    AnswerIsBetween(run, looks, turns, lo, hi, k, v);
    if Quiet(states[b]) { QuietAnswer(maxLevel, states, events, b, lo, hi, v); }
    NodesAreArrivals(maxLevel, states, events, b);
    NodesBrought(run, looks, turns, lo, hi, k);
    StoredIsBrought(head, events, b, lo, hi, v);
    StoredIsBrought(run[0].nodes, later, |later|, lo, hi, v);
    HitsAtMostStored(run[k], lo, hi, v);
  }
}
