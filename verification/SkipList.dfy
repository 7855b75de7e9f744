/** The sequential skip list: insertion below a node limit, and lookups by key and by key range. */
module SkipList {
  import opened Counting
  import opened SkipLevel
  import opened SkipFind

  // ---------- the nodes of a level among all nodes in order ----------

  /** The nodes of a list that are linked on level i. */
  function Tall(nodes: seq<Node>, order: seq<nat>, i: nat): seq<nat> {
    if order == [] then []
    else
      var n := order[|order| - 1];
      Tall(nodes, order[..|order| - 1], i) + if n < |nodes| && nodes[n].height > i then [n] else []
  }

  lemma {:induction false} TallJoin(nodes: seq<Node>, a: seq<nat>, b: seq<nat>, i: nat)
    ensures Tall(nodes, a + b, i) == Tall(nodes, a, i) + Tall(nodes, b, i)
  {
    var s := a + b;
    if b == [] {
      assert s == a;
    } else {
      var b', n := b[..|b| - 1], b[|b| - 1];
      assert s[..|s| - 1] == a + b' && s[|s| - 1] == n;
      TallJoin(nodes, a, b', i);
      var x, y, z := Tall(nodes, a, i), Tall(nodes, b', i), if n < |nodes| && nodes[n].height > i then [n] else [];
      assert (x + y) + z == x + (y + z);
    }
  }

  lemma {:induction false} TallMembers(nodes: seq<Node>, order: seq<nat>, i: nat, n: nat)
    ensures n in Tall(nodes, order, i) <==> n in order && n < |nodes| && nodes[n].height > i
  {
    if order != [] { TallMembers(nodes, order[..|order| - 1], i, n); }
  }

  /** A level is what remains of the level below when lower nodes are left out. */
  lemma {:induction false} LevelWithinLevel(nodes: seq<Node>, order: seq<nat>, i: nat)
    ensures Tall(nodes, Tall(nodes, order, i), i + 1) == Tall(nodes, order, i + 1)
  {
    if order != [] {
      var n := order[|order| - 1];
      LevelWithinLevel(nodes, order[..|order| - 1], i);
      TallJoin(nodes, Tall(nodes, order[..|order| - 1], i), if n < |nodes| && nodes[n].height > i then [n] else [], i + 1);
    }
  }

  lemma {:induction false} TallGrown(nodes: seq<Node>, node: Node, order: seq<nat>, i: nat)
    requires forall k :: 0 <= k < |order| ==> order[k] < |nodes|
    ensures Tall(nodes + [node], order, i) == Tall(nodes, order, i)
  {
    if order != [] { TallGrown(nodes, node, order[..|order| - 1], i); }
  }

  // ---------- where a key goes ----------

  /** Behind place p of the chain the keys are not smaller, up to it they are. */
  ghost predicate Cut(nodes: seq<Node>, chain: seq<nat>, p: nat, key: int) {
    && p < |chain|
    && (forall q: nat :: 0 < q < |chain| ==> chain[q] < |nodes|)
    && (forall q: nat :: 0 < q <= p ==> nodes[chain[q]].key < key)
    && (forall q: nat :: p < q < |chain| ==> nodes[chain[q]].key >= key)
  }

  lemma CutOf(nodes: seq<Node>, chain: seq<nat>, p: nat, key: int)
    requires Sorted(nodes, chain) && SmallerAt(nodes, chain, p, key)
    requires p + 1 < |chain| ==> chain[p + 1] < |nodes| && nodes[chain[p + 1]].key >= key
    ensures Cut(nodes, chain, p, key)
  {
    forall q: nat | 0 < q < |chain| ensures chain[q] < |nodes| { assert InKeyOrder(nodes, chain, q, q); }
    forall q: nat | 0 < q <= p ensures nodes[chain[q]].key < key { assert InKeyOrder(nodes, chain, q, p); }
    forall q: nat | p < q < |chain| ensures nodes[chain[q]].key >= key { assert InKeyOrder(nodes, chain, p + 1, q); }
  }

  /** The place of a key in a chain without the head: behind all smaller keys. */
  function Place(nodes: seq<Node>, order: seq<nat>, key: int): (p: nat)
    ensures p <= |order|
  {
    if order == [] then 0
    else if order[0] < |nodes| && nodes[order[0]].key < key then 1 + Place(nodes, order[1..], key)
    else 0
  }

  lemma {:induction false} PlaceIsCut(nodes: seq<Node>, order: seq<nat>, p: nat, key: int)
    requires Cut(nodes, [HEAD] + order, p, key)
    ensures Place(nodes, order, key) == p
  {
    var chain := [HEAD] + order;
    if order != [] {
      assert chain[1] == order[0];
      if p > 0 {
        var rest := [HEAD] + order[1..];
        forall q: nat | 0 < q < |rest| ensures rest[q] == chain[q + 1] {}
        PlaceIsCut(nodes, order[1..], p - 1, key);
      }
    }
  }

  /** All nodes in order, with node n put in by its key. */
  function Ordered(nodes: seq<Node>, order: seq<nat>, n: nat, key: int): seq<nat> {
    var p := Place(nodes, order, key);
    order[..p] + [n] + order[p..]
  }

  lemma CutUnique(nodes: seq<Node>, chain: seq<nat>, p: nat, q: nat, key: int)
    requires Cut(nodes, chain, p, key) && Cut(nodes, chain, q, key)
    ensures p == q
  {
    var a, b := chain[p], chain[q];
  }

  /** The cut of a level lies behind what the level keeps of the nodes before the cut. */
  lemma TallCut(nodes: seq<Node>, order: seq<nat>, i: nat, key: int, p: nat)
    requires Cut(nodes, [HEAD] + order, p, key)
    ensures Tall(nodes, order, i) == Tall(nodes, order[..p], i) + Tall(nodes, order[p..], i)
    ensures Cut(nodes, [HEAD] + Tall(nodes, order, i), |Tall(nodes, order[..p], i)|, key)
  {
    var a, b, all := Tall(nodes, order[..p], i), Tall(nodes, order[p..], i), Tall(nodes, order, i);
    assert order == order[..p] + order[p..];
    TallJoin(nodes, order[..p], order[p..], i);
    var chain, tall := [HEAD] + order, [HEAD] + all;
    forall q: nat | 0 < q < |tall|
      ensures tall[q] < |nodes| && if q <= |a| then nodes[tall[q]].key < key else nodes[tall[q]].key >= key
    {
      if q <= |a| {
        TallMembers(nodes, order[..p], i, tall[q]);
        assert chain[Position(order[..p], tall[q]) + 1] == tall[q];
      } else {
        assert tall[q] == b[q - 1 - |a|];
        TallMembers(nodes, order[p..], i, tall[q]);
        assert chain[p + Position(order[p..], tall[q]) + 1] == tall[q];
      }
    }
  }

  // ---------- the state of a list ----------

  function Chain(nodes: seq<Node>, order: seq<nat>, i: nat): seq<nat> {
    [HEAD] + Tall(nodes, order, i)
  }

  ghost predicate LevelSpells(nodes: seq<Node>, next: seq<int>, order: seq<nat>, i: nat) {
    |next| == |nodes| && Spells(next, Chain(nodes, order, i)) && Sorted(nodes, Chain(nodes, order, i))
  }

  ghost predicate TallAt(nodes: seq<Node>, n: nat, level: nat)
    requires n < |nodes|
  {
    0 < nodes[n].height <= level
  }

  /** `order` lists every node but the head once, and each level links the nodes it has, in that order. */
  ghost predicate ListOk(nodes: seq<Node>, next: seq<seq<int>>, order: seq<nat>, level: nat) {
    && nodes != [] && next != [] && level <= |next| && Once(order, |nodes| - 1)
    && (forall n: nat :: 0 < n < |nodes| ==> TallAt(nodes, n, level))
    && (forall i: nat :: i < |next| ==> LevelSpells(nodes, next[i], order, i))
  }

  lemma {:induction false} BottomIsAll(nodes: seq<Node>, order: seq<nat>)
    requires forall k :: 0 <= k < |order| ==> order[k] < |nodes| && nodes[order[k]].height > 0
    ensures Tall(nodes, order, 0) == order
  {
    if order != [] {
      BottomIsAll(nodes, order[..|order| - 1]);
      assert order == order[..|order| - 1] + [order[|order| - 1]];
    }
  }

  lemma ListBottom(nodes: seq<Node>, next: seq<seq<int>>, order: seq<nat>, level: nat)
    requires ListOk(nodes, next, order, level)
    ensures Tall(nodes, order, 0) == order
    ensures Spells(next[0], [HEAD] + order) && Sorted(nodes, [HEAD] + order)
  {
    forall k: nat | k < |order| ensures order[k] < |nodes| && nodes[order[k]].height > 0 {
      assert IdAt(order, k, |nodes| - 1) && TallAt(nodes, order[k], level);
    }
    BottomIsAll(nodes, order);
    assert LevelSpells(nodes, next[0], order, 0);
  }

  /** The levels of a list as the lookups need them. */
  lemma ListLevels(nodes: seq<Node>, next: seq<seq<int>>, order: seq<nat>, level: nat) returns (chains: seq<seq<nat>>)
    requires ListOk(nodes, next, order, level)
    ensures Levels(nodes, next, chains) && chains[0] == [HEAD] + order
    ensures forall i: nat :: i < |chains| ==> chains[i] == Chain(nodes, order, i)
  {
    chains := seq(|next|, (i: nat) => Chain(nodes, order, i));
    ListBottom(nodes, next, order, level);
    forall i: nat | i < |chains| ensures LevelOk(nodes, next, chains, i) { assert LevelSpells(nodes, next[i], order, i); }
    forall i: nat, n: nat | 0 < i < |chains| ensures OnBoth(chains, i, n) {
      TallMembers(nodes, order, i, n);
      TallMembers(nodes, order, i - 1, n);
    }
  }

  // ---------- what an insertion does ----------

  ghost predicate Spliced(before: seq<int>, after: seq<int>, u: nat, n: nat) {
    u < |before| && n < |before| && after == before[n := before[u]][u := n]
  }

  lemma GrownChain(nodes: seq<Node>, node: Node, next: seq<int>, order: seq<nat>, i: nat)
    requires LevelSpells(nodes, next, order, i) && forall k :: 0 <= k < |order| ==> order[k] < |nodes|
    ensures LevelSpells(nodes + [node], next + [NULL], order, i) && Chain(nodes + [node], order, i) == Chain(nodes, order, i)
    ensures nodes != [] ==> |nodes| !in Chain(nodes, order, i)
  {
    var chain := Chain(nodes, order, i);
    TallGrown(nodes, node, order, i);
    TallMembers(nodes, order, i, |nodes|);
    forall p: nat | p < |chain| ensures LinkAt(next + [NULL], chain, p) { assert LinkAt(next, chain, p); }
    forall p: nat, q: nat | 0 < p <= q < |chain| ensures InKeyOrder(nodes + [node], chain, p, q) { assert InKeyOrder(nodes, chain, p, q); }
  }

  /** The chain of a level after the insertion. */
  lemma ChainInserted(nodes: seq<Node>, order: seq<nat>, i: nat, node: Node, p: nat, q: nat)
    requires nodes != [] && forall k :: 0 <= k < |order| ==> order[k] < |nodes|
    requires Cut(nodes, [HEAD] + order, p, node.key) && Cut(nodes, Chain(nodes, order, i), q, node.key)
    ensures Chain(nodes + [node], Ordered(nodes, order, |nodes|, node.key), i)
         == if i < node.height then Inserted(Chain(nodes, order, i), q, |nodes|) else Chain(nodes, order, i)
  {
    var n, nodes', order' := |nodes|, nodes + [node], Ordered(nodes, order, |nodes|, node.key);
    var a, b := Tall(nodes, order[..p], i), Tall(nodes, order[p..], i);
    PlaceIsCut(nodes, order, p, node.key);
    TallCut(nodes, order, i, node.key, p);
    CutUnique(nodes, Chain(nodes, order, i), q, |a|, node.key);
    TallInserted(nodes, node, order[..p], order[p..], i);
    InsertedBetween(a, b, n);
    assert a + [] + b == a + b;
    assert order' == order[..p] + [n] + order[p..];
  }

  lemma InsertedBetween(a: seq<nat>, b: seq<nat>, n: nat)
    ensures Inserted([HEAD] + (a + b), |a|, n) == [HEAD] + (a + [n] + b)
  {}

  lemma TallInserted(nodes: seq<Node>, node: Node, a: seq<nat>, b: seq<nat>, i: nat)
    requires forall k :: 0 <= k < |a| ==> a[k] < |nodes|
    requires forall k :: 0 <= k < |b| ==> b[k] < |nodes|
    ensures Tall(nodes + [node], a + [|nodes|] + b, i)
         == Tall(nodes, a, i) + (if i < node.height then [|nodes|] else []) + Tall(nodes, b, i)
  {
    var nodes', n := nodes + [node], |nodes|;
    TallJoin(nodes', a + [n], b, i);
    TallJoin(nodes', a, [n], i);
    TallGrown(nodes, node, a, i);
    TallGrown(nodes, node, b, i);
    assert [n][..0] == [];
    assert Tall(nodes', [n], i) == if i < node.height then [n] else [];
  }

  /** A level after the insertion: the node stands in its place there if it is tall enough. */
  lemma LevelInserted(nodes: seq<Node>, next: seq<int>, next': seq<int>, order: seq<nat>, i: nat, node: Node, p: nat, q: nat)
    requires LevelSpells(nodes, next, order, i) && (forall k :: 0 <= k < |order| ==> order[k] < |nodes|) && nodes != []
    requires Cut(nodes, [HEAD] + order, p, node.key) && Cut(nodes, Chain(nodes, order, i), q, node.key)
    requires if i < node.height then Spliced(next + [NULL], next', Chain(nodes, order, i)[q], |nodes|) else next' == next + [NULL]
    ensures LevelSpells(nodes + [node], next', Ordered(nodes, order, |nodes|, node.key), i)
  {
    var n, nodes', chain := |nodes|, nodes + [node], Chain(nodes, order, i);
    GrownChain(nodes, node, next, order, i);
    ChainInserted(nodes, order, i, node, p, q);
    if i < node.height {
      SpliceSpells(next + [NULL], chain, q, n, next');
      SpliceSorted(nodes', chain, q, n);
    }
  }

  /** Node u is the last node of level i with a smaller key, or the head. */
  ghost predicate GoesBehind(nodes: seq<Node>, order: seq<nat>, i: nat, key: int, u: nat, p: nat) {
    Cut(nodes, Chain(nodes, order, i), p, key) && u == Chain(nodes, order, i)[p]
  }

  ghost predicate FoundAt(nodes: seq<Node>, order: seq<nat>, i: nat, key: int, update: seq<nat>, places: seq<nat>) {
    i < |update| == |places| && GoesBehind(nodes, order, i, key, update[i], places[i])
  }

  lemma {:induction false} OnceGrown(order: seq<nat>, n: nat, p: nat)
    requires Once(order, n) && p <= |order|
    ensures Once(order[..p] + [n + 1] + order[p..], n + 1)
  {
    var order', m := order[..p] + [n + 1] + order[p..], n + 1;
    forall k: nat | 0 < k <= m ensures k in order' {
      if k == m { assert order'[p] == m; } else {
        var i := Position(order, k);
        assert order'[if i < p then i else i + 1] == k;
      }
    }
    forall i: nat | i < |order'| ensures IdAt(order', i, m) {
      if i != p { assert IdAt(order, if i < p then i else i - 1, n); }
      forall j: nat | j < i ensures order'[j] != order'[i] {
        if j != p { assert IdAt(order, if j < p then j else j - 1, n); }
      }
    }
  }

  /** Level i when node n has been allocated and linked on the levels below `height`. */
  ghost predicate LevelLinked(before: seq<int>, after: seq<int>, update: seq<nat>, i: nat, height: nat, n: nat) {
    if i < height then i < |update| && Spliced(before + [NULL], after, update[i], n) else after == before + [NULL]
  }

  /** A list whose levels have all been linked is a list again. */
  lemma ListInserted(nodes: seq<Node>, next: seq<seq<int>>, next': seq<seq<int>>, order: seq<nat>, level: nat, level': nat, node: Node,
                     update: seq<nat>, places: seq<nat>)
    requires ListOk(nodes, next, order, level) && 0 < node.height <= |next| == |next'| && |nodes| > 0
    requires level' == if level < node.height then node.height else level
    requires forall i: nat :: i < node.height ==> FoundAt(nodes, order, i, node.key, update, places)
    requires forall i: nat :: i < |next| ==> LevelLinked(next[i], next'[i], update, i, node.height, |nodes|)
    ensures ListOk(nodes + [node], next', Ordered(nodes, order, |nodes|, node.key), level')
  {
    var nodes', order' := nodes + [node], Ordered(nodes, order, |nodes|, node.key);
    ListBottom(nodes, next, order, level);
    assert FoundAt(nodes, order, 0, node.key, update, places);
    OnceGrown(order, |nodes| - 1, Place(nodes, order, node.key));
    forall k: nat | k < |order| ensures order[k] < |nodes| { assert IdAt(order, k, |nodes| - 1); }
    forall n: nat | 0 < n < |nodes'| ensures TallAt(nodes', n, level') {
      if n < |nodes| { assert TallAt(nodes, n, level); }
    }
    forall i: nat | i < |next'| ensures LevelSpells(nodes', next'[i], order', i) {
      assert LevelSpells(nodes, next[i], order, i) && LevelLinked(next[i], next'[i], update, i, node.height, |nodes|);
      if i < node.height {
        assert FoundAt(nodes, order, i, node.key, update, places);
        LevelInserted(nodes, next[i], next'[i], order, i, node, places[0], places[i]);
      } else {
        TallCut(nodes, order, i, node.key, places[0]);
        LevelInserted(nodes, next[i], next'[i], order, i, node, places[0], |Tall(nodes, order[..places[0]], i)|);
      }
    }
  }

  lemma PlaceLinked(nodes: seq<Node>, next: seq<seq<int>>, order: seq<nat>, level: nat, i: nat, u: nat, p: nat, key: int)
    requires ListOk(nodes, next, order, level) && i < |next| && GoesBehind(nodes, order, i, key, u, p)
    ensures u < |next[i]| == |nodes|
  {
    assert LevelSpells(nodes, next[i], order, i) && LinkAt(next[i], Chain(nodes, order, i), p);
  }

  /** A node found on a level is on the level below. */
  lemma LevelDown(nodes: seq<Node>, next: seq<seq<int>>, order: seq<nat>, level: nat, i: nat, p: nat) returns (q: nat)
    requires ListOk(nodes, next, order, level) && 0 < i < |next| && p < |Chain(nodes, order, i)|
    ensures q < |Chain(nodes, order, i - 1)| && Chain(nodes, order, i - 1)[q] == Chain(nodes, order, i)[p] && (q > 0 ==> p > 0)
  {
    var n, below := Chain(nodes, order, i)[p], Chain(nodes, order, i - 1);
    if p == 0 {
      q := 0;
    } else {
      assert n == Tall(nodes, order, i)[p - 1];
      TallMembers(nodes, order, i, n);
      TallMembers(nodes, order, i - 1, n);
      q := Position(below, n);
    }
  }

  /** A lookup answers with each value as often as it was accepted under those keys. */
  lemma AnswerIsComplete(nodes: seq<Node>, next: seq<seq<int>>, order: seq<nat>, level: nat, lo: int, hi: int, v: int)
    requires ListOk(nodes, next, order, level)
    ensures var found := Hits(nodes, order, lo, hi); Occurs(found, |found|, v) == Stored(nodes, |nodes| - 1, lo, hi, v)
  {
    HeadMisses(nodes, order, lo, hi);
    HitsAreStored(nodes, order, |nodes| - 1, lo, hi, v);
  }

  // ---------- the list ----------

  class SkipList {
    const keyLen: nat
    const maxLevel: nat
    /** All nodes in the order they were accepted; node 0 is the head. */
    var nodes: seq<Node>
    /** Their next pointers, by level. */
    var next: seq<seq<int>>
    var level: nat
    var nodeNum: nat
    /** The accepted nodes in list order. */
    ghost var order: seq<nat>

    ghost predicate Valid()
      reads this
    {
      |next| == maxLevel && nodeNum + 1 == |nodes| && ListOk(nodes, next, order, level)
    }

    constructor (keyLen: nat, maxLevel: nat)
      requires maxLevel > 0
      ensures Valid() && this.keyLen == keyLen && this.maxLevel == maxLevel && nodeNum == 0 && order == []
    {
      this.keyLen, this.maxLevel := keyLen, maxLevel;
      nodes, next, level, nodeNum := [Node(0, 0, maxLevel)], seq(maxLevel, _ => [NULL]), 0, 0;
      order := [];
      new;
      forall i: nat | i < maxLevel ensures LevelSpells(nodes, next[i], order, i) {
        assert LinkAt(next[i], [HEAD], 0);
      }
    }

    /** Inserts a key unless the list already has more than `maxNode` nodes; a key of another length is
        dropped without an error. `height` is the random number of levels. */
    method Insert(keyLength: nat, key: int, value: int, maxNode: nat, height: nat) returns (ok: bool)
      requires Valid() && 0 < height <= maxLevel
      modifies this
      ensures Valid()
      ensures ok <==> keyLength != keyLen || old(nodeNum) <= maxNode
      ensures if keyLength == keyLen && ok then
                && nodes == old(nodes) + [Node(key, value, height)]
                && order == Ordered(old(nodes), old(order), |old(nodes)|, key)
              else nodes == old(nodes) && next == old(next) && order == old(order)
    {
      if keyLength != keyLen { return true; }
      var nowNodeNum := nodeNum;
      nodeNum := nodeNum + 1;
      if nowNodeNum > maxNode {
        nodeNum := nodeNum - 1;
        return false;
      }
      var update, places := FindPlaces(key, height);
      var n := |nodes|;
      nodes := nodes + [Node(key, value, height)];
      next := seq(|next|, (i: nat) requires i < |next| reads this => next[i] + [NULL]);
      for i := 0 to height
        invariant |next| == maxLevel && nodes == old(nodes) + [Node(key, value, height)] && order == old(order)
        invariant level == old(level) && nodeNum == n
        invariant forall j: nat :: j < maxLevel ==> LevelLinked(old(next)[j], next[j], update, j, i, n)
      {
        assert FoundAt(old(nodes), old(order), i, key, update, places);
        PlaceLinked(old(nodes), old(next), old(order), old(level), i, update[i], places[i], key);
        assert LevelLinked(old(next)[i], next[i], update, i, i, n);
        ghost var was := next;
        next := next[i := next[i][n := next[i][update[i]]]];
        next := next[i := next[i][update[i] := n]];
        forall j: nat | j < maxLevel ensures LevelLinked(old(next)[j], next[j], update, j, i + 1, n) {
          assert LevelLinked(old(next)[j], was[j], update, j, i, n);
        }
      }
      ListInserted(old(nodes), old(next), next, old(order), old(level), if level < height then height else level, nodes[n], update, places);
      if level < height { level := height; }
      order := Ordered(old(nodes), old(order), n, key);
      ok := true;
    }

    /** The last smaller node of each level, searched from the highest level in use. */
    method FindPlaces(key: int, height: nat) returns (update: seq<nat>, ghost places: seq<nat>)
      requires ListOk(nodes, next, order, level) && |next| == maxLevel && 0 < height <= maxLevel
      ensures forall i: nat :: i < height ==> FoundAt(nodes, order, i, key, update, places)
    {
      update, places := seq(maxLevel, _ => HEAD), seq(maxLevel, _ => 0);
      var curr := HEAD;
      ghost var place: nat := 0;
      var i: nat := if level > height then level else height;
      while i > 0
        invariant 0 <= i <= maxLevel && |update| == |places| == maxLevel
        invariant i > 0 ==> SmallerAt(nodes, Chain(nodes, order, i - 1), place, key) && curr == Chain(nodes, order, i - 1)[place]
        invariant forall j: nat :: i <= j < height ==> FoundAt(nodes, order, j, key, update, places)
      {
        i := i - 1;
        ghost var chain := Chain(nodes, order, i);
        assert LevelSpells(nodes, next[i], order, i) && LinkAt(next[i], chain, place);
        while next[i][curr] != NULL && nodes[next[i][curr]].key < key
          invariant SmallerAt(nodes, chain, place, key) && curr == chain[place] && LinkAt(next[i], chain, place)
          invariant place + 1 < |chain| ==> InKeyOrder(nodes, chain, place + 1, place + 1)
          decreases |chain| - place
        {
          curr := next[i][curr];
          place := place + 1;
          assert LinkAt(next[i], chain, place);
        }
        CutOf(nodes, chain, place, key);
        ghost var wasUpdate, wasPlaces := update, places;
        update, places := update[i := curr], places[i := place];
        forall j: nat | i <= j < height ensures FoundAt(nodes, order, j, key, update, places) {
          if j > i { assert FoundAt(nodes, order, j, key, wasUpdate, wasPlaces); }
        }
        if i > 0 { place := LevelDown(nodes, next, order, level, i, place); }
      }
    }

    /** The values under one key; none for a key of another length. */
    method FindByKey(keyLength: nat, key: int) returns (found: seq<int>)
      requires Valid()
      ensures found == if keyLength == keyLen then Hits(nodes, order, key, key + 1) else []
    {
      if keyLength != keyLen { return []; }
      ghost var chains := ListLevels(nodes, next, order, level);
      found := SkipFind.FindByKey(nodes, next, level, chains, key);
      HeadMisses(nodes, order, key, key + 1);
    }

    /** The values under the keys begin .. end - 1; none if a bound has another length. */
    method FindByRange(beginLength: nat, begin: int, endLength: nat, end: int) returns (found: seq<int>)
      requires Valid()
      ensures found == if beginLength == keyLen && endLength == keyLen then Hits(nodes, order, begin, end) else []
    {
      if beginLength != keyLen || endLength != keyLen { return []; }
      ghost var chains := ListLevels(nodes, next, order, level);
      found := SkipFind.FindByRange(nodes, next, level, chains, begin, end);
      HeadMisses(nodes, order, begin, end);
    }
  }
}
