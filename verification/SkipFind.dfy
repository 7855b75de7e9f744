/** Lookups in a skip list: down from the highest level in use behind all smaller keys, then along the
    bottom level. Both lists, the sequential and the concurrent one, share this code. */
module SkipFind {
  import opened Counting
  import opened SkipLevel

  /** Results are lists of 32-bit numbers; the values have 64 bits. */
  const VALUE_LIMIT: nat := 0x1_0000_0000

  ghost predicate LevelOk(nodes: seq<Node>, next: seq<seq<int>>, chains: seq<seq<nat>>, i: nat)
    requires i < |next| == |chains|
  {
    |next[i]| == |nodes| && Spells(next[i], chains[i]) && Sorted(nodes, chains[i])
  }

  ghost predicate OnBoth(chains: seq<seq<nat>>, i: nat, n: nat)
    requires 0 < i < |chains|
  {
    n in chains[i] ==> n in chains[i - 1]
  }

  /** All levels are sorted chains, each within the one below. */
  ghost predicate Levels(nodes: seq<Node>, next: seq<seq<int>>, chains: seq<seq<nat>>) {
    && |next| == |chains| > 0
    && (forall i: nat :: i < |chains| ==> LevelOk(nodes, next, chains, i))
    && (forall i: nat, n: nat :: 0 < i < |chains| ==> OnBoth(chains, i, n))
  }

  function Cut32(value: int): int {
    value % VALUE_LIMIT
  }

  /** What node n contributes to a lookup of the keys lo .. hi - 1. */
  function Hit(nodes: seq<Node>, n: nat, lo: int, hi: int): seq<int> {
    if 0 < n < |nodes| && lo <= nodes[n].key < hi then [Cut32(nodes[n].value)] else []
  }

  /** The values of the first k given nodes whose keys lie in lo .. hi - 1, in order. */
  function HitsTo(nodes: seq<Node>, ids: seq<nat>, k: nat, lo: int, hi: int): seq<int>
    requires k <= |ids|
  {
    if k == 0 then [] else HitsTo(nodes, ids, k - 1, lo, hi) + Hit(nodes, ids[k - 1], lo, hi)
  }

  function Hits(nodes: seq<Node>, ids: seq<nat>, lo: int, hi: int): seq<int> {
    HitsTo(nodes, ids, |ids|, lo, hi)
  }

  lemma {:induction false} HitsToJoin(nodes: seq<Node>, a: seq<nat>, b: seq<nat>, k: nat, lo: int, hi: int)
    requires k <= |b|
    ensures HitsTo(nodes, a + b, |a| + k, lo, hi) == Hits(nodes, a, lo, hi) + HitsTo(nodes, b, k, lo, hi)
  {
    if k == 0 { HitsToSame(nodes, a + b, a, |a|, lo, hi); } else { HitsToJoin(nodes, a, b, k - 1, lo, hi); }
  }

  lemma {:induction false} HitsToSame(nodes: seq<Node>, a: seq<nat>, b: seq<nat>, k: nat, lo: int, hi: int)
    requires k <= |a| && k <= |b| && forall i :: 0 <= i < k ==> a[i] == b[i]
    ensures HitsTo(nodes, a, k, lo, hi) == HitsTo(nodes, b, k, lo, hi)
  {
    if k > 0 { HitsToSame(nodes, a, b, k - 1, lo, hi); }
  }

  lemma HitsJoin(nodes: seq<Node>, a: seq<nat>, b: seq<nat>, lo: int, hi: int)
    ensures Hits(nodes, a + b, lo, hi) == Hits(nodes, a, lo, hi) + Hits(nodes, b, lo, hi)
  {
    HitsToJoin(nodes, a, b, |b|, lo, hi);
  }

  lemma {:induction false} NoHits(nodes: seq<Node>, ids: seq<nat>, from: nat, k: nat, lo: int, hi: int)
    requires from <= k <= |ids| && forall i: nat :: from <= i < k ==> Hit(nodes, ids[i], lo, hi) == []
    ensures HitsTo(nodes, ids, k, lo, hi) == HitsTo(nodes, ids, from, lo, hi)
    decreases k
  {
    if from < k { NoHits(nodes, ids, from, k - 1, lo, hi); }
  }

  /** A sorted chain holds no hits up to a smaller key, and none from a key on that is too large. */
  lemma SmallerMiss(nodes: seq<Node>, chain: seq<nat>, p: nat, lo: int, hi: int)
    requires Sorted(nodes, chain) && chain != [] && chain[0] == HEAD && SmallerAt(nodes, chain, p, lo)
    ensures HitsTo(nodes, chain, p + 1, lo, hi) == []
  {
    forall i: nat | i <= p ensures Hit(nodes, chain[i], lo, hi) == [] {
      assert i > 0 ==> InKeyOrder(nodes, chain, i, p);
    }
    NoHits(nodes, chain, 0, p + 1, lo, hi);
  }

  lemma LargerMiss(nodes: seq<Node>, chain: seq<nat>, p: nat, lo: int, hi: int)
    requires Sorted(nodes, chain) && 0 < p <= |chain|
    requires p < |chain| ==> chain[p] < |nodes| && nodes[chain[p]].key >= hi
    ensures Hits(nodes, chain, lo, hi) == HitsTo(nodes, chain, p, lo, hi)
  {
    forall i: nat | p <= i < |chain| ensures Hit(nodes, chain[i], lo, hi) == [] {
      assert InKeyOrder(nodes, chain, p, i);
    }
    NoHits(nodes, chain, p, |chain|, lo, hi);
  }

  lemma NodeNext(nodes: seq<Node>, next: seq<int>, chain: seq<nat>, p: nat, lo: int, hi: int)
    requires Spells(next, chain) && Sorted(nodes, chain) && 0 < p < |chain|
    ensures 0 < chain[p] < |nodes| && chain[p] < |next| && AtPlace(chain, p + 1, next[chain[p]])
    ensures HitsTo(nodes, chain, p + 1, lo, hi) == HitsTo(nodes, chain, p, lo, hi) + Hit(nodes, chain[p], lo, hi)
  {
    assert InKeyOrder(nodes, chain, p, p) && LinkAt(next, chain, p);
  }

  // ---------- the lookups ----------

  /** Place p of the chain of level i: the head or a smaller key. */
  ghost predicate SmallerAt(nodes: seq<Node>, chain: seq<nat>, p: nat, key: int) {
    p < |chain| && (p > 0 ==> chain[p] < |nodes| && nodes[chain[p]].key < key)
  }

  /** Goes behind the smaller keys, level by level. */
  method Descend(nodes: seq<Node>, next: seq<seq<int>>, level: nat, ghost chains: seq<seq<nat>>, key: int)
    returns (curr: nat, ghost place: nat)
    requires Levels(nodes, next, chains) && level <= |next|
    ensures SmallerAt(nodes, chains[0], place, key) && curr == chains[0][place]
  {
    curr, place := HEAD, 0;
    assert LevelOk(nodes, next, chains, if level > 0 then level - 1 else 0);
    var i := level;
    while i > 0
      invariant 0 <= i <= level
      invariant var j := if i > 0 then i - 1 else 0; SmallerAt(nodes, chains[j], place, key) && curr == chains[j][place]
    {
      i := i - 1;
      assert LevelOk(nodes, next, chains, i);
      assert LinkAt(next[i], chains[i], place);
      while next[i][curr] != NULL && nodes[next[i][curr]].key < key
        invariant SmallerAt(nodes, chains[i], place, key) && curr == chains[i][place] && LinkAt(next[i], chains[i], place)
        invariant place + 1 < |chains[i]| ==> InKeyOrder(nodes, chains[i], place + 1, place + 1)
        decreases |chains[i]| - place
      {
        curr := next[i][curr];
        place := place + 1;
        assert LinkAt(next[i], chains[i], place);
      }
      if i > 0 {
        assert OnBoth(chains, i, curr) && LevelOk(nodes, next, chains, i - 1);
        place :| place < |chains[i - 1]| && chains[i - 1][place] == curr;
        if place > 0 { NoRepeat(next[i - 1], chains[i - 1], 0, place); }
      }
    }
  }

  /** A pointer that points to place p of a chain, or nowhere behind its end. */
  ghost predicate AtPlace(chain: seq<nat>, p: nat, node: int) {
    p <= |chain| && node == if p < |chain| then chain[p] else NULL
  }

  /** Behind the smaller keys of the bottom level. */
  method Bottom(nodes: seq<Node>, next: seq<seq<int>>, level: nat, ghost chains: seq<seq<nat>>, lo: int, ghost hi: int)
    returns (node: int, ghost p: nat)
    requires Levels(nodes, next, chains) && level <= |next|
    ensures 0 < p && AtPlace(chains[0], p, node) && LevelOk(nodes, next, chains, 0)
    ensures HitsTo(nodes, chains[0], p, lo, hi) == []
  {
    var curr, place := Descend(nodes, next, level, chains, lo);
    assert LevelOk(nodes, next, chains, 0) && LinkAt(next[0], chains[0], place);
    SmallerMiss(nodes, chains[0], place, lo, hi);
    node, p := next[0][curr], place + 1;
  }

  /** The values under one key, in list order. */
  method FindByKey(nodes: seq<Node>, next: seq<seq<int>>, level: nat, ghost chains: seq<seq<nat>>, key: int) returns (found: seq<int>)
    requires Levels(nodes, next, chains) && level <= |next|
    ensures found == Hits(nodes, chains[0], key, key + 1)
  {
    var node, p := Bottom(nodes, next, level, chains, key, key + 1);
    found := CollectKey(nodes, next[0], chains[0], node, p, key);
  }

  /** The walk along the bottom level. */
  method CollectKey(nodes: seq<Node>, next: seq<int>, ghost chain: seq<nat>, begin: int, ghost from: nat, key: int)
    returns (found: seq<int>)
    requires Spells(next, chain) && Sorted(nodes, chain) && 0 < from && AtPlace(chain, from, begin)
    requires HitsTo(nodes, chain, from, key, key + 1) == []
    ensures found == Hits(nodes, chain, key, key + 1)
  {
    found := [];
    var node := begin;
    ghost var p := from;
    while node != NULL
      invariant 0 < p && AtPlace(chain, p, node) && found == HitsTo(nodes, chain, p, key, key + 1)
      decreases |chain| - p
    {
      NodeNext(nodes, next, chain, p, key, key + 1);
      if !(nodes[node].key < key) {
        if nodes[node].key > key { break; }
        found := found + [Cut32(nodes[node].value)];
      }
      node := next[node];
      p := p + 1;
    }
    LargerMiss(nodes, chain, p, key, key + 1);
  }

  /** The values under the keys begin .. end - 1, in list order. */
  method FindByRange(nodes: seq<Node>, next: seq<seq<int>>, level: nat, ghost chains: seq<seq<nat>>, begin: int, end: int)
    returns (found: seq<int>)
    requires Levels(nodes, next, chains) && level <= |next|
    ensures found == Hits(nodes, chains[0], begin, end)
  {
    var node, p := Bottom(nodes, next, level, chains, begin, end);
    found := CollectRange(nodes, next[0], chains[0], node, p, begin, end);
  }

  method CollectRange(nodes: seq<Node>, next: seq<int>, ghost chain: seq<nat>, first: int, ghost from: nat,
                      begin: int, end: int)
    returns (found: seq<int>)
    requires Spells(next, chain) && Sorted(nodes, chain) && 0 < from && AtPlace(chain, from, first)
    requires HitsTo(nodes, chain, from, begin, end) == []
    ensures found == Hits(nodes, chain, begin, end)
  {
    found := [];
    var node := first;
    ghost var p := from;
    while node != NULL
      invariant 0 < p && AtPlace(chain, p, node) && found == HitsTo(nodes, chain, p, begin, end)
      decreases |chain| - p
    {
      NodeNext(nodes, next, chain, p, begin, end);
      if !(nodes[node].key < begin) {
        if nodes[node].key >= end { break; }
        found := found + [Cut32(nodes[node].value)];
      }
      node := next[node];
      p := p + 1;
    }
    LargerMiss(nodes, chain, p, begin, end);
  }

  // ---------- what the answers mean ----------

  /** A value below 2^32 is in the answer as it was stored. */
  lemma {:induction false} SmallValueFound(nodes: seq<Node>, ids: seq<nat>, k: nat, i: nat, lo: int, hi: int)
    requires i < k <= |ids| && 0 < ids[i] < |nodes|
    requires lo <= nodes[ids[i]].key < hi && 0 <= nodes[ids[i]].value < 0x1_0000_0000
    ensures nodes[ids[i]].value in HitsTo(nodes, ids, k, lo, hi)
  {
    if i < k - 1 {
      SmallValueFound(nodes, ids, k - 1, i, lo, hi);
    } else {
      assert Hit(nodes, ids[i], lo, hi) == [nodes[ids[i]].value];
    }
  }

  predicate Matches(nodes: seq<Node>, n: nat, lo: int, hi: int, v: int) {
    0 < n < |nodes| && lo <= nodes[n].key < hi && Cut32(nodes[n].value) == v
  }

  /** How many of the nodes 1 .. n have a key in lo .. hi - 1 and the value v. */
  function Stored(nodes: seq<Node>, n: nat, lo: int, hi: int, v: int): nat {
    if n == 0 then 0 else Stored(nodes, n - 1, lo, hi, v) + if Matches(nodes, n, lo, hi, v) then 1 else 0
  }

  /** The same for the first k nodes of a list. */
  function Listed(nodes: seq<Node>, ids: seq<nat>, k: nat, lo: int, hi: int, v: int): nat
    requires k <= |ids|
  {
    if k == 0 then 0 else Listed(nodes, ids, k - 1, lo, hi, v) + if Matches(nodes, ids[k - 1], lo, hi, v) then 1 else 0
  }

  lemma {:induction false} HitsListed(nodes: seq<Node>, ids: seq<nat>, k: nat, lo: int, hi: int, v: int)
    requires k <= |ids|
    ensures Occurs(HitsTo(nodes, ids, k, lo, hi), |HitsTo(nodes, ids, k, lo, hi)|, v) == Listed(nodes, ids, k, lo, hi, v)
  {
    if k > 0 {
      HitsListed(nodes, ids, k - 1, lo, hi, v);
      var hits, more := HitsTo(nodes, ids, k - 1, lo, hi), Hit(nodes, ids[k - 1], lo, hi);
      OccursIn(hits, more, |hits|, v);
    }
  }

  ghost predicate IdAt(ids: seq<nat>, i: nat, n: nat)
    requires i < |ids|
  {
    0 < ids[i] <= n && forall j: nat :: j < i ==> ids[j] != ids[i]
  }

  /** A list of the numbers 1 .. n, each once. */
  ghost predicate Once(ids: seq<nat>, n: nat) {
    && (forall k: nat :: 0 < k <= n ==> k in ids)
    && (forall i: nat :: i < |ids| ==> IdAt(ids, i, n))
  }

  lemma OnceWithout(ids: seq<nat>, n: nat, p: nat, rest: seq<nat>)
    requires n > 0 && Once(ids, n) && p < |ids| && ids[p] == n && rest == ids[..p] + ids[p + 1..]
    ensures Once(rest, n - 1)
  {
    forall k: nat | 0 < k <= n - 1 ensures k in rest {
      var i := Position(ids, k);
      assert rest[if i < p then i else i - 1] == k;
    }
    var m: nat := n - 1;
    forall i: nat | i < |rest| ensures IdAt(rest, i, m) {
      var i' := if i < p then i else i + 1;
      assert IdAt(ids, i', n) && IdAt(ids, p, n);
      forall j: nat | j < i ensures rest[j] != rest[i] {
        assert rest[j] == ids[if j < p then j else j + 1];
      }
    }
  }

  lemma {:induction false} ListedWithout(nodes: seq<Node>, ids: seq<nat>, rest: seq<nat>, p: nat, k: nat, lo: int, hi: int, v: int)
    requires p < k <= |ids| && rest == ids[..p] + ids[p + 1..]
    ensures Listed(nodes, ids, k, lo, hi, v) == Listed(nodes, rest, k - 1, lo, hi, v) + if Matches(nodes, ids[p], lo, hi, v) then 1 else 0
    decreases k
  {
    if k == p + 1 {
      ListedSame(nodes, ids, rest, p, lo, hi, v);
    } else {
      ListedWithout(nodes, ids, rest, p, k - 1, lo, hi, v);
      assert rest[k - 2] == ids[k - 1];
    }
  }

  lemma {:induction false} ListedSame(nodes: seq<Node>, ids: seq<nat>, rest: seq<nat>, k: nat, lo: int, hi: int, v: int)
    requires k <= |ids| && k <= |rest| && forall i: nat :: i < k ==> rest[i] == ids[i]
    ensures Listed(nodes, ids, k, lo, hi, v) == Listed(nodes, rest, k, lo, hi, v)
  {
    if k > 0 { ListedSame(nodes, ids, rest, k - 1, lo, hi, v); }
  }

  lemma {:induction false} OnceListed(nodes: seq<Node>, ids: seq<nat>, n: nat, lo: int, hi: int, v: int)
    requires Once(ids, n)
    ensures Listed(nodes, ids, |ids|, lo, hi, v) == Stored(nodes, n, lo, hi, v)
    decreases n
  {
    if n == 0 {
      assert ids == [] || IdAt(ids, 0, n);
    } else {
      var p := Position(ids, n);
      var rest := ids[..p] + ids[p + 1..];
      OnceWithout(ids, n, p, rest);
      OnceListed(nodes, rest, n - 1, lo, hi, v);
      ListedWithout(nodes, ids, rest, p, |ids|, lo, hi, v);
    }
  }

  /** A chain that holds every node once answers with every value as often as it is stored. */
  lemma HitsAreStored(nodes: seq<Node>, ids: seq<nat>, n: nat, lo: int, hi: int, v: int)
    requires Once(ids, n)
    ensures Occurs(Hits(nodes, [HEAD] + ids, lo, hi), |Hits(nodes, [HEAD] + ids, lo, hi)|, v) == Stored(nodes, n, lo, hi, v)
  {
    HeadMisses(nodes, ids, lo, hi);
    HitsListed(nodes, ids, |ids|, lo, hi, v);
    OnceListed(nodes, ids, n, lo, hi, v);
  }

  /** The head adds nothing. */
  lemma HeadMisses(nodes: seq<Node>, ids: seq<nat>, lo: int, hi: int)
    ensures Hits(nodes, [HEAD] + ids, lo, hi) == Hits(nodes, ids, lo, hi)
  {
    HitsJoin(nodes, [HEAD], ids, lo, hi);
    assert HitsTo(nodes, [HEAD], 0, lo, hi) == [];
    assert Hits(nodes, [HEAD], lo, hi) == [];
  }
}
