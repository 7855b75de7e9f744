/** One level of a skip list: the next pointers of its nodes spell a chain from the head, and splicing a
    node in behind its last smaller neighbour keeps the chain sorted. Nodes are numbered; 0 is the head. */
module SkipLevel {
  /** A node: its key, its value, and the number of levels it is linked on. */
  datatype Node = Node(key: int, value: int, height: nat)

  const HEAD: nat := 0
  const NULL: int := -1

  ghost predicate LinkAt(next: seq<int>, chain: seq<nat>, p: nat)
    requires p < |chain|
  {
    chain[p] < |next| && next[chain[p]] == if p + 1 < |chain| then chain[p + 1] else NULL
  }

  /** Following the pointers from the head runs through the chain and ends. */
  ghost predicate Spells(next: seq<int>, chain: seq<nat>) {
    && chain != [] && chain[0] == HEAD
    && forall p: nat :: p < |chain| ==> LinkAt(next, chain, p)
  }

  ghost predicate InKeyOrder(nodes: seq<Node>, chain: seq<nat>, p: nat, q: nat)
    requires p < |chain| && q < |chain|
  {
    0 < chain[p] < |nodes| && 0 < chain[q] < |nodes| && nodes[chain[p]].key <= nodes[chain[q]].key
  }

  /** Behind the head the keys never fall. */
  ghost predicate Sorted(nodes: seq<Node>, chain: seq<nat>) {
    forall p: nat, q: nat :: 0 < p <= q < |chain| ==> InKeyOrder(nodes, chain, p, q)
  }

  function Position(chain: seq<nat>, u: nat): (p: nat)
    requires u in chain
    ensures p < |chain| && chain[p] == u
  {
    if chain[0] == u then 0 else 1 + Position(chain[1..], u)
  }

  /** A chain with node n behind its p-th node. */
  function Inserted(chain: seq<nat>, p: nat, n: nat): seq<nat>
    requires p < |chain|
  {
    chain[..p + 1] + [n] + chain[p + 1..]
  }

  lemma InsertedMembers(chain: seq<nat>, p: nat, n: nat, m: nat)
    requires p < |chain|
    ensures m in Inserted(chain, p, n) <==> m == n || m in chain
  {
    assert chain == chain[..p + 1] + chain[p + 1..];
  }

  /** No node stands twice on a chain: it would never end. */
  lemma {:induction false} NoRepeat(next: seq<int>, chain: seq<nat>, p: nat, q: nat)
    requires Spells(next, chain) && p < q < |chain|
    ensures chain[p] != chain[q]
    decreases |chain| - q
  {
    assert LinkAt(next, chain, p) && LinkAt(next, chain, q);
    if q + 1 < |chain| { NoRepeat(next, chain, p + 1, q + 1); }
  }

  lemma SpliceSpells(next: seq<int>, chain: seq<nat>, p: nat, n: nat, next': seq<int>)
    requires Spells(next, chain) && p < |chain| && n < |next| && n !in chain
    requires chain[p] < |next| && next' == next[n := next[chain[p]]][chain[p] := n]
    ensures Spells(next', Inserted(chain, p, n))
  {
    var chain' := Inserted(chain, p, n);
    assert LinkAt(next, chain, p);
    forall q: nat | q < |chain'| ensures LinkAt(next', chain', q) {
      if q < p {
        assert LinkAt(next, chain, q) && chain'[q] == chain[q] && chain'[q + 1] == chain[q + 1];
        NoRepeat(next, chain, q, p);
      } else if q > p + 1 {
        assert LinkAt(next, chain, q - 1) && chain'[q] == chain[q - 1];
        NoRepeat(next, chain, p, q - 1);
      }
    }
  }

  /** The node goes between smaller keys and keys not smaller. */
  lemma SpliceSorted(nodes: seq<Node>, chain: seq<nat>, p: nat, n: nat)
    requires Sorted(nodes, chain) && p < |chain| && 0 < n < |nodes|
    requires p > 0 ==> chain[p] < |nodes| && nodes[chain[p]].key <= nodes[n].key
    requires p + 1 < |chain| ==> chain[p + 1] < |nodes| && nodes[n].key <= nodes[chain[p + 1]].key
    ensures Sorted(nodes, Inserted(chain, p, n))
  {
    var chain' := Inserted(chain, p, n);
    forall i: nat, j: nat | 0 < i <= j < |chain'| ensures InKeyOrder(nodes, chain', i, j) {
      var i' := if i <= p then i else if i == p + 1 then (if j == i then i else p + 1) else i - 1;
      var j' := if j <= p then j else if j == p + 1 then p else j - 1;
      if i != p + 1 && 0 < i' <= j' < |chain| { assert InKeyOrder(nodes, chain, i', j'); }
      if i == p + 1 < j { assert InKeyOrder(nodes, chain, p + 1, j - 1); }
    }
  }
}
