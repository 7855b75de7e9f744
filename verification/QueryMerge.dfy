/** The querier's two list operations: intersection in place, and union into a new list. Both sort their
    operands first; per value they keep the smaller and the larger of the two counts. */
module QueryMerge {
  import opened Basics

  /** How often v occurs from place i on. */
  function Occ(s: seq<int>, i: nat, v: int): nat
    requires i <= |s|
    decreases |s| - i
  {
    if i == |s| then 0 else (if s[i] == v then 1 else 0) + Occ(s, i + 1, v)
  }

  predicate InOrder(s: seq<int>, i: nat, j: nat)
    requires i < |s| && j < |s|
  {
    s[i] <= s[j]
  }

  ghost predicate Ascending(s: seq<int>) {
    forall i: nat, j: nat :: i <= j < |s| ==> InOrder(s, i, j)
  }

  lemma {:induction false} OccJoin(a: seq<int>, b: seq<int>, i: nat, v: int)
    requires i <= |a|
    ensures Occ(a + b, i, v) == Occ(a, i, v) + Occ(b, 0, v)
    decreases |a| - i
  {
    if i == |a| { OccShift(a, b, 0, v); } else { OccJoin(a, b, i + 1, v); }
  }

  lemma {:induction false} OccShift(a: seq<int>, b: seq<int>, j: nat, v: int)
    requires j <= |b|
    ensures Occ(a + b, |a| + j, v) == Occ(b, j, v)
    decreases |b| - j
  {
    if j < |b| { OccShift(a, b, j + 1, v); }
  }

  /** In an ascending list no smaller value follows. */
  lemma {:induction false} NoSmaller(s: seq<int>, i: nat, j: nat, v: int)
    requires Ascending(s) && i <= j <= |s| && (i < |s| ==> v < s[i])
    ensures Occ(s, j, v) == 0
    decreases |s| - j
  {
    if j < |s| {
      assert InOrder(s, i, j);
      NoSmaller(s, i, j + 1, v);
    }
  }

  // ---------- sorting ----------

  /** `list::sort`: ascending, and the same values. */
  method Sort(s: seq<int>) returns (r: seq<int>)
    ensures Ascending(r) && |r| == |s| && forall v :: Occ(r, 0, v) == Occ(s, 0, v)
  {
    r := [];
    for n := 0 to |s|
      invariant Ascending(r) && |r| == n && forall v :: Occ(r, 0, v) + Occ(s, n, v) == Occ(s, 0, v)
    {
      var p := n;
      while p > 0 && r[p - 1] > s[n]
        invariant 0 <= p <= n && (p < n ==> r[p] > s[n])
      {
        p := p - 1;
      }
      ghost var before := r;
      r := r[..p] + [s[n]] + r[p..];
      PutIn(before, s[n], p, r);
      forall v ensures Occ(r, 0, v) == Occ(before, 0, v) + if s[n] == v then 1 else 0 { PutInCount(before, s[n], p, v); }
    }
  }

  lemma PutIn(before: seq<int>, x: int, p: nat, after: seq<int>)
    requires Ascending(before) && p <= |before| && after == before[..p] + [x] + before[p..]
    requires (p > 0 ==> before[p - 1] <= x) && (p < |before| ==> before[p] > x)
    ensures Ascending(after)
  {
    forall i: nat, j: nat | i <= j < |after| ensures InOrder(after, i, j) {
      var i', j' := if i < p then i else i - 1, if j < p then j else j - 1;
      if i != p && j != p { assert InOrder(before, i', j'); }
      else if i == p && j > p { assert InOrder(before, p, j'); }
      else if i < p && j == p { assert InOrder(before, i, p - 1); }
    }
  }

  lemma PutInCount(before: seq<int>, x: int, p: nat, v: int)
    requires p <= |before|
    ensures Occ(before[..p] + [x] + before[p..], 0, v) == Occ(before, 0, v) + if x == v then 1 else 0
  {
    var a, b := before[..p], before[p..];
    OccJoin(a + [x], b, 0, v);
    OccJoin(a, [x], 0, v);
    OccJoin(a, b, 0, v);
    assert before == a + b;
    assert Occ([x], 0, v) == (if x == v then 1 else 0) + Occ([x], 1, v);
  }

  // ---------- the merges ----------

  function Common(a: seq<int>, i: nat, b: seq<int>, j: nat): seq<int>
    requires i <= |a| && j <= |b|
    decreases |a| - i + (|b| - j)
  {
    if i == |a| || j == |b| then []
    else if a[i] < b[j] then Common(a, i + 1, b, j)
    else if a[i] > b[j] then Common(a, i, b, j + 1)
    else [a[i]] + Common(a, i + 1, b, j + 1)
  }

  function Merged(a: seq<int>, i: nat, b: seq<int>, j: nat): seq<int>
    requires i <= |a| && j <= |b|
    decreases |a| - i + (|b| - j)
  {
    if i == |a| then b[j..]
    else if j == |b| then a[i..]
    else if a[i] < b[j] then [a[i]] + Merged(a, i + 1, b, j)
    else if a[i] > b[j] then [b[j]] + Merged(a, i, b, j + 1)
    else [a[i]] + Merged(a, i + 1, b, j + 1)
  }

  lemma OccFirst(x: int, rest: seq<int>, v: int)
    ensures Occ([x] + rest, 0, v) == (if x == v then 1 else 0) + Occ(rest, 0, v)
  {
    OccJoin([x], rest, 0, v);
    assert Occ([x], 0, v) == (if x == v then 1 else 0) + Occ([x], 1, v);
  }

  /** Per value the smaller count. */
  lemma {:induction false} CommonCounts(a: seq<int>, i: nat, b: seq<int>, j: nat, v: int)
    requires Ascending(a) && Ascending(b) && i <= |a| && j <= |b|
    ensures Occ(Common(a, i, b, j), 0, v) == Min(Occ(a, i, v), Occ(b, j, v))
    decreases |a| - i + (|b| - j)
  {
    if i == |a| || j == |b| {
    } else if a[i] < b[j] {
      CommonCounts(a, i + 1, b, j, v);
      if v == a[i] { NoSmaller(b, j, j, v); }
    } else if a[i] > b[j] {
      CommonCounts(a, i, b, j + 1, v);
      if v == b[j] { NoSmaller(a, i, i, v); }
    } else {
      CommonCounts(a, i + 1, b, j + 1, v);
      OccFirst(a[i], Common(a, i + 1, b, j + 1), v);
    }
  }

  lemma {:induction false} OccTail(s: seq<int>, i: nat, j: nat, v: int)
    requires i <= |s| && j <= |s| - i
    ensures Occ(s[i..], j, v) == Occ(s, i + j, v)
    decreases |s| - i - j
  {
    if j < |s| - i { OccTail(s, i, j + 1, v); }
  }

  /** Per value the larger count. */
  lemma {:induction false} MergedCounts(a: seq<int>, i: nat, b: seq<int>, j: nat, v: int)
    requires Ascending(a) && Ascending(b) && i <= |a| && j <= |b|
    ensures Occ(Merged(a, i, b, j), 0, v) == Max(Occ(a, i, v), Occ(b, j, v))
    decreases |a| - i + (|b| - j)
  {
    if i == |a| {
      OccTail(b, j, 0, v);
    } else if j == |b| {
      OccTail(a, i, 0, v);
    } else if a[i] < b[j] {
      MergedCounts(a, i + 1, b, j, v);
      OccFirst(a[i], Merged(a, i + 1, b, j), v);
      if v == a[i] { NoSmaller(b, j, j, v); }
    } else if a[i] > b[j] {
      MergedCounts(a, i, b, j + 1, v);
      OccFirst(b[j], Merged(a, i, b, j + 1), v);
      if v == b[j] { NoSmaller(a, i, i, v); }
    } else {
      MergedCounts(a, i + 1, b, j + 1, v);
      OccFirst(a[i], Merged(a, i + 1, b, j + 1), v);
    }
  }

  /** Erases from the first list what the second does not have. */
  method Intersect(la: seq<int>, lb: seq<int>) returns (r: seq<int>)
    ensures forall v :: Occ(r, 0, v) == Min(Occ(la, 0, v), Occ(lb, 0, v))
  {
    r := Sort(la);
    var b := Sort(lb);
    ghost var a, i: nat := r, 0;
    var k, j := 0, 0;
    while k < |r| && j < |b|
      invariant k <= |r| && j <= |b| && i <= |a| && |r| - k == |a| - i && r[k..] == a[i..]
      invariant r[..k] + Common(a, i, b, j) == Common(a, 0, b, 0)
      decreases |a| - i + (|b| - j)
    {
      assert r[k] == r[k..][0] == a[i];
      if r[k] < b[j] {
        r := r[..k] + r[k + 1..];
        i := i + 1;
      } else if r[k] > b[j] {
        j := j + 1;
      } else {
        assert r[..k + 1] == r[..k] + [a[i]];
        k, j := k + 1, j + 1;
        i := i + 1;
      }
    }
    assert r[..k] + [] == r[..k];
    r := r[..k];
    assert r == Common(a, 0, b, 0);
    forall v ensures Occ(r, 0, v) == Min(Occ(la, 0, v), Occ(lb, 0, v)) { CommonCounts(a, 0, b, 0, v); }
  }

  /** Appends what is left of a list. */
  method AppendRest(r: seq<int>, s: seq<int>, from: nat) returns (all: seq<int>)
    requires from <= |s|
    ensures all == r + s[from..]
  {
    all := r;
    var i := from;
    while i < |s|
      invariant from <= i <= |s| && all + s[i..] == r + s[from..]
    {
      assert s[i..] == [s[i]] + s[i + 1..];
      all, i := all + [s[i]], i + 1;
    }
  }

  /** Both lists, each value as often as in the list that has it more often. */
  method Join(la: seq<int>, lb: seq<int>) returns (r: seq<int>)
    ensures forall v :: Occ(r, 0, v) == Max(Occ(la, 0, v), Occ(lb, 0, v))
  {
    var a := Sort(la);
    var b := Sort(lb);
    r := MergeSorted(a, b);
    forall v ensures Occ(r, 0, v) == Max(Occ(la, 0, v), Occ(lb, 0, v)) { MergedCounts(a, 0, b, 0, v); }
  }

  /** The merge loop of `join`. */
  method MergeSorted(a: seq<int>, b: seq<int>) returns (r: seq<int>)
    ensures r == Merged(a, 0, b, 0)
  {
    r := [];
    var i, j := 0, 0;
    while i < |a| && j < |b|
      invariant i <= |a| && j <= |b| && r + Merged(a, i, b, j) == Merged(a, 0, b, 0)
      decreases |a| - i + (|b| - j)
    {
      MergedStep(r, a, i, b, j);
      if a[i] < b[j] {
        r, i := r + [a[i]], i + 1;
      } else if a[i] > b[j] {
        r, j := r + [b[j]], j + 1;
      } else {
        r, i, j := r + [a[i]], i + 1, j + 1;
      }
    }
    ghost var left := if i == |a| then b[j..] else a[i..];
    assert r + left == r + a[i..] + b[j..];
    r := AppendRest(r, a, i);
    r := AppendRest(r, b, j);
  }

  lemma MergedStep(r: seq<int>, a: seq<int>, i: nat, b: seq<int>, j: nat)
    requires i < |a| && j < |b|
    ensures r + Merged(a, i, b, j) ==
      if a[i] < b[j] then (r + [a[i]]) + Merged(a, i + 1, b, j)
      else if a[i] > b[j] then (r + [b[j]]) + Merged(a, i, b, j + 1)
      else (r + [a[i]]) + Merged(a, i + 1, b, j + 1)
  {}
}
