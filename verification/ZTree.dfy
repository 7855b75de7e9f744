/** The bottom-up tree over sorted Z-order codes: a node of level k stands for the codes that agree
    above their k lowest digits, and points by the digit below to its parts. The search descends the
    digits that lie within a box. */
module ZTree {
  import opened Bits
  import opened ZCode

  /** A node: its digit among its siblings, and for each digit below 0 or one more than the position
      of the child (at level 1: of the code). */
  datatype TreeNode = TreeNode(prefix: nat, offsets: seq<nat>)

  datatype Box = Box(xMin: nat, yMin: nat, xMax: nat, yMax: nat)

  /** 96 bits in digits of four. */
  const LEVELS: nat := 24

  /** The codes a node stands for. */
  datatype Span = Span(level: nat, lo: nat, hi: nat)

  ghost predicate WordsAt(data: seq<ZOrderIPv4>, x: nat)
    requires x < |data|
  {
    Words(data[x])
  }

  ghost predicate InOrder(data: seq<ZOrderIPv4>, x: nat, y: nat)
    requires x < y < |data|
  {
    Less(data[x], data[y])
  }

  ghost predicate Increasing(data: seq<ZOrderIPv4>) {
    && (forall x: nat :: x < |data| ==> WordsAt(data, x))
    && (forall x: nat, y: nat :: x < y < |data| ==> InOrder(data, x, y))
  }

  /** Code x without its `level` lowest digits. */
  function Part(data: seq<ZOrderIPv4>, x: nat, level: nat): nat
    requires x < |data|
  {
    Above(Value(data[x]), level)
  }

  /** Digit `level` of code x. */
  function DigitOf(data: seq<ZOrderIPv4>, x: nat, level: nat): (d: nat)
    requires x < |data|
    ensures d < 16
  {
    Nibble(Value(data[x]), level)
  }

  lemma PartDigit(data: seq<ZOrderIPv4>, x: nat, level: nat)
    requires x < |data|
    ensures Part(data, x, level) == 16 * Part(data, x, level + 1) + DigitOf(data, x, level)
  {
    AboveNext(Value(data[x]), level);
  }

  lemma PartOrdered(data: seq<ZOrderIPv4>, x: nat, y: nat, level: nat)
    requires Increasing(data) && x <= y < |data|
    ensures Part(data, x, level) <= Part(data, y, level)
  {
    if x < y {
      assert InOrder(data, x, y) && WordsAt(data, x) && WordsAt(data, y);
      LessIsLess(data[x], data[y]);
      ShrOrdered(Value(data[x]), Value(data[y]), level * 4);
    }
  }

  /** All codes from lo to hi agree above their `level` lowest digits. */
  ghost predicate Uniform(data: seq<ZOrderIPv4>, level: nat, lo: nat, hi: nat)
    requires lo < hi <= |data|
  {
    forall x: nat {:trigger Part(data, x, level)} :: lo <= x < hi ==> Part(data, x, level) == Part(data, lo, level)
  }

  // ---------- what a node must contain ----------

  /** The codes below entry `child` of a node of the given level. */
  ghost function ChildSpan(spans: seq<Span>, level: nat, child: nat): Span
    requires level > 1 ==> child < |spans|
  {
    if level <= 1 then Span(0, child, child + 1) else spans[child]
  }

  /** Entry v of node n: empty if no code of the node has digit v, else the child with exactly those codes. */
  ghost predicate EntryOk(data: seq<ZOrderIPv4>, spans: seq<Span>, n: nat, offsets: seq<nat>, v: nat)
    requires n < |spans| && v < |offsets|
  {
    var s, off := spans[n], offsets[v];
    && s.level > 0 && s.lo < s.hi <= |data|
    && if off == 0 then forall x: nat {:trigger DigitOf(data, x, s.level - 1)} :: s.lo <= x < s.hi ==> DigitOf(data, x, s.level - 1) != v
       else
         && (s.level > 1 ==> off - 1 < n)
         && var c := ChildSpan(spans, s.level, off - 1);
            && c.level == s.level - 1 && s.lo <= c.lo < c.hi <= s.hi
            && forall x: nat {:trigger DigitOf(data, x, s.level - 1)} :: s.lo <= x < s.hi ==> (DigitOf(data, x, s.level - 1) == v <==> c.lo <= x < c.hi)
  }

  ghost predicate NodeOk(data: seq<ZOrderIPv4>, buffer: seq<TreeNode>, spans: seq<Span>, n: nat)
    requires n < |buffer| == |spans|
  {
    && |buffer[n].offsets| == 16
    && spans[n].level > 0 && spans[n].lo < spans[n].hi <= |data|
    && Uniform(data, spans[n].level, spans[n].lo, spans[n].hi)
    && forall v: nat :: v < 16 ==> EntryOk(data, spans, n, buffer[n].offsets, v)
  }

  /** Node `n` is number k of a level whose nodes start at the codes `left`, up to code `covered`. */
  ghost predicate PlaceOk(data: seq<ZOrderIPv4>, buffer: seq<TreeNode>, spans: seq<Span>, begin: nat, left: seq<nat>,
                          level: nat, covered: nat, k: nat)
    requires begin + |left| == |buffer| == |spans| && k < |left|
  {
    var hi := if k + 1 < |left| then left[k + 1] else covered;
    && left[k] < hi <= |data|
    && spans[begin + k] == Span(level, left[k], hi)
    && buffer[begin + k].prefix == DigitOf(data, left[k], level)
    && Uniform(data, level, left[k], hi)
    && (k + 1 < |left| ==> hi < |data| && Part(data, left[k], level) < Part(data, hi, level))
  }

  /** The nodes from `begin` on are a level: groups of equal codes above the level's digits, in order. */
  ghost predicate LevelOk(data: seq<ZOrderIPv4>, buffer: seq<TreeNode>, spans: seq<Span>, begin: nat, left: seq<nat>,
                          level: nat, covered: nat)
  {
    && begin + |left| == |buffer| == |spans|
    && (left == [] <==> covered == 0)
    && (left != [] ==> left[0] == 0)
    && (forall n: nat :: n < |buffer| ==> NodeOk(data, buffer, spans, n))
    && (forall k: nat :: k < |left| ==> PlaceOk(data, buffer, spans, begin, left, level, covered, k))
  }

  // ---------- adding one child to a level under construction ----------

  /** A child whose codes lo .. hi follow those already placed. */
  ghost predicate NextChild(data: seq<ZOrderIPv4>, spans: seq<Span>, begin: nat, level: nat, lo: nat, hi: nat, prefix: nat, child: nat)
  {
    && level > 0 && lo < hi <= |data|
    && (level == 1 ==> child == lo && hi == lo + 1)
    && (level > 1 ==> child < begin <= |spans| && spans[child] == Span(level - 1, lo, hi))
    && Uniform(data, level - 1, lo, hi)
    && prefix == DigitOf(data, lo, level - 1)
    && (lo > 0 ==> Part(data, lo - 1, level - 1) < Part(data, lo, level - 1))
  }

  /** The codes of the child have its digit; the codes before it with the same upper digits have a smaller one. */
  lemma ChildDigits(data: seq<ZOrderIPv4>, level: nat, lo: nat, hi: nat, prefix: nat, x: nat)
    requires Increasing(data) && level > 0 && lo < hi <= |data| && x < hi
    requires Uniform(data, level - 1, lo, hi) && prefix == DigitOf(data, lo, level - 1)
    requires lo > 0 ==> Part(data, lo - 1, level - 1) < Part(data, lo, level - 1)
    ensures x >= lo ==> DigitOf(data, x, level - 1) == prefix && Part(data, x, level) == Part(data, lo, level)
    ensures x < lo && Part(data, x, level) == Part(data, lo, level) ==> DigitOf(data, x, level - 1) < prefix
  {
    PartDigit(data, x, level - 1);
    PartDigit(data, lo, level - 1);
    if x < lo { PartOrdered(data, x, lo - 1, level - 1); }
  }

  /** Nodes already built do not change when the last one's span or entries do. */
  lemma NodeKept(data: seq<ZOrderIPv4>, buffer: seq<TreeNode>, spans: seq<Span>, buffer': seq<TreeNode>, spans': seq<Span>, n: nat)
    requires n < |buffer| == |spans| && |buffer'| == |spans'| && n < |buffer'|
    requires NodeOk(data, buffer, spans, n) && buffer'[n] == buffer[n]
    requires forall m :: 0 <= m <= n ==> spans'[m] == spans[m]
    ensures NodeOk(data, buffer', spans', n)
  {
    forall v: nat | v < 16 ensures EntryOk(data, spans', n, buffer'[n].offsets, v) {
      assert EntryOk(data, spans, n, buffer[n].offsets, v);
    }
  }

  function EmptyOffsets(): (o: seq<nat>)
    ensures |o| == 16 && forall v :: 0 <= v < 16 ==> o[v] == 0
  {
    seq(16, _ => 0)
  }

  /** The digits of the codes of a node that has just got a child for the codes from lo on. */
  ghost predicate DigitsSplit(data: seq<ZOrderIPv4>, level: nat, left: nat, lo: nat, hi: nat, prefix: nat)
    requires level > 0 && left <= lo <= hi <= |data|
  {
    forall x: nat {:trigger DigitOf(data, x, level - 1)} :: left <= x < hi ==>
      if x < lo then DigitOf(data, x, level - 1) < prefix else DigitOf(data, x, level - 1) == prefix
  }

  lemma SplitAtChild(data: seq<ZOrderIPv4>, level: nat, left: nat, lo: nat, hi: nat, prefix: nat)
    requires Increasing(data) && level > 0 && left <= lo < hi <= |data|
    requires Uniform(data, level - 1, lo, hi) && prefix == DigitOf(data, lo, level - 1)
    requires lo > 0 ==> Part(data, lo - 1, level - 1) < Part(data, lo, level - 1)
    requires left < lo ==> Uniform(data, level, left, lo) && Part(data, left, level) == Part(data, lo, level)
    ensures DigitsSplit(data, level, left, lo, hi, prefix) && Uniform(data, level, left, hi)
  {
    forall x: nat {:trigger DigitOf(data, x, level - 1)} | left <= x < hi
      ensures if x < lo then DigitOf(data, x, level - 1) < prefix else DigitOf(data, x, level - 1) == prefix
    {
      ChildDigits(data, level, lo, hi, prefix, x);
    }
    forall x: nat {:trigger Part(data, x, level)} | left <= x < hi
      ensures Part(data, x, level) == Part(data, left, level)
    {
      ChildDigits(data, level, lo, hi, prefix, x);
    }
  }

  lemma FirstEntries(data: seq<ZOrderIPv4>, spans: seq<Span>, n: nat, level: nat, lo: nat, hi: nat, prefix: nat, child: nat,
                     offsets: seq<nat>)
    requires prefix < 16 && n < |spans| && spans[n] == Span(level, lo, hi) && offsets == EmptyOffsets()[prefix := child + 1]
    requires NextChild(data, spans, n, level, lo, hi, prefix, child) && DigitsSplit(data, level, lo, lo, hi, prefix)
    ensures forall v: nat :: v < 16 ==> EntryOk(data, spans, n, offsets, v)
  {
    forall v: nat | v < 16 ensures EntryOk(data, spans, n, offsets, v) {}
  }

  /** A further child in the node's span: a new digit, above all digits already there. */
  lemma MoreEntries(data: seq<ZOrderIPv4>, spans: seq<Span>, spans': seq<Span>, n: nat, level: nat, left: nat, lo: nat, hi: nat,
                    prefix: nat, child: nat, offsets: seq<nat>, offsets': seq<nat>)
    requires prefix < 16 && n < |spans| == |spans'| && |offsets| == 16 && left < lo && offsets' == offsets[prefix := child + 1]
    requires spans[n] == Span(level, left, lo) && spans' == spans[n := Span(level, left, hi)]
    requires NextChild(data, spans, n, level, lo, hi, prefix, child) && DigitsSplit(data, level, left, lo, hi, prefix)
    requires forall v: nat :: v < 16 ==> EntryOk(data, spans, n, offsets, v)
    ensures forall v: nat :: v < 16 ==> EntryOk(data, spans', n, offsets', v)
  {
    forall v: nat | v < 16 ensures EntryOk(data, spans', n, offsets', v) {
      assert EntryOk(data, spans, n, offsets, v);
    }
  }

  // ---------- what a search must return ----------

  /** `decodeZOrder` and `isInRectangle`: digit v lies between the box's digits of the level. */
  predicate DigitIn(v: nat, box: Box, level: nat) {
    && Digit4(box.xMin, level) <= DecodeX(v) <= Digit4(box.xMax, level)
    && Digit4(box.yMin, level) <= DecodeY(v) <= Digit4(box.yMax, level)
  }

  /** The `digits` lowest digits of code x lie between those of the box. */
  predicate InBox(data: seq<ZOrderIPv4>, box: Box, x: nat, digits: nat)
    requires x < |data|
  {
    digits == 0 || (DigitIn(DigitOf(data, x, digits - 1), box, digits - 1) && InBox(data, box, x, digits - 1))
  }

  /** The positions from lo to hi, in order, whose lowest digits lie between those of the box. */
  function Selected(data: seq<ZOrderIPv4>, box: Box, lo: nat, hi: nat, digits: nat): seq<nat>
    requires lo <= hi <= |data|
    decreases hi
  {
    if lo == hi then []
    else Selected(data, box, lo, hi - 1, digits) + if InBox(data, box, hi - 1, digits) then [hi - 1] else []
  }

  lemma {:induction false} SelectedJoin(data: seq<ZOrderIPv4>, box: Box, lo: nat, cut: nat, hi: nat, digits: nat)
    requires lo <= cut <= hi <= |data|
    ensures Selected(data, box, lo, hi, digits) == Selected(data, box, lo, cut, digits) + Selected(data, box, cut, hi, digits)
    decreases hi
  {
    if cut < hi { SelectedJoin(data, box, lo, cut, hi - 1, digits); }
  }

  /** Codes with the same digit: that digit decides for all of them or leaves the choice to the digits below. */
  lemma {:induction false} SelectedChild(data: seq<ZOrderIPv4>, box: Box, lo: nat, hi: nat, level: nat, v: nat)
    requires lo <= hi <= |data|
    requires forall x: nat {:trigger DigitOf(data, x, level)} :: lo <= x < hi ==> DigitOf(data, x, level) == v
    ensures Selected(data, box, lo, hi, level + 1) == if DigitIn(v, box, level) then Selected(data, box, lo, hi, level) else []
    decreases hi
  {
    if lo < hi {
      SelectedChild(data, box, lo, hi - 1, level, v);
      assert DigitOf(data, hi - 1, level) == v;
    }
  }

  // ---------- the tree ----------

  /** Codes of a node in order: their digits below the node do not fall. */
  lemma DigitsRise(data: seq<ZOrderIPv4>, level: nat, lo: nat, hi: nat, x: nat, y: nat)
    requires Increasing(data) && lo < hi <= |data| && Uniform(data, level + 1, lo, hi) && lo <= x <= y < hi
    ensures DigitOf(data, x, level) <= DigitOf(data, y, level)
  {
    PartDigit(data, x, level);
    PartDigit(data, y, level);
    PartOrdered(data, x, y, level);
  }

  /** The codes of a node from `cut` on are those whose digit is at least v. */
  ghost predicate CutAt(data: seq<ZOrderIPv4>, level: nat, lo: nat, cut: nat, hi: nat, v: nat)
    requires lo <= cut <= hi <= |data|
  {
    forall x: nat {:trigger DigitOf(data, x, level)} :: lo <= x < hi ==> (x < cut <==> DigitOf(data, x, level) < v)
  }

  /** Where the codes with digit v end: behind the child, if there is one. */
  lemma NextCut(data: seq<ZOrderIPv4>, buffer: seq<TreeNode>, spans: seq<Span>, n: nat, v: nat, cut: nat) returns (cut': nat)
    requires Increasing(data) && n < |buffer| == |spans| && NodeOk(data, buffer, spans, n) && v < 16
    requires spans[n].lo <= cut <= spans[n].hi && CutAt(data, spans[n].level - 1, spans[n].lo, cut, spans[n].hi, v)
    ensures cut <= cut' <= spans[n].hi && CutAt(data, spans[n].level - 1, spans[n].lo, cut', spans[n].hi, v + 1)
    ensures buffer[n].offsets[v] == 0 ==> cut' == cut
    ensures buffer[n].offsets[v] != 0 ==>
              && (spans[n].level > 1 ==> buffer[n].offsets[v] - 1 < n)
              && ChildSpan(spans, spans[n].level, buffer[n].offsets[v] - 1) == Span(spans[n].level - 1, cut, cut')
    ensures forall x: nat {:trigger DigitOf(data, x, spans[n].level - 1)} :: cut <= x < cut' ==> DigitOf(data, x, spans[n].level - 1) == v
  {
    assert EntryOk(data, spans, n, buffer[n].offsets, v);
    var s, off := spans[n], buffer[n].offsets[v];
    cut' := cut;
    if off != 0 {
      var c := ChildSpan(spans, s.level, off - 1);
      cut' := c.hi;
      assert DigitOf(data, c.lo, s.level - 1) == v;
      if cut < c.lo {
        DigitsRise(data, s.level - 1, s.lo, s.hi, cut, c.lo);
        assert false;
      }
      forall x: nat {:trigger DigitOf(data, x, s.level - 1)} | s.lo <= x < s.hi
        ensures x < cut' <==> DigitOf(data, x, s.level - 1) < v + 1
      {
        if x >= cut' { DigitsRise(data, s.level - 1, s.lo, s.hi, c.lo, x); }
      }
    }
  }

  /** The last node of a level: a code that differs from it above the level is greater there. */
  lemma LevelEnd(data: seq<ZOrderIPv4>, buffer: seq<TreeNode>, spans: seq<Span>, begin: nat, left: seq<nat>, level: nat, lo: nat)
    requires Increasing(data) && LevelOk(data, buffer, spans, begin, left, level, lo) && left != [] && lo < |data|
    ensures left[|left| - 1] < lo
    ensures |buffer[|buffer| - 1].offsets| == 16 && spans[|spans| - 1] == Span(level, left[|left| - 1], lo)
    ensures Uniform(data, level, left[|left| - 1], lo)
    ensures if PrefixCompare(data[lo], data[left[|left| - 1]], level) then Part(data, left[|left| - 1], level) == Part(data, lo, level)
            else Part(data, left[|left| - 1], level) < Part(data, lo, level)
  {
    var last := left[|left| - 1];
    assert PlaceOk(data, buffer, spans, begin, left, level, lo, |left| - 1) && NodeOk(data, buffer, spans, |buffer| - 1);
    assert WordsAt(data, lo) && WordsAt(data, last);
    PrefixCompareIsAbove(data[lo], data[last], level);
    PartOrdered(data, last, lo, level);
  }

  lemma NewNode(data: seq<ZOrderIPv4>, buffer: seq<TreeNode>, spans: seq<Span>, begin: nat, left: seq<nat>, level: nat, lo: nat,
                hi: nat, prefix: nat, child: nat, suffix: nat)
    requires Increasing(data) && LevelOk(data, buffer, spans, begin, left, level, lo) && prefix < 16
    requires NextChild(data, spans, begin, level, lo, hi, prefix, child) && suffix == DigitOf(data, lo, level)
    requires left != [] ==> left[|left| - 1] < |data| && Part(data, left[|left| - 1], level) < Part(data, lo, level)
    ensures LevelOk(data, buffer + [TreeNode(suffix, EmptyOffsets()[prefix := child + 1])], spans + [Span(level, lo, hi)], begin,
                    left + [lo], level, hi)
  {
    var offsets := EmptyOffsets()[prefix := child + 1];
    var buffer', spans', left' := buffer + [TreeNode(suffix, offsets)], spans + [Span(level, lo, hi)], left + [lo];
    SplitAtChild(data, level, lo, lo, hi, prefix);
    FirstEntries(data, spans', |buffer|, level, lo, hi, prefix, child, offsets);
    forall m: nat | m < |buffer'| ensures NodeOk(data, buffer', spans', m) {
      if m < |buffer| { NodeKept(data, buffer, spans, buffer', spans', m); }
    }
    forall k: nat | k < |left'| ensures PlaceOk(data, buffer', spans', begin, left', level, hi, k) {
      if k < |left| { assert PlaceOk(data, buffer, spans, begin, left, level, lo, k); }
    }
  }

  lemma LargerNode(data: seq<ZOrderIPv4>, buffer: seq<TreeNode>, spans: seq<Span>, begin: nat, left: seq<nat>, level: nat, lo: nat,
                   hi: nat, prefix: nat, child: nat, offsets: seq<nat>)
    requires Increasing(data) && LevelOk(data, buffer, spans, begin, left, level, lo) && prefix < 16
    requires NextChild(data, spans, begin, level, lo, hi, prefix, child)
    requires left != [] && left[|left| - 1] < |data| && Part(data, left[|left| - 1], level) == Part(data, lo, level)
    requires |buffer[|buffer| - 1].offsets| == 16 && offsets == buffer[|buffer| - 1].offsets[prefix := child + 1]
    ensures var last := |buffer| - 1;
            LevelOk(data, buffer[last := buffer[last].(offsets := offsets)], spans[last := Span(level, left[|left| - 1], hi)], begin,
                    left, level, hi)
  {
    var last, k := |buffer| - 1, |left| - 1;
    var buffer', spans' := buffer[last := buffer[last].(offsets := offsets)], spans[last := Span(level, left[k], hi)];
    assert PlaceOk(data, buffer, spans, begin, left, level, lo, k) && NodeOk(data, buffer, spans, last);
    SplitAtChild(data, level, left[k], lo, hi, prefix);
    MoreEntries(data, spans, spans', last, level, left[k], lo, hi, prefix, child, buffer[last].offsets, offsets);
    forall m: nat | m < |buffer'| ensures NodeOk(data, buffer', spans', m) {
      if m < last { NodeKept(data, buffer, spans, buffer', spans', m); }
    }
    forall i: nat | i < |left| ensures PlaceOk(data, buffer', spans', begin, left, level, hi, i) {
      assert PlaceOk(data, buffer, spans, begin, left, level, lo, i);
    }
  }

  /** Neighbouring nodes of a level differ above its digits. */
  lemma ChildBreak(data: seq<ZOrderIPv4>, buffer: seq<TreeNode>, spans: seq<Span>, begin: nat, left: seq<nat>, level: nat, i: nat)
    requires Increasing(data) && LevelOk(data, buffer, spans, begin, left, level, |data|) && 0 < i < |left|
    ensures 0 < left[i] < |data| && Part(data, left[i] - 1, level) < Part(data, left[i], level)
  {
    assert PlaceOk(data, buffer, spans, begin, left, level, |data|, i - 1);
    assert Part(data, left[i] - 1, level) == Part(data, left[i - 1], level);
  }

  /** At the top all codes agree: one node. */
  lemma TopLevel(data: seq<ZOrderIPv4>, buffer: seq<TreeNode>, spans: seq<Span>, begin: nat, left: seq<nat>)
    requires Increasing(data) && LevelOk(data, buffer, spans, begin, left, LEVELS, |data|)
    ensures |left| <= 1
    ensures data != [] ==> buffer != [] && spans[|spans| - 1] == Span(LEVELS, 0, |data|)
  {
    if left != [] { assert PlaceOk(data, buffer, spans, begin, left, LEVELS, |data|, 0); }
    if |left| > 1 {
      ChildBreak(data, buffer, spans, begin, left, LEVELS, 1);
      assert WordsAt(data, left[1] - 1) && WordsAt(data, left[1]);
      NothingAbove(data[left[1] - 1]);
      NothingAbove(data[left[1]]);
    }
  }

  lemma NothingAbove(z: ZOrderIPv4)
    requires Words(z)
    ensures Above(Value(z), LEVELS) == 0
  {
    PastWord(z.low, Join(z.mid, z.high), LEVELS * 4);
    PastWord(z.mid, z.high, LEVELS * 4 - 32);
    PastHigh(z.high, LEVELS * 4 - 64);
  }

  /** What entry v of a node adds to the search: its child's codes if digit v lies within the box's. */
  lemma SelectedNext(data: seq<ZOrderIPv4>, buffer: seq<TreeNode>, spans: seq<Span>, n: nat, v: nat, cut: nat, box: Box)
    returns (cut': nat)
    requires Increasing(data) && n < |buffer| == |spans| && NodeOk(data, buffer, spans, n) && v < 16
    requires spans[n].lo <= cut <= spans[n].hi && CutAt(data, spans[n].level - 1, spans[n].lo, cut, spans[n].hi, v)
    ensures cut <= cut' <= spans[n].hi && CutAt(data, spans[n].level - 1, spans[n].lo, cut', spans[n].hi, v + 1)
    ensures var s, offset := spans[n], buffer[n].offsets[v];
            if offset == 0 || !DigitIn(v, box, s.level - 1) then
              Selected(data, box, s.lo, cut', s.level) == Selected(data, box, s.lo, cut, s.level)
            else if s.level == 1 then
              Selected(data, box, s.lo, cut', s.level) == Selected(data, box, s.lo, cut, s.level) + [offset - 1]
            else
              && offset - 1 < n && spans[offset - 1] == Span(s.level - 1, cut, cut')
              && Selected(data, box, s.lo, cut', s.level) == Selected(data, box, s.lo, cut, s.level) + Selected(data, box, cut, cut', s.level - 1)
  {
    var level := spans[n].level - 1;
    cut' := NextCut(data, buffer, spans, n, v, cut);
    SelectedJoin(data, box, spans[n].lo, cut, cut', level + 1);
    SelectedChild(data, box, cut, cut', level, v);
  }

  class ZOrderTree {
    const data: seq<ZOrderIPv4>
    var buffer: seq<TreeNode>
    var bufferSize: nat
    var maxLevel: nat
    /** The codes below each node. */
    ghost var spans: seq<Span>

    constructor (data: seq<ZOrderIPv4>)
      ensures this.data == data && buffer == [] && spans == [] && bufferSize == 0
    {
      this.data, buffer, bufferSize, maxLevel := data, [], 0, 0;
      spans := [];
    }

    /** A child with codes lo .. hi joins the level's last node if it agrees with it above the level's
        digits, and otherwise starts a new node. */
    method Place(begin: nat, left: seq<nat>, level: nat, lo: nat, ghost hi: nat, prefix: nat, child: nat) returns (left': seq<nat>)
      requires Increasing(data) && LevelOk(data, buffer, spans, begin, left, level, lo)
      requires NextChild(data, spans, begin, level, lo, hi, prefix, child)
      modifies `buffer, `spans
      ensures LevelOk(data, buffer, spans, begin, left', level, hi)
      ensures begin <= |old(buffer)| && buffer[..begin] == old(buffer[..begin]) && spans[..begin] == old(spans[..begin])
      ensures |left| <= |left'| <= |left| + 1
    {
      assert WordsAt(data, lo);
      SuffixIsNibble(data[lo], level);
      var suffix := GetSuffix(data[lo], level);
      if left != [] { LevelEnd(data, buffer, spans, begin, left, level, lo); }
      if left == [] || !PrefixCompare(data[lo], data[left[|left| - 1]], level) {
        NewNode(data, buffer, spans, begin, left, level, lo, hi, prefix, child, suffix);
        buffer := buffer + [TreeNode(suffix, EmptyOffsets()[prefix := child + 1])];
        spans := spans + [Span(level, lo, hi)];
        left' := left + [lo];
      } else {
        var last := |buffer| - 1;
        var offsets := buffer[last].offsets[prefix := child + 1];
        LargerNode(data, buffer, spans, begin, left, level, lo, hi, prefix, child, offsets);
        buffer := buffer[last := buffer[last].(offsets := offsets)];
        spans := spans[last := Span(level, left[|left| - 1], hi)];
        left' := left;
      }
    }

    /** What building leaves: no node for no codes, else a root of level 24 over all of them. */
    ghost predicate Built()
      reads this
    {
      && |spans| == |buffer| == bufferSize
      && (forall n: nat :: n < |buffer| ==> NodeOk(data, buffer, spans, n))
      && if data == [] then buffer == []
         else maxLevel == LEVELS && buffer != [] && spans[|spans| - 1] == Span(LEVELS, 0, |data|)
    }

    method BuildTree()
      requires Increasing(data) && buffer == [] && spans == [] && bufferSize == 0
      modifies this
      ensures Built()
    {
      var left: seq<nat> := [];
      for i := 0 to |data|
        invariant LevelOk(data, buffer, spans, 0, left, 1, i)
      {
        assert WordsAt(data, i);
        SuffixIsNibble(data[i], 0);
        if i > 0 {
          assert InOrder(data, i - 1, i) && WordsAt(data, i - 1);
          LessIsLess(data[i - 1], data[i]);
        }
        left := Place(0, left, 1, i, i + 1, GetSuffix(data[i], 0), i);
      }
      bufferSize := |buffer|;
      maxLevel := 1;
      BuildTreeLevel(left, 0, 2);
      bufferSize := |buffer|;
    }

    /** Groups the nodes of the level below, which start at the codes `left`. */
    method BuildTreeLevel(left: seq<nat>, begin: nat, level: nat)
      requires Increasing(data) && 2 <= level <= LEVELS + 1
      requires LevelOk(data, buffer, spans, begin, left, level - 1, |data|)
      requires bufferSize == |buffer| && maxLevel == level - 1 && (data == [] ==> buffer == [])
      modifies this
      ensures Built()
      decreases LEVELS + 1 - level
    {
      if level > LEVELS {
        TopLevel(data, buffer, spans, begin, left);
        return;
      }
      if left == [] { return; }
      var newLeft: seq<nat> := [];
      var nowOffset := |buffer|;
      ghost var below, belowSpans := buffer, spans;
      for i := 0 to |left|
        invariant |below| <= |buffer| == |spans| && buffer[..nowOffset] == below && spans[..nowOffset] == belowSpans
        invariant LevelOk(data, buffer, spans, nowOffset, newLeft, level, if i < |left| then left[i] else |data|)
      {
        ghost var hi := if i + 1 < |left| then left[i + 1] else |data|;
        var child := begin + i;
        assert PlaceOk(data, below, belowSpans, begin, left, level - 1, |data|, i);
        assert buffer[child] == below[child] && spans[child] == belowSpans[child];
        if i > 0 { ChildBreak(data, below, belowSpans, begin, left, level - 1, i); }
        newLeft := Place(nowOffset, newLeft, level, left[i], hi, buffer[child].prefix, child);
      }
      bufferSize := |buffer|;
      maxLevel := level;
      BuildTreeLevel(newLeft, nowOffset, level + 1);
    }

    /** The codes below a node whose digits lie within the box's, in ascending order. */
    method SearchNode(n: nat, level: nat, box: Box) returns (found: seq<nat>)
      requires Increasing(data) && n < |buffer| == |spans| && spans[n].level == level + 1
      requires forall m: nat :: m < |buffer| ==> NodeOk(data, buffer, spans, m)
      ensures spans[n].lo <= spans[n].hi <= |data| && found == Selected(data, box, spans[n].lo, spans[n].hi, level + 1)
      decreases level
    {
      found := [];
      assert NodeOk(data, buffer, spans, n);
      ghost var s := spans[n];
      ghost var cut := s.lo;
      for v := 0 to 16
        invariant s.lo <= cut <= s.hi && CutAt(data, level, s.lo, cut, s.hi, v)
        invariant found == Selected(data, box, s.lo, cut, level + 1)
      {
        cut := SelectedNext(data, buffer, spans, n, v, cut, box);
        var offset := buffer[n].offsets[v];
        if offset != 0 && DigitIn(v, box, level) {
          if level == 0 {
            found := found + [offset - 1];
          } else {
            var below := SearchNode(offset - 1, level - 1, box);
            found := found + below;
          }
        }
      }
    }

    /** The positions of the codes all of whose digits lie within the box's, in ascending order. */
    method Search(box: Box) returns (found: seq<nat>)
      requires Increasing(data) && Built()
      ensures found == Selected(data, box, 0, |data|, LEVELS)
    {
      if bufferSize == 0 { return []; }
      found := SearchNode(bufferSize - 1, maxLevel - 1, box);
    }
  }
}
