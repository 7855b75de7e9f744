/** The querier's expression evaluator: one pass over the tokens with a stack of operators and a stack of
    partial results. On the tokens of every expression it computes the expression's meaning. */
module QueryEval {
  import opened Basics
  import opened QueryMerge

  datatype Field = SrcIp | DstIp | SrcPort | DstPort

  datatype Op = And | Or

  /** Atoms compare a field with a value; operators have one precedence and bind to the left. */
  datatype Expr = Atom(field: Field, value: nat) | Paren(inner: Expr) | Bin(left: Expr, op: Op, right: Expr)

  datatype Token = Open | Close | FieldName(field: Field) | Equals | Value(value: nat) | Connective(op: Op)

  /** Positions found in one block. */
  datatype Answer = Answer(blockId: nat, pointers: seq<int>)

  /** Right operands are atoms or in brackets. */
  predicate Shaped(e: Expr) {
    match e
    case Atom(_, _) => true
    case Paren(inner) => Shaped(inner)
    case Bin(l, _, r) => Shaped(l) && Shaped(r) && !r.Bin?
  }

  function Tokens(e: Expr): seq<Token> {
    match e
    case Atom(f, v) => [FieldName(f), Equals, Value(v)]
    case Paren(inner) => [Open] + Tokens(inner) + [Close]
    case Bin(l, op, r) => Tokens(l) + [Connective(op)] + Tokens(r)
  }

  type Lookup = (Field, nat) -> seq<Answer>

  /** How often position v belongs to the answer in block b: the smaller count for and, the larger for or. */
  function Meaning(lookup: Lookup, e: Expr, b: nat, v: int): nat {
    match e
    case Atom(f, x) => if b < |lookup(f, x)| then Occ(lookup(f, x)[b].pointers, 0, v) else 0
    case Paren(inner) => Meaning(lookup, inner, b, v)
    case Bin(l, op, r) =>
      if op.And? then Min(Meaning(lookup, l, b, v), Meaning(lookup, r, b, v)) else Max(Meaning(lookup, l, b, v), Meaning(lookup, r, b, v))
  }

  // ---------- the two stacks, on expressions ----------

  /** The evaluator's state, with the expression that each partial result stands for; none is the empty list. */
  datatype State = State(left: Option<Expr>, op: Op, pending: Option<Field>, stack: seq<Frame>)

  datatype Frame = Frame(left: Option<Expr>, op: Op)

  function Combine(left: Option<Expr>, op: Op, right: Expr): Option<Expr> {
    if left.None? then Some(right) else Some(Bin(left.value, op, right))
  }

  /** One token; none if the program would pop an empty stack or use a value without a field. */
  function Step(s: State, t: Token): Option<State> {
    match t
    case Open => Some(State(None, Or, s.pending, s.stack + [Frame(s.left, s.op)]))
    case Close =>
      if s.stack == [] || s.left.None? then None
      else
        var top := s.stack[|s.stack| - 1];
        Some(State(Combine(top.left, top.op, s.left.value), top.op, s.pending, s.stack[..|s.stack| - 1]))
    case FieldName(f) => Some(s.(pending := Some(f)))
    case Equals => Some(s)
    case Value(v) => if s.pending.None? then None else Some(s.(left := Combine(s.left, s.op, Atom(s.pending.value, v))))
    case Connective(op) => Some(s.(op := op))
  }

  function Run(s: State, tokens: seq<Token>, n: nat): Option<State>
    requires n <= |tokens|
  {
    if n == 0 then Some(s)
    else
      var before := Run(s, tokens, n - 1);
      if before.None? then None else Step(before.value, tokens[n - 1])
  }

  lemma {:induction false} RunJoin(s: State, a: seq<Token>, b: seq<Token>, n: nat)
    requires n <= |b| && Run(s, a, |a|).Some?
    ensures Run(s, a + b, |a| + n) == Run(Run(s, a, |a|).value, b, n)
  {
    if n == 0 { RunSame(s, a + b, a, |a|); } else { RunJoin(s, a, b, n - 1); }
  }

  lemma {:induction false} RunSame(s: State, a: seq<Token>, b: seq<Token>, n: nat)
    requires n <= |a| && n <= |b| && forall i: nat :: i < n ==> a[i] == b[i]
    ensures Run(s, a, n) == Run(s, b, n)
  {
    if n > 0 { RunSame(s, a, b, n - 1); }
  }

  /** Two stretches of tokens one after the other. */
  lemma RunThen(s: State, a: seq<Token>, mid: State, b: seq<Token>, last: State)
    requires Run(s, a, |a|) == Some(mid) && Run(mid, b, |b|) == Some(last)
    ensures Run(s, a + b, |a + b|) == Some(last)
  {
    RunJoin(s, a, b, |b|);
  }

  lemma {:induction false} RunNeverStops(s: State, tokens: seq<Token>, i: nat, n: nat)
    requires i <= n <= |tokens| && Run(s, tokens, n).Some?
    ensures Run(s, tokens, i).Some?
    decreases n
  {
    if i < n { RunNeverStops(s, tokens, i, n - 1); }
  }

  /** An expression without its brackets. */
  function Strip(e: Expr): Expr {
    match e
    case Atom(_, _) => e
    case Paren(inner) => Strip(inner)
    case Bin(l, op, r) => Bin(Strip(l), op, Strip(r))
  }

  lemma {:induction false} StripKeepsMeaning(lookup: Lookup, e: Expr, b: nat, v: int)
    ensures Meaning(lookup, Strip(e), b, v) == Meaning(lookup, e, b, v)
  {
    match e
    case Atom(_, _) =>
    case Paren(inner) => StripKeepsMeaning(lookup, inner, b, v);
    case Bin(l, _, r) =>
      StripKeepsMeaning(lookup, l, b, v);
      StripKeepsMeaning(lookup, r, b, v);
  }

  lemma RunAtom(s: State, f: Field, v: nat)
    ensures Run(s, Tokens(Atom(f, v)), 3) == Some(s.(left := Combine(s.left, s.op, Atom(f, v)), pending := Some(f)))
  {
    var ts := Tokens(Atom(f, v));
    assert Run(s, ts, 1) == Step(s, ts[0]);
    assert Run(s, ts, 2) == Step(Run(s, ts, 1).value, ts[1]);
    assert Run(s, ts, 3) == Step(Run(s, ts, 2).value, ts[2]);
  }

  /** The tokens of an operand add it to the left operand with the current operator. */
  lemma {:induction false} RunOperand(s: State, e: Expr)
    requires Shaped(e) && !e.Bin?
    ensures var after := Run(s, Tokens(e), |Tokens(e)|);
            after.Some? && after.value == s.(left := Combine(s.left, s.op, Strip(e)), pending := after.value.pending)
    decreases e, 0
  {
    match e
    case Atom(f, v) => RunAtom(s, f, v);
    case Paren(inner) =>
      var inside := State(None, Or, s.pending, s.stack + [Frame(s.left, s.op)]);
      RunOne(s, Open);
      RunWhole(inside, inner);
      var closed := Run(inside, Tokens(inner), |Tokens(inner)|).value;
      RunThen(s, [Open], inside, Tokens(inner), closed);
      RunOne(closed, Close);
      assert closed.stack[..|closed.stack| - 1] == s.stack;
      var after := State(Combine(s.left, s.op, Strip(inner)), s.op, closed.pending, s.stack);
      RunThen(s, [Open] + Tokens(inner), closed, [Close], after);
  }

  lemma RunOne(s: State, t: Token)
    ensures Run(s, [t], 1) == Step(s, t)
  {
    assert Run(s, [t], 0) == Some(s);
  }

  /** From an empty left operand the tokens of an expression leave the expression. */
  lemma {:induction false} RunWhole(s: State, e: Expr)
    requires Shaped(e) && s.left == None
    ensures var after := Run(s, Tokens(e), |Tokens(e)|);
            after.Some? && after.value.left == Some(Strip(e)) && after.value.stack == s.stack
    decreases e, 1
  {
    if e.Bin? {
      RunWhole(s, e.left);
      var one := Run(s, Tokens(e.left), |Tokens(e.left)|).value;
      RunOne(one, Connective(e.op));
      var two := one.(op := e.op);
      RunThen(s, Tokens(e.left), one, [Connective(e.op)], two);
      RunOperand(two, e.right);
      var last := Run(two, Tokens(e.right), |Tokens(e.right)|).value;
      RunThen(s, Tokens(e.left) + [Connective(e.op)], two, Tokens(e.right), last);
    } else {
      RunOperand(s, e);
    }
  }

  // ---------- answers ----------

  ghost predicate BlockMeans(lookup: Lookup, blocks: seq<nat>, a: Answer, e: Expr, b: nat)
    requires b < |blocks|
  {
    a.blockId == blocks[b] && forall v :: Occ(a.pointers, 0, v) == Meaning(lookup, e, b, v)
  }

  /** One answer per block, with the expression's meaning. */
  ghost predicate Means(lookup: Lookup, blocks: seq<nat>, list: seq<Answer>, e: Expr) {
    |list| == |blocks| && forall b: nat :: b < |blocks| ==> BlockMeans(lookup, blocks, list[b], e, b)
  }

  ghost predicate StandsFor(lookup: Lookup, blocks: seq<nat>, list: seq<Answer>, e: Option<Expr>) {
    if e.None? then list == [] else Means(lookup, blocks, list, e.value)
  }

  /** Every lookup answers for the same blocks, in the same order. */
  ghost predicate LookupOk(lookup: Lookup, blocks: seq<nat>) {
    forall f: Field, v: nat :: Aligned(lookup(f, v), blocks)
  }

  ghost predicate Aligned(list: seq<Answer>, blocks: seq<nat>) {
    |list| == |blocks| && forall b: nat :: b < |blocks| ==> list[b].blockId == blocks[b]
  }

  lemma LookupMeans(lookup: Lookup, blocks: seq<nat>, f: Field, v: nat)
    requires LookupOk(lookup, blocks)
    ensures Means(lookup, blocks, lookup(f, v), Atom(f, v))
  {
    assert Aligned(lookup(f, v), blocks);
    forall b: nat | b < |blocks| ensures BlockMeans(lookup, blocks, lookup(f, v)[b], Atom(f, v), b) {}
  }

  /** `intersect` and `join` on lists of answers: block by block; an empty list counts as missing. */
  method CombineAnswers(la: seq<Answer>, lb: seq<Answer>, op: Op, ghost lookup: Lookup, ghost blocks: seq<nat>,
                        ghost l: Option<Expr>, ghost r: Expr) returns (list: seq<Answer>)
    requires StandsFor(lookup, blocks, la, l) && Means(lookup, blocks, lb, r)
    ensures StandsFor(lookup, blocks, list, Combine(l, op, r))
  {
    if |la| == 0 { return lb; }
    if |lb| == 0 { return la; }
    ghost var e := Bin(l.value, op, r);
    list := la;
    var i := 0;
    while i < |list| && i < |lb|
      invariant i <= |list| == |la| == |blocks|
      invariant forall b: nat :: b < i ==> BlockMeans(lookup, blocks, list[b], e, b)
      invariant forall b: nat :: i <= b < |blocks| ==> list[b] == la[b]
    {
      assert BlockMeans(lookup, blocks, la[i], l.value, i) && BlockMeans(lookup, blocks, lb[i], r, i);
      if list[i].blockId != lb[i].blockId { return; }
      var merged;
      if op.And? { merged := Intersect(list[i].pointers, lb[i].pointers); } else { merged := Join(list[i].pointers, lb[i].pointers); }
      var answer := Answer(list[i].blockId, merged);
      assert BlockMeans(lookup, blocks, answer, e, i);
      list := list[i := answer];
      i := i + 1;
    }
  }

  // ---------- the loop ----------

  ghost predicate FrameOk(lookup: Lookup, blocks: seq<nat>, beforeLists: seq<seq<Answer>>, ops: seq<Op>, stack: seq<Frame>, k: nat)
    requires k < |stack| == |ops| == |beforeLists|
  {
    ops[k] == stack[k].op && StandsFor(lookup, blocks, beforeLists[k], stack[k].left)
  }

  ghost predicate StacksOk(lookup: Lookup, blocks: seq<nat>, beforeLists: seq<seq<Answer>>, ops: seq<Op>, stack: seq<Frame>) {
    |stack| == |ops| == |beforeLists| && forall k: nat :: k < |stack| ==> FrameOk(lookup, blocks, beforeLists, ops, stack, k)
  }

  lemma PushOk(lookup: Lookup, blocks: seq<nat>, beforeLists: seq<seq<Answer>>, ops: seq<Op>, s: State, leftList: seq<Answer>)
    requires StacksOk(lookup, blocks, beforeLists, ops, s.stack) && StandsFor(lookup, blocks, leftList, s.left)
    ensures StacksOk(lookup, blocks, beforeLists + [leftList], ops + [s.op], s.stack + [Frame(s.left, s.op)])
  {
    var stack := s.stack + [Frame(s.left, s.op)];
    forall k: nat | k < |stack| ensures FrameOk(lookup, blocks, beforeLists + [leftList], ops + [s.op], stack, k) {
      if k < |s.stack| { assert FrameOk(lookup, blocks, beforeLists, ops, s.stack, k); }
    }
  }

  lemma PopOk(lookup: Lookup, blocks: seq<nat>, beforeLists: seq<seq<Answer>>, ops: seq<Op>, stack: seq<Frame>)
    requires StacksOk(lookup, blocks, beforeLists, ops, stack) && |stack| > 0
    ensures FrameOk(lookup, blocks, beforeLists, ops, stack, |stack| - 1)
    ensures StacksOk(lookup, blocks, beforeLists[..|stack| - 1], ops[..|stack| - 1], stack[..|stack| - 1])
  {
    var top := |stack| - 1;
    forall k: nat | k < top ensures FrameOk(lookup, blocks, beforeLists[..top], ops[..top], stack[..top], k) {
      assert FrameOk(lookup, blocks, beforeLists, ops, stack, k);
    }
  }

  function Start(): State {
    State(None, Or, None, [])
  }

  /** Evaluates the tokens of a query. */
  method SearchExpression(tokens: seq<Token>, lookup: Lookup, ghost blocks: seq<nat>, ghost e: Expr) returns (leftList: seq<Answer>)
    requires LookupOk(lookup, blocks) && Shaped(e) && tokens == Tokens(e)
    ensures Means(lookup, blocks, leftList, e)
  {
    var beforeLists: seq<seq<Answer>>, ops: seq<Op> := [], [];
    var opNow, pending: Option<Field> := Or, None;
    leftList := [];
    ghost var s := Start();
    RunWhole(s, e);
    for i := 0 to |tokens|
      invariant Run(Start(), tokens, i) == Some(s)
      invariant opNow == s.op && pending == s.pending && StandsFor(lookup, blocks, leftList, s.left)
      invariant StacksOk(lookup, blocks, beforeLists, ops, s.stack)
    {
      RunNeverStops(Start(), tokens, i + 1, |tokens|);
      ghost var next := Run(Start(), tokens, i + 1).value;
      assert Step(s, tokens[i]) == Some(next);
      match tokens[i] {
        case Open =>
          PushOk(lookup, blocks, beforeLists, ops, s, leftList);
          ops, beforeLists := ops + [opNow], beforeLists + [leftList];
          opNow, leftList := Or, [];
        case Close =>
          ghost var top := |ops| - 1;
          PopOk(lookup, blocks, beforeLists, ops, s.stack);
          opNow := ops[|ops| - 1];
          leftList := CombineAnswers(beforeLists[|beforeLists| - 1], leftList, opNow, lookup, blocks, s.stack[top].left, s.left.value);
          ops, beforeLists := ops[..|ops| - 1], beforeLists[..|beforeLists| - 1];
        case FieldName(f) => pending := Some(f);
        case Equals =>
        case Value(v) =>
          var rightList := lookup(pending.value, v);
          LookupMeans(lookup, blocks, pending.value, v);
          leftList := CombineAnswers(leftList, rightList, opNow, lookup, blocks, s.left, Atom(pending.value, v));
        case Connective(op) => opNow := op;
      }
      s := next;
    }
    StripMeans(lookup, blocks, leftList, e);
  }

  lemma StripMeans(lookup: Lookup, blocks: seq<nat>, list: seq<Answer>, e: Expr)
    requires Means(lookup, blocks, list, Strip(e))
    ensures Means(lookup, blocks, list, e)
  {
    forall b: nat | b < |blocks| ensures BlockMeans(lookup, blocks, list[b], e, b) {
      assert BlockMeans(lookup, blocks, list[b], Strip(e), b);
      forall v ensures Meaning(lookup, Strip(e), b, v) == Meaning(lookup, e, b, v) { StripKeepsMeaning(lookup, e, b, v); }
    }
  }
}
