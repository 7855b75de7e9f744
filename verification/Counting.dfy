/** How often a value occurs in a list. */
module Counting {
  /** Among the first k values. */
  function Occurs(values: seq<int>, k: nat, v: int): nat
    requires k <= |values|
  {
    if k == 0 then 0 else Occurs(values, k - 1, v) + if values[k - 1] == v then 1 else 0
  }

  lemma {:induction false} OccursIn(values: seq<int>, more: seq<int>, k: nat, v: int)
    requires k <= |values|
    ensures Occurs(values + more, k, v) == Occurs(values, k, v)
  {
    if k > 0 { OccursIn(values, more, k - 1, v); }
  }
}
