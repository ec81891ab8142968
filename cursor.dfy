/** Modular navigation over a ring of n positions, as the component steps
    both the row index (over the eight sectors) and the character index
    (over the characters of the selected sector). */
module Cursor {
  import opened JsMath

  /** `(prev - 1 + n) % n`: one step back. */
  function StepBack(i: int, n: int): (r: int)
    requires n > 0
    ensures 0 <= i < n ==> 0 <= r < n && r == (if i == 0 then n - 1 else i - 1)
  {
    JsRem(i - 1 + n, n)
  }

  /** `(prev + 1) % n`: one step forward. */
  function StepForward(i: int, n: int): (r: int)
    requires n > 0
    ensures 0 <= i < n ==> 0 <= r < n && r == (if i == n - 1 then 0 else i + 1)
  {
    JsRem(i + 1, n)
  }

  /** A step forward followed by a step back (and the other way round)
      returns to the start. */
  lemma StepsAreInverse(i: int, n: int)
    requires 0 <= i < n
    ensures StepBack(StepForward(i, n), n) == i
    ensures StepForward(StepBack(i, n), n) == i
  {
  }

  /** The position after k steps forward from i. */
  function ForwardBy(i: int, n: int, k: nat): (r: int)
    requires n > 0
    decreases k
  {
    if k == 0 then i else StepForward(ForwardBy(i, n, k - 1), n)
  }

  /** k steps forward from i in [0, n) land on (i + k) mod n: the ring is a
      cycle, so n steps return to the start. */
  lemma {:induction false} ForwardByIsModular(i: int, n: int, k: nat)
    requires 0 <= i < n
    ensures ForwardBy(i, n, k) == (i + k) % n
  {
    if k > 0 {
      ForwardByIsModular(i, n, k - 1);
      var p := ForwardBy(i, n, k - 1);
      assert p == (i + k - 1) % n && 0 <= p < n;
      ModSucc(i + k - 1, n);
      assert ForwardBy(i, n, k) == StepForward(p, n);
    }
  }

  /** Taking the successor commutes with reduction modulo n. */
  lemma ModSucc(x: int, n: int)
    requires n > 0
    ensures (x + 1) % n == (if x % n == n - 1 then 0 else x % n + 1)
  {
    var p, q := x % n, x / n;
    var p2, q2 := (x + 1) % n, (x + 1) / n;
    assert x == n * q + p;
    assert x + 1 == n * q2 + p2;
    if p == n - 1 {
      assert p2 == n * (q + 1 - q2);
      SmallMultiple(n, q + 1 - q2);
    } else {
      assert p2 - (p + 1) == n * (q - q2);
      ModOfMultiple(q - q2, n);
      SameResidue(p2, p + 1, n);
    }
  }
}
