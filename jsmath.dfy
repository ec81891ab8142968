/** The few JavaScript numeric operators the keyboard relies on, on integers. */
module JsMath {

  /** JavaScript's `a % n` for a positive divisor: the remainder of the
      division truncated toward zero, which takes the sign of the dividend
      (Dafny's own `%` is never negative). */
  function JsRem(a: int, n: int): (r: int)
    requires n > 0
    ensures a >= 0 ==> 0 <= r < n
    ensures a < 0 ==> -n < r <= 0
    ensures (a - r) % n == 0
  {
    if a >= 0 then
      var q, m := a / n, a % n;
      assert a - m == n * q;
      ModOfMultiple(q, n);
      m
    else
      var q, m := (-a) / n, (-a) % n;
      assert a + m == -(n * q);
      ModOfMultiple(q, n);
      -m
  }

  /** `Math.min` */
  function Min(a: int, b: int): (r: int)
    ensures r <= a && r <= b && (r == a || r == b)
  {
    if a <= b then a else b
  }

  /** `Math.max` */
  function Max(a: int, b: int): (r: int)
    ensures r >= a && r >= b && (r == a || r == b)
  {
    if a >= b then a else b
  }

  /** A multiple of n that lies in [0, n) is zero. */
  lemma SmallMultiple(n: int, t: int)
    requires n > 0 && 0 <= n * t < n
    ensures t == 0
  {
  }

  /** Two numbers in [0, n) that differ by a multiple of n are equal. */
  lemma SameResidue(x: int, y: int, n: int)
    requires 0 <= x < n && 0 <= y < n
    requires (x - y) % n == 0
    ensures x == y
  {
  }

  /** A multiple of n leaves no remainder. */
  lemma ModOfMultiple(k: int, n: int)
    requires n > 0
    ensures (n * k) % n == 0 && (-(n * k)) % n == 0
  {
    var q, r := (n * k) / n, (n * k) % n;
    assert n * k == n * q + r;
    assert r == n * (k - q);
    SmallMultiple(n, k - q);
    var q', r' := (-(n * k)) / n, (-(n * k)) % n;
    assert -(n * k) == n * q' + r';
    assert r' == n * (-k - q');
    SmallMultiple(n, -k - q');
  }
}
