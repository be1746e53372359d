/** Facts about % with a variable divisor. */
module Divides {
  lemma MulMonotone(n: int, a: int, b: int)
    requires 0 <= n && a <= b
    ensures n * a <= n * b
  {
  }

  /** Quotient and remainder are determined by x = n * q + r with 0 <= r < n. */
  lemma RemainderUnique(x: int, n: int, q: int, r: int)
    requires 0 <= r < n && x == n * q + r
    ensures x % n == r
  {
    var q0, r0 := x / n, x % n;
    assert n * q0 + r0 == n * q + r;
    assert n * (q0 + 1) == n * q0 + n;
    assert n * (q + 1) == n * q + n;
    if q0 < q {
      MulMonotone(n, q0 + 1, q);
    } else if q < q0 {
      MulMonotone(n, q + 1, q0);
    }
  }

  predicate Multiple(x: int, n: int)
    requires 1 <= n
  {
    x % n == 0
  }

  lemma MultipleOf(q: int, n: int)
    requires 1 <= n
    ensures Multiple(q * n, n)
  {
    RemainderUnique(q * n, n, q, 0);
  }

  lemma Quotient(x: int, n: int) returns (q: nat)
    requires 1 <= n && 0 < x && Multiple(x, n)
    ensures 1 <= q && q * n == x
  {
    q := x / n;
  }

  /** Divisibility passes through differences, in either direction. */
  lemma DividesDifference(a: int, b: int, n: int)
    requires 1 <= n && Multiple(b, n)
    ensures Multiple(a, n) <==> Multiple(a - b, n)
  {
    var p := b / n;
    if a % n == 0 {
      var q := a / n;
      assert a - b == (q - p) * n;
      MultipleOf(q - p, n);
    }
    if (a - b) % n == 0 {
      var q := (a - b) / n;
      assert a == (q + p) * n;
      MultipleOf(q + p, n);
    }
  }
}
