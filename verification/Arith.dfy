/** Small facts about multiplication and division. */
module Arith {
  lemma {:induction false} MulMono(d: nat, a: int, b: int)
    requires a <= b
    ensures d * a <= d * b
  {
    assert d * (b - a) >= 0;
  }

  lemma {:induction false} MulDistribute(d: int, a: int, b: int)
    ensures d * (a + b) == d * a + d * b
    ensures d * (a - b) == d * a - d * b
    ensures (a + b) * d == a * d + b * d
    ensures (a - b) * d == a * d - b * d
  {
  }

  lemma {:induction false} MulAssoc(a: int, b: int, c: int)
    ensures a * (b * c) == (a * b) * c
  {
  }

  /** Quotient and remainder are unique. */
  lemma {:induction false} DivUnique(x: int, d: int, q: int, r: int)
    requires 0 <= r < d && x == d * q + r
    ensures x / d == q && x % d == r
  {
    var q0, r0 := x / d, x % d;
    assert x == d * q0 + r0;
    if q0 >= q + 1 {
      MulMono(d, q + 1, q0);
      MulDistribute(d, q, 1);
    } else if q >= q0 + 1 {
      MulMono(d, q0 + 1, q);
      MulDistribute(d, q0, 1);
    }
  }

  lemma {:induction false} DivBounds(n: nat, d: nat)
    requires d > 0
    ensures d * (n / d) <= n < d * (n / d + 1)
  {
    MulDistribute(d, n / d, 1);
  }

  lemma {:induction false} DivMono(a: nat, b: nat, d: nat)
    requires d > 0 && a <= b
    ensures a / d <= b / d
  {
    if a / d > b / d {
      MulMono(d, b / d + 1, a / d);
    }
  }

  lemma {:induction false} MulSwap(a: int, b: int)
    ensures a * b == b * a
  {
  }

  /** Scaling by d / n, rounded down, keeps the order and the ends. */
  lemma {:induction false} ScaleMono(x: nat, y: nat, d: nat, n: nat)
    requires n > 0 && x <= y <= n
    ensures 0 <= (x * d) / n <= (y * d) / n <= d
    ensures (0 * d) / n == 0 && (n * d) / n == d
  {
    MulMonoRight(0, x, d);
    MulMonoRight(x, y, d);
    MulMonoRight(y, n, d);
    ScaleEnds(d, n);
    var a, b, c := x * d, y * d, n * d;
    DivMono(a, b, n);
    DivMono(b, c, n);
    DivMono(0, a, n);
  }

  lemma {:induction false} ScaleEnds(d: nat, n: nat)
    requires n > 0
    ensures (0 * d) / n == 0 && (n * d) / n == d && 0 / n == 0
  {
    DivUnique(n * d, n, d, 0);
    DivUnique(0, n, 0, 0);
  }

  lemma {:induction false} MulMonoRight(a: int, b: int, d: nat)
    requires a <= b
    ensures a * d <= b * d
  {
    MulMono(d, a, b);
    MulSwap(a, d);
    MulSwap(b, d);
  }
}
