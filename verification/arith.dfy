/**
 * Facts about multiples, quotients and remainders that the solver does not
 * find unaided once the divisor is a variable.
 */
module Arith {

  /** A non-zero multiple of `m` is at least `m` away from zero. */
  lemma MultipleBounds(j: int, m: int)
    requires m > 0
    ensures j >= 1 ==> j * m >= m
    ensures j <= -1 ==> j * m <= -m
  {
    if j >= 1 {
      assert j * m == (j - 1) * m + m;
    } else if j <= -1 {
      assert j * m == -((-j - 1) * m) - m;
    }
  }

  /** Quotient and remainder are the only ones that satisfy the division identity. */
  lemma DivUnique(a: int, m: int, q: int, r: int)
    requires m > 0 && a == q * m + r && 0 <= r < m
    ensures a / m == q && a % m == r
  {
    var q', r' := a / m, a % m;
    assert a == q' * m + r';
    assert (q - q') * m == r' - r;
    MultipleBounds(q - q', m);
  }

  /** Multiples of `m` leave no remainder. */
  lemma MultipleMod(k: int, m: int)
    requires m > 0
    ensures (k * m) % m == 0
  {
    DivUnique(k * m, m, k, 0);
  }

  /** Reduction of `x` into the window `[lo, lo + m)` moves it by a multiple of `m`. */
  lemma Reduce(x: int, lo: int, m: int)
    requires m > 0
    ensures lo <= (x - lo) % m + lo < lo + m
    ensures ((x - lo) % m + lo - x) % m == 0
    ensures lo <= x < lo + m ==> (x - lo) % m + lo == x
  {
    var a := x - lo;
    var q := a / m;
    assert a == q * m + a % m;
    assert (x - lo) % m + lo - x == (-q) * m;
    MultipleMod(-q, m);
    if lo <= x < lo + m {
      DivUnique(a, m, 0, a);
    }
  }

  /** Congruence modulo `m` is an equivalence that survives scaling and shifting. */
  lemma Congruent(x: int, y: int, z: int, k: int, m: int)
    requires m > 0 && (x - y) % m == 0 && (y - z) % m == 0
    ensures (x - z) % m == 0
    ensures (k * x - k * z) % m == 0
  {
    var a, b := (x - y) / m, (y - z) / m;
    assert x - y == a * m;
    assert y - z == b * m;
    assert x - z == (a + b) * m;
    MultipleMod(a + b, m);
    assert k * x - k * z == (k * (a + b)) * m;
    MultipleMod(k * (a + b), m);
  }

  /** Congruence is symmetric. */
  lemma CongruentSymmetric(x: int, y: int, m: int)
    requires m > 0 && (x - y) % m == 0
    ensures (y - x) % m == 0
  {
    var q := (x - y) / m;
    assert x - y == q * m;
    assert y - x == (-q) * m;
    MultipleMod(-q, m);
  }

  /** A step `10 * v + digit` keeps congruence with the exact accumulator. */
  lemma StepCongruent(r: int, v: int, e: int, digit: int, m: int)
    requires m > 0 && (r - (10 * v + digit)) % m == 0 && (v - e) % m == 0
    ensures (r - (10 * e + digit)) % m == 0
  {
    Congruent(v, e, e, 10, m);
    Congruent(r, 10 * v + digit, 10 * e + digit, 1, m);
  }

  /** Two values of one window of width `m` that are congruent modulo `m` are equal. */
  lemma CongruentInWindow(x: int, y: int, lo: int, m: int)
    requires m > 0 && lo <= x < lo + m && lo <= y < lo + m && (x - y) % m == 0
    ensures x == y
  {
    var q := (x - y) / m;
    assert x - y == q * m;
    MultipleBounds(q, m);
  }

  /** Dividing by `b` then by `c` is dividing by `b * c`. */
  lemma DivDiv(a: nat, b: nat, c: nat)
    requires b > 0 && c > 0
    ensures a / (b * c) == (a / b) / c
  {
    var q1, r1 := a / b, a % b;
    var q2, r2 := q1 / c, q1 % c;
    assert a == q1 * b + r1;
    assert q1 == q2 * c + r2;
    Regroup(q2, c, r2, b);
    ScaledBelow(b, r2, c);
    DivUnique(a, b * c, q2, b * r2 + r1);
  }

  lemma Regroup(q: int, c: int, r: int, b: int)
    ensures (q * c + r) * b == q * (b * c) + b * r
  {
  }

  lemma ScaledBelow(b: nat, r: nat, c: nat)
    requires r < c
    ensures b * r + b <= b * c
  {
    var j := c - 1 - r;
    assert c == r + 1 + j;
    Distribute(b, r + 1, j);
    NonNegative(b, j);
  }

  lemma Distribute(b: int, x: int, y: int)
    ensures b * (x + y) == b * x + b * y
  {
  }

  lemma NonNegative(x: nat, y: nat)
    ensures x * y >= 0
  {
  }
}
