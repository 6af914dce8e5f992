/** Products, quotients and remainders. */
module Modular {

  lemma Factor(a: int, b: int, m: nat)
    requires a <= b
    ensures a * m <= b * m
  {
  }

  lemma LessFactor(a: nat, b: nat, m: nat)
    requires a * m < b * m
    ensures a < b
  {
    if a >= b {
      Factor(b, a, m);
    }
  }

  function Div(x: nat, m: nat): nat
    requires m > 0
  {
    x / m
  }

  function Mod(x: nat, m: nat): (r: nat)
    requires m > 0
    ensures r < m
  {
    x % m
  }

  /** A multiple of `m` smaller than `m` is zero. */
  lemma SmallMultiple(d: int, m: nat, e: int)
    requires d * m == e && 0 - m < e < m
    ensures e == 0 && d == 0
  {
    if d >= 1 {
      Factor(1, d, m);
    } else if d <= -1 {
      Factor(d, -1, m);
    }
  }

  lemma Remainder(c: int, m: nat, q: int, r: int)
    requires m > 0 && c == q * m + r && 0 <= r < m
    ensures c / m == q && c % m == r
  {
    var p, s := c / m, c % m;
    assert c == p * m + s;
    assert (q - p) * m == s - r;
    SmallMultiple(q - p, m, s - r);
  }

  lemma AddMultiple(a: int, k: int, m: nat)
    requires m > 0
    ensures (a + k * m) % m == a % m
  {
    var q, r := a / m, a % m;
    assert a == q * m + r;
    assert a + k * m == (q + k) * m + r;
    Remainder(a + k * m, m, q + k, r);
  }

  /** Numbers with the same remainder that are close to each other are equal. */
  lemma SameRemainder(a: int, b: int, m: nat)
    requires m > 0 && a % m == b % m && 0 - m < a - b < m
    ensures a == b
  {
    assert a == a / m * m + a % m && b == b / m * m + b % m;
    assert (a / m - b / m) * m == a - b;
    SmallMultiple(a / m - b / m, m, a - b);
  }
}
