/** The place of the highest bit of a number, and the equal parts into which the numbers with one highest bit are cut. */
module Logarithm {
  import opened Modular
  import opened Bits

  /** The place of the highest one bit of a number. */
  function Log2(x: nat): (k: nat)
    requires x >= 1
    ensures Pow2(k) <= x < Pow2(k + 1)
    ensures (x >= 2 ==> k >= 1) && (x >= 4 ==> k >= 2)
  {
    if x == 1 then 0 else 1 + Log2(x / 2)
  }

  lemma {:induction false} HighestBit(x: nat, k: nat)
    requires Pow2(k) <= x < Pow2(k + 1)
    ensures x >= 1 && Log2(x) == k
  {
    if Log2(x) < k {
      Pow2Grows(Log2(x) + 1, k);
    } else if Log2(x) > k {
      Pow2Grows(k + 1, Log2(x));
    }
  }

  /** `x` is part `q` of its range and `r` is its place in the part. */
  lemma PartOf(q: nat, r: nat, k: nat, m: nat)
    requires Pow2(m) <= q < Pow2(m + 1) && r < Pow2(k)
    ensures var x := q * Pow2(k) + r; x >= 1 && Log2(x) == m + k && x / Pow2(k) == q && x % Pow2(k) == r
  {
    hide Log2, Pow2;
    var x := q * Pow2(k) + r;
    Pow2Add(m, k);
    Pow2Add(m + 1, k);
    assert m + 1 + k == m + k + 1;
    Factor(Pow2(m), q, Pow2(k));
    Factor(q + 1, Pow2(m + 1), Pow2(k));
    assert (q + 1) * Pow2(k) == q * Pow2(k) + Pow2(k);
    HighestBit(x, m + k);
    Remainder(x, Pow2(k), q, r);
  }

  /** The other way round. */
  lemma PartsOf(x: nat, k: nat, m: nat)
    requires x >= 1 && Log2(x) == m + k
    ensures Pow2(m) <= x / Pow2(k) < Pow2(m + 1) && x % Pow2(k) < Pow2(k)
    ensures x == x / Pow2(k) * Pow2(k) + x % Pow2(k)
  {
    hide Log2, Pow2;
    assert x < Pow2(m + k + 1);
    Pow2Add(m, k);
    Pow2Add(m + 1, k);
    assert m + 1 + k == m + k + 1;
    QuotientBound(x, Pow2(m + 1), Pow2(k));
    QuotientAtLeast(x, Pow2(m), Pow2(k));
  }

  lemma {:induction false} Log2Below(x: nat, n: nat)
    requires 1 <= x < Pow2(n)
    ensures Log2(x) < n
  {
    if Log2(x) >= n {
      Pow2Grows(n, Log2(x));
    }
  }

  lemma {:induction false} Log2AtLeast(x: nat, n: nat)
    requires Pow2(n) <= x
    ensures x >= 1 && Log2(x) >= n
  {
    hide Log2, Pow2;
    if Log2(x) < n {
      Pow2Grows(Log2(x) + 1, n);
    }
  }

  lemma SmallPowers()
    ensures Pow2(0) == 1 && Pow2(1) == 2 && Pow2(2) == 4 && Pow2(3) == 8 && Pow2(4) == 16 && Pow2(5) == 32
    ensures Pow2(6) == 64 && Pow2(7) == 128 && Pow2(8) == 256 && Pow2(9) == 512 && Pow2(10) == 1024
    ensures Pow2(11) == 2048 && Pow2(12) == 4096 && Pow2(13) == 8192 && Pow2(14) == 16384 && Pow2(15) == 32768
  {
    assert Pow2(5) == 32;
    assert Pow2(10) == 1024;
  }
}
