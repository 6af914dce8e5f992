/** The index of the literal coder: two formulas, with and without bit masks. */
module LzmaLiteral {
  import opened Modular
  import opened Bits
  import opened LowBits
  import opened LzmaSymbol
  import opened LzmaRange

  // ---------------------------------------------------------------- masks

  /** Bitwise and. */
  function And(x: nat, y: nat): nat
    decreases x
  {
    if x == 0 then 0 else 2 * And(x / 2, y / 2) + x % 2 * (y % 2)
  }

  lemma {:induction false} AndOne(k: nat, y: nat)
    ensures And(Pow2(k), y) == Pow2(k) * (y / Pow2(k) % 2)
    decreases k
  {
    if k == 0 {
      assert And(1, y) == 2 * And(0, y / 2) + y % 2;
    } else {
      AndOne(k - 1, y / 2);
      DivDiv(y, Pow2(k - 1));
      AndEven(Pow2(k - 1), y);
    }
  }

  lemma AndEven(p: nat, y: nat)
    requires p > 0
    ensures And(2 * p, y) == 2 * And(p, y / 2)
  {
    assert 2 * p / 2 == p && 2 * p % 2 == 0;
  }

  lemma AndStep(x: nat, y: nat)
    ensures And(x, y) == 2 * And(x / 2, y / 2) + x % 2 * (y % 2)
  {
  }

  lemma MaskHalf(x: nat, p: nat, q: nat)
    requires 0 < q <= p
    ensures (2 * p - 2 * q) / 2 == p - q && (2 * p - 2 * q) % 2 == 0
    ensures x / 2 % q <= x / 2 % p ==> x % (2 * q) <= x % (2 * p)
    ensures 2 * (x / 2 % p - x / 2 % q) == x % (2 * p) - x % (2 * q)
  {
    HalfMod(x, p);
    HalfMod(x, q);
  }

  lemma MaskLow(x: nat, p: nat)
    requires 0 < p
    ensures (2 * p - 1) / 2 == p - 1 && (2 * p - 1) % 2 == 1
    ensures 2 * (x / 2 % p) + x % 2 == x % (2 * p)
  {
    HalfMod(x, p);
  }

  lemma MaskShifted(x: nat, p: nat, q: nat)
    requires 0 < q <= p && x / 2 % q <= x / 2 % p && And(x / 2, p - q) == x / 2 % p - x / 2 % q
    ensures x % (2 * q) <= x % (2 * p) && And(x, 2 * p - 2 * q) == x % (2 * p) - x % (2 * q)
  {
    AndStep(x, 2 * p - 2 * q);
    hide And;
    MaskHalf(x, p, q);
  }

  lemma AndOdd(x: nat, p: nat)
    requires 0 < p
    ensures And(x, 2 * p - 1) == 2 * And(x / 2, p - 1) + x % 2
  {
    hide And;
    var m := 2 * p - 1;
    assert m / 2 == p - 1 && m % 2 == 1;
    AndStep(x, m);
  }

  lemma MaskFromLow(x: nat, p: nat)
    requires 0 < p && And(x / 2, p - 1) == x / 2 % p
    ensures And(x, 2 * p - 1) == x % (2 * p)
  {
    hide And;
    AndOdd(x, p);
    MaskLow(x, p);
  }

  /** `x` masked with the bits from `b` to `a`. */
  ghost predicate MaskOk(x: nat, a: nat, b: nat) {
    && Pow2(b) <= Pow2(a) && x % Pow2(b) <= x % Pow2(a)
    && And(x, Pow2(a) - Pow2(b)) == x % Pow2(a) - x % Pow2(b)
  }

  lemma MaskUp(x: nat, a: nat, b: nat)
    requires MaskOk(x / 2, a, b)
    ensures MaskOk(x, a + 1, b + 1)
  {
    Pow2Next(a);
    Pow2Next(b);
    hide And, Pow2;
    MaskShifted(x, Pow2(a), Pow2(b));
  }

  lemma MaskWider(x: nat, a: nat)
    requires MaskOk(x / 2, a, 0)
    ensures MaskOk(x, a + 1, 0)
  {
    PowZero();
    Pow2Next(a);
    hide And, Pow2;
    ModOne(x);
    ModOne(x / 2);
    MaskFromLow(x, Pow2(a));
  }

  lemma MaskEmpty(x: nat, a: nat)
    ensures MaskOk(x, a, a)
  {
    hide And, Pow2;
    AndZero(x);
  }

  /** A mask of the bits from `b` to `a` selects them. */
  lemma {:induction false} AndMask(x: nat, a: nat, b: nat)
    requires b <= a
    ensures MaskOk(x, a, b)
    decreases a
  {
    hide MaskOk;
    if a == b {
      MaskEmpty(x, a);
    } else if b > 0 {
      AndMask(x / 2, a - 1, b - 1);
      MaskUp(x, a - 1, b - 1);
    } else {
      AndMask(x / 2, a - 1, 0);
      MaskWider(x, a - 1);
    }
  }

  lemma ModOne(x: nat)
    ensures x % 1 == 0
  {
  }

  lemma {:induction false} AndZero(x: nat)
    ensures And(x, 0) == 0
    decreases x
  {
    if x > 0 {
      AndZero(x / 2);
    }
  }

  lemma MatchBitIsAnd(offs: nat, matchByte: nat)
    requires offs == 0 || offs == 256
    ensures And(offs, 2 * matchByte) == MatchBit(offs, matchByte)
  {
    AndOne(8, 2 * matchByte);
    Pow2Eight();
  }

  // ---------------------------------------------------------------- the literal coder

  lemma ModOfMod(c: nat, n: nat, k: nat)
    requires n > 0 && k > 0
    ensures n * k > 0 && c % (n * k) % n == c % n
  {
    var q, r := c / (n * k), c % (n * k);
    assert c == q * (n * k) + r;
    assert q * (n * k) == (q * k) * n;
    assert r == r / n * n + r % n;
    assert c == (q * k + r / n) * n + r % n;
    Remainder(c, n, q * k + r / n, r % n);
  }

  lemma ModOfPow2(c: nat, m: nat, n: nat)
    requires n <= m
    ensures c % Pow2(m) % Pow2(n) == c % Pow2(n)
  {
    hide Pow2;
    Pow2Add(n, m - n);
    assert n + (m - n) == m;
    ModOfMod(c, Pow2(n), Pow2(m - n));
  }

  /** The low bits of a position with a byte appended. */
  lemma LowPosition(pos: nat, prev: Byte, lp: nat)
    ensures (pos * 256 + prev) % Pow2(8 + lp) == pos % Pow2(lp) * 256 + prev
  {
    hide Pow2;
    Pow2Eight();
    Pow2Add(8, lp);
    var p, q, r := Pow2(lp), pos / Pow2(lp), pos % Pow2(lp);
    assert pos == q * p + r;
    assert (q * p + r) * 256 == q * (256 * p) + r * 256;
    assert (r + 1) * 256 <= p * 256;
    Remainder(pos * 256 + prev, 256 * p, q, r * 256 + prev);
  }

  lemma PrevBits(pos: nat, prev: Byte, n: nat)
    requires n <= 8
    ensures (pos * 256 + prev) % Pow2(n) == prev % Pow2(n)
  {
    hide Pow2;
    Pow2Eight();
    LowPosition(pos, prev, 0);
    assert Pow2(8 + 0) == 256;
    assert pos % Pow2(0) == 0 by { PowZero(); }
    ModOfPow2(pos * 256 + prev, 8, n);
  }

  lemma PowZero()
    ensures Pow2(0) == 1 && Pow2(32) == WORD
  {
    Pow2Eight();
    Pow2Add(8, 8);
    Pow2Add(16, 16);
  }

  /** What the mask leaves of a position with a byte appended. */
  lemma Masked(lc: nat, lp: nat, pos: nat, prev: Byte)
    requires lc <= 8 && lp <= 4
    ensures Pow2(8 - lc) <= Pow2(8 + lp)
    ensures And((pos * 256 + prev) % WORD, Pow2(8 + lp) - Pow2(8 - lc)) ==
            pos % Pow2(lp) * 256 + (prev - prev % Pow2(8 - lc))
  {
    hide Pow2, And;
    var full := pos * 256 + prev;
    PowZero();
    AndMask(full % WORD, 8 + lp, 8 - lc);
    ModOfPow2(full, 32, 8 + lp);
    ModOfPow2(full, 32, 8 - lc);
    LowPosition(pos, prev, lp);
    PrevBits(pos, prev, 8 - lc);
  }

  /** The decoder and its twin compute the index of the literal coder in different ways, to the same result. */
  lemma LiteralIndices(lc: nat, lp: nat, pos: nat, prev: Byte)
    requires lc <= 8 && lp <= 4
    ensures Pow2(8 - lc) <= 256 * Pow2(lp)
    ensures 3 * (And((pos * 256 + prev) % WORD, 256 * Pow2(lp) - Pow2(8 - lc)) * Pow2(lc)) ==
            LIT_SIZE * LiteralCell(lc, lp, pos, prev)
  {
    hide Pow2, And;
    EightMore(lp);
    Masked(lc, lp, pos, prev);
    EightSplit(lc);
    Whole(prev, Pow2(8 - lc));
    var m := And((pos * 256 + prev) % WORD, 256 * Pow2(lp) - Pow2(8 - lc));
    LiteralArithmetic(m, pos % Pow2(lp), prev / Pow2(8 - lc), Pow2(lc), Pow2(8 - lc));
  }

  lemma EightMore(n: nat)
    ensures Pow2(8 + n) == 256 * Pow2(n)
  {
    Pow2Eight();
    Pow2Add(8, n);
  }

  lemma EightSplit(n: nat)
    requires n <= 8
    ensures Pow2(8 - n) * Pow2(n) == 256
  {
    Pow2Eight();
    Pow2Add(8 - n, n);
  }

  lemma Whole(x: nat, d: nat)
    requires d > 0
    ensures x - x % d == x / d * d
  {
  }

  lemma LiteralArithmetic(m: nat, a: nat, b: nat, c: nat, d: nat)
    requires d * c == 256 && m == a * 256 + b * d
    ensures 3 * (m * c) == LIT_SIZE * (a * c + b)
  {
    assert m * c == 256 * (a * c) + b * (d * c);
  }
}
