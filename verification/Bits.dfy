/** Powers of two and bit strings, most significant bit first. */
module Bits {
  import opened Modular

  function Bit(b: bool): nat { if b then 1 else 0 }

  function Pow2(n: nat): (r: nat)
    ensures r > 0
  {
    if n == 0 then 1 else 2 * Pow2(n - 1)
  }

  lemma {:induction false} Pow2Add(a: nat, b: nat)
    ensures Pow2(a + b) == Pow2(a) * Pow2(b)
    decreases b
  {
    if b > 0 {
      Pow2Add(a, b - 1);
      calc {
        Pow2(a + b);
        2 * Pow2(a + (b - 1));
        2 * (Pow2(a) * Pow2(b - 1));
        Pow2(a) * (2 * Pow2(b - 1));
      }
    }
  }

  lemma Pow2Eight()
    ensures Pow2(8) == 256
  {
    assert Pow2(4) == 16;
  }

  lemma Pow2Next(n: nat)
    ensures Pow2(n + 1) == 2 * Pow2(n)
  {
  }

  lemma {:induction false} Pow2Grows(a: nat, b: nat)
    requires a <= b
    ensures Pow2(a) <= Pow2(b)
    decreases b
  {
    if a < b {
      Pow2Grows(a, b - 1);
    }
  }

  /** The low `n` bits of `c`, most significant first. */
  function Word(c: nat, n: nat): (w: seq<bool>)
    ensures |w| == n
    decreases n
  {
    if n == 0 then [] else Word(c / 2, n - 1) + [c % 2 == 1]
  }

  /** The number a bit string denotes. */
  function Value(w: seq<bool>): nat {
    if w == [] then 0 else 2 * Value(w[..|w| - 1]) + if w[|w| - 1] then 1 else 0
  }

  lemma {:induction false} ValueBound(w: seq<bool>)
    ensures Value(w) < Pow2(|w|)
    decreases |w|
  {
    if w != [] {
      ValueBound(w[..|w| - 1]);
    }
  }

  lemma {:induction false} WordOfValue(w: seq<bool>)
    ensures Word(Value(w), |w|) == w
    decreases |w|
  {
    if w != [] {
      WordOfValue(w[..|w| - 1]);
      assert w == w[..|w| - 1] + [w[|w| - 1]];
    }
  }

  lemma {:induction false} ValueOfWord(c: nat, n: nat)
    requires c < Pow2(n)
    ensures Value(Word(c, n)) == c
    decreases n
  {
    if n > 0 {
      ValueOfWord(c / 2, n - 1);
      assert Word(c, n)[..n - 1] == Word(c / 2, n - 1);
    }
  }

  /** Dropping low bits is division by a power of two. */
  lemma {:induction false} WordPrefix(c: nat, n: nat, k: nat)
    ensures Word(c, n + k)[..n] == Word(c / Pow2(k), n)
    decreases k
  {
    if k > 0 {
      WordPrefix(c / 2, n, k - 1);
      assert Word(c, n + k)[..n] == Word(c / 2, n + (k - 1))[..n];
      DivDiv(c, Pow2(k - 1));
    } else {
      assert Word(c, n)[..n] == Word(c, n);
    }
  }

  /** A single bit of a word. */
  lemma WordBit(c: nat, n: nat, i: nat)
    requires i < n
    ensures Word(c, n)[i] == ((c / Pow2(n - 1 - i)) % 2 == 1)
  {
    WordPrefix(c, i + 1, n - 1 - i);
    assert Word(c, n)[i] == Word(c, n)[..i + 1][i];
  }

  lemma DivDiv(c: nat, p: nat)
    requires p > 0
    ensures c / 2 / p == c / (2 * p)
  {
    var q := c / 2 / p;
    assert c / 2 == q * p + (c / 2) % p;
    assert c == 2 * (q * p) + 2 * ((c / 2) % p) + c % 2;
    assert 2 * (q * p) == q * (2 * p);
    var r := 2 * ((c / 2) % p) + c % 2;
    assert 0 <= r < 2 * p;
    Remainder(c, 2 * p, q, r);
  }

  lemma MulAtLeast(x: int, m: int)
    requires x >= 1 && m > 0
    ensures x * m >= m
  {
  }

  lemma MulSub(x: int, y: int, m: int)
    ensures (x - y) * m == x * m - y * m
  {
  }

  lemma WordInjective(c: nat, d: nat, n: nat)
    requires c < Pow2(n) && d < Pow2(n) && Word(c, n) == Word(d, n)
    ensures c == d
  {
    ValueOfWord(c, n);
    ValueOfWord(d, n);
  }

  /** Only the low `n` bits of a number show in its word. */
  lemma {:induction false} WordMod(c: nat, n: nat)
    ensures Word(c, n) == Word(c % Pow2(n), n)
    decreases n
  {
    if n > 0 {
      WordMod(c / 2, n - 1);
      HalfMod(c, Pow2(n - 1));
    }
  }

  lemma HalfMod(c: nat, p: nat)
    requires p > 0
    ensures (c / 2) % p == (c % (2 * p)) / 2
    ensures c % 2 == (c % (2 * p)) % 2
  {
    var q, r := c / (2 * p), c % (2 * p);
    assert c == q * (2 * p) + r;
    assert q * (2 * p) == 2 * (q * p);
    assert c / 2 == q * p + r / 2 && c % 2 == r % 2;
    Remainder(c / 2, p, q, r / 2);
  }

  /** The longer of two words starts with the shorter one exactly when its high bits are that number. */
  lemma PrefixIffQuotient(c: nat, i: nat, d: nat, j: nat)
    requires i <= j && c < Pow2(i) && d < Pow2(j)
    ensures Word(c, i) <= Word(d, j) <==> d / Pow2(j - i) == c
  {
    hide Word, Pow2;
    WordQuotient(d, i, j);
    SameWord(c, d / Pow2(j - i), i);
    PrefixIsTake(Word(c, i), Word(d, j));
  }

  lemma SameWord(c: nat, d: nat, n: nat)
    requires c < Pow2(n) && d < Pow2(n)
    ensures Word(c, n) == Word(d, n) <==> c == d
  {
    hide Word, Pow2;
    if Word(c, n) == Word(d, n) {
      WordInjective(c, d, n);
    }
  }

  lemma PrefixIsTake(x: seq<bool>, y: seq<bool>)
    requires |x| <= |y|
    ensures x <= y <==> x == y[..|x|]
  {
  }

  lemma WordQuotient(d: nat, i: nat, j: nat)
    requires i <= j && d < Pow2(j)
    ensures d / Pow2(j - i) < Pow2(i)
    ensures Word(d, j)[..i] == Word(d / Pow2(j - i), i)
  {
    hide Word, Pow2;
    WordPrefix(d, i, j - i);
    Pow2Add(i, j - i);
    assert i + (j - i) == j;
    QuotientBound(d, Pow2(i), Pow2(j - i));
  }

  lemma QuotientBound(d: nat, a: nat, b: nat)
    requires b > 0 && d < a * b
    ensures d / b < a
  {
    var q := d / b;
    if q >= a {
      MulSub(q, a, b);
      if q > a {
        MulAtLeast(q - a, b);
      }
      assert false;
    }
  }

  lemma QuotientAtLeast(c: nat, q: nat, m: nat)
    requires m > 0 && q * m <= c
    ensures q <= c / m
  {
    var d := c / m;
    assert c == d * m + c % m;
    assert (d + 1) * m == d * m + m;
    if d < q {
      Factor(d + 1, q, m);
    }
  }

  /** The first bit of a word says which half of the range its number lies in. */
  lemma {:induction false} WordHalves(c: nat, n: nat)
    requires n > 0 && c < Pow2(n)
    ensures Word(c, n) == if c < Pow2(n - 1) then [false] + Word(c, n - 1) else [true] + Word(c - Pow2(n - 1), n - 1)
    decreases n
  {
    if n > 1 {
      WordHalves(c / 2, n - 1);
      var p := Pow2(n - 2);
      if c < 2 * p {
        assert Word(c, n) == [false] + Word(c / 2, n - 2) + [c % 2 == 1];
        assert Word(c, n - 1) == Word(c / 2, n - 2) + [c % 2 == 1];
      } else {
        var d := c - 2 * p;
        assert d / 2 == c / 2 - p && d % 2 == c % 2;
        assert Word(c, n) == [true] + Word(d / 2, n - 2) + [c % 2 == 1];
        assert Word(d, n - 1) == Word(d / 2, n - 2) + [d % 2 == 1];
      }
    } else {
      assert Word(c, 1) == [c % 2 == 1];
    }
  }

  lemma HalfOfAppended(c: nat, b: nat, p: nat)
    ensures (c * (2 * p) + b) / 2 == c * p + b / 2 && (c * (2 * p) + b) % 2 == b % 2
  {
    assert c * (2 * p) == 2 * (c * p);
  }

  /** Appending the word of a number is shifting and adding. */
  lemma {:induction false} WordAppend(c: nat, b: nat, n: nat, k: nat)
    requires b < Pow2(k)
    ensures Word(c * Pow2(k) + b, n + k) == Word(c, n) + Word(b, k)
    decreases k
  {
    if k > 0 {
      var d := c * Pow2(k) + b;
      HalfOfAppended(c, b, Pow2(k - 1));
      WordAppend(c, b / 2, n, k - 1);
      assert Word(d, n + k) == Word(d / 2, n + (k - 1)) + [d % 2 == 1];
    } else {
      assert Word(c, n) + Word(b, 0) == Word(c, n);
      assert c * Pow2(0) + b == c;
    }
  }

  /** The last bits of a word are the word of the same number. */
  lemma {:induction false} WordSuffix(c: nat, n: nat, k: nat)
    ensures Word(c, n + k)[n..] == Word(c, k)
    decreases k
  {
    if k > 0 {
      WordSuffix(c / 2, n, k - 1);
      assert Word(c, n + k) == Word(c / 2, n + (k - 1)) + [c % 2 == 1];
      assert Word(c, n + k)[n..] == Word(c / 2, n + (k - 1))[n..] + [c % 2 == 1];
    } else {
      assert Word(c, n)[n..] == [];
    }
  }

  /** Reducing a number modulo a power of two keeps all words that are not longer. */
  lemma WordOfMod(c: nat, m: nat, n: nat)
    requires n <= m
    ensures Word(c % Pow2(m), n) == Word(c, n)
  {
    hide Word, Pow2;
    WordMod(c, m);
    WordSuffix(c, m - n, n);
    WordSuffix(c % Pow2(m), m - n, n);
    assert m - n + n == m;
  }
}
