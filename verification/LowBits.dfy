/** Bit strings in the order Deflate reads them: least significant bit first. */
module LowBits {
  import opened Bits

  type Byte = x: nat | x < 256

  /** The low `n` bits of `c`, least significant first. */
  function LowWord(c: nat, n: nat): (w: seq<bool>)
    ensures |w| == n
    decreases n
  {
    if n == 0 then [] else [c % 2 == 1] + LowWord(c / 2, n - 1)
  }

  function LowValue(w: seq<bool>): nat {
    if w == [] then 0 else (if w[0] then 1 else 0) + 2 * LowValue(w[1..])
  }

  /** The bits of a byte string in reading order. */
  function LowBitsOf(data: seq<Byte>): (r: seq<bool>)
    ensures |r| == 8 * |data|
  {
    if data == [] then [] else LowWord(data[0], 8) + LowBitsOf(data[1..])
  }

  /** The low `n` bytes of a number, the highest first. */
  function BigBytes(v: nat, n: nat): (r: seq<Byte>)
    ensures |r| == n
    decreases n
  {
    if n == 0 then [] else BigBytes(v / 256, n - 1) + [v % 256]
  }

  lemma {:induction false} LowBitsConcat(a: seq<Byte>, b: seq<Byte>)
    ensures LowBitsOf(a + b) == LowBitsOf(a) + LowBitsOf(b)
    decreases |a|
  {
    hide LowWord;
    if a == [] {
      assert a + b == b;
      assert LowBitsOf(a) + LowBitsOf(b) == LowBitsOf(b);
    } else {
      LowBitsConcat(a[1..], b);
      assert (a + b)[1..] == a[1..] + b && (a + b)[0] == a[0];
      Associate(LowWord(a[0], 8), LowBitsOf(a[1..]), LowBitsOf(b));
    }
  }

  lemma Associate(a: seq<bool>, b: seq<bool>, c: seq<bool>)
    ensures a + b + c == a + (b + c)
  {
  }

  lemma {:induction false} LowValueBound(w: seq<bool>)
    ensures LowValue(w) < Pow2(|w|)
    decreases |w|
  {
    if w != [] {
      LowValueBound(w[1..]);
    }
  }

  lemma {:induction false} LowValueOfWord(c: nat, n: nat)
    requires c < Pow2(n)
    ensures LowValue(LowWord(c, n)) == c
    decreases n
  {
    if n > 0 {
      LowValueOfWord(c / 2, n - 1);
      assert LowWord(c, n)[1..] == LowWord(c / 2, n - 1);
    }
  }

  lemma {:induction false} LowWordOfValue(w: seq<bool>)
    ensures LowWord(LowValue(w), |w|) == w
    decreases |w|
  {
    if w != [] {
      LowWordOfValue(w[1..]);
      assert w == [w[0]] + w[1..];
    }
  }

  /** Putting `b` above the low `n` bits appends its word. */
  lemma {:induction false} LowWordAppend(c: nat, b: nat, n: nat, k: nat)
    requires c < Pow2(n)
    ensures LowWord(c + b * Pow2(n), n + k) == LowWord(c, n) + LowWord(b, k)
    decreases n
  {
    if n == 0 {
      assert c + b * Pow2(0) == b;
      assert LowWord(c, 0) + LowWord(b, k) == LowWord(b, k);
    } else {
      Pow2Next(n - 1);
      LowWordAppend(c / 2, b, n - 1, k);
      hide Pow2;
      HalfOfSum(c, b, Pow2(n - 1));
      LowWordOpen(c + b * Pow2(n), n + k);
      LowWordOpen(c, n);
      Associate([c % 2 == 1], LowWord(c / 2, n - 1), LowWord(b, k));
    }
  }

  lemma HalfOfSum(c: nat, b: nat, p: nat)
    ensures (c + b * (2 * p)) / 2 == c / 2 + b * p && (c + b * (2 * p)) % 2 == c % 2
  {
    assert b * (2 * p) == 2 * (b * p);
  }

  lemma LowWordOpen(c: nat, n: nat)
    requires n > 0
    ensures LowWord(c, n) == [c % 2 == 1] + LowWord(c / 2, n - 1)
  {
  }

  /** Dropping the first `n` bits is division, keeping them is the remainder. */
  lemma {:induction false} LowWordSplit(c: nat, n: nat, k: nat)
    ensures LowWord(c, n + k)[n..] == LowWord(c / Pow2(n), k)
    ensures LowWord(c, n + k)[..n] == LowWord(c % Pow2(n), n)
    decreases n
  {
    if n == 0 {
      assert c / Pow2(0) == c;
    } else {
      LowWordSplit(c / 2, n - 1, k);
      Pow2Next(n - 1);
      hide Pow2;
      DivDiv(c, Pow2(n - 1));
      HalfMod(c, Pow2(n - 1));
      LowWordOpen(c, n + k);
      LowWordOpen(c % Pow2(n), n);
    }
  }

  /** High bits that are zero show as trailing false bits. */
  lemma {:induction false} LowWordPadded(c: nat, n: nat, m: nat)
    requires c < Pow2(n) && n <= m
    ensures LowWord(c, m) == LowWord(c, n) + Zeros(m - n)
    decreases n
  {
    if n == 0 {
      LowWordOfZero(m);
      assert LowWord(c, 0) + Zeros(m) == Zeros(m);
    } else {
      LowWordPadded(c / 2, n - 1, m - 1);
    }
  }

  function Zeros(n: nat): (w: seq<bool>)
    ensures |w| == n && forall i :: 0 <= i < n ==> !w[i]
  {
    if n == 0 then [] else [false] + Zeros(n - 1)
  }

  lemma {:induction false} LowWordOfZero(n: nat)
    ensures LowWord(0, n) == Zeros(n)
  {
    if n > 0 {
      LowWordOfZero(n - 1);
    }
  }

  lemma LowWordInjective(c: nat, d: nat, n: nat)
    requires c < Pow2(n) && d < Pow2(n) && LowWord(c, n) == LowWord(d, n)
    ensures c == d
  {
    LowValueOfWord(c, n);
    LowValueOfWord(d, n);
  }
}
