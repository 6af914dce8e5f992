/** Kraft's inequality decides whether the canonical code numbers of given lengths fit. */
module Kraft {
  import opened Modular
  import opened Bits
  import opened CanonicalCode

  /** Sum of 2^-length over the coded symbols below `n`, in units of 2^-15. */
  function KraftSum(lens: seq<nat>, n: nat): nat
    requires n <= |lens|
  {
    if n == 0 then 0
    else KraftSum(lens, n - 1) + if Coded(lens, n - 1) then Pow2(MAX_LENGTH - lens[n - 1]) else 0
  }

  /** The same sum, by length instead of by symbol, up to length `l`. */
  function LevelSum(lens: seq<nat>, n: nat, l: nat): nat
    requires n <= |lens| && l <= MAX_LENGTH
  {
    if l == 0 then 0 else LevelSum(lens, n, l - 1) + Count(lens, l, n) * Pow2(MAX_LENGTH - l)
  }

  lemma {:induction false} LevelSumNext(lens: seq<nat>, n: nat, l: nat)
    requires 0 < n <= |lens| && l <= MAX_LENGTH
    ensures LevelSum(lens, n, l) == LevelSum(lens, n - 1, l) +
              if 1 <= lens[n - 1] <= l then Pow2(MAX_LENGTH - lens[n - 1]) else 0
    decreases l
  {
    if l > 0 {
      hide Pow2;
      LevelSumNext(lens, n, l - 1);
      var c, p := Count(lens, l, n - 1), Pow2(MAX_LENGTH - l);
      assert (c + 1) * p == c * p + p;
    }
  }

  lemma {:induction false} LevelSumOfNone(lens: seq<nat>, l: nat)
    requires l <= MAX_LENGTH
    ensures LevelSum(lens, 0, l) == 0
    decreases l
  {
    if l > 0 {
      LevelSumOfNone(lens, l - 1);
    }
  }

  lemma {:induction false} SumsAgree(lens: seq<nat>, n: nat)
    requires n <= |lens|
    ensures KraftSum(lens, n) == LevelSum(lens, n, MAX_LENGTH)
    decreases n
  {
    if n == 0 {
      LevelSumOfNone(lens, MAX_LENGTH);
    } else {
      SumsAgree(lens, n - 1);
      LevelSumNext(lens, n, MAX_LENGTH);
    }
  }

  /** The code numbers used up to length `l`, scaled to 15 bits, are the sum so far. */
  lemma {:induction false} LevelSumIsCode(lens: seq<nat>, l: nat)
    requires 1 <= l <= MAX_LENGTH
    ensures LevelSum(lens, |lens|, l) == (FirstCode(lens, l) + Count(lens, l, |lens|)) * Pow2(MAX_LENGTH - l)
    decreases l
  {
    hide Pow2, Count;
    var c, p := Count(lens, l, |lens|), Pow2(MAX_LENGTH - l);
    if l == 1 {
      assert LevelSum(lens, |lens|, 0) == 0;
      Distribute(0, c, p);
    } else {
      LevelSumIsCode(lens, l - 1);
      var a := FirstCode(lens, l - 1) + Count(lens, l - 1, |lens|);
      Pow2Next(MAX_LENGTH - l);
      assert MAX_LENGTH - (l - 1) == MAX_LENGTH - l + 1;
      Distribute(a, c, p);
    }
  }

  lemma Distribute(a: nat, c: nat, p: nat)
    ensures a * (2 * p) + c * p == (2 * a + c) * p
  {
  }

  lemma {:induction false} LevelSumGrows(lens: seq<nat>, l: nat, m: nat)
    requires l <= m <= MAX_LENGTH
    ensures LevelSum(lens, |lens|, l) <= LevelSum(lens, |lens|, m)
    decreases m
  {
    hide Count, Pow2;
    if l < m {
      LevelSumGrows(lens, l, m - 1);
      Factor(0, Count(lens, m, |lens|), Pow2(MAX_LENGTH - m));
    }
  }

  lemma ScaledBound(a: nat, l: nat)
    requires l <= MAX_LENGTH
    ensures a * Pow2(MAX_LENGTH - l) <= Pow2(MAX_LENGTH) <==> a <= Pow2(l)
  {
    hide Pow2;
    Pow2Add(l, MAX_LENGTH - l);
    assert l + (MAX_LENGTH - l) == MAX_LENGTH;
    ScaleOrder(a, Pow2(l), Pow2(MAX_LENGTH - l));
  }

  lemma ScaleOrder(a: nat, b: nat, p: nat)
    requires p > 0
    ensures a * p <= b * p <==> a <= b
  {
    if a <= b {
      Factor(a, b, p);
    } else {
      Factor(b + 1, a, p);
      assert (b + 1) * p == b * p + p;
    }
  }

  /** If all code numbers fit, those up to length `l` take no more than the whole code space. */
  lemma {:induction false} FitsBoundsSum(lens: seq<nat>, l: nat)
    requires Fits(lens) && 1 <= l <= MAX_LENGTH
    ensures LevelSum(lens, |lens|, l) <= Pow2(MAX_LENGTH)
    decreases l
  {
    hide Pow2;
    var c := Count(lens, l, |lens|);
    if c > 0 {
      var s := NthOfLength(lens, l, |lens|, c - 1);
      assert Coded(lens, s);
      LevelSumIsCode(lens, l);
      ScaledBound(FirstCode(lens, l) + c, l);
    } else if l > 1 {
      FitsBoundsSum(lens, l - 1);
    } else {
      assert LevelSum(lens, |lens|, 0) == 0;
    }
  }

  /** Code numbers fit exactly when the lengths satisfy Kraft's inequality. */
  lemma FitsIffKraft(lens: seq<nat>)
    ensures Fits(lens) <==> KraftSum(lens, |lens|) <= Pow2(MAX_LENGTH)
  {
    hide Pow2;
    SumsAgree(lens, |lens|);
    if Fits(lens) {
      FitsBoundsSum(lens, MAX_LENGTH);
    }
    if KraftSum(lens, |lens|) <= Pow2(MAX_LENGTH) {
      forall s | 0 <= s < |lens| && Coded(lens, s) ensures CodeOf(lens, s) < Pow2(lens[s]) {
        LevelSumGrows(lens, lens[s], MAX_LENGTH);
        LevelSumIsCode(lens, lens[s]);
        ScaledBound(FirstCode(lens, lens[s]) + Count(lens, lens[s], |lens|), lens[s]);
        CountNext(lens, s, |lens|);
      }
    }
  }
}
