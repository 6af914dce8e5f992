/** The canonical prefix code of section 3.2.2 of RFC 1951: code words of equal length are consecutive
    numbers in symbol order, and shorter code words come first. RAR uses the same rule. */
module CanonicalCode {
  import opened Modular
  import opened Bits

  /** Code words and what they stand for. */
  type Codes = map<seq<bool>, nat>

  /** No code word is a prefix of `w`, and `w` is no prefix of a code word. */
  ghost predicate Insertable(codes: Codes, w: seq<bool>) {
    forall x :: x in codes ==> !(x <= w) && !(w <= x)
  }

  const MAX_LENGTH: nat := 15

  /** Number of symbols below `n` whose code length is `l`. */
  function Count(lens: seq<nat>, l: nat, n: nat): nat
    requires n <= |lens|
  {
    if n == 0 then 0 else Count(lens, l, n - 1) + if lens[n - 1] == l then 1 else 0
  }

  /** The first code number of length `l`. */
  function FirstCode(lens: seq<nat>, l: nat): nat {
    if l <= 1 then 0 else 2 * (FirstCode(lens, l - 1) + Count(lens, l - 1, |lens|))
  }

  predicate Coded(lens: seq<nat>, s: nat) {
    s < |lens| && 1 <= lens[s] <= MAX_LENGTH
  }

  function CodeOf(lens: seq<nat>, s: nat): nat
    requires s < |lens|
  {
    FirstCode(lens, lens[s]) + Count(lens, lens[s], s)
  }

  /** The code word of symbol `s`; a number that is too large for its length loses its high bits. */
  function WordOf(lens: seq<nat>, s: nat): (w: seq<bool>)
    requires s < |lens|
    ensures |w| == lens[s]
  {
    Word(CodeOf(lens, s), lens[s])
  }

  /** Every code number fits into its length. */
  ghost predicate Fits(lens: seq<nat>) {
    forall s :: 0 <= s < |lens| && Coded(lens, s) ==> CodeOf(lens, s) < Pow2(lens[s])
  }

  /** The order in which code numbers are handed out. */
  predicate Before(lens: seq<nat>, t: nat, s: nat)
    requires t < |lens| && s < |lens|
  {
    lens[t] < lens[s] || (lens[t] == lens[s] && t < s)
  }

  // ---------------------------------------------------------------- counting

  lemma {:induction false} CountGrows(lens: seq<nat>, l: nat, m: nat, n: nat)
    requires m <= n <= |lens|
    ensures Count(lens, l, m) <= Count(lens, l, n)
    decreases n
  {
    if m < n {
      CountGrows(lens, l, m, n - 1);
    }
  }

  lemma CountNext(lens: seq<nat>, s: nat, n: nat)
    requires s < n <= |lens|
    ensures Count(lens, lens[s], s) + 1 <= Count(lens, lens[s], n)
  {
    CountGrows(lens, lens[s], s + 1, n);
  }

  /** Some symbol below `n` has length `l`, and it is the one with index `k` among them. */
  lemma {:induction false} NthOfLength(lens: seq<nat>, l: nat, n: nat, k: nat) returns (s: nat)
    requires n <= |lens| && k < Count(lens, l, n)
    ensures s < n && lens[s] == l && Count(lens, l, s) == k
    decreases n
  {
    if k == Count(lens, l, n - 1) {
      s := n - 1;
    } else {
      s := NthOfLength(lens, l, n - 1, k);
    }
  }

  // ---------------------------------------------------------------- prefix freedom

  lemma DoubleProduct(a: nat, p: nat)
    ensures 2 * (a * p) == a * (2 * p)
  {
  }

  /** Code numbers of a longer length start after all code numbers of a shorter one. */
  lemma {:induction false} LevelGap(lens: seq<nat>, j: nat, i: nat)
    requires 1 <= j < i
    ensures FirstCode(lens, i) >= (FirstCode(lens, j) + Count(lens, j, |lens|)) * Pow2(i - j)
    decreases i
  {
    var a := FirstCode(lens, j) + Count(lens, j, |lens|);
    if i == j + 1 {
      assert Pow2(1) == 2;
    } else {
      LevelGap(lens, j, i - 1);
      assert FirstCode(lens, i) >= 2 * FirstCode(lens, i - 1);
      DoubleProduct(a, Pow2(i - 1 - j));
    }
  }

  /** The span of code space of an earlier symbol ends before a later symbol's begins. */
  lemma SpansAreOrdered(lens: seq<nat>, t: nat, s: nat)
    requires Coded(lens, t) && Coded(lens, s) && Before(lens, t, s)
    ensures (CodeOf(lens, t) + 1) * Pow2(lens[s] - lens[t]) <= CodeOf(lens, s)
  {
    var j, i := lens[t], lens[s];
    if j < i {
      CountNext(lens, t, |lens|);
      LevelGap(lens, j, i);
      var a, b := CodeOf(lens, t) + 1, FirstCode(lens, j) + Count(lens, j, |lens|);
      Factor(a, b, Pow2(i - j));
    } else {
      CountNext(lens, t, s);
      assert Pow2(0) == 1;
    }
  }

  /** A symbol whose code number fits is in conflict with no earlier one, and they fit too. */
  lemma NoConflict(lens: seq<nat>, t: nat, s: nat)
    requires Coded(lens, t) && Coded(lens, s) && Before(lens, t, s)
    requires CodeOf(lens, s) < Pow2(lens[s])
    ensures CodeOf(lens, t) < Pow2(lens[t])
    ensures !(WordOf(lens, t) <= WordOf(lens, s)) && !(WordOf(lens, s) <= WordOf(lens, t))
  {
    var j, i, p := lens[t], lens[s], Pow2(lens[s] - lens[t]);
    var c, d := CodeOf(lens, s), CodeOf(lens, t);
    SpansAreOrdered(lens, t, s);
    Pow2Add(j, i - j);
    assert j + (i - j) == i;
    LessFactor(d + 1, Pow2(j), p);
    PrefixIffQuotient(d, j, c, i);
    QuotientAtLeast(c, d + 1, p);
  }

  /** A code whose numbers all fit is prefix-free. */
  lemma PrefixFree(lens: seq<nat>, t: nat, s: nat)
    requires Fits(lens) && Coded(lens, t) && Coded(lens, s) && s != t
    ensures !(WordOf(lens, t) <= WordOf(lens, s))
  {
    if Before(lens, t, s) {
      NoConflict(lens, t, s);
    } else {
      NoConflict(lens, s, t);
    }
  }

  // ---------------------------------------------------------------- overflow

  /** The first code number that does not fit is exactly the power of two, so its word is all zeros. */
  lemma FirstMisfit(lens: seq<nat>, s: nat)
    requires Coded(lens, s) && CodeOf(lens, s) >= Pow2(lens[s])
    requires forall t :: 0 <= t < |lens| && Coded(lens, t) && Before(lens, t, s) ==> CodeOf(lens, t) < Pow2(lens[t])
    ensures CodeOf(lens, s) == Pow2(lens[s])
  {
    var i := lens[s];
    var k := Count(lens, i, s);
    if k > 0 {
      var t := NthOfLength(lens, i, s, k - 1);
      assert Coded(lens, t) && Before(lens, t, s);
    } else {
      EarlierLevelsFit(lens, s, i);
    }
  }

  lemma {:induction false} EarlierLevelsFit(lens: seq<nat>, s: nat, i: nat)
    requires s < |lens| && 1 <= i <= lens[s] <= MAX_LENGTH
    requires forall t :: 0 <= t < |lens| && Coded(lens, t) && Before(lens, t, s) ==> CodeOf(lens, t) < Pow2(lens[t])
    ensures FirstCode(lens, i) <= Pow2(i)
    decreases i
  {
    if i > 1 {
      EarlierLevelsFit(lens, s, i - 1);
      var k := Count(lens, i - 1, |lens|);
      if k > 0 {
        var t := NthOfLength(lens, i - 1, |lens|, k - 1);
        assert Coded(lens, t) && Before(lens, t, s);
      }
    }
  }

  /** Where code numbers do not fit, some earlier symbol has the all-zero word, shorter or equally long. */
  lemma ZeroWordIsTaken(lens: seq<nat>, s: nat) returns (t: nat)
    requires Coded(lens, s) && CodeOf(lens, s) > 0
    ensures Coded(lens, t) && Before(lens, t, s) && CodeOf(lens, t) == 0
  {
    if FirstCode(lens, lens[s]) == 0 {
      t := NthOfLength(lens, lens[s], s, 0);
    } else {
      t := FirstUsedLevel(lens, lens[s]);
    }
  }

  lemma {:induction false} FirstUsedLevel(lens: seq<nat>, i: nat) returns (t: nat)
    requires 1 <= i <= MAX_LENGTH && FirstCode(lens, i) > 0
    ensures Coded(lens, t) && lens[t] < i && CodeOf(lens, t) == 0
    decreases i
  {
    if FirstCode(lens, i - 1) > 0 {
      t := FirstUsedLevel(lens, i - 1);
    } else {
      t := NthOfLength(lens, i - 1, |lens|, 0);
    }
  }

  lemma {:induction false} ZeroWord(i: nat, j: nat)
    requires i <= j
    ensures Word(0, i) <= Word(0, j)
    ensures Word(Pow2(j), j) == Word(0, j)
  {
    PrefixOfZero(i, j);
    WordMod(Pow2(j), j);
  }

  lemma {:induction false} PrefixOfZero(i: nat, j: nat)
    requires i <= j
    ensures Word(0, i) <= Word(0, j)
    decreases j
  {
    if i < j {
      PrefixOfZero(i, j - 1);
    }
  }

  /** When a code number does not fit, two words of the code are in conflict. */
  lemma MisfitConflicts(lens: seq<nat>, s: nat) returns (t: nat)
    requires Coded(lens, s) && CodeOf(lens, s) >= Pow2(lens[s])
    requires forall u :: 0 <= u < |lens| && Coded(lens, u) && Before(lens, u, s) ==> CodeOf(lens, u) < Pow2(lens[u])
    ensures Coded(lens, t) && Before(lens, t, s) && WordOf(lens, t) <= WordOf(lens, s)
  {
    FirstMisfit(lens, s);
    t := ZeroWordIsTaken(lens, s);
    ZeroWord(lens[t], lens[s]);
  }
}
