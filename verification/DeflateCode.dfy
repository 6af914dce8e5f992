/** Reading symbols of a canonical code from a bit stream, and what bits that are still missing can change. */
module DeflateCode {
  import opened Modular
  import opened Bits
  import opened LowBits
  import opened CanonicalCode

  datatype Reading = Symbol(s: nat) | Invalid | Incomplete

  /** The bits `rest` start with the code word of `s`. */
  ghost predicate Starts(lens: seq<nat>, s: nat, rest: seq<bool>) {
    Coded(lens, s) && WordOf(lens, s) <= rest
  }

  predicate Compatible(w: seq<bool>, x: seq<bool>) { w <= x || x <= w }

  /** No continuation of the bits `rest` starts with a code word. */
  ghost predicate Hopeless(lens: seq<nat>, rest: seq<bool>) {
    forall s :: 0 <= s < |lens| && Coded(lens, s) ==> !Compatible(WordOf(lens, s), rest)
  }

  /** The symbol at the start of the stream. */
  ghost function Read(lens: seq<nat>, rest: seq<bool>): (r: Reading)
    ensures r.Symbol? ==> Coded(lens, r.s) && 1 <= lens[r.s] <= |rest|
  {
    if s: nat :| Starts(lens, s, rest) then Symbol(s) else if Hopeless(lens, rest) then Invalid else Incomplete
  }

  /** No two code words start the same stream. */
  lemma ReadIs(lens: seq<nat>, s: nat, rest: seq<bool>)
    requires Fits(lens) && Starts(lens, s, rest)
    ensures Read(lens, rest) == Symbol(s)
  {
    hide WordOf, Fits;
    var t := Read(lens, rest).s;
    if s != t {
      PrefixFree(lens, s, t);
      PrefixFree(lens, t, s);
      assert false;
    }
  }

  lemma ReadNothing(lens: seq<nat>, rest: seq<bool>)
    requires Hopeless(lens, rest)
    ensures Read(lens, rest) == Invalid
  {
    hide WordOf;
  }

  /** More bits do not help. */
  lemma StillHopeless(lens: seq<nat>, rest: seq<bool>, more: seq<bool>)
    requires Hopeless(lens, rest)
    ensures Hopeless(lens, rest + more)
  {
    hide WordOf;
    forall s | 0 <= s < |lens| && Coded(lens, s) ensures !Compatible(WordOf(lens, s), rest + more) {
      CompatibleWithPrefix(WordOf(lens, s), rest, more);
    }
  }

  lemma CompatibleWithPrefix(w: seq<bool>, x: seq<bool>, y: seq<bool>)
    ensures Compatible(w, x + y) ==> Compatible(w, x)
  {
    if w <= x + y {
      if |w| <= |x| {
        assert w == (x + y)[..|w|] == x[..|w|];
      } else {
        assert x == (x + y)[..|x|] == w[..|x|];
      }
    }
  }

  // ---------------------------------------------------------------- code words as intervals of numbers

  lemma ValueAppend(x: seq<bool>, b: bool)
    ensures Value(x + [b]) == 2 * Value(x) + if b then 1 else 0
  {
    assert (x + [b])[..|x|] == x;
  }

  lemma {:induction false} ValueConcat(x: seq<bool>, y: seq<bool>)
    ensures Value(x + y) == Value(x) * Pow2(|y|) + Value(y)
    decreases |y|
  {
    if y == [] {
      assert x + y == x;
      assert Value(x) * Pow2(0) == Value(x);
    } else {
      hide Value;
      var z, b := y[..|y| - 1], y[|y| - 1];
      ValueConcat(x, z);
      assert y == z + [b] && x + y == (x + z) + [b];
      ValueAppend(z, b);
      ValueAppend(x + z, b);
      Double(Value(x), Pow2(|z|));
    }
  }

  lemma Double(a: nat, p: nat)
    ensures 2 * (a * p) == a * (2 * p)
  {
  }

  lemma {:induction false} ValueOfZeros(n: nat)
    ensures Value(Zeros(n)) == 0
  {
    if n > 0 {
      ValueOfZeros(n - 1);
      assert Zeros(n)[..n - 1] == Zeros(n - 1);
    }
  }

  /** The first number of 15 bits that starts with `w`. */
  function Start(w: seq<bool>): nat
    requires |w| <= MAX_LENGTH
  {
    Value(w) * Pow2(MAX_LENGTH - |w|)
  }

  /** How many numbers of 15 bits start with a word of `n` bits. */
  function Span(n: nat): (r: nat)
    requires n <= MAX_LENGTH
    ensures r > 0
  {
    Pow2(MAX_LENGTH - n)
  }

  lemma StartOfLonger(x: seq<bool>, w: seq<bool>)
    requires x <= w && |w| <= MAX_LENGTH
    ensures Start(x) <= Start(w) < Start(x) + Span(|x|)
  {
    hide Value, Pow2;
    var y := w[|x|..];
    assert w == x + y;
    ValueConcat(x, y);
    ValueBound(y);
    Pow2Add(|y|, MAX_LENGTH - |w|);
    assert |y| + (MAX_LENGTH - |w|) == MAX_LENGTH - |x|;
    Scaled(Value(x), Pow2(|y|), Value(y), Pow2(MAX_LENGTH - |w|));
  }

  lemma Scaled(a: nat, p: nat, b: nat, q: nat)
    requires b < p && q > 0
    ensures a * (p * q) <= (a * p + b) * q < a * (p * q) + p * q
  {
    assert (a * p + b) * q == a * (p * q) + b * q;
    assert (b + 1) * q <= p * q;
    assert (b + 1) * q == b * q + q;
  }

  lemma StartOfPadded(x: seq<bool>, n: nat)
    requires |x| + n <= MAX_LENGTH
    ensures Start(x + Zeros(n)) == Start(x)
  {
    hide Value, Pow2;
    ValueConcat(x, Zeros(n));
    ValueOfZeros(n);
    Pow2Add(n, MAX_LENGTH - |x| - n);
    assert n + (MAX_LENGTH - |x| - n) == MAX_LENGTH - |x|;
    Regroup(Value(x), Pow2(n), Pow2(MAX_LENGTH - |x| - n));
  }

  lemma Regroup(a: nat, p: nat, q: nat)
    ensures a * (p * q) == (a * p) * q
  {
  }

  /** A number within the span of `w` starts with it. */
  lemma InSpan(w: seq<bool>, p: seq<bool>)
    requires |w| <= MAX_LENGTH == |p| && Start(w) <= Start(p) < Start(w) + Span(|w|)
    ensures w <= p
  {
    hide Value, Pow2;
    var d, q := Value(p), Pow2(MAX_LENGTH - |w|);
    StartOfFull(p);
    ValueBound(w);
    ValueBound(p);
    WordOfValue(w);
    WordOfValue(p);
    Remainder(d, q, Value(w), d - Value(w) * q);
    PrefixIffQuotient(Value(w), |w|, d, MAX_LENGTH);
  }

  lemma StartOfFull(p: seq<bool>)
    requires |p| == MAX_LENGTH
    ensures Start(p) == Value(p)
  {
    hide Value;
    assert Pow2(0) == 1;
  }

  lemma StartOfWord(lens: seq<nat>, s: nat)
    requires Fits(lens) && Coded(lens, s)
    ensures Start(WordOf(lens, s)) == CodeOf(lens, s) * Span(lens[s])
  {
    hide Value, Pow2, CodeOf;
    ValueOfWord(CodeOf(lens, s), lens[s]);
  }

  /** Spans of earlier symbols come first. */
  lemma EarlierSpan(lens: seq<nat>, t: nat, s: nat)
    requires Fits(lens) && Coded(lens, t) && Coded(lens, s) && Before(lens, t, s)
    ensures Start(WordOf(lens, t)) + Span(lens[t]) <= Start(WordOf(lens, s))
  {
    hide Fits, CodeOf, WordOf, Start, Pow2, Span;
    StartOfWord(lens, t);
    StartOfWord(lens, s);
    SpansAreOrdered(lens, t, s);
    NextSpan(CodeOf(lens, t), lens[t], CodeOf(lens, s), lens[s]);
  }

  lemma NextSpan(c: nat, j: nat, d: nat, i: nat)
    requires j <= i <= MAX_LENGTH && (c + 1) * Pow2(i - j) <= d
    ensures c * Span(j) + Span(j) <= d * Span(i)
  {
    hide Pow2;
    Pow2Add(i - j, MAX_LENGTH - i);
    assert i - j + (MAX_LENGTH - i) == MAX_LENGTH - j;
    var p, q := Pow2(i - j), Span(i);
    assert Span(j) == p * q;
    hide Span;
    Factor((c + 1) * p, d, q);
    Regroup(c + 1, p, q);
  }

  /** Every number below the end of a level is in the span of some symbol: a canonical code leaves no gaps. */
  lemma {:induction false} Covered(lens: seq<nat>, l: nat, x: nat) returns (t: nat)
    requires 1 <= l <= MAX_LENGTH && x < (FirstCode(lens, l) + Count(lens, l, |lens|)) * Span(l)
    ensures Coded(lens, t) && CodeOf(lens, t) * Span(lens[t]) <= x < CodeOf(lens, t) * Span(lens[t]) + Span(lens[t])
    decreases l
  {
    hide Count, Span;
    var f, p := FirstCode(lens, l), Span(l);
    if x < f * p {
      if l == 1 {
        assert false;
      }
      SpanHalves(l);
      Double(FirstCode(lens, l - 1) + Count(lens, l - 1, |lens|), p);
      t := Covered(lens, l - 1, x);
    } else {
      QuotientBetween(x, f, f + Count(lens, l, |lens|), p);
      t := NthOfLength(lens, l, |lens|, x / p - f);
    }
  }

  lemma QuotientBetween(x: nat, a: nat, b: nat, p: nat)
    requires p > 0 && a * p <= x < b * p
    ensures a <= x / p < b && (x / p) * p <= x < (x / p) * p + p
  {
    QuotientBound(x, b, p);
    QuotientAtLeast(x, a, p);
    assert x == (x / p) * p + x % p;
  }

  lemma SpanHalves(l: nat)
    requires 1 < l <= MAX_LENGTH
    ensures Span(l - 1) == 2 * Span(l)
  {
  }

  // ---------------------------------------------------------------- bits that are still missing

  /** If the known bits followed by zeros start no code word, then no continuation of them does. */
  lemma ZerosComeFirst(lens: seq<nat>, x: seq<bool>, n: nat)
    requires Fits(lens) && |x| + n <= MAX_LENGTH && Hopeless(lens, x + Zeros(n))
    ensures Hopeless(lens, x)
  {
    hide Fits, WordOf, CodeOf, Start, Span;
    var u := x + Zeros(n);
    forall t | 0 <= t < |lens| && Coded(lens, t) ensures !Compatible(WordOf(lens, t), x) {
      var w := WordOf(lens, t);
      if w <= x {
        PrefixOfConcat(w, x, Zeros(n));
        assert false;
      } else if x <= w {
        StartOfLonger(x, w);
        StartOfPadded(x, n);
        var s := SymbolAt(lens, t, u);
        assert false;
      }
    }
  }

  lemma PrefixOfConcat(w: seq<bool>, x: seq<bool>, y: seq<bool>)
    requires w <= x
    ensures w <= x + y
  {
  }

  /** The word `u` followed by zeros starts with a code word, if it comes no later than that of `t`. */
  lemma SymbolAt(lens: seq<nat>, t: nat, u: seq<bool>) returns (s: nat)
    requires Fits(lens) && Coded(lens, t) && |u| <= MAX_LENGTH && Start(u) <= Start(WordOf(lens, t))
    ensures Coded(lens, s) && Compatible(WordOf(lens, s), u)
  {
    hide Fits, WordOf, CodeOf, Start, Span;
    var n := MAX_LENGTH - |u|;
    var p := u + Zeros(n);
    StartOfPadded(u, n);
    s := t;
    if Start(u) < Start(WordOf(lens, t)) {
      StartOfWord(lens, t);
      CodeInLevel(lens, t);
      Factor(CodeOf(lens, t), FirstCode(lens, lens[t]) + Count(lens, lens[t], |lens|), Span(lens[t]));
      s := Covered(lens, lens[t], Start(u));
      StartOfWord(lens, s);
    }
    InSpan(WordOf(lens, s), p);
    CompatibleWithPrefix(WordOf(lens, s), u, Zeros(n));
  }

  lemma CodeInLevel(lens: seq<nat>, t: nat)
    requires t < |lens|
    ensures CodeOf(lens, t) <= FirstCode(lens, lens[t]) + Count(lens, lens[t], |lens|)
  {
    hide FirstCode;
    CountNext(lens, t, |lens|);
  }

  /** The known bits followed by zeros, up to `k` bits in all, have the shortest code word of all continuations;
      only that it is longer than `k` is known where it is. */
  lemma ZerosAreShortest(lens: seq<nat>, x: seq<bool>, n: nat, t: nat, s: nat)
    requires Fits(lens) && |x| + n <= MAX_LENGTH && Coded(lens, t) && Coded(lens, s)
    requires Compatible(WordOf(lens, t), x + Zeros(n)) && Compatible(WordOf(lens, s), x)
    ensures lens[s] >= lens[t] || lens[s] > |x| + n
  {
    hide Fits, WordOf, CodeOf, Start;
    var u, v, w := x + Zeros(n), WordOf(lens, t), WordOf(lens, s);
    if lens[s] < lens[t] && lens[s] <= |u| {
      if w <= x {
        PrefixOfConcat(w, x, Zeros(n));
        BothCompatible(v, w, u);
        PrefixFree(lens, s, t);
        assert false;
      } else {
        StartOfLonger(x, w);
        StartOfPadded(x, n);
        EarlierSpan(lens, s, t);
        SpanShrinks(lens[s], |u|);
        if v <= u {
          StartOfLonger(v, u);
        } else {
          StartOfLonger(u, v);
        }
        assert false;
      }
    }
  }

  lemma SpanShrinks(a: nat, b: nat)
    requires a <= b <= MAX_LENGTH
    ensures Span(a) >= Span(b)
  {
    Pow2Grows(MAX_LENGTH - b, MAX_LENGTH - a);
  }

  lemma BothCompatible(v: seq<bool>, w: seq<bool>, u: seq<bool>)
    requires Compatible(v, u) && w <= u && |w| < |v|
    ensures w <= v
  {
    if v <= u {
      assert v == u[..|v|] && w == u[..|w|];
      assert v[..|w|] == u[..|w|];
    }
  }
}
