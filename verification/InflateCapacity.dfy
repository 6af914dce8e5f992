/** The 288 pairs of overflow nodes suffice for every canonical code of at most 288 symbols. */
module InflateCapacity {
  import opened Bits
  import opened CanonicalCode
  import opened InflateTree

  const MAX_SYMBOLS: nat := 288

  /** `codes` maps the code words of the coded symbols below `n` to these symbols. */
  ghost predicate CodesFor(codes: Codes, lens: seq<nat>, n: nat)
    requires n <= |lens|
  {
    && (forall s: nat :: s < n && Coded(lens, s) ==> WordOf(lens, s) in codes && codes[WordOf(lens, s)] == s)
    && (forall w :: w in codes ==> codes[w] < n && Coded(lens, codes[w]) && WordOf(lens, codes[w]) == w)
  }

  /** An upper bound for the number of code word prefixes of length `d`. */
  function Needed(lens: seq<nat>, d: nat): nat
    decreases MAX_LENGTH - d
  {
    if d >= MAX_LENGTH then 0 else (Needed(lens, d + 1) + Count(lens, d + 1, |lens|) + 1) / 2
  }

  /** The number after the last code number of length `d`. */
  function Base(lens: seq<nat>, d: nat): nat {
    FirstCode(lens, d) + Count(lens, d, |lens|)
  }

  lemma ValueHalves(x: seq<bool>, d: nat)
    requires d < |x|
    ensures Value(x[..d]) == Value(x[..d + 1]) / 2
  {
    assert x[..d + 1][..d] == x[..d];
  }

  /** The prefixes of length `d` are consecutive numbers. */
  lemma {:induction false} PrefixValue(lens: seq<nat>, s: nat, d: nat)
    requires Fits(lens) && Coded(lens, s) && 1 <= d < lens[s]
    ensures Base(lens, d) <= Value(WordOf(lens, s)[..d]) < Base(lens, d) + Needed(lens, d)
    decreases lens[s] - d
  {
    hide Count, Word, Value, WordOf;
    var w := WordOf(lens, s);
    ValueHalves(w, d);
    assert FirstCode(lens, d + 1) == 2 * Base(lens, d);
    if d + 1 == lens[s] {
      assert w[..d + 1] == w;
      ValueOfCode(lens, s);
      CountNext(lens, s, |lens|);
    } else {
      PrefixValue(lens, s, d + 1);
    }
  }

  lemma ValueOfCode(lens: seq<nat>, s: nat)
    requires Fits(lens) && Coded(lens, s)
    ensures Value(WordOf(lens, s)) == CodeOf(lens, s)
  {
    hide Value, Word, CodeOf;
    ValueOfWord(CodeOf(lens, s), lens[s]);
  }

  // ---------------------------------------------------------------- counting prefixes

  /** The words of `d` bits for `p` numbers from `a` on. */
  function Block(a: nat, p: nat, d: nat): (r: set<seq<bool>>)
    ensures |r| <= p
  {
    if p == 0 then {} else Block(a, p - 1, d) + {Word(a + p - 1, d)}
  }

  lemma {:induction false} InBlock(a: nat, p: nat, d: nat, k: nat)
    requires a <= k < a + p
    ensures Word(k, d) in Block(a, p, d)
  {
    if k < a + p - 1 {
      InBlock(a, p - 1, d, k);
    }
  }

  ghost function Level(codes: Codes, d: nat): set<seq<bool>> {
    set w | w in codes && |w| > d :: w[..d]
  }

  lemma LevelIsSmall(codes: Codes, lens: seq<nat>, n: nat, d: nat)
    requires n <= |lens| && Fits(lens) && CodesFor(codes, lens, n) && 1 <= d
    ensures |Level(codes, d)| <= Needed(lens, d)
  {
    hide Needed, Base, Word, Value, Fits, WordOf;
    var b := Block(Base(lens, d), Needed(lens, d), d);
    forall x | x in Level(codes, d) ensures x in b {
      var w :| w in codes && |w| > d && x == w[..d];
      PrefixValue(lens, codes[w], d);
      WordOfValue(x);
      InBlock(Base(lens, d), Needed(lens, d), d, Value(x));
    }
    Larger(Level(codes, d), b);
  }

  lemma {:induction false} CountsTogether(lens: seq<nat>, n: nat)
    requires n <= |lens|
    ensures Count(lens, 11, n) + Count(lens, 12, n) + Count(lens, 13, n) + Count(lens, 14, n) + Count(lens, 15, n) <= n
    decreases n
  {
    if n > 0 {
      CountsTogether(lens, n - 1);
    }
  }

  lemma NeededAltogether(lens: seq<nat>)
    requires |lens| <= MAX_SYMBOLS
    ensures Needed(lens, 10) + Needed(lens, 11) + Needed(lens, 12) + Needed(lens, 13) + Needed(lens, 14) <= MAX_TREE_NODES
  {
    hide Count;
    CountsTogether(lens, |lens|);
    assert Needed(lens, 15) == 0;
    NeededNext(lens, 10);
    NeededNext(lens, 11);
    NeededNext(lens, 12);
    NeededNext(lens, 13);
    NeededNext(lens, 14);
    hide Needed;
  }

  lemma NeededNext(lens: seq<nat>, d: nat)
    requires d < MAX_LENGTH
    ensures Needed(lens, d + 1) + Count(lens, d + 1, |lens|) <= 2 * Needed(lens, d) <=
            Needed(lens, d + 1) + Count(lens, d + 1, |lens|) + 1
  {
    hide Count;
  }

  lemma InnerIsLevels(codes: Codes)
    requires forall w :: w in codes ==> |w| <= MAX_LENGTH
    ensures Inner(codes) <= Level(codes, 10) + Level(codes, 11) + Level(codes, 12) + Level(codes, 13) + Level(codes, 14)
  {
    forall x | x in Inner(codes)
      ensures x in Level(codes, 10) + Level(codes, 11) + Level(codes, 12) + Level(codes, 13) + Level(codes, 14)
    {
      var w, d :| w in codes && FAST_BITS <= d < |w| && x == w[..d];
      assert x in Level(codes, d);
      assert d == 10 || d == 11 || d == 12 || d == 13 || d == 14;
    }
  }

  /** However many of the code's words have been inserted, the overflow nodes are not used up. */
  lemma NodesSuffice(codes: Codes, lens: seq<nat>, n: nat)
    requires n <= |lens| <= MAX_SYMBOLS && Fits(lens) && CodesFor(codes, lens, n)
    ensures |Inner(codes)| <= MAX_TREE_NODES
  {
    hide Fits, Level, Inner, Needed, WordOf;
    LevelIsSmall(codes, lens, n, 10);
    LevelIsSmall(codes, lens, n, 11);
    LevelIsSmall(codes, lens, n, 12);
    LevelIsSmall(codes, lens, n, 13);
    LevelIsSmall(codes, lens, n, 14);
    NeededAltogether(lens);
    InnerIsLevels(codes);
    Larger(Inner(codes), Level(codes, 10) + Level(codes, 11) + Level(codes, 12) + Level(codes, 13) + Level(codes, 14));
  }
}
