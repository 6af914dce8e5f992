/** Inflate's trees hold exactly the canonical code of the lengths they are built from. */
module InflateSetup {
  import opened Bits
  import opened CanonicalCode
  import opened InflateTree
  import opened InflateCapacity

  const MAX_BITS: nat := 16

  // ---------------------------------------------------------------- what success means

  /** No code word of the symbols below `n` starts with that of another. */
  ghost predicate ConflictFree(lens: seq<nat>, n: nat)
    requires n <= |lens|
  {
    forall t: nat, s: nat :: t < n && s < n && t != s && Coded(lens, t) && Coded(lens, s) ==>
                               !(WordOf(lens, t) <= WordOf(lens, s))
  }

  /** Among the symbols whose code number does not fit there is a first one. */
  lemma {:induction false} FirstOfMisfits(lens: seq<nat>, s: nat) returns (r: nat)
    requires Coded(lens, s) && CodeOf(lens, s) >= Pow2(lens[s])
    ensures Coded(lens, r) && CodeOf(lens, r) >= Pow2(lens[r])
    ensures forall u :: 0 <= u < |lens| && Coded(lens, u) && Before(lens, u, r) ==> CodeOf(lens, u) < Pow2(lens[u])
    decreases lens[s], s
  {
    hide CodeOf, Pow2;
    if u: nat :| u < |lens| && Coded(lens, u) && Before(lens, u, s) && CodeOf(lens, u) >= Pow2(lens[u]) {
      r := FirstOfMisfits(lens, u);
    } else {
      r := s;
    }
  }

  lemma ConflictFreeFits(lens: seq<nat>)
    ensures ConflictFree(lens, |lens|) <==> Fits(lens)
  {
    hide CodeOf, Pow2, WordOf;
    if ConflictFree(lens, |lens|) {
      forall s | 0 <= s < |lens| && Coded(lens, s) ensures CodeOf(lens, s) < Pow2(lens[s]) {
        if CodeOf(lens, s) >= Pow2(lens[s]) {
          var r := FirstOfMisfits(lens, s);
          var t := MisfitConflicts(lens, r);
          assert false;
        }
      }
    }
    if Fits(lens) {
      forall t: nat, s: nat | t < |lens| && s < |lens| && t != s && Coded(lens, t) && Coded(lens, s)
        ensures !(WordOf(lens, t) <= WordOf(lens, s))
      {
        PrefixFree(lens, t, s);
      }
    }
  }

  lemma StillConflictFree(codes: Codes, lens: seq<nat>, n: nat)
    requires n < |lens| && ConflictFree(lens, n) && CodesFor(codes, lens, n) && Insertable(codes, WordOf(lens, n))
    ensures ConflictFree(lens, n + 1)
  {
    hide WordOf, Coded;
    forall t: nat, s: nat | t < n + 1 && s < n + 1 && t != s && Coded(lens, t) && Coded(lens, s)
      ensures !(WordOf(lens, t) <= WordOf(lens, s))
    {
      assert t < n ==> WordOf(lens, t) in codes;
      assert s < n ==> WordOf(lens, s) in codes;
    }
  }

  lemma OneMoreCode(codes: Codes, lens: seq<nat>, n: nat)
    requires n < |lens| && Coded(lens, n) && CodesFor(codes, lens, n) && Insertable(codes, WordOf(lens, n))
    ensures CodesFor(codes[WordOf(lens, n) := n], lens, n + 1)
  {
    hide WordOf, Coded;
    var c := codes[WordOf(lens, n) := n];
    forall s: nat | s < n + 1 && Coded(lens, s) ensures WordOf(lens, s) in c && c[WordOf(lens, s)] == s {
      assert s < n ==> WordOf(lens, s) in codes;
    }
  }

  lemma UncodedSymbol(codes: Codes, lens: seq<nat>, n: nat)
    requires n < |lens| && !Coded(lens, n) && CodesFor(codes, lens, n) && ConflictFree(lens, n)
    ensures CodesFor(codes, lens, n + 1) && ConflictFree(lens, n + 1)
  {
    hide WordOf, Coded;
  }

  lemma FitsMeansInsertable(codes: Codes, lens: seq<nat>, n: nat)
    requires n < |lens| && Fits(lens) && Coded(lens, n) && CodesFor(codes, lens, n)
    ensures Insertable(codes, WordOf(lens, n))
  {
    hide WordOf, Fits;
    forall x | x in codes ensures !(x <= WordOf(lens, n)) && !(WordOf(lens, n) <= x) {
      PrefixFree(lens, codes[x], n);
      PrefixFree(lens, n, codes[x]);
    }
  }

  /** Insertion of a further symbol fails only if the code is overfull. */
  lemma FailureMeansMisfit(codes: Codes, lens: seq<nat>, n: nat)
    requires n < |lens| <= MAX_SYMBOLS && Coded(lens, n) && CodesFor(codes, lens, n)
    requires !Insertable(codes, WordOf(lens, n)) || |Inner(codes[WordOf(lens, n) := n])| > MAX_TREE_NODES
    ensures !Fits(lens)
  {
    hide WordOf, Fits, Inner, Insertable, CodesFor;
    if Fits(lens) {
      FitsMeansInsertable(codes, lens, n);
      OneMoreCode(codes, lens, n);
      NodesSuffice(codes[WordOf(lens, n) := n], lens, n + 1);
    }
  }

  // ---------------------------------------------------------------- building a tree

  lemma FirstCodeStep(lens: seq<nat>, l: nat)
    ensures FirstCode(lens, 1) == 0
    ensures l >= 1 ==> FirstCode(lens, l + 1) == 2 * (FirstCode(lens, l) + Count(lens, l, |lens|))
  {
  }

  lemma CountStep(lens: seq<nat>, l: nat, n: nat)
    ensures Count(lens, l, 0) == 0
    ensures n < |lens| ==> Count(lens, l, n + 1) == Count(lens, l, n) + if lens[n] == l then 1 else 0
  {
  }

  /** The first code number of every length. */
  method NextCodes(lens: seq<nat>) returns (nextCode: array<nat>)
    requires forall i :: 0 <= i < |lens| ==> lens[i] < MAX_BITS
    ensures fresh(nextCode) && nextCode.Length == MAX_BITS
    ensures forall l :: 1 <= l < MAX_BITS ==> nextCode[l] == FirstCode(lens, l)
  {
    hide Count, FirstCode;
    var blCount := new nat[MAX_BITS](_ => 0);
    forall l: nat | l < MAX_BITS ensures Count(lens, l, 0) == 0 { CountStep(lens, l, 0); }
    for i := 0 to |lens|
      invariant forall l :: 0 <= l < MAX_BITS ==> blCount[l] == Count(lens, l, i)
    {
      forall l: nat | l < MAX_BITS
        ensures Count(lens, l, i + 1) == Count(lens, l, i) + if lens[i] == l then 1 else 0
      {
        CountStep(lens, l, i);
      }
      blCount[lens[i]] := blCount[lens[i]] + 1;
    }
    blCount[0] := 0;
    nextCode := new nat[MAX_BITS](_ => 0);
    var code := 0;
    FirstCodeStep(lens, 1);
    for i := 1 to MAX_BITS
      invariant forall l :: 1 <= l < MAX_BITS ==> blCount[l] == Count(lens, l, |lens|)
      invariant blCount[0] == 0
      invariant code == if i == 1 then 0 else FirstCode(lens, i - 1)
      invariant forall l :: 1 <= l < i ==> nextCode[l] == FirstCode(lens, l)
    {
      FirstCodeStep(lens, i - 1);
      code := 2 * (code + blCount[i - 1]);
      nextCode[i] := code;
    }
  }

  /** Inserts the code word of one symbol. */
  method AddSymbol(tree: Tree, ghost lens: seq<nat>, code: nat, length: nat, i: nat) returns (ok: bool)
    requires i < |lens| <= MAX_SYMBOLS && length == lens[i] && Coded(lens, i) && code == CodeOf(lens, i)
    requires tree.Valid() && CodesFor(tree.codes, lens, i) && ConflictFree(lens, i)
    modifies tree
    ensures ok ==> tree.Valid() && CodesFor(tree.codes, lens, i + 1) && ConflictFree(lens, i + 1)
    ensures !ok ==> !Fits(lens)
  {
    hide WordOf, CodeOf, Word, CodesFor, ConflictFree, Fits, Insertable, Inner;
    hide TreeOk, NoStray;
    ghost var codes := tree.codes;
    assert WordOf(lens, i) == Word(code, length) by { WordIsCode(lens, i); }
    ok := tree.AddValue(code, length, i);
    if ok {
      StillConflictFree(codes, lens, i);
      OneMoreCode(codes, lens, i);
    } else {
      FailureMeansMisfit(codes, lens, i);
    }
  }

  lemma WordIsCode(lens: seq<nat>, i: nat)
    requires i < |lens|
    ensures WordOf(lens, i) == Word(CodeOf(lens, i), lens[i])
  {
  }

  /** Builds the tree for the lengths `clens[from..from + count]`. It succeeds exactly when every canonical code
      number fits into its length, and then the tree holds exactly the canonical code words. */
  method SetupDynamicTree(tree: Tree, clens: array<nat>, from: nat, count: nat, ghost lens: seq<nat>)
    returns (ok: bool)
    requires from + count <= clens.Length && count <= MAX_SYMBOLS && lens == clens[from..from + count]
    requires forall i :: 0 <= i < count ==> lens[i] < MAX_BITS
    modifies tree
    ensures ok <==> Fits(lens)
    ensures ok ==> tree.Valid() && CodesFor(tree.codes, lens, |lens|)
  {
    hide Count, FirstCode, WordOf, Fits, ConflictFree, CodesFor, TreeOk, NoStray;
    var nextCode := NextCodes(clens[from..from + count]);
    tree.Clear();
    NothingCoded(lens);
    for i := 0 to count
      invariant tree.Valid() && CodesFor(tree.codes, lens, i) && ConflictFree(lens, i)
      invariant forall l :: 1 <= l < MAX_BITS ==> nextCode[l] == FirstCode(lens, l) + Count(lens, l, i)
    {
      var l := clens[from + i];
      assert l == lens[i];
      CountAll(lens, i);
      if l != 0 {
        var added := AddSymbol(tree, lens, nextCode[l], l, i);
        if !added {
          return false;
        }
        nextCode[l] := nextCode[l] + 1;
      } else {
        UncodedSymbol(tree.codes, lens, i);
      }
    }
    ConflictFreeFits(lens);
    return true;
  }

  lemma NothingCoded(lens: seq<nat>)
    ensures CodesFor(map[], lens, 0) && ConflictFree(lens, 0)
    ensures forall l: nat :: Count(lens, l, 0) == 0
  {
  }

  lemma CountAll(lens: seq<nat>, n: nat)
    requires n < |lens|
    ensures forall l: nat :: Count(lens, l, n + 1) == Count(lens, l, n) + if lens[n] == l then 1 else 0
  {
  }

  // ---------------------------------------------------------------- the fixed codes

  /** The code lengths of section 3.2.6 of RFC 1951. */
  function StaticLength(i: nat): nat {
    if i < 144 then 8 else if i < 256 then 9 else if i < 280 then 7 else 8
  }

  function StaticLengths(): (r: seq<nat>)
    ensures |r| == 288 && forall i :: 0 <= i < 288 ==> r[i] == StaticLength(i)
  {
    seq(288, i requires 0 <= i < 288 => StaticLength(i))
  }

  function StaticDistances(): (r: seq<nat>)
    ensures |r| == 32 && forall i :: 0 <= i < 32 ==> r[i] == 5
  {
    seq(32, i => 5)
  }

  lemma {:induction false} StaticCounts(n: nat, l: nat)
    requires n <= 288
    ensures Count(StaticLengths(), l, n) ==
              if l == 7 then (if n <= 256 then 0 else if n < 280 then n - 256 else 24)
              else if l == 8 then (if n <= 144 then n else if n <= 280 then 144 else n - 136)
              else if l == 9 then (if n <= 144 then 0 else if n < 256 then n - 144 else 112)
              else 0
    decreases n
  {
    if n > 0 {
      StaticCounts(n - 1, l);
    }
  }

  lemma {:induction false} NoShortCodes(l: nat)
    requires 1 <= l <= 7
    ensures FirstCode(StaticLengths(), l) == 0
  {
    hide Count;
    if l > 1 {
      NoShortCodes(l - 1);
      StaticCounts(288, l - 1);
    }
  }

  /** The keys of the fixed code are its canonical code numbers. */
  lemma StaticCode(s: nat)
    requires s < 288
    ensures CodeOf(StaticLengths(), s) ==
              if s < 144 then s + 48 else if s < 256 then s + 256 else if s < 280 then s - 256 else s - 88
  {
    hide Count, FirstCode;
    StaticCounts(s, StaticLength(s));
    NoShortCodes(7);
    StaticCounts(288, 7);
    StaticCounts(288, 8);
    FirstCodeStep(StaticLengths(), 7);
    FirstCodeStep(StaticLengths(), 8);
  }

  lemma {:induction false} DistanceCounts(n: nat, l: nat)
    requires n <= 32
    ensures Count(StaticDistances(), l, n) == if l == 5 then n else 0
    decreases n
  {
    if n > 0 {
      DistanceCounts(n - 1, l);
    }
  }

  lemma {:induction false} NoShortDistances(l: nat)
    requires 1 <= l <= 5
    ensures FirstCode(StaticDistances(), l) == 0
  {
    hide Count;
    if l > 1 {
      NoShortDistances(l - 1);
      DistanceCounts(32, l - 1);
    }
  }

  lemma StaticDistanceCode(s: nat)
    requires s < 32
    ensures CodeOf(StaticDistances(), s) == s
  {
    hide Count, FirstCode;
    DistanceCounts(s, 5);
    NoShortDistances(5);
  }

  lemma StaticCodesFit()
    ensures Fits(StaticLengths()) && Fits(StaticDistances())
  {
    hide CodeOf;
    PowersForStatic();
    hide Pow2;
    forall s | 0 <= s < 288 && Coded(StaticLengths(), s)
      ensures CodeOf(StaticLengths(), s) < Pow2(StaticLengths()[s])
    {
      StaticCode(s);
    }
    forall s | 0 <= s < 32 && Coded(StaticDistances(), s)
      ensures CodeOf(StaticDistances(), s) < Pow2(StaticDistances()[s])
    {
      StaticDistanceCode(s);
    }
  }

  lemma PowersForStatic()
    ensures Pow2(5) == 32 && Pow2(7) == 128 && Pow2(8) == 256 && Pow2(9) == 512
  {
    assert Pow2(5) == 32;
    assert Pow2(7) == 4 * Pow2(5);
    assert Pow2(9) == 4 * Pow2(7);
  }

  /** Inserts the symbols from `from` to `to` of a fixed code. */
  method AddRange(tree: Tree, ghost lens: seq<nat>, from: nat, to: nat, delta: int, bits: nat)
    requires from <= to <= |lens| <= MAX_SYMBOLS && 1 <= bits <= 15 && Fits(lens)
    requires forall i: nat :: from <= i < to ==> lens[i] == bits && CodeOf(lens, i) == i + delta
    requires tree.Valid() && CodesFor(tree.codes, lens, from) && ConflictFree(lens, from)
    modifies tree
    ensures tree.Valid() && CodesFor(tree.codes, lens, to) && ConflictFree(lens, to)
  {
    hide WordOf, CodeOf, Fits, ConflictFree, CodesFor, TreeOk, NoStray;
    for i := from to to
      invariant tree.Valid() && CodesFor(tree.codes, lens, i) && ConflictFree(lens, i)
    {
      assert lens[i] == bits && CodeOf(lens, i) == i + delta;
      var added := AddSymbol(tree, lens, i + delta, bits, i);
    }
  }

  /** The trees of the fixed codes. */
  method SetupStaticTrees(lengths: Tree, dists: Tree)
    requires lengths != dists
    modifies lengths, dists
    ensures lengths.Valid() && CodesFor(lengths.codes, StaticLengths(), 288)
    ensures dists.Valid() && CodesFor(dists.codes, StaticDistances(), 32)
  {
    hide WordOf, CodeOf, Fits, ConflictFree, CodesFor, TreeOk, NoStray;
    StaticCodesFit();
    forall s: nat | s < 288
      ensures CodeOf(StaticLengths(), s) ==
                if s < 144 then s + 48 else if s < 256 then s + 256 else if s < 280 then s - 256 else s - 88
    {
      StaticCode(s);
    }
    forall s: nat | s < 32 ensures CodeOf(StaticDistances(), s) == s { StaticDistanceCode(s); }
    lengths.Clear();
    NothingCoded(StaticLengths());
    AddRange(lengths, StaticLengths(), 0, 144, 48, 8);
    AddRange(lengths, StaticLengths(), 144, 256, 256, 9);
    AddRange(lengths, StaticLengths(), 256, 280, -256, 7);
    AddRange(lengths, StaticLengths(), 280, 288, -88, 8);
    dists.Clear();
    NothingCoded(StaticDistances());
    AddRange(dists, StaticDistances(), 0, 32, 0, 5);
  }
}
