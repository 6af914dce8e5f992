/** Inflate's decoding tree: a table for the first ten bits, and pairs of overflow nodes for longer code words. */
module InflateTree {
  import opened Modular
  import opened Bits
  import opened LowBits
  import opened CanonicalCode

  const FAST_BITS: nat := 10
  const FAST_SIZE: nat := 1024
  const MAX_TREE_NODES: nat := 288

  datatype TNode = TNode(value: nat, isValue: bool, length: nat)

  const EMPTY := TNode(0, false, 0)

  /** Where the pair of overflow nodes below a bit path lies. */
  type Pairs = map<seq<bool>, nat>

  // ---------------------------------------------------------------- what the nodes mean

  /** A table entry: an overflow pair, the code word that starts the key, or nothing. */
  ghost predicate RootOk(n: TNode, u: seq<bool>, pairs: Pairs, codes: Codes) {
    && (u in pairs ==> n == TNode(pairs[u], false, FAST_BITS + 1))
    && (forall w :: w in codes && w <= u ==> n == TNode(codes[w], true, |w|))
    && (n != EMPTY ==> u in pairs || exists w :: w in codes && w <= u)
  }

  /** An overflow node: a further pair, a code word, or nothing. */
  ghost predicate SlotOk(n: TNode, x: seq<bool>, pairs: Pairs, codes: Codes) {
    && (x in pairs ==> n == TNode(pairs[x], false, 0))
    && (x in codes ==> n == TNode(codes[x], true, 0))
    && (n != EMPTY ==> x in pairs || x in codes)
  }

  ghost predicate RootsOk(nodes: seq<TNode>, pairs: Pairs, codes: Codes) {
    |nodes| >= FAST_SIZE && forall k :: 0 <= k < FAST_SIZE ==> RootOk(nodes[k], LowWord(k, FAST_BITS), pairs, codes)
  }

  ghost predicate Placed(size: nat, pairs: Pairs) {
    && (forall x :: x in pairs ==> |x| >= FAST_BITS && FAST_SIZE <= pairs[x] && pairs[x] + 1 < size && pairs[x] % 2 == 0)
    && (forall x, y :: x in pairs && y in pairs && pairs[x] == pairs[y] ==> x == y)
  }

  ghost predicate PairsOk(nodes: seq<TNode>, pairs: Pairs, codes: Codes) {
    && Placed(|nodes|, pairs)
    && (forall x, b :: x in pairs ==> SlotOk(nodes[pairs[x] + Bit(b)], x + [b], pairs, codes))
  }

  /** Every code word can be reached. */
  ghost predicate Linked(pairs: Pairs, codes: Codes) {
    forall w, d :: w in codes && FAST_BITS <= d < |w| ==> w[..d] in pairs
  }

  /** Every pair lies on the way to a code word, or to the word `extra`. */
  ghost predicate NoStray(pairs: Pairs, codes: Codes, extra: seq<bool>) {
    forall x :: x in pairs ==> ProperPrefix(x, extra) || exists w :: w in codes && ProperPrefix(x, w)
  }

  predicate ProperPrefix(x: seq<bool>, w: seq<bool>) { x <= w && x != w }

  ghost predicate TreeOk(nodes: seq<TNode>, pairs: Pairs, codes: Codes) {
    && RootsOk(nodes, pairs, codes) && PairsOk(nodes, pairs, codes) && Linked(pairs, codes)
    && |nodes| == FAST_SIZE + 2 * |pairs|
    && forall w :: w in codes ==> |w| >= 1
  }

  /** The bit paths that need a pair of overflow nodes. */
  ghost function Inner(codes: Codes): set<seq<bool>> {
    set w, d | w in codes && FAST_BITS <= d < |w| :: w[..d]
  }

  lemma InnerHas(codes: Codes, w: seq<bool>, x: seq<bool>)
    requires w in codes && ProperPrefix(x, w) && |x| >= FAST_BITS
    ensures x in Inner(codes)
  {
    assert x == w[..|x|];
  }

  // ---------------------------------------------------------------- words and table indices

  /** Reading a key backwards bit by bit turns a code word into a table index. */
  lemma WordHead(key: nat, i: nat)
    ensures Word(key, i + 1) == [(key / Pow2(i)) % 2 == 1] + Word(key, i)
  {
    hide Word, Pow2;
    WordSuffix(key, 1, i);
    WordBit(key, i + 1, 0);
    assert 1 + i == i + 1;
    assert Word(key, i + 1) == [Word(key, i + 1)[0]] + Word(key, i + 1)[1..];
  }

  /** The table entries whose key starts with `w` are those with the remainder of its index. */
  lemma IndexPrefix(k: nat, w: seq<bool>)
    requires k < FAST_SIZE && |w| <= FAST_BITS
    ensures w <= LowWord(k, FAST_BITS) <==> k % Pow2(|w|) == LowValue(w)
  {
    hide LowWord, Pow2, LowValue;
    var n := |w|;
    LowWordSplit(k, n, FAST_BITS - n);
    assert n + (FAST_BITS - n) == FAST_BITS;
    var u := LowWord(k, FAST_BITS);
    LowWordOfValue(w);
    LowValueBound(w);
    if w <= u {
      assert u[..n] == w;
      LowWordInjective(k % Pow2(n), LowValue(w), n);
    }
  }

  lemma Pow2Ten()
    ensures Pow2(FAST_BITS) == FAST_SIZE
  {
    assert Pow2(5) == 32;
  }

  /** Every ten-bit key has an index. */
  lemma IndexOf(u: seq<bool>) returns (k: nat)
    requires |u| == FAST_BITS
    ensures k == LowValue(u) < FAST_SIZE && LowWord(k, FAST_BITS) == u
  {
    LowWordOfValue(u);
    LowValueBound(u);
    Pow2Ten();
    k := LowValue(u);
  }

  // ---------------------------------------------------------------- short code words

  /** Where no entry below `w` is taken, `w` is in conflict with no code word. */
  lemma EmptyMeansInsertable(nodes: seq<TNode>, pairs: Pairs, codes: Codes, w: seq<bool>)
    requires TreeOk(nodes, pairs, codes) && 1 <= |w| <= FAST_BITS
    requires forall k :: 0 <= k < FAST_SIZE && w <= LowWord(k, FAST_BITS) ==> nodes[k] == EMPTY
    ensures Insertable(codes, w)
  {
    hide TreeOk;
    forall x | x in codes ensures !(x <= w) && !(w <= x) {
      if x <= w || w <= x {
        var k := TakenBy(nodes, pairs, codes, w, x);
      }
    }
  }

  /** A code word in conflict with `w` takes an entry below `w`. */
  lemma TakenBy(nodes: seq<TNode>, pairs: Pairs, codes: Codes, w: seq<bool>, x: seq<bool>) returns (k: nat)
    requires TreeOk(nodes, pairs, codes) && 1 <= |w| <= FAST_BITS && x in codes && (x <= w || w <= x)
    ensures k < FAST_SIZE && w <= LowWord(k, FAST_BITS) && nodes[k] != EMPTY
  {
    hide PairsOk;
    if |x| > FAST_BITS {
      var u := x[..FAST_BITS];
      assert u in pairs;
      k := IndexOf(u);
      assert RootOk(nodes[k], u, pairs, codes);
    } else {
      var longer := if |x| < |w| then w else x;
      var u := longer + Zeros(FAST_BITS - |longer|);
      assert longer <= u;
      k := IndexOf(u);
      assert RootOk(nodes[k], u, pairs, codes);
      assert x <= u && w <= u;
    }
  }

  /** A taken entry below `w` means a conflict. */
  lemma TakenMeansConflict(nodes: seq<TNode>, pairs: Pairs, codes: Codes, w: seq<bool>, k: nat)
    requires TreeOk(nodes, pairs, codes) && NoStray(pairs, codes, [])
    requires k < FAST_SIZE && w <= LowWord(k, FAST_BITS) && nodes[k].length != 0
    ensures !Insertable(codes, w)
  {
    var u := LowWord(k, FAST_BITS);
    assert RootOk(nodes[k], u, pairs, codes);
    if u in pairs {
      var x :| x in codes && ProperPrefix(u, x);
      assert w <= x;
    } else {
      var x :| x in codes && x <= u;
      assert x <= w || w <= x;
    }
  }

  lemma LengthShows(nodes: seq<TNode>, pairs: Pairs, codes: Codes, k: nat)
    requires TreeOk(nodes, pairs, codes) && k < FAST_SIZE && nodes[k].length == 0
    ensures nodes[k] == EMPTY
  {
    assert RootOk(nodes[k], LowWord(k, FAST_BITS), pairs, codes);
  }

  /** Filling every entry below `w` keeps the tree well formed, with one more code word. */
  lemma FillKeepsTree(nodes: seq<TNode>, after: seq<TNode>, pairs: Pairs, codes: Codes, w: seq<bool>, value: nat)
    requires TreeOk(nodes, pairs, codes) && 1 <= |w| <= FAST_BITS && Insertable(codes, w) && |after| == |nodes|
    requires forall k :: 0 <= k < |nodes| ==>
               after[k] == if k < FAST_SIZE && w <= LowWord(k, FAST_BITS) then TNode(value, true, |w|) else nodes[k]
    requires forall k :: 0 <= k < FAST_SIZE && w <= LowWord(k, FAST_BITS) ==> nodes[k] == EMPTY
    ensures TreeOk(after, pairs, codes[w := value])
  {
    hide PairsOk, Linked, RootOk;
    var c := codes[w := value];
    forall k | 0 <= k < FAST_SIZE ensures RootOk(after[k], LowWord(k, FAST_BITS), pairs, c) {
      FillRoot(nodes[k], after[k], LowWord(k, FAST_BITS), pairs, codes, w, value);
    }
    FillPairs(nodes, after, pairs, codes, w, value);
  }

  lemma FillPairs(nodes: seq<TNode>, after: seq<TNode>, pairs: Pairs, codes: Codes, w: seq<bool>, value: nat)
    requires PairsOk(nodes, pairs, codes) && Linked(pairs, codes) && |w| <= FAST_BITS && |after| == |nodes|
    requires forall k :: FAST_SIZE <= k < |nodes| ==> after[k] == nodes[k]
    ensures PairsOk(after, pairs, codes[w := value]) && Linked(pairs, codes[w := value])
  {
    hide SlotOk;
    forall x, b | x in pairs ensures SlotOk(after[pairs[x] + Bit(b)], x + [b], pairs, codes[w := value]) {
      assert |x + [b]| > FAST_BITS;
      FillSlot(nodes[pairs[x] + Bit(b)], x + [b], pairs, codes, w, value);
    }
  }

  lemma FillRoot(n: TNode, m: TNode, u: seq<bool>, pairs: Pairs, codes: Codes, w: seq<bool>, value: nat)
    requires RootOk(n, u, pairs, codes) && Insertable(codes, w)
    requires m == if w <= u then TNode(value, true, |w|) else n
    requires w <= u ==> n == EMPTY
    ensures RootOk(m, u, pairs, codes[w := value])
  {
    var c := codes[w := value];
    if w <= u {
      forall x | x in c && x <= u ensures x == w {
        assert x <= w || w <= x;
      }
      assert w in c;
    } else if n != EMPTY && u !in pairs {
      var x :| x in codes && x <= u;
      assert x in c;
    }
  }

  lemma FillSlot(n: TNode, x: seq<bool>, pairs: Pairs, codes: Codes, w: seq<bool>, value: nat)
    requires SlotOk(n, x, pairs, codes) && x != w
    ensures SlotOk(n, x, pairs, codes[w := value])
  {
  }

  // ---------------------------------------------------------------- long code words

  /** The node of the bit path `x` has index `k`: in the table, or in the pair of the path one bit shorter. */
  ghost predicate NodeAt(pairs: Pairs, x: seq<bool>, k: nat) {
    if |x| == FAST_BITS then k == LowValue(x)
    else |x| > FAST_BITS && x[..|x| - 1] in pairs && k == pairs[x[..|x| - 1]] + Bit(x[|x| - 1])
  }

  /** A path that may get a pair of overflow nodes next. */
  ghost predicate Growable(pairs: Pairs, codes: Codes, x: seq<bool>) {
    && |x| >= FAST_BITS && x !in pairs
    && NoStray(pairs, codes, x)
    && forall y :: y in codes ==> !(y <= x)
  }

  function Grown(nodes: seq<TNode>, k: nat, length: nat): (r: seq<TNode>)
    requires k < |nodes|
    ensures |r| == |nodes| + 2
  {
    nodes[k := TNode(|nodes|, false, length)] + [EMPTY, EMPTY]
  }

  lemma RootsEnough(nodes: seq<TNode>, pairs: Pairs, codes: Codes)
    requires RootsOk(nodes, pairs, codes)
    ensures |nodes| >= FAST_SIZE
  {
  }

  lemma RootNode(nodes: seq<TNode>, pairs: Pairs, codes: Codes, x: seq<bool>, k: nat)
    requires RootsOk(nodes, pairs, codes) && |x| == FAST_BITS && NodeAt(pairs, x, k)
    ensures k < FAST_SIZE <= |nodes| && RootOk(nodes[k], x, pairs, codes) && LowWord(k, FAST_BITS) == x
  {
    hide RootOk;
    var i := IndexOf(x);
  }

  lemma SlotNode(nodes: seq<TNode>, pairs: Pairs, codes: Codes, x: seq<bool>, k: nat)
    requires PairsOk(nodes, pairs, codes) && |x| > FAST_BITS && NodeAt(pairs, x, k)
    ensures FAST_SIZE <= k < |nodes| && SlotOk(nodes[k], x, pairs, codes)
  {
    hide SlotOk;
    var p, b := x[..|x| - 1], x[|x| - 1];
    assert x == p + [b];
    assert SlotOk(nodes[pairs[p] + Bit(b)], p + [b], pairs, codes);
  }

  lemma NodeInRange(nodes: seq<TNode>, pairs: Pairs, codes: Codes, x: seq<bool>, k: nat)
    requires TreeOk(nodes, pairs, codes) && NodeAt(pairs, x, k)
    ensures k < |nodes|
    ensures |x| == FAST_BITS ==> k < FAST_SIZE && RootOk(nodes[k], x, pairs, codes)
    ensures |x| > FAST_BITS ==> k >= FAST_SIZE && SlotOk(nodes[k], x, pairs, codes)
  {
    hide RootsOk, PairsOk, Linked, SlotOk, RootOk;
    if |x| == FAST_BITS {
      RootNode(nodes, pairs, codes, x, k);
    } else {
      SlotNode(nodes, pairs, codes, x, k);
    }
  }

  /** Giving a path its pair of overflow nodes keeps the tree well formed. */
  lemma GrowKeepsTree(nodes: seq<TNode>, pairs: Pairs, codes: Codes, x: seq<bool>, k: nat, length: nat)
    requires TreeOk(nodes, pairs, codes) && Growable(pairs, codes, x) && NodeAt(pairs, x, k)
    requires length == if |x| == FAST_BITS then FAST_BITS + 1 else 0
    ensures k < |nodes| && TreeOk(Grown(nodes, k, length), pairs[x := |nodes|], codes)
  {
    NodeInRange(nodes, pairs, codes, x, k);
    OneMore(pairs, x, |nodes|);
    hide RootsOk, PairsOk, Linked, NodeAt, Growable, RootOk, SlotOk;
    var after, q := Grown(nodes, k, length), pairs[x := |nodes|];
    GrowRoots(nodes, pairs, codes, x, k, length, after, q);
    GrowPairs(nodes, pairs, codes, x, k, length, after, q);
  }

  lemma OneMore(pairs: Pairs, x: seq<bool>, p: nat)
    requires x !in pairs
    ensures |pairs[x := p]| == |pairs| + 1
  {
    assert pairs[x := p].Keys == pairs.Keys + {x};
  }

  /** `after` and `q` are what giving `x` a pair of nodes makes of `nodes` and `pairs`. */
  ghost predicate Grows(nodes: seq<TNode>, pairs: Pairs, x: seq<bool>, k: nat, length: nat, after: seq<TNode>, q: Pairs) {
    && k < |nodes| && after == Grown(nodes, k, length) && q == pairs[x := |nodes|]
    && length == if |x| == FAST_BITS then FAST_BITS + 1 else 0
  }

  lemma GrowRoots(nodes: seq<TNode>, pairs: Pairs, codes: Codes, x: seq<bool>, k: nat, length: nat, after: seq<TNode>, q: Pairs)
    requires RootsOk(nodes, pairs, codes) && PairsOk(nodes, pairs, codes)
    requires Growable(pairs, codes, x) && NodeAt(pairs, x, k) && Grows(nodes, pairs, x, k, length, after, q)
    ensures RootsOk(after, q, codes)
  {
    if |x| == FAST_BITS {
      RootNode(nodes, pairs, codes, x, k);
    } else {
      SlotNode(nodes, pairs, codes, x, k);
    }
    hide PairsOk, RootOk, NoStray, NodeAt, SlotOk;
    forall i | 0 <= i < FAST_SIZE ensures RootOk(after[i], LowWord(i, FAST_BITS), q, codes) {
      if |x| == FAST_BITS {
        TableInjective(i, k);
      }
      GrowRoot(nodes[i], after[i], LowWord(i, FAST_BITS), pairs, codes, x, |nodes|);
    }
  }

  lemma TableInjective(i: nat, k: nat)
    requires i < FAST_SIZE && k < FAST_SIZE
    ensures LowWord(i, FAST_BITS) == LowWord(k, FAST_BITS) ==> i == k
  {
    Pow2Ten();
    LowValueOfWord(i, FAST_BITS);
    LowValueOfWord(k, FAST_BITS);
  }

  lemma GrowRoot(n: TNode, m: TNode, u: seq<bool>, pairs: Pairs, codes: Codes, x: seq<bool>, p: nat)
    requires RootOk(n, u, pairs, codes) && |u| == FAST_BITS && (forall y :: y in codes ==> !(y <= x))
    requires m == if u == x then TNode(p, false, FAST_BITS + 1) else n
    ensures RootOk(m, u, pairs[x := p], codes)
  {
  }

  lemma GrowPairs(nodes: seq<TNode>, pairs: Pairs, codes: Codes, x: seq<bool>, k: nat, length: nat, after: seq<TNode>, q: Pairs)
    requires TreeOk(nodes, pairs, codes)
    requires Growable(pairs, codes, x) && NodeAt(pairs, x, k) && Grows(nodes, pairs, x, k, length, after, q)
    ensures PairsOk(after, q, codes) && Linked(q, codes)
  {
    hide SlotOk, RootsOk, NoStray, NodeAt, Linked, Placed;
    RootsEnough(nodes, pairs, codes);
    GrowPlaced(|nodes|, pairs, x);
    GrowLinked(nodes, pairs, codes, x);
    PlacedInRange(|after|, q);
    hide TreeOk, Growable, Grows;
    forall y, b | y in q ensures SlotOk(after[q[y] + Bit(b)], y + [b], q, codes) {
      GrowOneSlot(nodes, pairs, codes, x, k, length, after, q, y, b);
    }
  }

  lemma PlacedInRange(size: nat, pairs: Pairs)
    requires Placed(size, pairs)
    ensures forall y :: y in pairs ==> pairs[y] + 1 < size
  {
  }

  lemma GrowLinked(nodes: seq<TNode>, pairs: Pairs, codes: Codes, x: seq<bool>)
    requires TreeOk(nodes, pairs, codes)
    ensures Linked(pairs[x := |nodes|], codes)
  {
    hide RootsOk, PairsOk;
  }

  lemma GrowPlaced(size: nat, pairs: Pairs, x: seq<bool>)
    requires Placed(size, pairs) && |x| >= FAST_BITS && size >= FAST_SIZE && size % 2 == 0
    ensures Placed(size + 2, pairs[x := size])
  {
  }

  lemma GrowOneSlot(nodes: seq<TNode>, pairs: Pairs, codes: Codes, x: seq<bool>, k: nat, length: nat,
                    after: seq<TNode>, q: Pairs, y: seq<bool>, b: bool)
    requires TreeOk(nodes, pairs, codes)
    requires Growable(pairs, codes, x) && NodeAt(pairs, x, k) && Grows(nodes, pairs, x, k, length, after, q)
    requires y in q && q[y] + 1 < |after|
    ensures SlotOk(after[q[y] + Bit(b)], y + [b], q, codes)
  {
    hide SlotOk, NoStray, NodeAt, RootsOk, PairsOk, Linked;
    NodeInRange(nodes, pairs, codes, x, k);
    hide RootOk;
    if y == x {
      NewPairIsUnused(pairs, codes, x);
      NewSlot(x, b, pairs, codes, |nodes|);
      assert after[|nodes| + Bit(b)] == EMPTY;
    } else {
      OldSlotInRange(nodes, pairs, codes, y, b);
      SlotMatches(nodes, pairs, x, k, y, b);
      hide Placed;
      assert |y + [b]| > FAST_BITS;
      GrowSlot(nodes[pairs[y] + Bit(b)], after[pairs[y] + Bit(b)], y + [b], pairs, codes, x, |nodes|);
    }
  }

  lemma OldSlotInRange(nodes: seq<TNode>, pairs: Pairs, codes: Codes, y: seq<bool>, b: bool)
    requires TreeOk(nodes, pairs, codes) && y in pairs
    ensures |y| >= FAST_BITS && pairs[y] + 1 < |nodes| && Placed(|nodes|, pairs)
    ensures SlotOk(nodes[pairs[y] + Bit(b)], y + [b], pairs, codes)
  {
  }

  lemma NewSlot(x: seq<bool>, b: bool, pairs: Pairs, codes: Codes, p: nat)
    requires x + [b] !in pairs && x + [b] !in codes
    ensures SlotOk(EMPTY, x + [b], pairs[x := p], codes)
  {
    assert |x + [b]| == |x| + 1;
  }

  lemma GrowSlot(n: TNode, m: TNode, z: seq<bool>, pairs: Pairs, codes: Codes, x: seq<bool>, p: nat)
    requires SlotOk(n, z, pairs, codes) && (forall y :: y in codes ==> !(y <= x))
    requires m == if z == x then TNode(p, false, 0) else n
    ensures SlotOk(m, z, pairs[x := p], codes)
  {
  }

  /** An overflow node is that of the path `x` exactly when its path is `x`. */
  lemma SlotMatches(nodes: seq<TNode>, pairs: Pairs, x: seq<bool>, k: nat, y: seq<bool>, b: bool)
    requires NodeAt(pairs, x, k) && y in pairs && Placed(|nodes|, pairs)
    ensures pairs[y] + Bit(b) == k <==> y + [b] == x
  {
    if |x| == FAST_BITS {
      var i := IndexOf(x);
    } else {
      var p := x[..|x| - 1];
      assert x == p + [x[|x| - 1]];
      if y + [b] == x {
        assert p == y && x[|x| - 1] == b;
      }
    }
  }

  /** Nothing below a path without a pair is in use. */
  lemma NewPairIsUnused(pairs: Pairs, codes: Codes, x: seq<bool>)
    requires Growable(pairs, codes, x) && Linked(pairs, codes)
    ensures forall b :: x + [b] !in pairs && x + [b] !in codes
  {
    forall b ensures x + [b] !in pairs && x + [b] !in codes {
      var y := x + [b];
      assert y[..|x|] == x;
      assert !ProperPrefix(y, x);
      forall z | z in codes ensures !ProperPrefix(y, z) {
        BeforeLast(x, b, z);
      }
    }
  }

  lemma BeforeLast(x: seq<bool>, b: bool, z: seq<bool>)
    ensures ProperPrefix(x + [b], z) ==> |x| < |z| && z[..|x|] == x
  {
    if ProperPrefix(x + [b], z) {
      assert (x + [b])[..|x|] == x;
    }
  }

  /** Writing a code word into its empty node keeps the tree well formed. */
  lemma PlantKeepsTree(nodes: seq<TNode>, pairs: Pairs, codes: Codes, w: seq<bool>, k: nat, value: nat)
    requires TreeOk(nodes, pairs, codes) && |w| > FAST_BITS && w !in pairs && NodeAt(pairs, w, k)
    requires forall d :: FAST_BITS <= d < |w| ==> w[..d] in pairs
    ensures k < |nodes| && TreeOk(nodes[k := TNode(value, true, 0)], pairs, codes[w := value])
  {
    NodeInRange(nodes, pairs, codes, w, k);
    var after := nodes[k := TNode(value, true, 0)];
    PlantRoots(nodes, after, pairs, codes, w, value);
    PlantPairs(nodes, after, pairs, codes, w, k, value);
    hide RootsOk, PairsOk, Linked, NodeAt;
  }

  lemma PlantRoots(nodes: seq<TNode>, after: seq<TNode>, pairs: Pairs, codes: Codes, w: seq<bool>, value: nat)
    requires RootsOk(nodes, pairs, codes) && |w| > FAST_BITS && |after| == |nodes|
    requires forall k :: 0 <= k < FAST_SIZE ==> after[k] == nodes[k]
    ensures RootsOk(after, pairs, codes[w := value])
  {
    hide RootOk;
    forall k | 0 <= k < FAST_SIZE ensures RootOk(after[k], LowWord(k, FAST_BITS), pairs, codes[w := value]) {
      PlantRoot(nodes[k], LowWord(k, FAST_BITS), pairs, codes, w, value);
    }
  }

  lemma PlantRoot(n: TNode, u: seq<bool>, pairs: Pairs, codes: Codes, w: seq<bool>, value: nat)
    requires RootOk(n, u, pairs, codes) && |u| == FAST_BITS < |w|
    ensures RootOk(n, u, pairs, codes[w := value])
  {
    if n != EMPTY && u !in pairs {
      var x :| x in codes && x <= u;
      assert x in codes[w := value];
    }
  }

  lemma PlantPairs(nodes: seq<TNode>, after: seq<TNode>, pairs: Pairs, codes: Codes, w: seq<bool>, k: nat, value: nat)
    requires PairsOk(nodes, pairs, codes) && Linked(pairs, codes) && |w| > FAST_BITS && w !in pairs && NodeAt(pairs, w, k)
    requires forall d :: FAST_BITS <= d < |w| ==> w[..d] in pairs
    requires k < |nodes| && after == nodes[k := TNode(value, true, 0)]
    ensures PairsOk(after, pairs, codes[w := value]) && Linked(pairs, codes[w := value])
  {
    hide SlotOk, NodeAt;
    forall y, b | y in pairs ensures SlotOk(after[pairs[y] + Bit(b)], y + [b], pairs, codes[w := value]) {
      SlotMatches(nodes, pairs, w, k, y, b);
      PlantSlot(nodes[pairs[y] + Bit(b)], after[pairs[y] + Bit(b)], y + [b], pairs, codes, w, value);
    }
  }

  lemma PlantSlot(n: TNode, m: TNode, z: seq<bool>, pairs: Pairs, codes: Codes, w: seq<bool>, value: nat)
    requires SlotOk(n, z, pairs, codes) && w !in pairs
    requires m == if z == w then TNode(value, true, 0) else n
    ensures SlotOk(m, z, pairs, codes[w := value])
  {
  }

  // ---------------------------------------------------------------- insertion in place

  class Tree {
    var nodes: seq<TNode>  // the table, then the overflow nodes in use
    var nextNode: nat
    ghost var pairs: Pairs
    ghost var codes: Codes

    ghost predicate Valid()
      reads this
    {
      TreeOk(nodes, pairs, codes) && NoStray(pairs, codes, []) && nextNode == |pairs|
    }

    constructor ()
      ensures Valid() && codes == map[]
    {
      nodes := seq(FAST_SIZE, _ => EMPTY);
      nextNode := 0;
      pairs, codes := map[], map[];
    }

    /** Forgets all code words. */
    method Clear()
      modifies this
      ensures Valid() && codes == map[]
    {
      nodes := seq(FAST_SIZE, _ => EMPTY);
      nextNode := 0;
      pairs, codes := map[], map[];
    }

    /** The low bits of a key in the order in which they are read. */
    method ReverseKey(key: nat, bits: nat) returns (rkey: nat)
      ensures rkey == LowValue(Word(key, bits)) && rkey < Pow2(bits)
    {
      hide Word, LowWord, Pow2, LowValue;
      rkey := 0;
      WordOfNothing(key);
      for i := 0 to bits
        invariant rkey == LowValue(Word(key, i))
      {
        WordHead(key, i);
        var b := (key / Pow2(i)) % 2;
        LowValueHead(b == 1, Word(key, i));
        rkey := 2 * rkey + b;
      }
      LowValueBound(Word(key, bits));
    }

    /** Fills the table entries of a code word of at most ten bits; fails when one of them is taken. */
    method AddShort(ghost w: seq<bool>, rkey: nat, bits: nat, value: nat) returns (ok: bool)
      requires Valid() && 1 <= bits == |w| <= FAST_BITS && rkey == LowValue(w)
      modifies this`nodes, this`codes
      ensures ok <==> Insertable(old(codes), w)
      ensures ok ==> Valid() && codes == old(codes)[w := value]
    {
      hide TreeOk, Insertable, LowWord, Pow2, LowValue, NoStray, FilledTo;
      var p := Pow2(bits);
      var n := TNode(value, true, bits);
      ghost var before := nodes;
      EntryTaken(nodes, pairs, codes, w, 0);
      if nodes[rkey].length != 0 {
        return false;
      }
      nodes := nodes[rkey := n];
      FillStart(before, nodes, w, n);
      for i := 1 to Pow2(FAST_BITS - bits)
        invariant FilledTo(before, nodes, w, n, i) && pairs == old(pairs) && codes == old(codes)
      {
        var k := rkey + i * p;
        EntryTaken(before, pairs, codes, w, i);
        FillUntouched(before, nodes, w, n, i);
        if nodes[k].length != 0 {
          return false;
        }
        ghost var filled := nodes;
        nodes := nodes[k := n];
        FillStep(before, filled, nodes, w, n, i);
      }
      FillDone(before, nodes, pairs, codes, w, n);
      NoStrayMore(pairs, codes, w, value);
      codes := codes[w := value];
      return true;
    }

    /** Goes on to the pair of nodes below the path `x`, whose node is `k`, and creates the pair where there is
        none yet. It fails when a code word ends here, or when the nodes are used up. */
    method Enter(ghost x: seq<bool>, k: nat, checked: bool) returns (ok: bool, next: nat)
      requires TreeOk(nodes, pairs, codes) && nextNode == |pairs| && NodeAt(pairs, x, k) && NoStray(pairs, codes, x)
      requires forall y :: y in codes && y <= x ==> y == x || |x| == FAST_BITS
      modifies this`nodes, this`nextNode, this`pairs
      ensures ok ==>
                && TreeOk(nodes, pairs, codes) && nextNode == |pairs|
                && x in pairs && pairs[x] == next && pairs.Keys == old(pairs).Keys + {x}
                && (forall y :: y in old(pairs) ==> pairs[y] == old(pairs)[y])
                && (forall y :: y in codes ==> !(y <= x))
      ensures !ok ==> pairs == old(pairs) &&
                      ((exists y :: y in codes && y <= x) || (checked && x !in pairs && |pairs| == MAX_TREE_NODES))
    {
      hide TreeOk, NoStray, RootOk, SlotOk;
      NodeMeaning(nodes, pairs, codes, x, k);
      if nodes[k].isValue {
        return false, 0;
      }
      if nodes[k].value == 0 {
        if checked && nextNode == MAX_TREE_NODES {
          return false, 0;
        }
        next := FAST_SIZE + nextNode * 2;
        var length := if k < FAST_SIZE then FAST_BITS + 1 else 0;
        GrowKeepsTree(nodes, pairs, codes, x, k, length);
        nodes := nodes[k := TNode(next, false, length)] + [EMPTY, EMPTY];
        nextNode := nextNode + 1;
        pairs := pairs[x := next];
      }
      return true, nodes[k].value;
    }

    /** `i` is the pair of nodes below the first `d` bits of `w`, and no code word ends on the way there. */
    ghost predicate Descending(w: seq<bool>, d: nat, i: nat)
      reads this
    {
      && TreeOk(nodes, pairs, codes) && nextNode == |pairs| && FAST_BITS <= d < |w|
      && w[..d] in pairs && pairs[w[..d]] == i && NoStray(pairs, codes, w[..d + 1])
      && (forall e :: FAST_BITS <= e <= d ==> w[..e] in pairs)
      && (forall y :: y in codes ==> !(y <= w[..d]))
    }

    /** One overflow step: from the first `d` bits of `w` to one bit more. */
    method DescendBit(ghost w: seq<bool>, ghost d: nat, i: nat, b: nat, ghost value: nat) returns (ok: bool, next: nat)
      requires Descending(w, d, i) && d + 1 < |w| && b == Bit(w[d])
      modifies this`nodes, this`nextNode, this`pairs
      ensures ok ==> Descending(w, d + 1, next)
      ensures !ok ==> !Insertable(codes, w) || |Inner(codes[w := value])| > MAX_TREE_NODES
    {
      hide TreeOk, NoStray, Insertable, NodeAt, Inner;
      ghost var before := pairs;
      NodeBelow(pairs, codes, w, d, i);
      PairsAreLong(nodes, pairs, codes);
      ok, next := Enter(w[..d + 1], i + b, true);
      if ok {
        StillNoStray(before, pairs, codes, w, d);
        StillOnTheWay(before, pairs, w, d);
      } else {
        NoRoom(pairs, codes, w, d, value);
      }
    }

    /** Enters the table at a code word of more than ten bits. */
    method EnterTable(ghost w: seq<bool>, rkey: nat) returns (ok: bool, next: nat)
      requires Valid() && |w| > FAST_BITS && rkey == LowValue(w)
      modifies this`nodes, this`nextNode, this`pairs
      ensures ok ==> Descending(w, FAST_BITS, next)
      ensures !ok ==> !Insertable(codes, w)
    {
      hide TreeOk, NoStray, Insertable, LowValue, NodeAt;
      ghost var before, x := pairs, w[..FAST_BITS];
      TableKey(pairs, codes, w);
      ok, next := Enter(x, rkey % FAST_SIZE, false);
      if ok {
        FirstPair(before, pairs, codes, w);
      } else {
        PrefixConflicts(codes, w, FAST_BITS);
      }
    }

    /** Inserts a code word of more than ten bits below the table. */
    method AddLong(ghost w: seq<bool>, rkey: nat, key: nat, bits: nat, value: nat) returns (ok: bool)
      requires Valid() && w == Word(key, bits) && FAST_BITS < bits <= 15 && rkey == LowValue(w)
      modifies this
      ensures ok ==> Valid() && codes == old(codes)[w := value] && Insertable(old(codes), w)
      ensures !ok ==> !Insertable(old(codes), w) || |Inner(old(codes)[w := value])| > MAX_TREE_NODES
    {
      hide Valid, Descending, Insertable, Word, LowValue, Pow2, Inner;
      var i: nat;
      ok, i := EnterTable(w, rkey);
      if !ok {
        return;
      }
      var left := bits - FAST_BITS;
      while left > 1
        invariant 1 <= left <= bits - FAST_BITS && codes == old(codes)
        invariant Descending(w, bits - left, i)
        decreases left
      {
        KeyBit(key, bits, left - 1);
        ok, i := DescendBit(w, bits - left, i, (key / Pow2(left - 1)) % 2, value);
        if !ok {
          return;
        }
        left := left - 1;
      }
      KeyBit(key, bits, 0);
      ok := Plant(w, i, i + (key / Pow2(0)) % 2, value);
    }

    /** Writes a code word into its node, if that is untouched. */
    method Plant(ghost w: seq<bool>, ghost i: nat, k: nat, value: nat) returns (ok: bool)
      requires |w| > FAST_BITS && Descending(w, |w| - 1, i) && k == i + Bit(w[|w| - 1])
      modifies this`nodes, this`codes
      ensures ok ==> Valid() && codes == old(codes)[w := value] && Insertable(old(codes), w)
      ensures !ok ==> !Insertable(old(codes), w)
    {
      hide TreeOk, NoStray, Insertable, NodeAt;
      LastNode(pairs, codes, w, i);
      NodeMeaning(nodes, pairs, codes, w, k);
      if nodes[k].value != 0 || nodes[k].isValue {
        TouchedConflicts(pairs, codes, w);
        return false;
      }
      UntouchedIsInsertable(nodes, pairs, codes, w);
      PlantKeepsTree(nodes, pairs, codes, w, k, value);
      NoStrayMore(pairs, codes, w, value);
      nodes := nodes[k := TNode(value, true, 0)];
      codes := codes[w := value];
      return true;
    }

    /** Adds the code word made of the low `bits` bits of `key`. Success means that it is in conflict with no code word;
        failure means a conflict, or that the overflow nodes would not suffice. */
    method AddValue(key: nat, bits: nat, value: nat) returns (ok: bool)
      requires Valid() && 1 <= bits <= 15
      modifies this
      ensures ok ==> Valid() && codes == old(codes)[Word(key, bits) := value] && Insertable(old(codes), Word(key, bits))
      ensures !ok ==> !Insertable(old(codes), Word(key, bits)) ||
                      |Inner(old(codes)[Word(key, bits) := value])| > MAX_TREE_NODES
    {
      hide Valid, Insertable, Word, LowValue;
      var rkey := ReverseKey(key, bits);
      if bits <= FAST_BITS {
        ok := AddShort(Word(key, bits), rkey, bits, value);
      } else {
        ok := AddLong(Word(key, bits), rkey, key, bits, value);
      }
    }
  }

  /** The node of the next bit lies in the pair reached so far. */
  lemma NodeBelow(pairs: Pairs, codes: Codes, w: seq<bool>, d: nat, i: nat)
    requires FAST_BITS <= d < |w| && w[..d] in pairs && pairs[w[..d]] == i
    requires forall y :: y in codes ==> !(y <= w[..d])
    ensures NodeAt(pairs, w[..d + 1], i + Bit(w[d]))
    ensures forall y :: y in codes && y <= w[..d + 1] ==> y == w[..d + 1]
  {
    assert w[..d + 1][..d] == w[..d];
    forall y | y in codes && y <= w[..d + 1] ensures y == w[..d + 1] {
      ShorterPrefix(y, w, d);
    }
  }

  lemma ShorterPrefix(y: seq<bool>, w: seq<bool>, d: nat)
    requires d < |w| && y <= w[..d + 1]
    ensures y <= w[..d] || y == w[..d + 1]
  {
    assert w[..d + 1][..d] == w[..d];
  }

  lemma FirstPair(before: Pairs, pairs: Pairs, codes: Codes, w: seq<bool>)
    requires FAST_BITS < |w| && NoStray(before, codes, w[..FAST_BITS]) && pairs.Keys == before.Keys + {w[..FAST_BITS]}
    ensures NoStray(pairs, codes, w[..FAST_BITS + 1])
    ensures forall e :: FAST_BITS <= e <= FAST_BITS ==> w[..e] in pairs
  {
    hide NoStray;
    StillNoStray(before, pairs, codes, w, FAST_BITS - 1);
  }

  lemma StillOnTheWay(before: Pairs, pairs: Pairs, w: seq<bool>, d: nat)
    requires d + 1 < |w| && pairs.Keys == before.Keys + {w[..d + 1]}
    requires forall e :: FAST_BITS <= e <= d ==> w[..e] in before
    ensures forall e :: FAST_BITS <= e <= d + 1 ==> w[..e] in pairs
  {
    forall e | FAST_BITS <= e <= d + 1 ensures w[..e] in pairs {
      assert e <= d ==> w[..e] in before;
    }
  }

  lemma PairsAreLong(nodes: seq<TNode>, pairs: Pairs, codes: Codes)
    requires TreeOk(nodes, pairs, codes)
    ensures forall x :: x in pairs ==> |x| >= FAST_BITS
  {
    hide RootsOk, Linked, SlotOk;
  }

  lemma StillNoStray(before: Pairs, pairs: Pairs, codes: Codes, w: seq<bool>, d: nat)
    requires d + 1 < |w| && NoStray(before, codes, w[..d + 1]) && pairs.Keys == before.Keys + {w[..d + 1]}
    ensures NoStray(pairs, codes, w[..d + 2])
  {
    forall x | x in pairs
      ensures ProperPrefix(x, w[..d + 2]) || exists y :: y in codes && ProperPrefix(x, y)
    {
      assert w[..d + 1] <= w[..d + 2];
    }
  }

  /** When the nodes are used up and one more pair is needed, the code needs more pairs than there are. */
  lemma NoRoom(pairs: Pairs, codes: Codes, w: seq<bool>, d: nat, value: nat)
    requires FAST_BITS <= d + 1 < |w|
    requires (exists y :: y in codes && y <= w[..d + 1]) || (w[..d + 1] !in pairs && |pairs| == MAX_TREE_NODES)
    requires NoStray(pairs, codes, w[..d + 1]) && forall x :: x in pairs ==> |x| >= FAST_BITS
    ensures !Insertable(codes, w) || |Inner(codes[w := value])| > MAX_TREE_NODES
  {
    hide Inner, Insertable;
    var x := w[..d + 1];
    if exists y :: y in codes && y <= x {
      PrefixConflicts(codes, w, d + 1);
    } else {
      var c := codes[w := value];
      InnerHas(c, w, x);
      forall p | p in pairs ensures p in Inner(c) {
        if ProperPrefix(p, x) {
          InnerHas(c, w, p);
        } else {
          var y :| y in codes && ProperPrefix(p, y);
          InnerHas(c, y, p);
        }
      }
      Larger(pairs.Keys + {x}, Inner(c));
    }
  }

  lemma Larger(a: set<seq<bool>>, b: set<seq<bool>>)
    requires a <= b
    ensures |a| <= |b|
  {
    assert b == a + (b - a);
  }

  lemma PrefixConflicts(codes: Codes, w: seq<bool>, d: nat)
    requires d <= |w| && exists y :: y in codes && y <= w[..d]
    ensures !Insertable(codes, w)
  {
    var y :| y in codes && y <= w[..d];
    assert y <= w;
  }

  lemma KeyBit(key: nat, bits: nat, j: nat)
    requires j < bits
    ensures Bit(Word(key, bits)[bits - 1 - j]) == (key / Pow2(j)) % 2
  {
    hide Word, Pow2;
    WordBit(key, bits, bits - 1 - j);
  }

  lemma LastNode(pairs: Pairs, codes: Codes, w: seq<bool>, i: nat)
    requires FAST_BITS < |w| && w[..|w| - 1] in pairs && pairs[w[..|w| - 1]] == i
    requires forall y :: y in codes ==> !(y <= w[..|w| - 1])
    ensures NodeAt(pairs, w, i + Bit(w[|w| - 1])) && w[..|w|] == w
    ensures forall y :: y in codes && y <= w ==> y == w
  {
    NodeBelow(pairs, codes, w, |w| - 1, i);
    assert w[..|w|] == w;
  }

  lemma TouchedConflicts(pairs: Pairs, codes: Codes, w: seq<bool>)
    requires NoStray(pairs, codes, w) && (w in pairs || exists y :: y in codes && y <= w)
    ensures !Insertable(codes, w)
  {
    if w in pairs {
      PairConflicts(pairs, codes, w);
    }
  }

  lemma PairConflicts(pairs: Pairs, codes: Codes, w: seq<bool>)
    requires NoStray(pairs, codes, w) && w in pairs
    ensures !Insertable(codes, w)
  {
    var y :| y in codes && ProperPrefix(w, y);
  }

  lemma UntouchedIsInsertable(nodes: seq<TNode>, pairs: Pairs, codes: Codes, w: seq<bool>)
    requires TreeOk(nodes, pairs, codes) && Growable(pairs, codes, w)
    ensures Insertable(codes, w)
  {
    hide RootsOk, PairsOk, NoStray;
    forall x | x in codes ensures !(w <= x) {
      LongerTake(w, x);
    }
  }

  lemma LongerTake(w: seq<bool>, x: seq<bool>)
    ensures w <= x ==> |w| <= |x| && x[..|w|] == w && (|w| == |x| ==> x <= w)
  {
  }

  /** The table entry in which a long code word starts. */
  lemma TableKey(pairs: Pairs, codes: Codes, w: seq<bool>)
    requires NoStray(pairs, codes, []) && |w| > FAST_BITS
    ensures NodeAt(pairs, w[..FAST_BITS], LowValue(w) % FAST_SIZE)
    ensures NoStray(pairs, codes, w[..FAST_BITS])
  {
    TableIndex(w);
  }

  lemma TableIndex(w: seq<bool>)
    requires |w| >= FAST_BITS
    ensures LowValue(w) % FAST_SIZE == LowValue(w[..FAST_BITS])
  {
    hide LowValue, LowWord, Pow2;
    LowWordOfValue(w);
    Pow2Ten();
    LowWordSplit(LowValue(w), FAST_BITS, |w| - FAST_BITS);
    assert FAST_BITS + (|w| - FAST_BITS) == |w|;
    LowValueOfWord(LowValue(w) % FAST_SIZE, FAST_BITS);
  }

  /** How the node of a path is read: a code word ends there, a pair of nodes follows, or it is untouched. */
  lemma NodeMeaning(nodes: seq<TNode>, pairs: Pairs, codes: Codes, x: seq<bool>, k: nat)
    requires TreeOk(nodes, pairs, codes) && NodeAt(pairs, x, k) && NoStray(pairs, codes, x)
    requires forall y :: y in codes && y <= x ==> y == x || |x| == FAST_BITS
    ensures k < |nodes| == FAST_SIZE + 2 * |pairs| && |x| >= FAST_BITS && (k < FAST_SIZE <==> |x| == FAST_BITS)
    ensures nodes[k].isValue <==> exists y :: y in codes && y <= x
    ensures !nodes[k].isValue && nodes[k].value != 0 ==> x in pairs && pairs[x] == nodes[k].value
    ensures !nodes[k].isValue && nodes[k].value == 0 ==> Growable(pairs, codes, x)
    ensures x in pairs ==> pairs[x] == nodes[k].value != 0
  {
    hide Linked;
    NodeInRange(nodes, pairs, codes, x, k);
    RootsEnough(nodes, pairs, codes);
    hide RootsOk, NoStray;
    if exists y :: y in codes && y <= x {
      var y :| y in codes && y <= x;
    }
  }

  /** An entry below `w` is taken only by a conflict, and otherwise empty. */
  lemma EntryTaken(nodes: seq<TNode>, pairs: Pairs, codes: Codes, w: seq<bool>, i: nat)
    requires TreeOk(nodes, pairs, codes) && NoStray(pairs, codes, [])
    requires 1 <= |w| <= FAST_BITS && i < Pow2(FAST_BITS - |w|)
    ensures var k := EntryIndex(w, i);
            && k < FAST_SIZE <= |nodes|
            && (nodes[k].length != 0 ==> !Insertable(codes, w)) && (nodes[k].length == 0 ==> nodes[k] == EMPTY)
    ensures i == 0 ==> EntryIndex(w, i) == LowValue(w)
  {
    hide TreeOk, Insertable, LowWord, Pow2, LowValue, NoStray, EntryIndex;
    var k := EntryIndex(w, i);
    StepsThroughTable(w, i);
    RootsInTree(nodes, pairs, codes);
    if nodes[k].length != 0 {
      TakenMeansConflict(nodes, pairs, codes, w, k);
    } else {
      LengthShows(nodes, pairs, codes, k);
    }
  }

  lemma FillStart(before: seq<TNode>, nodes: seq<TNode>, w: seq<bool>, n: TNode)
    requires |w| <= FAST_BITS && |before| >= FAST_SIZE > LowValue(w) && before[LowValue(w)] == EMPTY
    requires nodes == before[LowValue(w) := n]
    ensures FilledTo(before, nodes, w, n, 1)
  {
    hide Reached, LowValue;
    FilledFirst(w);
  }

  lemma FillUntouched(before: seq<TNode>, nodes: seq<TNode>, w: seq<bool>, n: TNode, i: nat)
    requires 1 <= |w| <= FAST_BITS && i < Pow2(FAST_BITS - |w|) && FilledTo(before, nodes, w, n, i)
    ensures var k := EntryIndex(w, i);
            k < FAST_SIZE <= |nodes| && nodes[k] == before[k]
  {
    hide Pow2, LowValue, LowWord, EntryIndex;
    StepsThroughTable(w, i);
  }

  lemma FillStep(before: seq<TNode>, filled: seq<TNode>, nodes: seq<TNode>, w: seq<bool>, n: TNode, i: nat)
    requires 1 <= |w| <= FAST_BITS && FilledTo(before, filled, w, n, i)
    requires var k := EntryIndex(w, i);
             k < FAST_SIZE && k < |filled| && nodes == filled[k := n] && before[k] == EMPTY
    ensures FilledTo(before, nodes, w, n, i + 1)
  {
    hide Reached, LowValue, Pow2, EntryIndex;
    FilledNext(w, i);
  }

  lemma FillDone(before: seq<TNode>, nodes: seq<TNode>, pairs: Pairs, codes: Codes, w: seq<bool>, n: TNode)
    requires TreeOk(before, pairs, codes) && 1 <= |w| <= FAST_BITS && n == TNode(n.value, true, |w|)
    requires FilledTo(before, nodes, w, n, Pow2(FAST_BITS - |w|))
    ensures Insertable(codes, w) && TreeOk(nodes, pairs, codes[w := n.value])
  {
    hide TreeOk, Insertable, LowWord, Pow2, LowValue, Reached;
    FilledAll(w);
    EmptyMeansInsertable(before, pairs, codes, w);
    FillKeepsTree(before, nodes, pairs, codes, w, n.value);
  }

  /** The first `i` entries below `w` have been filled; they were empty. */
  ghost predicate FilledTo(before: seq<TNode>, nodes: seq<TNode>, w: seq<bool>, n: TNode, i: nat) {
    && |nodes| == |before| >= FAST_SIZE
    && (forall k :: 0 <= k < |nodes| ==> nodes[k] == if k < FAST_SIZE && Reached(w, k, i) then n else before[k])
    && (forall k :: 0 <= k < FAST_SIZE && Reached(w, k, i) ==> before[k] == EMPTY)
  }

  /** `k` is one of the first `i` entries below `w`. */
  ghost predicate Reached(w: seq<bool>, k: nat, i: nat) {
    k % Pow2(|w|) == LowValue(w) && k / Pow2(|w|) < i
  }

  /** Index of the entry number `i` below `w`. */
  function EntryIndex(w: seq<bool>, i: nat): nat {
    LowValue(w) + i * Pow2(|w|)
  }

  lemma WordOfNothing(key: nat)
    ensures LowValue(Word(key, 0)) == 0
  {
  }

  lemma LowValueHead(b: bool, w: seq<bool>)
    ensures LowValue([b] + w) == 2 * LowValue(w) + if b then 1 else 0
  {
    assert ([b] + w)[1..] == w;
  }

  lemma RootsInTree(nodes: seq<TNode>, pairs: Pairs, codes: Codes)
    requires TreeOk(nodes, pairs, codes)
    ensures |nodes| >= FAST_SIZE && |nodes| == FAST_SIZE + 2 * |pairs|
  {
  }

  /** The entry number `i` below `w`. */
  lemma StepsThroughTable(w: seq<bool>, i: nat)
    requires |w| <= FAST_BITS && i < Pow2(FAST_BITS - |w|)
    ensures var k := EntryIndex(w, i);
            && k < FAST_SIZE && w <= LowWord(k, FAST_BITS)
            && k % Pow2(|w|) == LowValue(w) && k / Pow2(|w|) == i
  {
    hide LowWord, Pow2, LowValue;
    var n, p, v := |w|, Pow2(|w|), LowValue(w);
    LowValueBound(w);
    Pow2Ten();
    Pow2Add(n, FAST_BITS - n);
    assert n + (FAST_BITS - n) == FAST_BITS;
    var k := EntryIndex(w, i);
    InBlock(v, i, p, Pow2(FAST_BITS - n), FAST_SIZE);
    Remainder(k, p, i, v);
    IndexPrefix(k, w);
  }

  lemma InBlock(r: nat, i: nat, p: nat, m: nat, total: nat)
    requires r < p && i < m && p * m == total
    ensures r + i * p < total
  {
    assert (i + 1) * p <= m * p;
  }

  lemma FilledFirst(w: seq<bool>)
    requires |w| <= FAST_BITS
    ensures forall k: nat :: k < FAST_SIZE ==> (Reached(w, k, 1) <==> k == LowValue(w))
  {
    hide LowValue, Pow2;
    LowValueBound(w);
    forall k: nat | k < FAST_SIZE ensures Reached(w, k, 1) <==> k == LowValue(w) {
      var p := Pow2(|w|);
      if k == LowValue(w) {
        Remainder(k, p, 0, k);
      } else if k / p == 0 {
        assert k == 0 * p + k % p;
      }
    }
  }

  lemma FilledNext(w: seq<bool>, i: nat)
    requires |w| <= FAST_BITS
    ensures forall k: nat :: k < FAST_SIZE ==>
              (Reached(w, k, i + 1) <==> Reached(w, k, i) || k == EntryIndex(w, i))
  {
    hide LowValue, Pow2;
    LowValueBound(w);
    forall k: nat | k < FAST_SIZE
      ensures Reached(w, k, i + 1) <==> Reached(w, k, i) || k == EntryIndex(w, i)
    {
      var p := Pow2(|w|);
      assert k == (k / p) * p + k % p;
      if k == LowValue(w) + i * p {
        Remainder(k, p, i, LowValue(w));
      }
    }
  }

  lemma FilledAll(w: seq<bool>)
    requires |w| <= FAST_BITS
    ensures forall k: nat :: k < FAST_SIZE ==> (Reached(w, k, Pow2(FAST_BITS - |w|)) <==> w <= LowWord(k, FAST_BITS))
  {
    hide LowValue, Pow2, LowWord;
    Pow2Ten();
    Pow2Add(|w|, FAST_BITS - |w|);
    assert |w| + (FAST_BITS - |w|) == FAST_BITS;
    forall k: nat | k < FAST_SIZE
      ensures Reached(w, k, Pow2(FAST_BITS - |w|)) <==> w <= LowWord(k, FAST_BITS)
    {
      IndexPrefix(k, w);
      QuotientBound(k, Pow2(FAST_BITS - |w|), Pow2(|w|));
    }
  }

  lemma NoStrayMore(pairs: Pairs, codes: Codes, w: seq<bool>, value: nat)
    requires NoStray(pairs, codes, w)|| NoStray(pairs, codes, [])
    ensures NoStray(pairs, codes[w := value], [])
  {
    var c := codes[w := value];
    assert w in c;
    forall x | x in pairs ensures exists y :: y in c && ProperPrefix(x, y) {
      if ProperPrefix(x, w) {
      } else {
        var y :| y in codes && ProperPrefix(x, y);
        assert y in c;
      }
    }
  }
}
