/** RAR's Huffman decoder: a bit tree grown by insertion, and a lookup table flattened from it. */
module RarHuffman {
  import opened Options
  import opened Bits
  import opened CanonicalCode

  // ---------------------------------------------------------------- the tree

  /** A node is a leaf when both branches hold the same number, its symbol; a negative branch is missing. */
  datatype Node = Node(zero: int, one: int)

  const FRESH := Node(-1, -2)

  predicate IsLeaf(n: Node) { n.zero == n.one }

  function Branch(n: Node, bit: bool): int { if bit then n.one else n.zero }

  function SetBranch(n: Node, bit: bool, c: int): Node {
    if bit then n.(one := c) else n.(zero := c)
  }

  /** The node reached from `k` along `w`, or -1. */
  function Walk(tree: seq<Node>, k: int, w: seq<bool>): int
    decreases |w|
  {
    if k < 0 || k >= |tree| then -1
    else if w == [] then k
    else if IsLeaf(tree[k]) then -1
    else Walk(tree, Branch(tree[k], w[0]), w[1..])
  }

  /** Node `k` has the bit path `paths[k]`, leaves are the code words, and branches extend the path by a bit. */
  ghost predicate NodeOk(tree: seq<Node>, paths: seq<seq<bool>>, codes: map<seq<bool>, nat>, k: nat)
    requires |paths| == |tree| && k < |tree|
  {
    if paths[k] in codes then tree[k] == Node(codes[paths[k]], codes[paths[k]])
    else
      && !IsLeaf(tree[k])
      && (tree[k].zero == -1 || (0 <= tree[k].zero < |tree| && paths[tree[k].zero] == paths[k] + [false]))
      && (tree[k].one == -2 || (0 <= tree[k].one < |tree| && paths[tree[k].one] == paths[k] + [true]))
  }

  ghost predicate TreeOk(tree: seq<Node>, paths: seq<seq<bool>>, codes: map<seq<bool>, nat>) {
    && |paths| == |tree| > 0 && paths[0] == []
    && (forall k :: 0 <= k < |tree| ==> NodeOk(tree, paths, codes, k))
    && (forall k :: 0 <= k < |tree| ==> Walk(tree, 0, paths[k]) == k)
    && (forall w :: w in codes ==> Walk(tree, 0, w) >= 0)
  }

  /** Every node other than the root lies on the way to a code word, or to the word `extra`. */
  ghost predicate NoStray(paths: seq<seq<bool>>, codes: map<seq<bool>, nat>, extra: seq<bool>) {
    forall k :: 0 < k < |paths| ==> paths[k] <= extra || exists w :: w in codes && paths[k] <= w
  }

  lemma {:induction false} WalkPath(tree: seq<Node>, paths: seq<seq<bool>>, codes: map<seq<bool>, nat>, k: nat, w: seq<bool>)
    requires |paths| == |tree| && k < |tree| && forall i :: 0 <= i < |tree| ==> NodeOk(tree, paths, codes, i)
    requires Walk(tree, k, w) >= 0
    ensures Walk(tree, k, w) < |tree| && paths[Walk(tree, k, w)] == paths[k] + w
    decreases |w|
  {
    if w == [] {
      assert paths[k] + w == paths[k];
    } else {
      assert NodeOk(tree, paths, codes, k);
      var c := Branch(tree[k], w[0]);
      WalkPath(tree, paths, codes, c, w[1..]);
      assert paths[c] + w[1..] == paths[k] + w;
    }
  }

  lemma {:induction false} WalkSplit(tree: seq<Node>, k: int, u: seq<bool>, v: seq<bool>)
    ensures Walk(tree, k, u + v) == Walk(tree, Walk(tree, k, u), v)
    decreases |u|
  {
    if u == [] {
      assert u + v == v;
    } else if 0 <= k < |tree| && !IsLeaf(tree[k]) {
      WalkSplit(tree, Branch(tree[k], u[0]), u[1..], v);
      assert (u + v)[1..] == u[1..] + v;
    }
  }

  /** `after` has the nodes of `before` and more; only missing branches were filled in. */
  ghost predicate Extends(before: seq<Node>, after: seq<Node>) {
    && |before| <= |after|
    && forall k :: 0 <= k < |before| ==>
         || before[k] == after[k]
         || before[k] == FRESH
         || (!IsLeaf(before[k]) && !IsLeaf(after[k])
             && (before[k].zero >= 0 ==> after[k].zero == before[k].zero)
             && (before[k].one >= 0 ==> after[k].one == before[k].one))
  }

  lemma {:induction false} WalkExtends(before: seq<Node>, after: seq<Node>, k: int, w: seq<bool>)
    requires Extends(before, after) && Walk(before, k, w) >= 0
    ensures Walk(after, k, w) == Walk(before, k, w)
    decreases |w|
  {
    if w != [] {
      WalkExtends(before, after, Branch(before[k], w[0]), w[1..]);
    }
  }

  // ---------------------------------------------------------------- growing the tree

  /** Filling the missing branch `bit` of node `k` with a new node keeps the tree well formed. */
  lemma GrowKeepsTree(tree: seq<Node>, paths: seq<seq<bool>>, codes: map<seq<bool>, nat>, k: nat, bit: bool)
    requires TreeOk(tree, paths, codes) && k < |tree| && !IsLeaf(tree[k]) && Branch(tree[k], bit) < 0
    ensures TreeOk(Grown(tree, k, bit), paths + [paths[k] + [bit]], codes)
    ensures Walk(Grown(tree, k, bit), 0, paths[k] + [bit]) == |tree|
  {
    var t, p := Grown(tree, k, bit), paths + [paths[k] + [bit]];
    assert NodeOk(tree, paths, codes, k);
    assert Extends(tree, t);
    forall i | 0 <= i < |tree| ensures Walk(t, 0, p[i]) == i {
      WalkExtends(tree, t, 0, paths[i]);
    }
    WalkSplit(t, 0, paths[k], [bit]);
    assert t[k] == SetBranch(tree[k], bit, |tree|) && !IsLeaf(t[k]);
    assert [bit][1..] == [] && Walk(t, |tree|, []) == |tree|;
    assert Branch(t[k], bit) == |tree|;
    assert Walk(t, k, [bit]) == |tree|;
    assert p[k] == paths[k] && Walk(t, 0, p[k]) == k;
    assert p[|tree|] == paths[k] + [bit];
    FreshIsNew(tree, paths, codes, k, bit);
    forall w | w in codes ensures Walk(t, 0, w) >= 0 {
      WalkExtends(tree, t, 0, w);
    }
    forall i | 0 <= i < |t| ensures NodeOk(t, p, codes, i) {
      if i < |tree| {
        assert NodeOk(tree, paths, codes, i);
      }
    }
  }

  function Grown(tree: seq<Node>, k: nat, bit: bool): seq<Node>
    requires k < |tree|
  {
    tree[k := SetBranch(tree[k], bit, |tree|)] + [FRESH]
  }

  /** The path of a missing branch is not a code word. */
  lemma FreshIsNew(tree: seq<Node>, paths: seq<seq<bool>>, codes: map<seq<bool>, nat>, k: nat, bit: bool)
    requires TreeOk(tree, paths, codes) && k < |tree| && !IsLeaf(tree[k]) && Branch(tree[k], bit) < 0
    ensures paths[k] + [bit] !in codes
  {
    WalkSplit(tree, 0, paths[k], [bit]);
    assert Walk(tree, k, [bit]) == Walk(tree, Branch(tree[k], bit), [bit][1..]) == -1;
  }

  /** Turning an untouched node into a leaf keeps the tree well formed, with one more code word. */
  lemma PlantKeepsTree(tree: seq<Node>, paths: seq<seq<bool>>, codes: map<seq<bool>, nat>, k: nat, value: nat)
    requires TreeOk(tree, paths, codes) && k < |tree| && tree[k] == FRESH
    ensures TreeOk(tree[k := Node(value, value)], paths, codes[paths[k] := value])
  {
    var t, c := tree[k := Node(value, value)], codes[paths[k] := value];
    assert NodeOk(tree, paths, codes, k);
    forall i | 0 <= i < |tree| ensures Walk(t, 0, paths[i]) == i {
      WalkExtends(tree, t, 0, paths[i]);
    }
    forall w | w in c ensures Walk(t, 0, w) >= 0 {
      if w != paths[k] {
        WalkExtends(tree, t, 0, w);
      }
    }
    forall i | 0 <= i < |t| ensures NodeOk(t, paths, c, i) {
      assert NodeOk(tree, paths, codes, i);
      if i != k {
        assert Walk(tree, 0, paths[i]) != Walk(tree, 0, paths[k]);
      }
    }
  }

  // ---------------------------------------------------------------- when an insertion must fail

  /** A node with a branch lies strictly inside some code word. */
  lemma BranchMeansLonger(tree: seq<Node>, paths: seq<seq<bool>>, codes: map<seq<bool>, nat>, k: nat, w: seq<bool>)
    requires TreeOk(tree, paths, codes) && k < |tree| && paths[k] == w && NoStray(paths, codes, w)
    requires w !in codes && tree[k] != FRESH
    ensures !Insertable(codes, w)
  {
    assert NodeOk(tree, paths, codes, k);
    var c := if tree[k].zero >= 0 then tree[k].zero else tree[k].one;
    assert !(paths[c] <= w);
    var x :| x in codes && paths[c] <= x;
    assert w <= x;
  }

  /** An untouched node whose proper prefixes are no code words can take a new code word. */
  lemma FreshIsInsertable(tree: seq<Node>, paths: seq<seq<bool>>, codes: map<seq<bool>, nat>, k: nat, w: seq<bool>)
    requires TreeOk(tree, paths, codes) && k < |tree| && paths[k] == w && tree[k] == FRESH
    requires forall i :: 0 <= i < |w| ==> w[..i] !in codes
    ensures Insertable(codes, w)
  {
    assert NodeOk(tree, paths, codes, k);
    forall x | x in codes ensures !(x <= w) && !(w <= x) {
      if |x| <= |w| { PrefixIsTake(x, w); }
      BeyondFresh(tree, k, w, x);
    }
  }

  /** No walk goes through an untouched node. */
  lemma BeyondFresh(tree: seq<Node>, k: nat, w: seq<bool>, x: seq<bool>)
    requires k < |tree| && tree[k] == FRESH && Walk(tree, 0, w) == k
    ensures w <= x && w != x ==> Walk(tree, 0, x) < 0
  {
    if w <= x && w != x {
      var v := x[|w|..];
      assert x == w + v;
      WalkSplit(tree, 0, w, v);
      assert Walk(tree, k, v) == Walk(tree, Branch(FRESH, v[0]), v[1..]);
    }
  }

  // ---------------------------------------------------------------- which codes are accepted

  /** The code words handed out before length `i`, symbol `j`. */
  ghost predicate CodesUpTo(lens: seq<nat>, codes: map<seq<bool>, nat>, i: nat, j: nat) {
    && (forall s :: 0 <= s < |lens| && Coded(lens, s) && (lens[s] < i || (lens[s] == i && s < j)) ==>
          WordOf(lens, s) in codes && codes[WordOf(lens, s)] == s && CodeOf(lens, s) < Pow2(lens[s]))
    && (forall w :: w in codes ==>
          && Coded(lens, codes[w]) && w == WordOf(lens, codes[w])
          && (lens[codes[w]] < i || (lens[codes[w]] == i && codes[w] < j)))
  }

  /** The code words are exactly the canonical ones. */
  ghost predicate Canonical(lens: seq<nat>, codes: map<seq<bool>, nat>) {
    && (forall s :: 0 <= s < |lens| && Coded(lens, s) ==> WordOf(lens, s) in codes && codes[WordOf(lens, s)] == s)
    && (forall w :: w in codes ==> Coded(lens, codes[w]) && w == WordOf(lens, codes[w]))
  }

  /** The next code word can be inserted exactly when its number fits. */
  lemma NextIsInsertable(lens: seq<nat>, codes: map<seq<bool>, nat>, j: nat)
    requires Coded(lens, j) && CodesUpTo(lens, codes, lens[j], j)
    ensures Insertable(codes, WordOf(lens, j)) <==> CodeOf(lens, j) < Pow2(lens[j])
  {
    if CodeOf(lens, j) < Pow2(lens[j]) {
      forall x | x in codes ensures !(x <= WordOf(lens, j)) && !(WordOf(lens, j) <= x) {
        NoConflict(lens, codes[x], j);
      }
    } else {
      var t := MisfitConflicts(lens, j);
    }
  }

  lemma NextInserted(lens: seq<nat>, codes: map<seq<bool>, nat>, j: nat)
    requires Coded(lens, j) && CodesUpTo(lens, codes, lens[j], j) && Insertable(codes, WordOf(lens, j))
    ensures CodesUpTo(lens, codes[WordOf(lens, j) := j], lens[j], j + 1)
  {
    NextIsInsertable(lens, codes, j);
  }

  // ---------------------------------------------------------------- the decoder's state

  datatype Entry = Entry(length: int, value: int)

  /** What the lookup table holds for the bits `key`: a symbol and the length of its code word, or, when the key
      ends inside the tree, a length greater than that of the key and the node reached. None where a branch is missing. */
  function Lookup(tree: seq<Node>, node: int, key: seq<bool>, depth: nat): Option<Entry>
    decreases |key|
  {
    if node < 0 || node >= |tree| then None
    else if IsLeaf(tree[node]) then Some(Entry(depth, tree[node].zero))
    else if key == [] then Some(Entry(depth + 1, node))
    else Lookup(tree, Branch(tree[node], key[0]), key[1..], depth + 1)
  }

  /** No branch is missing within `m` bits of `node`. */
  ghost predicate Complete(tree: seq<Node>, node: int, m: nat, depth: nat) {
    forall key: seq<bool> :: |key| == m ==> Lookup(tree, node, key, depth).Some?
  }

  lemma CompleteChildren(tree: seq<Node>, node: int, m: nat, depth: nat)
    requires 0 <= node < |tree| && !IsLeaf(tree[node]) && m > 0
    ensures Complete(tree, node, m, depth) <==>
              Complete(tree, tree[node].zero, m - 1, depth + 1) && Complete(tree, tree[node].one, m - 1, depth + 1)
  {
    if Complete(tree, node, m, depth) {
      forall key: seq<bool>, bit | |key| == m - 1
        ensures Lookup(tree, Branch(tree[node], bit), key, depth + 1).Some?
      {
        assert ([bit] + key)[1..] == key;
        assert Lookup(tree, node, [bit] + key, depth).Some?;
      }
      assert Branch(tree[node], false) == tree[node].zero && Branch(tree[node], true) == tree[node].one;
    }
    if Complete(tree, tree[node].zero, m - 1, depth + 1) && Complete(tree, tree[node].one, m - 1, depth + 1) {
      forall key: seq<bool> | |key| == m ensures Lookup(tree, node, key, depth).Some? {
        assert Lookup(tree, Branch(tree[node], key[0]), key[1..], depth + 1).Some?;
      }
    }
  }

  lemma CompleteEnds(tree: seq<Node>, node: int, m: nat, depth: nat)
    ensures (node < 0 || node >= |tree|) ==> !Complete(tree, node, m, depth)
    ensures 0 <= node < |tree| && (IsLeaf(tree[node]) || m == 0) ==> Complete(tree, node, m, depth)
  {
    if node < 0 || node >= |tree| {
      assert Lookup(tree, node, Word(0, m), depth).None?;
    }
  }

  /** The table entries from `offset` on are right for the keys of `m` bits below `node`. */
  ghost predicate Filled(tree: seq<Node>, table: seq<Entry>, node: int, offset: nat, m: nat, depth: nat) {
    && offset + Pow2(m) <= |table|
    && forall k :: offset <= k < offset + Pow2(m) ==> Lookup(tree, node, Word(k - offset, m), depth) == Some(table[k])
  }

  /** Some key that is not after `k` leads to a missing branch. */
  ghost predicate Gap(tree: seq<Node>, m: nat, k: nat) {
    exists j :: 0 <= j <= k && Lookup(tree, 0, Word(j, m), 0) == None
  }

  /** What filling has got to when it met the missing branch of key `n`: the entries before are right, those from there
      on are as they were allocated. */
  ghost predicate Broken(tree: seq<Node>, table: seq<Entry>, node: int, offset: nat, m: nat, depth: nat, n: nat) {
    && offset <= n < offset + Pow2(m) <= |table|
    && (forall k :: offset <= k < n ==> Lookup(tree, node, Word(k - offset, m), depth) == Some(table[k]))
    && (forall k :: n <= k < offset + Pow2(m) ==> table[k] == Entry(0, 0))
    && Lookup(tree, node, Word(n - offset, m), depth) == None
  }

  lemma LowBroken(tree: seq<Node>, table: seq<Entry>, node: int, offset: nat, m: nat, depth: nat, n: nat)
    requires m > 0 && 0 <= node < |tree| && !IsLeaf(tree[node]) && offset + Pow2(m) <= |table|
    requires Broken(tree, table, tree[node].zero, offset, m - 1, depth + 1, n)
    requires forall k :: offset + Pow2(m) / 2 <= k < offset + Pow2(m) ==> table[k] == Entry(0, 0)
    ensures Broken(tree, table, node, offset, m, depth, n)
  {
    Halves(m);
    hide Word, Pow2, Lookup;
    LowPart(tree, table, node, offset, m, depth, n);
  }

  lemma LowPart(tree: seq<Node>, table: seq<Entry>, node: int, offset: nat, m: nat, depth: nat, n: nat)
    requires m > 0 && 0 <= node < |tree| && !IsLeaf(tree[node])
    requires Broken(tree, table, tree[node].zero, offset, m - 1, depth + 1, n)
    ensures forall k :: offset <= k < n ==> Lookup(tree, node, Word(k - offset, m), depth) == Some(table[k])
    ensures Lookup(tree, node, Word(n - offset, m), depth) == None
  {
    hide Word, Pow2, Lookup;
    forall k | offset <= k < n ensures Lookup(tree, node, Word(k - offset, m), depth) == Some(table[k]) {
      LowHalf(tree, node, k - offset, m, depth);
    }
    LowHalf(tree, node, n - offset, m, depth);
  }

  lemma LowFilled(tree: seq<Node>, table: seq<Entry>, node: int, offset: nat, m: nat, depth: nat)
    requires m > 0 && 0 <= node < |tree| && !IsLeaf(tree[node]) && Filled(tree, table, tree[node].zero, offset, m - 1, depth + 1)
    ensures forall k :: offset <= k < offset + Pow2(m - 1) ==> Lookup(tree, node, Word(k - offset, m), depth) == Some(table[k])
  {
    hide Word, Pow2, Lookup;
    forall k | offset <= k < offset + Pow2(m - 1) ensures Lookup(tree, node, Word(k - offset, m), depth) == Some(table[k]) {
      LowHalf(tree, node, k - offset, m, depth);
    }
  }

  lemma HighKey(tree: seq<Node>, node: int, offset: nat, m: nat, depth: nat, k: nat)
    requires m > 0 && 0 <= node < |tree| && !IsLeaf(tree[node]) && offset + Pow2(m - 1) <= k < offset + 2 * Pow2(m - 1)
    ensures Lookup(tree, node, Word(k - offset, m), depth) ==
            Lookup(tree, tree[node].one, Word(k - (offset + Pow2(m - 1)), m - 1), depth + 1)
  {
    hide Word, Pow2, Lookup;
    var i := k - (offset + Pow2(m - 1));
    assert Pow2(m - 1) + i == k - offset;
    HighHalf(tree, node, i, m, depth);
  }

  lemma HighPart(tree: seq<Node>, table: seq<Entry>, node: int, offset: nat, m: nat, depth: nat, n: nat)
    requires m > 0 && 0 <= node < |tree| && !IsLeaf(tree[node])
    requires Broken(tree, table, tree[node].one, offset + Pow2(m - 1), m - 1, depth + 1, n)
    ensures forall k :: offset + Pow2(m - 1) <= k < n ==> Lookup(tree, node, Word(k - offset, m), depth) == Some(table[k])
    ensures Lookup(tree, node, Word(n - offset, m), depth) == None
  {
    hide Word, Pow2, Lookup;
    forall k | offset + Pow2(m - 1) <= k < n ensures Lookup(tree, node, Word(k - offset, m), depth) == Some(table[k]) {
      HighKey(tree, node, offset, m, depth, k);
    }
    HighKey(tree, node, offset, m, depth, n);
  }

  lemma HighBroken(tree: seq<Node>, first: seq<Entry>, table: seq<Entry>, node: int, offset: nat, m: nat, depth: nat, n: nat)
    requires m > 0 && 0 <= node < |tree| && !IsLeaf(tree[node]) && |first| == |table|
    requires forall k :: 0 <= k < |table| && (k < offset + Pow2(m) / 2 || offset + Pow2(m) <= k) ==> table[k] == first[k]
    requires Filled(tree, first, tree[node].zero, offset, m - 1, depth + 1)
    requires Broken(tree, table, tree[node].one, offset + Pow2(m) / 2, m - 1, depth + 1, n)
    ensures Broken(tree, table, node, offset, m, depth, n)
  {
    Halves(m);
    hide Word, Pow2, Lookup;
    LowFilled(tree, first, node, offset, m, depth);
    HighPart(tree, table, node, offset, m, depth, n);
    hide Filled;
    forall k | offset <= k < n ensures Lookup(tree, node, Word(k - offset, m), depth) == Some(table[k]) {
      if k < offset + Pow2(m - 1) {
        assert table[k] == first[k];
      }
    }
  }

  lemma NothingFilled(tree: seq<Node>, table: seq<Entry>, node: int, offset: nat, m: nat, depth: nat)
    requires (node < 0 || node >= |tree|) && offset + Pow2(m) <= |table|
    requires forall k :: offset <= k < offset + Pow2(m) ==> table[k] == Entry(0, 0)
    ensures Broken(tree, table, node, offset, m, depth, offset)
  {
  }

  lemma Halves(m: nat)
    ensures if m > 0 then Pow2(m) == 2 * Pow2(m - 1) else Pow2(m) == 1
  {
  }

  /** A table as filling leaves it, complete or not. */
  ghost predicate Flat(tree: seq<Node>, table: seq<Entry>, m: nat) {
    && |table| == Pow2(m)
    && forall k :: 0 <= k < |table| ==>
                     if Gap(tree, m, k) then table[k] == Entry(0, 0) else Lookup(tree, 0, Word(k, m), 0) == Some(table[k])
  }

  lemma CompleteIsFlat(tree: seq<Node>, table: seq<Entry>, m: nat)
    requires |table| == Pow2(m) && Filled(tree, table, 0, 0, m, 0)
    ensures Flat(tree, table, m)
  {
    hide Word, Pow2, Lookup;
    forall k | 0 <= k < |table| ensures Lookup(tree, 0, Word(k, m), 0) == Some(table[k]) {
      assert k - 0 == k;
    }
  }

  lemma BrokenIsFlat(tree: seq<Node>, table: seq<Entry>, m: nat, n: nat)
    requires |table| == Pow2(m) && Broken(tree, table, 0, 0, m, 0, n)
    ensures Flat(tree, table, m)
  {
    hide Word, Pow2, Lookup;
    assert n - 0 == n;
    forall k | 0 <= k < n ensures Lookup(tree, 0, Word(k, m), 0) == Some(table[k]) {
      assert k - 0 == k;
    }
  }

  lemma HighFilled(tree: seq<Node>, table: seq<Entry>, node: int, offset: nat, m: nat, depth: nat)
    requires m > 0 && 0 <= node < |tree| && !IsLeaf(tree[node])
    requires Filled(tree, table, tree[node].one, offset + Pow2(m - 1), m - 1, depth + 1)
    ensures forall k :: offset + Pow2(m - 1) <= k < offset + 2 * Pow2(m - 1) ==>
                          Lookup(tree, node, Word(k - offset, m), depth) == Some(table[k])
  {
    hide Word, Pow2, Lookup;
    forall k | offset + Pow2(m - 1) <= k < offset + 2 * Pow2(m - 1)
      ensures Lookup(tree, node, Word(k - offset, m), depth) == Some(table[k])
    {
      HighKey(tree, node, offset, m, depth, k);
    }
  }

  lemma HalvesFilled(tree: seq<Node>, first: seq<Entry>, table: seq<Entry>, node: int, offset: nat, m: nat, depth: nat)
    requires m > 0 && 0 <= node < |tree| && !IsLeaf(tree[node]) && |first| == |table| && offset + Pow2(m) <= |table|
    requires forall k :: 0 <= k < |table| && (k < offset + Pow2(m) / 2 || offset + Pow2(m) <= k) ==> table[k] == first[k]
    requires Filled(tree, first, tree[node].zero, offset, m - 1, depth + 1)
    requires Filled(tree, table, tree[node].one, offset + Pow2(m) / 2, m - 1, depth + 1)
    ensures Filled(tree, table, node, offset, m, depth)
  {
    Halves(m);
    hide Word, Pow2, Lookup;
    LowFilled(tree, first, node, offset, m, depth);
    HighFilled(tree, table, node, offset, m, depth);
    forall k | offset <= k < offset + Pow2(m) ensures Lookup(tree, node, Word(k - offset, m), depth) == Some(table[k]) {
      if k < offset + Pow2(m - 1) {
        assert table[k] == first[k];
      }
    }
  }

  lemma LowHalf(tree: seq<Node>, node: int, i: nat, m: nat, depth: nat)
    requires m > 0 && 0 <= node < |tree| && !IsLeaf(tree[node]) && i < Pow2(m - 1)
    ensures Lookup(tree, node, Word(i, m), depth) == Lookup(tree, tree[node].zero, Word(i, m - 1), depth + 1)
  {
    WordHalves(i, m);
    hide Word, Lookup;
    LookupStep(tree, node, false, Word(i, m - 1), depth);
  }

  lemma HighHalf(tree: seq<Node>, node: int, i: nat, m: nat, depth: nat)
    requires m > 0 && 0 <= node < |tree| && !IsLeaf(tree[node]) && i < Pow2(m - 1)
    ensures Lookup(tree, node, Word(Pow2(m - 1) + i, m), depth) == Lookup(tree, tree[node].one, Word(i, m - 1), depth + 1)
  {
    var k := Pow2(m - 1) + i;
    WordHalves(k, m);
    assert k - Pow2(m - 1) == i;
    hide Word, Lookup;
    LookupStep(tree, node, true, Word(i, m - 1), depth);
  }

  lemma LookupStep(tree: seq<Node>, node: int, bit: bool, key: seq<bool>, depth: nat)
    requires 0 <= node < |tree| && !IsLeaf(tree[node])
    ensures Lookup(tree, node, [bit] + key, depth) == Lookup(tree, Branch(tree[node], bit), key, depth + 1)
  {
    assert ([bit] + key)[1..] == key;
  }

  /** Below a leaf every key finds the leaf; at the end of the key an inner node finds itself. */
  lemma EndFilled(tree: seq<Node>, table: seq<Entry>, node: int, offset: nat, m: nat, depth: nat, e: Entry)
    requires 0 <= node < |tree| && (IsLeaf(tree[node]) || m == 0) && offset + Pow2(m) <= |table|
    requires e == if IsLeaf(tree[node]) then Entry(depth, tree[node].zero) else Entry(depth + 1, node)
    requires forall k :: offset <= k < offset + Pow2(m) ==> table[k] == e
    ensures Filled(tree, table, node, offset, m, depth)
  {
  }

  const INT_MAX: int := 0x7FFF_FFFF
  const INT_MIN: int := -0x8000_0000

  class HuffmanCode {
    var tree: seq<Node>
    var minLength: int
    var maxLength: int
    var table: array?<Entry>
    var tableSize: nat
    ghost var paths: seq<seq<bool>>
    ghost var codes: map<seq<bool>, nat>

    constructor ()
      ensures tree == [] && paths == [] && codes == map[] && table == null
    {
      tree, table, minLength, maxLength, tableSize := [], null, 0, 0, 0;
      paths, codes := [], map[];
    }

    ghost predicate Valid()
      reads this`tree, this`paths, this`codes, this`minLength, this`maxLength
    {
      && TreeOk(tree, paths, codes) && NoStray(paths, codes, [])
      && (if codes == map[] then minLength == INT_MAX && maxLength == INT_MIN else 1 <= minLength <= maxLength)
    }

    /** Appends an untouched node; the first one also resets the length bounds. */
    method NewNode()
      modifies this`tree, this`minLength, this`maxLength
      ensures tree == old(tree) + [FRESH]
      ensures if old(tree) == [] then minLength == INT_MAX && maxLength == INT_MIN
              else minLength == old(minLength) && maxLength == old(maxLength)
    {
      if tree == [] {
        minLength, maxLength := INT_MAX, INT_MIN;
      }
      tree := tree + [FRESH];
    }

    /** The tree while the word `w` is being inserted and `node` has been reached with its first `n` bits. */
    ghost predicate Inserting(w: seq<bool>, n: nat, node: int)
      reads this`tree, this`paths, this`codes
    {
      && TreeOk(tree, paths, codes) && NoStray(paths, codes, w)
      && n <= |w| && 0 <= node < |tree| && paths[node] == w[..n]
      && forall i :: 0 <= i < n ==> w[..i] !in codes
    }

    /** Follows one bit from `node`, growing the tree where the branch is missing; -1 when `node` is a leaf. */
    method Advance(node: int, bit: bool, ghost w: seq<bool>, ghost n: nat) returns (next: int)
      requires n < |w| && Inserting(w, n, node) && bit == w[n]
      modifies this`tree, this`paths, this`minLength, this`maxLength
      ensures minLength == old(minLength) && maxLength == old(maxLength)
      ensures next == -1 <==> w[..n] in codes
      ensures next != -1 ==> Inserting(w, n + 1, next)
    {
      assert w[..n + 1] == w[..n] + [bit];
      assert NodeOk(tree, paths, codes, node);
      if IsLeaf(tree[node]) {
        return -1;
      }
      next := Branch(tree[node], bit);
      if next < 0 {
        hide Walk, NodeOk;
        GrowKeepsTree(tree, paths, codes, node, bit);
        ghost var grown := Grown(tree, node, bit);
        paths := paths + [paths[node] + [bit]];
        NewNode();
        tree := tree[node := SetBranch(tree[node], bit, |tree| - 1)];
        assert tree == grown;
        next := |tree| - 1;
      }
    }

    /** Inserts the code word made of the low `length` bits of `codebits`; it fails exactly when a code word is a
        prefix of the new one or the other way round. */
    method AddValue(value: nat, codebits: nat, length: nat) returns (ok: bool)
      requires Valid() && 1 <= length <= MAX_LENGTH
      modifies this
      ensures ok <==> Insertable(old(codes), Word(codebits, length))
      ensures ok ==> Valid() && table == null && codes == old(codes)[Word(codebits, length) := value]
    {
      table := null;
      maxLength := if length > maxLength then length else maxLength;
      minLength := if length < minLength then length else minLength;
      assert 1 <= minLength <= maxLength;

      ghost var w := Word(codebits, length);
      assert w[..0] == [];
      var lastnode := 0;
      var bitpos := length - 1;
      hide TreeOk;
      while bitpos >= 0
        invariant -1 <= bitpos < length
        invariant Inserting(w, length - 1 - bitpos, lastnode) && codes == old(codes)
        invariant 1 <= minLength <= maxLength && table == null
        decreases bitpos
      {
        ghost var n := length - 1 - bitpos;
        var bit := (codebits / Pow2(bitpos)) % 2 == 1;
        WordBit(codebits, length, n);
        lastnode := Advance(lastnode, bit, w, n);
        if lastnode == -1 {
          assert w[..n] <= w;
          return false;
        }
        bitpos := bitpos - 1;
      }
      assert w[..length] == w;
      ok := Plant(lastnode, value, w);
    }

    /** Makes the node reached with the whole word a leaf, if it is untouched. */
    method Plant(node: int, value: nat, ghost w: seq<bool>) returns (ok: bool)
      requires Inserting(w, |w|, node) && paths[node] == w
      modifies this`tree, this`codes
      ensures ok <==> Insertable(old(codes), w)
      ensures ok ==> codes == old(codes)[w := value] && TreeOk(tree, paths, codes) && NoStray(paths, codes, [])
    {
      if tree[node].zero != -1 || tree[node].one != -2 {
        if w !in codes {
          BranchMeansLonger(tree, paths, codes, node, w);
        }
        return false;
      }
      FreshIsInsertable(tree, paths, codes, node, w);
      PlantKeepsTree(tree, paths, codes, node, value);
      tree := tree[node := Node(value, value)];
      hide TreeOk, Insertable;
      NoStrayPlanted(paths, codes, w, value);
      codes := codes[w := value];
      return true;
    }

    /** Inserts the code word of symbol `j`; this fails exactly when its code number does not fit. */
    method AddSymbol(lens: seq<nat>, j: nat, codebits: nat) returns (ok: bool)
      requires Valid() && Coded(lens, j) && CodesUpTo(lens, codes, lens[j], j) && codebits == CodeOf(lens, j)
      modifies this
      ensures ok ==> Valid() && table == null && CodesUpTo(lens, codes, lens[j], j + 1)
      ensures !ok ==> !Fits(lens)
    {
      hide Valid, CodesUpTo, Insertable, Pow2;
      NextIsInsertable(lens, codes, j);
      if Insertable(codes, WordOf(lens, j)) {
        NextInserted(lens, codes, j);
      }
      ok := AddValue(j, codebits, lens[j]);
    }

    method PlantRoot()
      requires tree == [] && paths == [] && codes == map[]
      modifies this`tree, this`paths, this`minLength, this`maxLength
      ensures Valid()
    {
      NewNode();
      paths := [[]];
    }

    /** The inner loop of code creation: hands out the code numbers of length `i`. It stops early when a number
        does not fit, or when no symbol is left. */
    method CreateLevel(lens: seq<nat>, i: nat, start: nat, before: int)
      returns (status: Status, codebits: nat, symbolsleft: int)
      requires Valid() && table == null && 1 <= i <= MAX_LENGTH && CodesUpTo(lens, codes, i, 0)
      requires start == FirstCode(lens, i) && before == |lens| - Handed(lens, i, 0, |lens|)
      modifies this
      ensures status == Misfit ==> !Fits(lens)
      ensures status == AllDone ==> Fits(lens) && Valid() && table == null && Canonical(lens, codes)
      ensures status == More ==>
                && Valid() && table == null && CodesUpTo(lens, codes, i, |lens|)
                && codebits == FirstCode(lens, i) + Count(lens, i, |lens|)
                && symbolsleft == |lens| - Handed(lens, i, |lens|, |lens|)
    {
      hide Valid, Fits, CodesUpTo, Canonical, Handed, FirstCode;
      codebits, symbolsleft := start, before;
      for j := 0 to |lens|
        invariant Valid() && table == null && CodesUpTo(lens, codes, i, j)
        invariant codebits == FirstCode(lens, i) + Count(lens, i, j)
        invariant symbolsleft == |lens| - Handed(lens, i, j, |lens|)
      {
        HandedNext(lens, i, j, |lens|);
        if lens[j] == i {
          var added := AddSymbol(lens, j, codebits);
          if !added {
            return Misfit, codebits, symbolsleft;
          }
          symbolsleft := symbolsleft - 1;
          if symbolsleft <= 0 {
            AllHanded(lens, codes, i, j + 1);
            return AllDone, codebits, symbolsleft;
          }
          codebits := codebits + 1;
        } else {
          SkipKeepsCodes(lens, codes, i, j);
        }
      }
      return More, codebits, symbolsleft;
    }

    /** Builds the tree for the given code lengths. The code is accepted exactly when every canonical code number
        fits into its length, and then the code words in the tree are exactly the canonical ones. */
    method CreateCode(lens: seq<nat>) returns (ok: bool)
      requires tree == [] && paths == [] && codes == map[] && table == null
      modifies this
      ensures ok <==> Fits(lens)
      ensures ok ==> Valid() && table == null && Canonical(lens, codes)
    {
      hide Valid, Fits, CodesUpTo, Canonical, Handed, Count, FirstCode;
      var symbolsleft := |lens|;
      var codebits := 0;
      PlantRoot();
      HandedNone(lens, |lens|);
      StartsEmpty(lens);
      FirstCodeStarts(lens);
      for i := 1 to MAX_LENGTH + 1
        invariant Valid() && table == null && CodesUpTo(lens, codes, i, 0)
        invariant codebits == FirstCode(lens, i)
        invariant symbolsleft == |lens| - Handed(lens, i, 0, |lens|)
      {
        var status;
        status, codebits, symbolsleft := CreateLevel(lens, i, codebits, symbolsleft);
        if status != More {
          return status == AllDone;
        }
        HandedLevel(lens, i, |lens|);
        LevelKeepsCodes(lens, codes, i);
        FirstCodeNext(lens, i);
        codebits := 2 * codebits;
      }
      LastLevel(lens, codes);
      return true;
    }

    method MakeTableRec(node: int, offset: nat, depth: nat) returns (ok: bool, ghost n: nat)
      requires table != null && depth <= tableSize && offset + Pow2(tableSize - depth) <= table.Length
      requires forall k :: offset <= k < offset + Pow2(tableSize - depth) ==> table[k] == Entry(0, 0)
      modifies table
      ensures ok <==> Complete(tree, node, tableSize - depth, depth)
      ensures ok ==> Filled(tree, table[..], node, offset, tableSize - depth, depth)
      ensures !ok ==> Broken(tree, table[..], node, offset, tableSize - depth, depth, n)
      ensures forall k :: 0 <= k < offset || offset + Pow2(tableSize - depth) <= k < table.Length ==>
                table[k] == old(table[k])
      decreases tableSize - depth
    {
      hide Complete, Filled, Broken, Pow2;
      var m := tableSize - depth;
      var currtablesize := Pow2(m);
      CompleteEnds(tree, node, m, depth);
      Halves(m);
      n := offset;
      if node < 0 || |tree| <= node {
        NothingFilled(tree, table[..], node, offset, m, depth);
        return false, offset;
      }
      if IsLeaf(tree[node]) {
        FillLeaf(offset, currtablesize, Entry(depth, tree[node].zero));
        EndFilled(tree, table[..], node, offset, m, depth, Entry(depth, tree[node].zero));
        return true, offset;
      }
      if depth == tableSize {
        table[offset] := Entry(tableSize + 1, node);
        EndFilled(tree, table[..], node, offset, m, depth, Entry(tableSize + 1, node));
        return true, offset;
      }
      CompleteChildren(tree, node, m, depth);
      ok, n := MakeTableRec(tree[node].zero, offset, depth + 1);
      if !ok {
        LowBroken(tree, table[..], node, offset, m, depth, n);
        return;
      }
      ghost var first := table[..];
      ok, n := MakeTableRec(tree[node].one, offset + currtablesize / 2, depth + 1);
      if ok {
        HalvesFilled(tree, first, table[..], node, offset, m, depth);
      } else {
        HighBroken(tree, first, table[..], node, offset, m, depth, n);
      }
    }

    method FillLeaf(offset: nat, size: nat, e: Entry)
      requires table != null && offset + size <= table.Length
      modifies table
      ensures forall k :: 0 <= k < table.Length ==>
                table[k] == if offset <= k < offset + size then e else old(table[k])
    {
      for i := 0 to size
        invariant forall k :: 0 <= k < table.Length ==>
                    table[k] == if offset <= k < offset + i then e else old(table[k])
      {
        table[offset + i] := e;
      }
    }

    /** The table is there and right for every key. */
    ghost predicate TableOk()
      reads this, table
    {
      table != null && tableSize <= 10 && table.Length == Pow2(tableSize) && Filled(tree, table[..], 0, 0, tableSize, 0)
    }

    /** The table is there, and right for the keys before the first one that leads to a missing branch; from there on
        entries are as they were allocated. */
    ghost predicate Flattened()
      reads this, table
    {
      table != null && tableSize <= 10 && table.Length == Pow2(tableSize) && Flat(tree, table[..], tableSize)
    }

    /** Flattens the first bits of the tree into a table; this fails exactly when a branch is missing there. */
    method MakeTable() returns (ok: bool)
      requires Valid()
      modifies this`table, this`tableSize
      ensures fresh(table) && table != null && tableSize <= 10
      ensures ok <==> Complete(tree, 0, tableSize, 0)
      ensures Flattened() && (ok ==> TableOk())
    {
      hide TreeOk, NoStray, Complete, Filled, Flat, Broken, Pow2;
      if minLength <= maxLength <= 10 {
        tableSize := maxLength;
      } else {
        tableSize := 10;
      }
      table := new Entry[Pow2(tableSize)](_ => Entry(0, 0));
      ghost var n;
      ok, n := MakeTableRec(0, 0, 0);
      if ok {
        CompleteIsFlat(tree, table[..], tableSize);
      } else {
        BrokenIsFlat(tree, table[..], tableSize, n);
      }
    }
  }

  datatype Status = More | AllDone | Misfit

  lemma FirstCodeStarts(lens: seq<nat>)
    ensures FirstCode(lens, 1) == 0
  {
  }

  lemma FirstCodeNext(lens: seq<nat>, i: nat)
    requires i >= 1
    ensures FirstCode(lens, i + 1) == 2 * (FirstCode(lens, i) + Count(lens, i, |lens|))
  {
  }

  /** Number of symbols below `n` whose code words were handed out before length `i`, symbol `j`. */
  function Handed(lens: seq<nat>, i: nat, j: nat, n: nat): nat
    requires n <= |lens|
  {
    if n == 0 then 0
    else
      Handed(lens, i, j, n - 1) +
      if Coded(lens, n - 1) && (lens[n - 1] < i || (lens[n - 1] == i && n - 1 < j)) then 1 else 0
  }

  lemma {:induction false} HandedNone(lens: seq<nat>, n: nat)
    requires n <= |lens|
    ensures Handed(lens, 1, 0, n) == 0
  {
    if n > 0 {
      HandedNone(lens, n - 1);
    }
  }

  lemma {:induction false} HandedNext(lens: seq<nat>, i: nat, j: nat, n: nat)
    requires n <= |lens| && j < |lens| && 1 <= i <= MAX_LENGTH
    ensures Handed(lens, i, j + 1, n) == Handed(lens, i, j, n) + if lens[j] == i && j < n then 1 else 0
  {
    if n > 0 {
      HandedNext(lens, i, j, n - 1);
    }
  }

  lemma {:induction false} HandedLevel(lens: seq<nat>, i: nat, n: nat)
    requires n <= |lens|
    ensures Handed(lens, i, |lens|, n) == Handed(lens, i + 1, 0, n)
  {
    if n > 0 {
      HandedLevel(lens, i, n - 1);
    }
  }

  lemma {:induction false} HandedAll(lens: seq<nat>, i: nat, j: nat, n: nat)
    requires n <= |lens|
    ensures Handed(lens, i, j, n) <= n
    ensures Handed(lens, i, j, n) == n ==>
              forall s :: 0 <= s < n ==> Coded(lens, s) && (lens[s] < i || (lens[s] == i && s < j))
  {
    if n > 0 {
      HandedAll(lens, i, j, n - 1);
    }
  }

  /** When no symbol is left the code is complete, whatever lengths remain. */
  lemma AllHanded(lens: seq<nat>, codes: map<seq<bool>, nat>, i: nat, j: nat)
    requires CodesUpTo(lens, codes, i, j) && Handed(lens, i, j, |lens|) >= |lens|
    ensures Fits(lens) && Canonical(lens, codes)
  {
    HandedAll(lens, i, j, |lens|);
  }

  lemma StartsEmpty(lens: seq<nat>)
    ensures CodesUpTo(lens, map[], 1, 0)
  {
  }

  lemma SkipKeepsCodes(lens: seq<nat>, codes: map<seq<bool>, nat>, i: nat, j: nat)
    requires j < |lens| && lens[j] != i && CodesUpTo(lens, codes, i, j)
    ensures CodesUpTo(lens, codes, i, j + 1)
  {
  }

  lemma LevelKeepsCodes(lens: seq<nat>, codes: map<seq<bool>, nat>, i: nat)
    requires CodesUpTo(lens, codes, i, |lens|)
    ensures CodesUpTo(lens, codes, i + 1, 0)
  {
  }

  lemma LastLevel(lens: seq<nat>, codes: map<seq<bool>, nat>)
    requires CodesUpTo(lens, codes, MAX_LENGTH + 1, 0)
    ensures Fits(lens) && Canonical(lens, codes)
  {
  }

  lemma NoStrayPlanted(paths: seq<seq<bool>>, codes: map<seq<bool>, nat>, w: seq<bool>, value: nat)
    requires NoStray(paths, codes, w)
    ensures NoStray(paths, codes[w := value], [])
  {
    var c := codes[w := value];
    forall k | 0 < k < |paths| ensures exists x :: x in c && paths[k] <= x {
      if paths[k] <= w {
        assert w in c;
      } else {
        var x :| x in codes && paths[k] <= x;
        assert x in c;
      }
    }
  }
}
