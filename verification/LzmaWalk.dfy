/** The decoder's automaton takes the decisions of a symbol as they were written, one probability at a time, and ends with
    the symbol. */
module LzmaWalk {
  import opened Modular
  import opened Bits
  import opened Logarithm
  import opened LowBits
  import opened LzmaSymbol
  import opened LzmaDecisions

  /** The decoder's context is that of the place. */
  predicate At(c: Ctx, x: Where) {
    && Proper(c) && x.state == c.state && x.posState < 16 && PosState(c) == 16 * x.posState
    && LitBase(c) == LITERAL + LIT_SIZE * x.coder && x.matchByte == c.match0
  }

  /** The next bit is decided by the probability of this name. */
  predicate Asks(c: Ctx, st: Sym, n: Name) {
    && Proper(c) && Sane(st) && !st.Done? && (n.Even? <==> st.Raw?)
    && (!st.Raw? ==> Named(n) && SlotOf(c, st) == Place(n))
  }

  /** From `st`, the decisions lead to the symbol. */
  predicate Walks(c: Ctx, st: Sym, ds: seq<Decision>, s: Symbol)
    decreases |ds|
  {
    if ds == [] then st == Done(s)
    else Asks(c, st, ds[0].name) && Walks(c, After(c, st, ds[0].bit), ds[1..], s)
  }

  lemma WalksOn(c: Ctx, st: Sym, d: Decision, ds: seq<Decision>, s: Symbol)
    requires Asks(c, st, d.name) && Walks(c, After(c, st, d.bit), ds, s)
    ensures Walks(c, st, [d] + ds, s)
  {
    hide After, Asks;
    assert ([d] + ds)[1..] == ds;
  }

  // ---------------------------------------------------------------- trees

  predicate TreeIs(c: Ctx, t: LzmaSymbol.Tree, f: Family) {
    Proper(c) && forall i: nat :: 1 <= i < Limit(t) ==> Named(NodeName(f, i)) && Place(NodeName(f, i)) == TreeBase(c, t) + i
  }

  /** The node that `n` more bits with the value `v` lead to. */
  function Index(node: nat, v: nat, n: nat): nat {
    node * Pow2(n) + v
  }

  /** A node with `n` levels of the tree below it. */
  predicate Deep(node: nat, n: nat, lim: nat) {
    node >= 1 && lim <= node * Pow2(n) && (node + 1) * Pow2(n) <= 2 * lim
  }

  lemma HalfRange(node: nat, b: nat, v: nat, h: nat, lim: nat)
    requires b < 2 && v < h && lim <= node * (2 * h) && (node + 1) * (2 * h) <= 2 * lim
    ensures lim <= (2 * node + b) * h && (2 * node + b + 1) * h <= 2 * lim
    ensures (2 * node + b) * h + v == node * (2 * h) + (b * h + v)
  {
    assert (2 * node + b) * h == node * (2 * h) + b * h;
    assert (node + 1) * (2 * h) == node * (2 * h) + 2 * h;
    Factor(b + 1, 2, h);
    assert (b + 1) * h == b * h + h;
    assert (2 * node + b + 1) * h == node * (2 * h) + (b + 1) * h;
  }

  lemma InTree(node: nat, n: nat, lim: nat)
    requires Deep(node, n, lim)
    ensures n > 0 <==> node < lim
    ensures n == 0 ==> Index(node, 0, 0) == node
  {
    if n > 0 {
      Pow2Next(n - 1);
      Factor(2, Pow2(n), node + 1);
    } else {
      assert Pow2(0) == 1;
    }
  }

  lemma DeepStep(node: nat, v: nat, n: nat, lim: nat)
    requires Deep(node, n, lim) && n > 0 && v < Pow2(n)
    ensures var next, u := 2 * node + Bit(Front(v, n)), Tail(v, n);
            Deep(next, n - 1, lim) && u < Pow2(n - 1) && Index(next, u, n - 1) == Index(node, v, n)
  {
    Pow2Next(n - 1);
    hide Pow2;
    HalfRange(node, Bit(Front(v, n)), Tail(v, n), Pow2(n - 1), lim);
  }

  lemma {:induction false} TreeWalks(c: Ctx, t: LzmaSymbol.Tree, f: Family, node: nat, v: nat, n: nat,
                                     rest: seq<Decision>, s: Symbol)
    requires TreeIs(c, t, f) && v < Pow2(n) && Deep(node, n, Limit(t)) && Index(node, v, n) >= Limit(t)
    requires Walks(c, Leaf(t, Index(node, v, n) - Limit(t)), rest, s)
    ensures Walks(c, if node < Limit(t) then Node(t, node) else Leaf(t, node - Limit(t)),
                  LzmaDecisions.Tree(f, node, v, n) + rest, s)
    decreases n
  {
    hide Walks, Leaf, Node, NodeName, Place, Named, SlotOf, Sane, After, TreeBase, Deep, Index, TreeIs, Limit, Front, Tail;
    InTree(node, n, Limit(t));
    if n == 0 {
      assert Pow2(0) == 1;
      hide Pow2;
      assert LzmaDecisions.Tree(f, node, v, 0) + rest == rest;
    } else {
      hide Pow2;
      var b, next, u := Front(v, n), 2 * node + Bit(Front(v, n)), Tail(v, n);
      DeepStep(node, v, n, Limit(t));
      TreeWalks(c, t, f, next, u, n - 1, rest, s);
      NodeInTree(node, n, Limit(t));
      TreeTakes(c, t, f, node, b);
      var more := LzmaDecisions.Tree(f, next, u, n - 1);
      WalksOn(c, Node(t, node), Decision(NodeName(f, node), b), more + rest, s);
      assert LzmaDecisions.Tree(f, node, v, n) + rest == [Decision(NodeName(f, node), b)] + (more + rest);
    }
  }

  lemma NodeInTree(node: nat, n: nat, lim: nat)
    requires Deep(node, n, lim) && n > 0
    ensures 1 <= node < lim
  {
    InTree(node, n, lim);
  }

  lemma TreeTakes(c: Ctx, t: LzmaSymbol.Tree, f: Family, node: nat, b: bool)
    requires TreeIs(c, t, f) && 1 <= node < Limit(t)
    ensures Asks(c, Node(t, node), NodeName(f, node))
    ensures var next := 2 * node + Bit(b);
            After(c, Node(t, node), b) == if next < Limit(t) then Node(t, next) else Leaf(t, next - Limit(t))
  {
    hide Place, Named, SlotOf, Sane, After, TreeBase, Leaf;
    NodeStep(c, t, node, b);
    NeverEven(f, node);
  }

  lemma NeverEven(f: Family, node: nat)
    ensures !NodeName(f, node).Even?
  {
  }

  // ---------------------------------------------------------------- literals

  /** The match byte, shifted so far that its low `n` bits, which are `m`, come next. */
  predicate Lined(mb: nat, m: nat, n: nat, k: nat) {
    n <= 8 && m < Pow2(n) && mb == (k * Pow2(n) + m) * Pow2(8 - n)
  }

  lemma LinedNow(mb: nat, m: nat, n: nat, k: nat)
    requires Lined(mb, m, n, k) && n > 0
    ensures 2 * mb / 256 % 2 == Bit(Front(m, n))
    ensures Lined(2 * mb, Tail(m, n), n - 1, 2 * k + Bit(Front(m, n)))
  {
    Pow2Next(n - 1);
    Pow2Next(8 - n);
    Pow2Add(n - 1, 8 - (n - 1));
    Pow2Eight();
    assert n - 1 + (8 - (n - 1)) == 8;
    hide Pow2;
    Leading(mb, k, m, Bit(Front(m, n)), Tail(m, n), Pow2(n - 1), Pow2(8 - n));
  }

  lemma Leading(mb: nat, k: nat, m: nat, c: nat, u: nat, h: nat, e: nat)
    requires mb == (k * (2 * h) + m) * e && c < 2 && m == (if c == 1 then h + u else u) && u < h && h * (2 * e) == 256 && e > 0
    ensures 2 * mb == ((2 * k + c) * h + u) * (2 * e) && 2 * mb / 256 % 2 == c
  {
    var q := 2 * k + c;
    assert k * (2 * h) + m == q * h + u by { Parts(k, c, u, h); }
    Twice(q * h + u, e);
    assert (q * h + u) * (2 * e) == q * (h * (2 * e)) + u * (2 * e) by { Spread(q, h, u, 2 * e); }
    LessProduct(u, h, 2 * e);
    Remainder(2 * mb, 256, q, u * (2 * e));
  }

  lemma Parts(k: nat, c: nat, u: nat, h: nat)
    requires c < 2
    ensures (2 * k + c) * h + u == k * (2 * h) + if c == 1 then h + u else u
  {
    assert (2 * k + c) * h == k * (2 * h) + c * h;
  }

  lemma Twice(y: nat, e: nat)
    ensures 2 * (y * e) == y * (2 * e)
  {
  }

  lemma Spread(q: nat, h: nat, u: nat, e: nat)
    ensures (q * h + u) * e == q * (h * e) + u * e
  {
  }

  lemma LessProduct(u: nat, h: nat, e: nat)
    requires u < h && h * e == 256 && e > 0
    ensures u * e < 256
  {
    Factor(u + 1, h, e);
    assert (u + 1) * e == u * e + e;
  }

  lemma LiteralTakes(c: Ctx, x: Where, node: nat, mb: nat, alike: bool, next: bool, b: bool)
    requires At(c, x) && 1 <= node < 256 && 2 * mb / 256 % 2 == Bit(next)
    ensures var st := Lit(node, if alike then 256 else 0, mb);
            && Asks(c, st, LiteralNode(x.coder, if alike then 1 + Bit(next) else 0, node))
            && After(c, st, b) == if 2 * node + Bit(b) >= 256 then Done(Literal(2 * node + Bit(b) - 256))
                                  else Lit(2 * node + Bit(b), if alike && b == next then 256 else 0, 2 * mb)
  {
    hide LitBase, PosState;
  }

  lemma {:induction false} MatchedWalks(c: Ctx, x: Where, node: nat, v: nat, m: nat, mb: nat, k: nat, n: nat, alike: bool)
    requires At(c, x) && v < Pow2(n) && Deep(node, n, 256) && Lined(mb, m, n, k) && 256 <= Index(node, v, n) < 512
    ensures Walks(c, if node < 256 then Lit(node, if alike then 256 else 0, mb) else Done(Literal(node - 256)),
                  Matched(x.coder, node, v, m, n, alike), Literal(Index(node, v, n) - 256))
    decreases n
  {
    hide Walks, At, Asks, Deep, Index, Lined, Front, Tail, After, Sane, SlotOf;
    InTree(node, n, 256);
    if n == 0 {
      assert Pow2(0) == 1;
      hide Pow2;
      WalkEnds(c, Literal(node - 256));
    } else {
      hide Pow2;
      var b, t := Front(v, n), Front(m, n);
      DeepStep(node, v, n, 256);
      LinedNow(mb, m, n, k);
      MatchedWalks(c, x, 2 * node + Bit(b), Tail(v, n), Tail(m, n), 2 * mb, 2 * k + Bit(t), n - 1, alike && b == t);
      NodeInTree(node, n, 256);
      LiteralTakes(c, x, node, mb, alike, t, b);
      WalksOn(c, Lit(node, if alike then 256 else 0, mb),
              Decision(LiteralNode(x.coder, if alike then 1 + Bit(t) else 0, node), b),
              Matched(x.coder, 2 * node + Bit(b), Tail(v, n), Tail(m, n), n - 1, alike && b == t),
              Literal(Index(node, v, n) - 256));
    }
  }

  lemma WalkEnds(c: Ctx, s: Symbol)
    ensures Walks(c, Done(s), [], s)
  {
  }

  lemma Root(v: nat, n: nat)
    requires v < Pow2(n)
    ensures Deep(1, n, Pow2(n)) && Index(1, v, n) == Pow2(n) + v
  {
  }

  lemma LiteralIsTree(c: Ctx, x: Where)
    requires At(c, x)
    ensures TreeIs(c, LitTree, Literals(x.coder))
  {
    hide LitBase, PosState;
  }

  lemma LiteralWalks(c: Ctx, x: Where, b: Byte)
    requires At(c, x)
    ensures Walks(c, After(c, AtIsMatch, false), LiteralPart(x, b), Literal(b))
  {
    hide Walks, PosState, LitBase, Deep, Index, Lined, TreeIs;
    Pow2Eight();
    Root(b, 8);
    if x.state < 7 {
      hide At;
      LiteralIsTree(c, x);
      WalkEnds(c, Literal(b));
      TreeWalks(c, LitTree, Literals(x.coder), 1, b, 8, [], Literal(b));
      assert LzmaDecisions.Tree(Literals(x.coder), 1, b, 8) + [] == LzmaDecisions.Tree(Literals(x.coder), 1, b, 8);
    } else {
      LinedAtFirst(x.matchByte);
      MatchedWalks(c, x, 1, b, x.matchByte, x.matchByte, 0, 8, true);
    }
  }

  lemma LinedAtFirst(m: Byte)
    ensures Lined(m, m, 8, 0)
  {
    Pow2Eight();
    assert Pow2(0) == 1;
  }

  // ---------------------------------------------------------------- lengths

  lemma LengthTrees(c: Ctx, x: Where, w: Which)
    requires At(c, x)
    ensures TreeIs(c, LowTree(w), Lows(w.Old?, x.posState)) && TreeIs(c, MidTree(w), Mids(w.Old?, x.posState))
    ensures TreeIs(c, HighTree(w), Highs(w.Old?))
  {
    hide LitBase, PosState;
  }

  lemma ChoiceTakes(c: Ctx, w: Which, b: bool)
    requires Proper(c)
    ensures Asks(c, Choice(w), LenChoice(w.Old?)) && After(c, Choice(w), b) == if b then Choice2(w) else Low(w, 1)
    ensures Asks(c, Choice2(w), LenChoice2(w.Old?)) && After(c, Choice2(w), b) == if b then High(w, 1) else Mid(w, 1)
  {
    hide LitBase, PosState;
  }

  lemma LengthTree(c: Ctx, x: Where, w: Which, len: nat, rest: seq<Decision>, s: Symbol)
    requires At(c, x) && len <= 271 && Walks(c, LenDone(w, len), rest, s)
    ensures len < 8 ==> Walks(c, Low(w, 1), LzmaDecisions.Tree(Lows(w.Old?, x.posState), 1, len, 3) + rest, s)
    ensures 8 <= len < 16 ==> Walks(c, Mid(w, 1), LzmaDecisions.Tree(Mids(w.Old?, x.posState), 1, len - 8, 3) + rest, s)
    ensures len >= 16 ==> Walks(c, High(w, 1), LzmaDecisions.Tree(Highs(w.Old?), 1, len - 16, 8) + rest, s)
  {
    hide Walks, At, Deep, Index, TreeIs, After, LenDone, LzmaDecisions.Tree, NodeName, TreeBase;
    LengthTrees(c, x, w);
    Pow2Eight();
    assert Pow2(3) == 8;
    hide Pow2;
    if len < 8 {
      Root(len, 3);
      TreeWalks(c, LowTree(w), Lows(w.Old?, x.posState), 1, len, 3, rest, s);
    } else if len < 16 {
      Root(len - 8, 3);
      TreeWalks(c, MidTree(w), Mids(w.Old?, x.posState), 1, len - 8, 3, rest, s);
    } else {
      Root(len - 16, 8);
      TreeWalks(c, HighTree(w), Highs(w.Old?), 1, len - 16, 8, rest, s);
    }
  }

  lemma TwoChoices(c: Ctx, w: Which, b: bool, ds: seq<Decision>, s: Symbol)
    requires Proper(c) && Walks(c, if b then High(w, 1) else Mid(w, 1), ds, s)
    ensures Walks(c, Choice(w), [Decision(LenChoice(w.Old?), true), Decision(LenChoice2(w.Old?), b)] + ds, s)
  {
    hide Walks, Asks, After;
    var one, two := Decision(LenChoice(w.Old?), true), Decision(LenChoice2(w.Old?), b);
    ChoiceTakes(c, w, b);
    ChoiceTakes(c, w, true);
    WalksOn(c, Choice2(w), two, ds, s);
    WalksOn(c, Choice(w), one, [two] + ds, s);
    assert [one, two] + ds == [one] + ([two] + ds);
  }

  lemma LengthWalks(c: Ctx, x: Where, w: Which, len: nat, rest: seq<Decision>, s: Symbol)
    requires At(c, x) && len <= 271 && Walks(c, LenDone(w, len), rest, s)
    ensures Walks(c, Choice(w), LengthPart(x, w.Old?, len) + rest, s)
  {
    hide Walks, Asks, After, LenDone, LitBase, PosState, LzmaDecisions.Tree;
    LengthTree(c, x, w, len, rest, s);
    if len < 8 {
      var one, tree := Decision(LenChoice(w.Old?), false), LzmaDecisions.Tree(Lows(w.Old?, x.posState), 1, len, 3);
      ChoiceTakes(c, w, false);
      WalksOn(c, Choice(w), one, tree + rest, s);
      Associated([one], tree, rest);
    } else {
      var tree := if len < 16 then LzmaDecisions.Tree(Mids(w.Old?, x.posState), 1, len - 8, 3)
                  else LzmaDecisions.Tree(Highs(w.Old?), 1, len - 16, 8);
      TwoChoices(c, w, len >= 16, tree + rest, s);
      Associated([Decision(LenChoice(w.Old?), true), Decision(LenChoice2(w.Old?), len >= 16)], tree, rest);
    }
  }

  lemma Associated(a: seq<Decision>, b: seq<Decision>, c: seq<Decision>)
    ensures a + b + c == a + (b + c)
  {
  }

  // ---------------------------------------------------------------- distances

  predicate LowIs(v: Rev, f: LowEnd) {
    match v
    case SpecialRev(_, slot) => f == OfSlot(slot) && 4 <= slot < 14
    case AlignRev(_, _) => f == OfAlign
  }

  lemma RevSane(v: Rev, f: LowEnd, done: nat, low: nat, left: nat)
    requires LowIs(v, f) && left >= 1 && done + left == RevBits(v) && low < Pow2(done)
    ensures Sane(RevNode(v, Pow2(done) + low, Pow2(done), left)) && Named(LowName(f, done, low))
  {
    hide Pow2;
    assert v.SpecialRev? ==> DirectBits(v.slot) - left == done;
    assert v.AlignRev? ==> 4 - left == done;
  }

  lemma ReverseTakes(c: Ctx, v: Rev, f: LowEnd, done: nat, low: nat, left: nat, b: bool)
    requires Proper(c) && LowIs(v, f) && left >= 1 && done + left == RevBits(v) && low < Pow2(done)
    ensures var m := Pow2(done);
            var st, next := RevNode(v, m + low, m, left), low + Bit(b) * m;
            && Asks(c, st, LowName(f, done, low)) && next < Pow2(done + 1) && Pow2(done + 1) == 2 * m
            && After(c, st, b) == if left > 1 then RevNode(v, 2 * m + next, 2 * m, left - 1) else RevDone(v, 2 * m + next, 2 * m)
  {
    hide LitBase, PosState, SlotBase, After, SlotOf, RevDone, Pow2;
    Pow2Next(done);
    var m := Pow2(done);
    RevSane(v, f, done, low, left);
    hide Sane, DirectBits;
    RevStep(c, v, m + low, m, left, b);
  }

  lemma {:induction false} ReverseWalks(c: Ctx, v: Rev, f: LowEnd, done: nat, low: nat, u: nat, n: nat, s: Symbol)
    requires Proper(c) && LowIs(v, f) && n >= 1 && done + n == RevBits(v) && low < Pow2(done) && u < Pow2(n)
    requires Walks(c, RevDone(v, Pow2(done + n) + low + u * Pow2(done), Pow2(done + n)), [], s)
    ensures Walks(c, RevNode(v, Pow2(done) + low, Pow2(done), n), Reverse(f, done, low, u, n), s)
    decreases n
  {
    hide Walks, Asks, After, RevDone, RevNode, LowName, RevBits, LowIs;
    var m, b := Pow2(done), u % 2 == 1;
    var st := RevNode(v, m + low, m, n);
    ReverseTakes(c, v, f, done, low, n, b);
    LowFirst(u, m, n);
    var next := low + u % 2 * m;
    if n == 1 {
      assert Reverse(f, done + 1, next, u / 2, 0) == [];
    } else {
      ReverseWalks(c, v, f, done + 1, next, u / 2, n - 1, s);
    }
    WalksOn(c, st, Decision(LowName(f, done, low), b), Reverse(f, done + 1, next, u / 2, n - 1), s);
  }

  lemma LowFirst(u: nat, m: nat, n: nat)
    requires n >= 1 && u < Pow2(n)
    ensures u * m == u % 2 * m + u / 2 * (2 * m) && u / 2 < Pow2(n - 1) && (n == 1 ==> u / 2 == 0)
    ensures u % 2 * m == Bit(u % 2 == 1) * m
  {
    var q, r := u / 2, u % 2;
    assert (2 * q + r) * m == q * (2 * m) + r * m;
    assert Pow2(0) == 1;
  }

  lemma RawTakes(c: Ctx, len: nat, dist: nat, n: nat, b: bool)
    requires Proper(c) && 1 <= n <= 26
    ensures Asks(c, Raw(len, dist, n), Even)
    ensures After(c, Raw(len, dist, n), b) ==
            if n > 1 then Raw(len, 2 * dist + Bit(b), n - 1) else Aligned(len, 2 * dist + Bit(b), 1, 1, 4)
  {
  }

  lemma {:induction false} EvensWalk(c: Ctx, len: nat, dist: nat, v: nat, n: nat, rest: seq<Decision>, s: Symbol)
    requires Proper(c) && 1 <= n <= 26 && v < Pow2(n)
    requires Walks(c, Aligned(len, dist * Pow2(n) + v, 1, 1, 4), rest, s)
    ensures Walks(c, Raw(len, dist, n), Evens(v, n) + rest, s)
    decreases n
  {
    hide Walks, Front, Tail, Asks, After;
    var b, u := Front(v, n), Tail(v, n);
    FrontAndTail(dist, v, n);
    if n == 1 {
      FrontOfOne(v);
      assert Pow2(0) == 1;
      assert Evens(u, 0) + rest == rest;
    } else {
      EvensWalk(c, len, 2 * dist + Bit(b), u, n - 1, rest, s);
    }
    hide Pow2;
    RawTakes(c, len, dist, n, b);
    WalksOn(c, Raw(len, dist, n), Decision(Even, b), Evens(u, n - 1) + rest, s);
    assert Evens(v, n) + rest == [Decision(Even, b)] + (Evens(u, n - 1) + rest);
  }

  lemma FrontAndTail(dist: nat, v: nat, n: nat)
    requires n >= 1 && v < Pow2(n)
    ensures (2 * dist + Bit(Front(v, n))) * Pow2(n - 1) + Tail(v, n) == dist * Pow2(n) + v && Tail(v, n) < Pow2(n - 1)
  {
    var h, b := Pow2(n - 1), Bit(Front(v, n));
    assert (2 * dist + b) * h == dist * (2 * h) + b * h;
  }

  lemma FrontOfOne(v: nat)
    requires v < Pow2(1)
    ensures Tail(v, 1) == 0
  {
    assert Pow2(0) == 1;
  }

  /** The parts of a distance: its two highest bits and the rest. */
  lemma DistanceParts(d: nat)
    requires 4 <= d < 0x1_0000_0000
    ensures var n, slot := Log2(d) - 1, DistanceSlot(d);
            && 1 <= n <= 30 && 4 <= slot < 64 && DirectBits(slot) == n && (slot < 14 <==> n < 6)
            && d == SlotBase(slot) + d % Pow2(n) && SlotBase(slot) == (2 + slot % 2) * Pow2(n) && d % Pow2(n) < Pow2(n)
  {
    SmallPowers();
    WordPower();
    hide Pow2, Log2;
    Log2AtLeast(d, 2);
    Log2Below(d, 32);
    PartsOf(d, Log2(d) - 1, 1);
  }

  lemma WordPower()
    ensures Pow2(32) == 0x1_0000_0000
  {
    Pow2Eight();
    hide Pow2;
    Pow2Add(8, 8);
    Pow2Add(16, 16);
  }

  lemma SpecialWalks(c: Ctx, len: nat, slot: nat, u: nat)
    requires Proper(c) && 4 <= slot < 14 && u < Pow2(DirectBits(slot))
    ensures Walks(c, SlotDone(len, slot), Reverse(OfSlot(slot), 0, 0, u, DirectBits(slot)), NewMatch(len, SlotBase(slot) + u))
  {
    hide Walks, SlotBase;
    var n, v := DirectBits(slot), SpecialRev(len, slot);
    assert Pow2(0) == 1;
    hide Pow2;
    WalkEnds(c, NewMatch(len, SlotBase(slot) + u));
    assert RevDone(v, Pow2(0 + n) + 0 + u * Pow2(0), Pow2(0 + n)) == Done(NewMatch(len, SlotBase(slot) + u));
    ReverseWalks(c, v, OfSlot(slot), 0, 0, u, n, NewMatch(len, SlotBase(slot) + u));
  }

  lemma AlignWalks(c: Ctx, len: nat, dist: nat, u: nat)
    requires Proper(c) && u < 16
    ensures Walks(c, Aligned(len, dist, 1, 1, 4), Reverse(OfAlign, 0, 0, u, 4), NewMatch(len, 16 * dist + u))
  {
    hide Walks;
    var v := AlignRev(len, dist);
    SmallPowers();
    hide Pow2;
    WalkEnds(c, NewMatch(len, 16 * dist + u));
    assert RevDone(v, Pow2(0 + 4) + 0 + u * Pow2(0), Pow2(0 + 4)) == Done(NewMatch(len, 16 * dist + u));
    ReverseWalks(c, v, OfAlign, 0, 0, u, 4, NewMatch(len, 16 * dist + u));
  }

  lemma RawWalks(c: Ctx, len: nat, slot: nat, u: nat)
    requires Proper(c) && 14 <= slot < 64 && u < Pow2(DirectBits(slot))
    ensures DirectBits(slot) >= 4
    ensures Walks(c, SlotDone(len, slot), Evens(u / 16, DirectBits(slot) - 4) + Reverse(OfAlign, 0, 0, u % 16, 4),
                  NewMatch(len, SlotBase(slot) + u))
  {
    hide Walks;
    var n, q := DirectBits(slot), 2 + slot % 2;
    SmallPowers();
    Pow2Add(n - 4, 4);
    hide Pow2;
    Sixteenths(q, u, Pow2(n - 4));
    AlignWalks(c, len, q * Pow2(n - 4) + u / 16, u % 16);
    EvensWalk(c, len, q, u / 16, n - 4, Reverse(OfAlign, 0, 0, u % 16, 4), NewMatch(len, SlotBase(slot) + u));
  }

  lemma Sixteenths(q: nat, u: nat, p: nat)
    requires u < p * 16
    ensures u / 16 < p && 16 * (q * p + u / 16) + u % 16 == q * (p * 16) + u
  {
    assert 16 * (q * p) == q * (p * 16);
  }

  lemma FooterWalks(c: Ctx, len: nat, d: nat)
    requires Proper(c) && d < 0x1_0000_0000
    ensures DistanceSlot(d) < 64 && Walks(c, SlotDone(len, DistanceSlot(d)), Footer(d), NewMatch(len, d))
  {
    hide Walks, Log2, Pow2, SlotBase, DirectBits, Evens, Reverse;
    if d < 4 {
      WalkEnds(c, NewMatch(len, d));
    } else {
      DistanceParts(d);
      var slot, n := DistanceSlot(d), Log2(d) - 1;
      if n < 6 {
        SpecialWalks(c, len, slot, d % Pow2(n));
      } else {
        RawWalks(c, len, slot, d % Pow2(n));
      }
    }
  }

  lemma SlotIsTree(c: Ctx, len: nat)
    requires Proper(c)
    ensures TreeIs(c, SlotTree(len), Slots(if len < 4 then len else 3))
  {
    hide LitBase, PosState;
  }

  lemma DistanceWalks(c: Ctx, len: nat, d: nat)
    requires Proper(c) && d < 0x1_0000_0000
    ensures Walks(c, Slot(len, 1), DistancePart(len, d), NewMatch(len, d))
  {
    hide Walks, Log2, Deep, Index, TreeIs, DistanceSlot, Footer, SlotDone;
    SlotIsTree(c, len);
    FooterWalks(c, len, d);
    SmallPowers();
    hide Pow2;
    Root(DistanceSlot(d), 6);
    TreeWalks(c, SlotTree(len), Slots(if len < 4 then len else 3), 1, DistanceSlot(d), 6, Footer(d), NewMatch(len, d));
  }

  // ---------------------------------------------------------------- symbols

  lemma HeaderTakes(c: Ctx, x: Where, b: bool)
    requires At(c, x)
    ensures Asks(c, AtIsMatch, IsMatch(x.state, x.posState)) && After(c, AtIsMatch, true) == AtIsRep
    ensures Asks(c, AtIsRep, IsRep(x.state)) && After(c, AtIsRep, b) == if b then AtG0 else Choice(New)
    ensures Asks(c, AtG0, IsRepG0(x.state)) && After(c, AtG0, b) == if b then AtG1 else AtLong
    ensures Asks(c, AtLong, IsRep0Long(x.state, x.posState))
    ensures After(c, AtLong, b) == if b then Choice(Old(0)) else Done(ShortRep)
    ensures Asks(c, AtG1, IsRepG1(x.state)) && After(c, AtG1, b) == if b then AtG2 else Choice(Old(1))
    ensures Asks(c, AtG2, IsRepG2(x.state)) && After(c, AtG2, b) == Choice(Old(if b then 3 else 2))
  {
    hide LitBase, PosState;
  }

  lemma WalksOnTwice(c: Ctx, st: Sym, d: Decision, e: Decision, ds: seq<Decision>, s: Symbol)
    requires Asks(c, st, d.name) && Asks(c, After(c, st, d.bit), e.name)
    requires Walks(c, After(c, After(c, st, d.bit), e.bit), ds, s)
    ensures Walks(c, st, [d, e] + ds, s)
  {
    hide After, Walks, SlotOf, Place, Named;
    WalksOn(c, After(c, st, d.bit), e, ds, s);
    WalksOn(c, st, d, [e] + ds, s);
    assert [d, e] + ds == [d] + ([e] + ds);
  }

  lemma RepWalks(c: Ctx, x: Where, k: nat, ds: seq<Decision>, s: Symbol)
    requires At(c, x) && k < 4 && Walks(c, Choice(Old(k)), ds, s)
    ensures Walks(c, AtG0, RepPart(x, k) + ds, s)
  {
    hide At, After, Asks, Walks;
    HeaderTakes(c, x, true);
    HeaderTakes(c, x, false);
    var g0, g1, g2 := Decision(IsRepG0(x.state), true), Decision(IsRepG1(x.state), true), Decision(IsRepG2(x.state), k != 2);
    if k == 0 {
      WalksOnTwice(c, AtG0, Decision(IsRepG0(x.state), false), Decision(IsRep0Long(x.state, x.posState), true), ds, s);
    } else if k == 1 {
      WalksOnTwice(c, AtG0, g0, Decision(IsRepG1(x.state), false), ds, s);
    } else {
      WalksOn(c, AtG2, g2, ds, s);
      WalksOnTwice(c, AtG0, g0, g1, [g2] + ds, s);
      assert RepPart(x, k) + ds == [g0, g1] + ([g2] + ds);
    }
  }

  /** The decoder takes the decisions of every symbol as they were written, and ends with the symbol. */
  lemma SymbolWalks(c: Ctx, x: Where, s: Symbol)
    requires At(c, x) && Writable(s)
    ensures Walks(c, AtIsMatch, SymbolPart(x, s), s)
  {
    hide At, After, Asks, Walks, LengthPart, LiteralPart, DistancePart, RepPart, LitBase, PosState;
    HeaderTakes(c, x, true);
    HeaderTakes(c, x, false);
    IsProper(c, x);
    var match1, rep1 := Decision(IsMatch(x.state, x.posState), true), Decision(IsRep(x.state), true);
    match s
    case Literal(b) =>
      LiteralWalks(c, x, b);
      WalksOn(c, AtIsMatch, Decision(IsMatch(x.state, x.posState), false), LiteralPart(x, b), s);
    case ShortRep =>
      WalkEnds(c, s);
      var g0, long := Decision(IsRepG0(x.state), false), Decision(IsRep0Long(x.state, x.posState), false);
      WalksOnTwice(c, AtG0, g0, long, [], s);
      assert [g0, long] + [] == [g0, long];
      WalksOnTwice(c, AtIsMatch, match1, rep1, [g0, long], s);
      assert SymbolPart(x, s) == [match1, rep1] + [g0, long];
    case OldMatch(k, len) =>
      WalkEnds(c, s);
      OldLengthWalks(c, x, k, len);
      WalksOnTwice(c, AtIsMatch, match1, rep1, RepPart(x, k) + LengthPart(x, true, len), s);
    case NewMatch(len, d) =>
      NewLengthWalks(c, x, len, d);
      WalksOnTwice(c, AtIsMatch, match1, Decision(IsRep(x.state), false), LengthPart(x, false, len) + DistancePart(len, d), s);
  }

  lemma IsProper(c: Ctx, x: Where)
    requires At(c, x)
    ensures Proper(c)
  {
  }

  lemma OldLengthWalks(c: Ctx, x: Where, k: nat, len: nat)
    requires At(c, x) && k < 4 && len <= 271
    ensures Walks(c, AtG0, RepPart(x, k) + LengthPart(x, true, len), OldMatch(k, len))
  {
    hide At, Walks, LengthPart, RepPart;
    var s := OldMatch(k, len);
    WalkEnds(c, s);
    LengthWalks(c, x, Old(k), len, [], s);
    assert LengthPart(x, true, len) + [] == LengthPart(x, true, len);
    RepWalks(c, x, k, LengthPart(x, true, len), s);
  }

  lemma NewLengthWalks(c: Ctx, x: Where, len: nat, d: nat)
    requires At(c, x) && len <= 271 && d < 0x1_0000_0000
    ensures Walks(c, Choice(New), LengthPart(x, false, len) + DistancePart(len, d), NewMatch(len, d))
  {
    hide At, Walks, LengthPart, DistancePart;
    IsProper(c, x);
    DistanceWalks(c, len, d);
    LengthWalks(c, x, New, len, DistancePart(len, d), NewMatch(len, d));
  }
}
