/** The three passes over PPMd's free blocks that glue neighbours together. */
module PpmdGlue {
  import opened PpmdSizes
  import opened PpmdBlocks
  import opened PpmdLists

  ghost function Elems(l: seq<nat>): set<nat> { set b | b in l }

  /** An entry of the long list: a free block with its header, or a block that a neighbour has swallowed. */
  ghost predicate NodeAt(m: seq<Unit>, s: Blocks, l: seq<nat>, j: nat)
    requires j < |l|
  {
    && 0 < l[j] < |m| && m[l[j]].next == At(l, j + 1)
    && l[j] in s.owner && s.owner[l[j]] in s.loose
    && if l[j] in s.loose then l[j] in s.size && m[l[j]].stamp == 0 && m[l[j]].nu == s.size[l[j]] < HALF else m[l[j]].nu == 0
  }

  /** The long list from its entry `p` on. */
  ghost predicate Roll(m: seq<Unit>, s: Blocks, l: seq<nat>, p: nat) {
    Distinct(l) && forall j :: p <= j < |l| ==> NodeAt(m, s, l, j)
  }

  /** The loose blocks are all in the list from `p` on. */
  ghost predicate Holds(s: Blocks, l: seq<nat>, p: nat) {
    forall b :: b in s.loose ==> exists j :: p <= j < |l| && l[j] == b
  }

  /** No block swallowed an entry that comes after it. */
  ghost predicate InOrder(s: Blocks, l: seq<nat>, from: nat, to: nat) {
    to <= |l| && forall i, j :: from <= j < i < to && l[i] in s.owner ==> s.owner[l[i]] != l[j]
  }

  // ---------------------------------------------------------------- writing only into free units

  ghost predicate Quiet(m: seq<Unit>, m': seq<Unit>, free: set<nat>) {
    |m| == |m'| && forall u :: 0 <= u < |m| && u !in free ==> m'[u] == m[u]
  }

  lemma QuietTwice(m: seq<Unit>, m': seq<Unit>, m'': seq<Unit>, free: set<nat>)
    requires Quiet(m, m', free) && Quiet(m', m'', free)
    ensures Quiet(m, m'', free)
  {
  }

  lemma LooseIsFree(s: Blocks, b: nat)
    requires Tiled(s) && b in s.loose
    ensures b in s.size && b in s.owner && s.owner[b] == b && b in FreeUnits(s)
  {
    hide Tiled;
    TiledParts(s);
    BlockOf(s, b);
    UnitOf(s, b, b);
  }

  // ---------------------------------------------------------------- collecting the lists

  /** What is left of a free list that is being walked. */
  ghost predicate WaitsAt(m: seq<Unit>, s: Blocks, n: nat, todo: seq<nat>, j: nat)
    requires j < |todo|
  {
    todo[j] in s.loose && todo[j] in s.size && s.size[todo[j]] == n && 0 < todo[j] < |m| && Link(m[todo[j]]) == At(todo, j + 1)
  }

  ghost predicate Waiting(m: seq<Unit>, s: Blocks, n: nat, next: nat, todo: seq<nat>) {
    next == At(todo, 0) && Distinct(todo) && forall j :: 0 <= j < |todo| ==> WaitsAt(m, s, n, todo, j)
  }

  ghost predicate Apart(l: seq<nat>, todo: seq<nat>) {
    forall i, j :: 0 <= i < |l| && 0 <= j < |todo| ==> l[i] != todo[j]
  }

  /** All blocks of a list become loose at once. */
  ghost function Detach(s: Blocks, l: seq<nat>): Blocks {
    Blocks(s.size, s.owner, s.listed - Elems(l), s.loose + Elems(l))
  }

  lemma DetachTiles(s: Blocks, l: seq<nat>)
    requires Tiled(s) && forall j :: 0 <= j < |l| ==> l[j] in s.listed
    ensures Tiled(Detach(s, l)) && Used(Detach(s, l)) == Used(s) && FreeUnits(Detach(s, l)) == FreeUnits(s)
  {
  }

  lemma DetachLists(m: seq<Unit>, s: Blocks, heads: seq<nat>, lists: seq<seq<nat>>, i: nat)
    requires ListsOk(m, s, heads, lists) && i < NUM_INDEXES && |heads| == NUM_INDEXES && |lists| == NUM_INDEXES
    ensures ListsOk(m, Detach(s, lists[i]), heads[i := 0], lists[i := []])
    ensures Waiting(m, Detach(s, lists[i]), Units(i), heads[i], lists[i])
    ensures forall j :: 0 <= j < |lists[i]| ==> lists[i][j] in s.listed
  {
    hide Link, Units, ClassOf;
    ListOf(m, s, heads, lists, i);
    var l := lists[i];
    var s', heads', lists' := Detach(s, l), heads[i := 0], lists[i := []];
    forall j | 0 <= j < |l| ensures WaitsAt(m, s', Units(i), l, j) && l[j] in s.listed {
      assert NodeOk(m, s, Units(i), l, j);
    }
    forall k | 0 <= k < NUM_INDEXES ensures ListOk(m, s', Units(k), heads'[k], lists'[k]) {
      if k != i {
        OthersStay(m, s, heads, lists, k, i);
        ListOf(m, s, heads, lists, k);
        KeepOne(m, s, m, s', Units(k), heads[k], lists[k]);
      }
    }
    forall c | c in s'.listed ensures Findable(s', lists', c) {
      assert Findable(s, lists, c);
    }
  }

  lemma OthersStay(m: seq<Unit>, s: Blocks, heads: seq<nat>, lists: seq<seq<nat>>, k: nat, i: nat)
    requires ListsOk(m, s, heads, lists) && i < NUM_INDEXES && k < NUM_INDEXES && i != k && |lists| == NUM_INDEXES
    ensures forall b :: b in lists[k] ==> b !in lists[i]
  {
    hide Link, Units, ClassOf, ListsOk;
    forall b | b in lists[k] ensures b !in lists[i] {
      ListOf(m, s, heads, lists, k);
      var j :| 0 <= j < |lists[k]| && lists[k][j] == b;
      assert NodeOk(m, s, Units(k), lists[k], j);
      NotThere(m, s, heads, lists, i, k, b);
    }
  }

  /** Listed blocks are not on the long list. */
  lemma ListedApart(m: seq<Unit>, s: Blocks, l: seq<nat>, todo: seq<nat>)
    requires Tiled(s) && Roll(m, s, l, 0) && forall j :: 0 <= j < |todo| ==> todo[j] in s.listed
    ensures Apart(l, todo)
  {
    hide Tiled;
    TiledParts(s);
    forall i, j | 0 <= i < |l| && 0 <= j < |todo| ensures l[i] != todo[j] {
      assert NodeAt(m, s, l, i);
      BlockOf(s, todo[j]);
      UnitOf(s, todo[j], todo[j]);
    }
  }

  /** The long list does not care which of the other free blocks are loose. */
  lemma DetachRoll(m: seq<Unit>, s: Blocks, l: seq<nat>, todo: seq<nat>)
    requires Roll(m, s, l, 0) && Apart(l, todo)
    ensures Roll(m, Detach(s, todo), l, 0)
  {
    forall j | 0 <= j < |l| ensures NodeAt(m, Detach(s, todo), l, j) {
      assert NodeAt(m, s, l, j);
    }
  }

  /** One step of the walk: the first waiting block gets its header and goes to the front of the long list. */
  lemma GatherStep(m: seq<Unit>, s: Blocks, n: nat, next: nat, todo: seq<nat>, l: seq<nat>)
    requires Tiled(s) && Waiting(m, s, n, next, todo) && Roll(m, s, l, 0) && Apart(l, todo) && next != 0 && n < HALF
    ensures todo != [] && next == todo[0] && next in s.loose && next < |m|
    ensures var m' := m[next := Unit(0, n, At(l, 0))];
            Waiting(m', s, n, Link(m[next]), todo[1..]) && Roll(m', s, [next] + l, 0) && Apart([next] + l, todo[1..])
  {
    hide Tiled, Link;
    assert WaitsAt(m, s, n, todo, 0);
    LooseIsFree(s, next);
    var m', l', t' := m[next := Unit(0, n, At(l, 0))], [next] + l, todo[1..];
    forall j | 0 <= j < |t'| ensures WaitsAt(m', s, n, t', j) {
      assert WaitsAt(m, s, n, todo, j + 1);
    }
    forall j | 0 <= j < |l'| ensures NodeAt(m', s, l', j) {
      if j > 0 { assert NodeAt(m, s, l, j - 1); }
    }
    forall i, j | 0 <= i < j < |l'| ensures l'[i] != l'[j] {
      if i == 0 { assert l[j - 1] != todo[0]; }
    }
    assert At(todo, 1) == At(t', 0);
  }

  // ---------------------------------------------------------------- gluing

  /** Unlinking an entry that was swallowed. */
  function Unlinked(m: seq<Unit>, l: seq<nat>, p: nat): seq<Unit>
    requires p < |l| && (p > 0 ==> l[p - 1] < |m|)
  {
    if p == 0 then m else m[l[p - 1] := m[l[p - 1]].(next := At(l, p + 1))]
  }

  function Without(l: seq<nat>, p: nat): seq<nat>
    requires p < |l|
  {
    l[..p] + l[p + 1..]
  }

  lemma DropEntry(m: seq<Unit>, s: Blocks, l: seq<nat>, p: nat)
    requires Roll(m, s, l, 0) && p < |l| && l[p] !in s.loose
    ensures p > 0 ==> l[p - 1] < |m| && l[p - 1] in s.owner && s.owner[l[p - 1]] in s.loose
    ensures Roll(Unlinked(m, l, p), s, Without(l, p), 0) && At(Without(l, p), p) == At(l, p + 1)
    ensures InOrder(s, l, 0, p) ==> InOrder(s, Without(l, p), 0, p)
    ensures Holds(s, l, 0) ==> Holds(s, Without(l, p), 0)
  {
    if p > 0 { assert NodeAt(m, s, l, p - 1); }
    var m', l' := Unlinked(m, l, p), Without(l, p);
    forall j | 0 <= j < |l'| ensures NodeAt(m', s, l', j) {
      if j < p { assert NodeAt(m, s, l, j); } else { assert NodeAt(m, s, l, j + 1); }
    }
    if Holds(s, l, 0) {
      forall b | b in s.loose ensures exists j :: 0 <= j < |l'| && l'[j] == b {
        var j :| 0 <= j < |l| && l[j] == b;
        assert l'[if j < p then j else j - 1] == b;
      }
    }
  }

  /** A block that still has a size comes after no block that swallowed it. */
  lemma EnterEntry(m: seq<Unit>, s: Blocks, l: seq<nat>, p: nat)
    requires Tiled(s) && Roll(m, s, l, 0) && InOrder(s, l, 0, p) && p < |l| && l[p] in s.loose
    ensures InOrder(s, l, 0, p + 1)
  {
    hide Tiled;
    LooseIsFree(s, l[p]);
  }

  /** The header of `a` grows over its neighbour, whose own header goes. */
  function Swallowed(m: seq<Unit>, a: nat, b: nat, nu: nat): seq<Unit>
    requires a < |m| && b < |m|
  {
    m[a := m[a].(nu := nu)][b := m[b].(nu := 0)]
  }

  lemma SwallowNext(m: seq<Unit>, s: Blocks, l: seq<nat>, p: nat)
    requires Tiled(s) && Roll(m, s, l, 0) && Holds(s, l, 0) && InOrder(s, l, 0, p + 1)
    requires p < |l| && l[p] in s.loose && l[p] in s.size && l[p] + s.size[l[p]] in s.loose
    ensures var a := l[p]; var b := a + s.size[a];
            b in s.size && a < |m| && b < |m| && a != b && m[b].nu == s.size[b] && m[b].stamp == 0 &&
            (s.size[a] + s.size[b] < HALF ==>
            Roll(Swallowed(m, a, b, s.size[a] + s.size[b]), Join(s, a), l, 0) && Holds(Join(s, a), l, 0)
            && InOrder(Join(s, a), l, 0, p + 1))
  {
    hide Tiled;
    var a := l[p];
    var b := a + s.size[a];
    TiledParts(s);
    BlockOf(s, a);
    var k :| 0 <= k < |l| && l[k] == b;
    assert NodeAt(m, s, l, p) && NodeAt(m, s, l, k);
    if s.size[a] + s.size[b] < HALF {
      SwallowRoll(m, s, l, a);
      SwallowOrder(m, s, l, p);
    }
  }

  lemma SwallowRoll(m: seq<Unit>, s: Blocks, l: seq<nat>, a: nat)
    requires Tiled(s) && Roll(m, s, l, 0) && Holds(s, l, 0) && a in s.loose && a in s.size && s.size[a] > 0
    requires a + s.size[a] in s.loose && a + s.size[a] in s.size && a < |m| && a + s.size[a] < |m|
    requires s.size[a] + s.size[a + s.size[a]] < HALF
    ensures var b := a + s.size[a];
            Roll(Swallowed(m, a, b, s.size[a] + s.size[b]), Join(s, a), l, 0) && Holds(Join(s, a), l, 0)
  {
    hide Tiled;
    var b := a + s.size[a];
    var m', s' := Swallowed(m, a, b, s.size[a] + s.size[b]), Join(s, a);
    LooseIsFree(s, b);
    LooseIsFree(s, a);
    forall j | 0 <= j < |l| ensures NodeAt(m', s', l, j) {
      assert NodeAt(m, s, l, j);
      OwnerOf(s, l[j]);
    }
    forall c | c in s'.loose ensures exists j :: 0 <= j < |l| && l[j] == c {
      assert c in s.loose;
    }
  }

  lemma SwallowOrder(m: seq<Unit>, s: Blocks, l: seq<nat>, p: nat)
    requires Tiled(s) && Distinct(l) && p < |l| && InOrder(s, l, 0, p + 1) && l[p] in s.size && s.size[l[p]] > 0
    requires l[p] in s.loose && l[p] + s.size[l[p]] in s.size
    ensures InOrder(Join(s, l[p]), l, 0, p + 1)
  {
    hide Tiled;
    var a := l[p];
    var s' := Join(s, a);
    LooseIsFree(s, a);
    var b := a + s.size[a];
    forall i, j | 0 <= j < i < p + 1 && l[i] in s'.owner ensures s'.owner[l[i]] != l[j] {
      if b <= l[i] < b + s.size[b] { UnitOf(s, b, l[i]); }
    }
  }

  // ---------------------------------------------------------------- filling the lists again

  lemma SkipEntry(m: seq<Unit>, s: Blocks, l: seq<nat>, p: nat)
    requires Roll(m, s, l, p) && Holds(s, l, p) && InOrder(s, l, p, |l|) && p < |l| && l[p] !in s.loose
    ensures Roll(m, s, l, p + 1) && Holds(s, l, p + 1) && InOrder(s, l, p + 1, |l|)
  {
  }

  /** Putting a glued block into the lists leaves the rest of the long list as it was. */
  lemma FillEntry(m: seq<Unit>, s: Blocks, m': seq<Unit>, t: Blocks, l: seq<nat>, p: nat)
    requires Tiled(s) && Roll(m, s, l, p) && Holds(s, l, p) && InOrder(s, l, p, |l|) && p < |l|
    requires l[p] in s.loose && l[p] in s.size
    requires OnlyWithin(s, t, l[p], s.size[l[p]]) && SameOutside(m, m', l[p], s.size[l[p]])
    ensures Roll(m', t, l, p + 1) && Holds(t, l, p + 1) && InOrder(t, l, p + 1, |l|)
  {
    hide Tiled, Used, FreeUnits;
    var a := l[p];
    forall j | p + 1 <= j < |l| ensures NodeAt(m', t, l, j) && l[j] in s.owner && t.owner[l[j]] == s.owner[l[j]] {
      assert NodeAt(m, s, l, j);
      if a <= l[j] < a + s.size[a] { UnitOf(s, a, l[j]); assert false; }
    }
    forall b | b in t.loose ensures exists j :: p + 1 <= j < |l| && l[j] == b {
      var j :| p <= j < |l| && l[j] == b;
      assert j != p;
    }
  }

  // ---------------------------------------------------------------- what the passes keep

  /** Writing into a loose block disturbs no list and nothing that is allocated. */
  lemma WriteLoose(m: seq<Unit>, s: Blocks, heads: seq<nat>, lists: seq<seq<nat>>, u: nat, x: Unit)
    requires ListsOk(m, s, heads, lists) && Tiled(s) && u in s.owner && s.owner[u] in s.loose && u < |m|
    ensures ListsOk(m[u := x], s, heads, lists) && Quiet(m, m[u := x], FreeUnits(s))
  {
    hide Tiled, ListsOk;
    TiledParts(s);
    forall b | b in s.listed && b < |m| ensures m[u := x][b] == m[b] {
      BlockOf(s, b);
      UnitOf(s, b, b);
    }
    KeepAll(m, s, m[u := x], s, heads, lists);
  }

  /** All loose blocks are in the long list or still wait. */
  ghost predicate Gathered(s: Blocks, l: seq<nat>, todo: seq<nat>) {
    forall b :: b in s.loose ==> b in l || b in todo
  }

  lemma GatheredAll(s: Blocks, l: seq<nat>)
    ensures Gathered(s, l, []) <==> Holds(s, l, 0)
  {
    if Gathered(s, l, []) {
      forall b | b in s.loose ensures exists j :: 0 <= j < |l| && l[j] == b {
        assert b in l;
      }
    }
  }

  lemma DetachGathered(s: Blocks, l: seq<nat>, todo: seq<nat>)
    requires Gathered(s, l, [])
    ensures Gathered(Detach(s, todo), l, todo)
  {
  }

  lemma GatherOne(s: Blocks, l: seq<nat>, todo: seq<nat>)
    requires Gathered(s, l, todo) && todo != []
    ensures Gathered(s, [todo[0]] + l, todo[1..])
  {
    assert todo == [todo[0]] + todo[1..];
  }

  /** With all lists empty no block is listed. */
  lemma NoneListed(m: seq<Unit>, s: Blocks, heads: seq<nat>, lists: seq<seq<nat>>)
    requires ListsOk(m, s, heads, lists) && |lists| == NUM_INDEXES && forall i :: 0 <= i < NUM_INDEXES ==> lists[i] == []
    ensures s.listed == {}
  {
    hide ListOk, Units, ClassOf;
    if b :| b in s.listed {
      Found(m, s, heads, lists, b);
      assert false;
    }
  }

  lemma NothingWaits(m: seq<Unit>, s: Blocks, n: nat, next: nat, todo: seq<nat>)
    requires Waiting(m, s, n, next, todo) && next == 0
    ensures todo == []
  {
    assert todo == [] || WaitsAt(m, s, n, todo, 0);
  }

  lemma LooseHeader(m: seq<Unit>, s: Blocks, l: seq<nat>, p: nat, q: nat)
    requires Tiled(s) && Roll(m, s, l, q) && q <= p < |l|
    ensures 0 < l[p] < |m| && m[l[p]].next == At(l, p + 1) && (m[l[p]].nu != 0 <==> l[p] in s.loose)
    ensures l[p] in s.loose ==> l[p] in s.size && m[l[p]].nu == s.size[l[p]] < HALF
  {
    hide Tiled;
    assert NodeAt(m, s, l, p);
    if l[p] in s.loose { BlockOf(s, l[p]); }
  }

  lemma NoEntry(m: seq<Unit>, s: Blocks, l: seq<nat>, p: nat, q: nat)
    requires Roll(m, s, l, q) && q <= p <= |l| && At(l, p) == 0
    ensures p == |l|
  {
    assert p == |l| || NodeAt(m, s, l, p);
  }

  lemma NoneLoose(s: Blocks, l: seq<nat>)
    requires Holds(s, l, |l|)
    ensures s.loose == {}
  {
  }

  // ---------------------------------------------------------------- cutting a long block

  /** Part of the block `a` of `n` units has gone to the lists; the rest starts at `node`. */
  ghost predicate Partly(s: Blocks, t: Blocks, a: nat, n: nat, node: nat) {
    && t.owner.Keys == s.owner.Keys && t.loose == s.loose - {a} + {node} && s.listed <= t.listed
    && (forall u :: u in s.owner && !(a <= u < a + n) ==> t.owner[u] == s.owner[u])
    && (forall c :: c in s.size && c != a ==> c in t.size && t.size[c] == s.size[c] && c != node)
    && Used(t) == Used(s) && FreeUnits(t) == FreeUnits(s)
    && a <= node < a + n && node in t.size && t.size[node] == a + n - node
  }

  lemma PartlyNone(s: Blocks, a: nat)
    requires Tiled(s) && a in s.loose && a in s.size
    ensures Partly(s, s, a, s.size[a], a)
  {
    hide Tiled, Used, FreeUnits;
    BlockOf(s, a);
  }

  lemma PartlyMore(s: Blocks, t: Blocks, a: nat, n: nat, node: nat, k: nat)
    requires Tiled(s) && Tiled(t) && Partly(s, t, a, n, node) && 0 < k < t.size[node] && a in s.loose
    ensures Partly(s, List(Cut(t, node, k), node), a, n, node + k)
  {
    hide Tiled, Used, FreeUnits;
    TiledParts(s);
    TiledParts(t);
    CutTiles(t, node, k);
    CutKeeps(t, node, k);
    ListKeeps(Cut(t, node, k), node);
    assert node + k !in t.loose;
  }

  lemma PartlyAll(s: Blocks, t: Blocks, t': Blocks, a: nat, n: nat, node: nat)
    requires Tiled(s) && a in s.loose && Partly(s, t, a, n, node) && OnlyWithin(t, t', node, a + n - node)
    ensures OnlyWithin(s, t', a, n)
  {
    hide Tiled, Used, FreeUnits;
    TiledParts(s);
  }

  /** Writing within a free block is writing into free units. */
  lemma WithinFree(s: Blocks, m: seq<Unit>, m': seq<Unit>, a: nat)
    requires Tiled(s) && a in s.loose && a in s.size && SameOutside(m, m', a, s.size[a])
    ensures Quiet(m, m', FreeUnits(s))
  {
    hide Tiled;
    forall u | 0 <= u < |m| && u !in FreeUnits(s) ensures m'[u] == m[u] {
      if a <= u < a + s.size[a] { UnitOf(s, a, u); assert false; }
    }
  }

  lemma PartlyNode(s: Blocks, t: Blocks, a: nat, n: nat, node: nat)
    requires Partly(s, t, a, n, node)
    ensures node in t.loose && node in t.size && t.size[node] == a + n - node
  {
  }

  lemma NoOrder(s: Blocks, l: seq<nat>)
    ensures InOrder(s, l, 0, 0)
  {
  }

  // ---------------------------------------------------------------- nothing is left to glue

  /** The block cannot be glued to the next one. */
  ghost predicate Stuck(s: Blocks, a: nat) {
    a in s.size && (a + s.size[a] in s.loose && a + s.size[a] in s.size ==> s.size[a] + s.size[a + s.size[a]] >= HALF)
  }

  ghost predicate Settled(s: Blocks, l: seq<nat>, p: nat) {
    p <= |l| && forall j :: 0 <= j < p && l[j] in s.loose ==> Stuck(s, l[j])
  }

  lemma SettledNone(s: Blocks, l: seq<nat>)
    ensures Settled(s, l, 0)
  {
  }

  lemma SettledMore(s: Blocks, l: seq<nat>, p: nat)
    requires Settled(s, l, p) && p < |l| && Stuck(s, l[p])
    ensures Settled(s, l, p + 1)
  {
  }

  lemma SettledDrop(s: Blocks, l: seq<nat>, p: nat)
    requires Settled(s, l, p) && p < |l|
    ensures Settled(s, Without(l, p), p)
  {
  }

  /** Blocks that could not be glued stay so when their neighbours grow. */
  lemma SettledSwallow(s: Blocks, l: seq<nat>, p: nat)
    requires Tiled(s) && Distinct(l) && Settled(s, l, p) && p < |l| && l[p] in s.loose && l[p] in s.size
    requires l[p] + s.size[l[p]] in s.loose && l[p] + s.size[l[p]] in s.size
    ensures Settled(Join(s, l[p]), l, p)
  {
    hide Tiled;
    var a := l[p];
    var t := Join(s, a);
    TiledParts(s);
    forall j | 0 <= j < p && l[j] in t.loose ensures Stuck(t, l[j]) {
      assert Stuck(s, l[j]) && l[j] != a;
    }
  }

  /** The units from `a` on are free. */
  ghost predicate RunAt(free: set<nat>, a: nat, n: nat) {
    forall u :: a <= u < a + n ==> u in free
  }

  /** There are `n` free units in a row. */
  ghost predicate Run(free: set<nat>, n: nat) {
    exists a: nat :: RunAt(free, a, n)
  }

  ghost predicate Big(s: Blocks, n: nat) {
    exists b :: b in s.loose && b in s.size && s.size[b] >= n
  }

  lemma IsBig(s: Blocks, b: nat, n: nat)
    requires b in s.loose && b in s.size && s.size[b] >= n
    ensures Big(s, n)
  {
  }

  /** When nothing is left to glue, units in a row are in a block that is as long. */
  lemma RunIsBig(s: Blocks, l: seq<nat>, n: nat)
    requires Tiled(s) && s.listed == {} && Holds(s, l, 0) && Settled(s, l, |l|)
    requires Run(FreeUnits(s), n) && 0 < n <= MAX_UNITS
    ensures Big(s, n)
  {
    hide Tiled;
    var a: nat :| RunAt(FreeUnits(s), a, n);
    assert a in FreeUnits(s);
    OwnerOf(s, a);
    var c := s.owner[a];
    HeldIsStuck(s, l, c);
    if a + n <= c + s.size[c] {
      IsBig(s, c, n);
    } else {
      var d := c + s.size[c];
      assert d in FreeUnits(s);
      NextStarts(s, c);
      if s.size[c] >= n { IsBig(s, c, n); } else { IsBig(s, d, n); }
    }
  }

  lemma HeldIsStuck(s: Blocks, l: seq<nat>, c: nat)
    requires Holds(s, l, 0) && Settled(s, l, |l|) && c in s.loose
    ensures Stuck(s, c)
  {
    var j :| 0 <= j < |l| && l[j] == c;
  }

  /** There is a block of class `want` or larger. */
  ghost predicate HasFrom(lists: seq<seq<nat>>, want: nat) {
    exists i :: want <= i < |lists| && lists[i] != []
  }

  lemma PushedHas(lists: seq<seq<nat>>, i: nat, b: nat, want: nat)
    requires i < |lists|
    ensures want <= i || HasFrom(lists, want) ==> HasFrom(lists[i := [b] + lists[i]], want)
  {
    var lists' := lists[i := [b] + lists[i]];
    if want <= i {
      assert lists'[i] != [];
    } else if HasFrom(lists, want) {
      var k :| want <= k < |lists| && lists[k] != [];
      assert lists'[k] != [];
    }
  }

  lemma HeadsHave(m: seq<Unit>, s: Blocks, heads: seq<nat>, lists: seq<seq<nat>>, want: nat)
    requires ListsOk(m, s, heads, lists) && HasFrom(lists, want) && |heads| == NUM_INDEXES
    ensures exists i :: want <= i < NUM_INDEXES && heads[i] != 0
  {
    hide Link, Units, ClassOf;
    var i :| want <= i < |lists| && lists[i] != [];
    ListOf(m, s, heads, lists, i);
    assert NodeOk(m, s, Units(i), lists[i], 0);
  }

  /** A long block is filled, or still waits. */
  lemma BigLater(s: Blocks, t: Blocks, a: nat, n: nat, size: nat)
    requires OnlyWithin(s, t, a, size) && Big(s, n) && a in s.size && s.size[a] < n
    ensures Big(t, n)
  {
    hide Used, FreeUnits;
    var b :| b in s.loose && b in s.size && s.size[b] >= n;
    IsBig(t, b, n);
  }

  lemma IsDistinct(m: seq<Unit>, s: Blocks, l: seq<nat>)
    requires Roll(m, s, l, 0)
    ensures Distinct(l)
  {
  }

  lemma NoneBig(s: Blocks, n: nat)
    requires s.loose == {}
    ensures !Big(s, n)
  {
  }
}
