/** The lists of free blocks that PPMd's allocator threads through its arena. */
module PpmdLists {
  import opened PpmdSizes
  import opened PpmdBlocks

  const HALF: nat := 0x1_0000

  /** A unit of the arena: two halfwords and a word. Its last word is not used by the allocator. */
  datatype Unit = Unit(stamp: nat, nu: nat, next: nat)

  /** The link of a free list lies over the stamp and the size. */
  function Link(x: Unit): nat {
    x.stamp + HALF * x.nu
  }

  function WithLink(x: Unit, to: nat): (r: Unit)
    ensures Link(r) == to && r.next == x.next
  {
    Unit(to % HALF, to / HALF, x.next)
  }

  /** An element of a list, or the null reference after its end. */
  function At(l: seq<nat>, j: nat): nat {
    if j < |l| then l[j] else 0
  }

  ghost predicate Distinct(l: seq<nat>) {
    forall i, j :: 0 <= i < j < |l| ==> l[i] != l[j]
  }

  ghost predicate SameOutside(m: seq<Unit>, m': seq<Unit>, a: nat, n: nat) {
    |m| == |m'| && forall u :: 0 <= u < |m| && !(a <= u < a + n) ==> m'[u] == m[u]
  }

  ghost predicate NodeOk(m: seq<Unit>, s: Blocks, n: nat, l: seq<nat>, j: nat)
    requires j < |l|
  {
    l[j] in s.listed && l[j] in s.size && s.size[l[j]] == n && 0 < l[j] < |m| && Link(m[l[j]]) == At(l, j + 1)
  }

  /** The list from `head` on holds the blocks `l` of `n` units each. */
  ghost predicate ListOk(m: seq<Unit>, s: Blocks, n: nat, head: nat, l: seq<nat>) {
    head == At(l, 0) && Distinct(l) && forall j :: 0 <= j < |l| ==> NodeOk(m, s, n, l, j)
  }

  ghost predicate Findable(s: Blocks, lists: seq<seq<nat>>, b: nat)
    requires |lists| == NUM_INDEXES
  {
    b in s.size && 1 <= s.size[b] <= MAX_UNITS && b in lists[ClassOf(s.size[b])]
  }

  /** Every list holds blocks of its own size, and every listed block is in the list of its size. */
  ghost predicate ListsOk(m: seq<Unit>, s: Blocks, heads: seq<nat>, lists: seq<seq<nat>>) {
    && |lists| == NUM_INDEXES && |heads| == NUM_INDEXES
    && (forall i :: 0 <= i < NUM_INDEXES ==> ListOk(m, s, Units(i), heads[i], lists[i]))
    && (forall b :: b in s.listed ==> Findable(s, lists, b))
  }

  // ---------------------------------------------------------------- one list

  lemma PushOne(m: seq<Unit>, s: Blocks, n: nat, head: nat, l: seq<nat>, b: nat)
    requires ListOk(m, s, n, head, l) && b in s.loose && b !in s.listed && b in s.size && s.size[b] == n && 0 < b < |m|
    ensures ListOk(m[b := WithLink(m[b], head)], List(s, b), n, b, [b] + l)
  {
    hide Link, WithLink;
    var m', s', l' := m[b := WithLink(m[b], head)], List(s, b), [b] + l;
    forall j | 0 <= j < |l'| ensures NodeOk(m', s', n, l', j) {
      if j > 0 {
        assert NodeOk(m, s, n, l, j - 1);
      }
    }
    forall i, j | 0 <= i < j < |l'| ensures l'[i] != l'[j] {
      assert NodeOk(m, s, n, l, j - 1);
    }
  }

  lemma PopOne(m: seq<Unit>, s: Blocks, n: nat, head: nat, l: seq<nat>)
    requires ListOk(m, s, n, head, l) && head != 0
    ensures l != [] && head == l[0] && head in s.listed && head in s.size && s.size[head] == n && 0 < head < |m|
    ensures ListOk(m, Unlist(s, head), n, Link(m[head]), l[1..])
  {
    hide Link, WithLink;
    assert NodeOk(m, s, n, l, 0);
    var s', l' := Unlist(s, head), l[1..];
    forall j | 0 <= j < |l'| ensures NodeOk(m, s', n, l', j) {
      assert NodeOk(m, s, n, l, j + 1);
      assert l[0] != l[j + 1];
    }
    assert At(l, 1) == At(l', 0);
  }

  /** A list is not disturbed by changes elsewhere. */
  lemma KeepOne(m: seq<Unit>, s: Blocks, m': seq<Unit>, s': Blocks, n: nat, head: nat, l: seq<nat>)
    requires ListOk(m, s, n, head, l) && |m'| == |m|
    requires forall b :: b in l && b in s.listed ==> b in s'.listed
    requires forall b :: b in s.listed && b in s.size ==> b in s'.size && s'.size[b] == s.size[b]
    requires forall b :: b in s.listed && b < |m| ==> m'[b] == m[b]
    ensures ListOk(m', s', n, head, l)
  {
    hide Link, WithLink;
    forall j | 0 <= j < |l| ensures NodeOk(m', s', n, l, j) {
      assert NodeOk(m, s, n, l, j);
    }
  }

  // ---------------------------------------------------------------- all lists

  lemma ListOf(m: seq<Unit>, s: Blocks, heads: seq<nat>, lists: seq<seq<nat>>, i: nat)
    requires ListsOk(m, s, heads, lists) && i < NUM_INDEXES
    ensures |lists| == NUM_INDEXES && |heads| == NUM_INDEXES && ListOk(m, s, Units(i), heads[i], lists[i])
  {
  }

  lemma Found(m: seq<Unit>, s: Blocks, heads: seq<nat>, lists: seq<seq<nat>>, b: nat)
    requires ListsOk(m, s, heads, lists) && b in s.listed
    ensures |lists| == NUM_INDEXES && Findable(s, lists, b)
  {
  }

  lemma Push(m: seq<Unit>, s: Blocks, heads: seq<nat>, lists: seq<seq<nat>>, b: nat, i: nat)
    requires ListsOk(m, s, heads, lists) && Tiled(s) && b in s.loose && b in s.size && i < NUM_INDEXES
    requires s.size[b] == Units(i) && 0 < b < |m|
    ensures |lists| == NUM_INDEXES && |heads| == NUM_INDEXES
    ensures ListsOk(m[b := WithLink(m[b], heads[i])], List(s, b), heads[i := b], lists[i := [b] + lists[i]])
  {
    hide ListOk, Link, WithLink, Tiled, Units, ClassOf, Used;
    TiledParts(s);
    var m', s', heads', lists' := m[b := WithLink(m[b], heads[i])], List(s, b), heads[i := b], lists[i := [b] + lists[i]];
    forall k | 0 <= k < NUM_INDEXES ensures ListOk(m', s', Units(k), heads'[k], lists'[k]) {
      if k == i {
        PushOne(m, s, Units(i), heads[i], lists[i], b);
      } else {
        KeepOne(m, s, m', s', Units(k), heads[k], lists[k]);
      }
    }
    ClassOfUnits(i);
    forall c | c in s'.listed ensures Findable(s', lists', c) {
      if c != b {
        assert Findable(s, lists, c);
      }
    }
  }

  lemma Pop(m: seq<Unit>, s: Blocks, heads: seq<nat>, lists: seq<seq<nat>>, i: nat)
    requires ListsOk(m, s, heads, lists) && i < NUM_INDEXES && |heads| == NUM_INDEXES && heads[i] != 0
    ensures |lists| == NUM_INDEXES && lists[i] != [] && 0 < heads[i] < |m| && heads[i] in s.listed
    ensures heads[i] in s.size && s.size[heads[i]] == Units(i)
    ensures ListsOk(m, Unlist(s, heads[i]), heads[i := Link(m[heads[i]])], lists[i := lists[i][1..]])
  {
    hide ListOk, Link, WithLink, Units, ClassOf;
    ListOf(m, s, heads, lists, i);
    var b := heads[i];
    PopOne(m, s, Units(i), b, lists[i]);
    var s', heads', lists' := Unlist(s, b), heads[i := Link(m[b])], lists[i := lists[i][1..]];
    forall k | 0 <= k < NUM_INDEXES ensures ListOk(m, s', Units(k), heads'[k], lists'[k]) {
      if k != i {
        NotThere(m, s, heads, lists, k, i, b);
        KeepOne(m, s, m, s', Units(k), heads[k], lists[k]);
      }
    }
    forall c | c in s'.listed ensures Findable(s', lists', c) {
      assert Findable(s, lists, c);
    }
  }

  /** A block is in the list of its own size only. */
  lemma NotThere(m: seq<Unit>, s: Blocks, heads: seq<nat>, lists: seq<seq<nat>>, k: nat, i: nat, b: nat)
    requires ListsOk(m, s, heads, lists) && k < NUM_INDEXES && i < NUM_INDEXES && k != i
    requires b in s.size && s.size[b] == Units(i)
    ensures |lists| == NUM_INDEXES && b !in lists[k]
  {
    hide Link, WithLink, ClassOf;
    ListOf(m, s, heads, lists, k);
    if b in lists[k] {
      var j :| 0 <= j < |lists[k]| && lists[k][j] == b;
      assert NodeOk(m, s, Units(k), lists[k], j);
      if i < k { UnitsIncrease(i, k); } else { UnitsIncrease(k, i); }
    }
  }

  lemma KeepAll(m: seq<Unit>, s: Blocks, m': seq<Unit>, s': Blocks, heads: seq<nat>, lists: seq<seq<nat>>)
    requires ListsOk(m, s, heads, lists) && |m'| == |m| && s'.listed == s.listed
    requires forall b :: b in s.listed && b in s.size ==> b in s'.size && s'.size[b] == s.size[b]
    requires forall b :: b in s.listed && b < |m| ==> m'[b] == m[b]
    ensures ListsOk(m', s', heads, lists)
  {
    hide ListOk, Link, WithLink, Units, ClassOf;
    forall k | 0 <= k < NUM_INDEXES ensures ListOk(m', s', Units(k), heads[k], lists[k]) {
      KeepOne(m, s, m', s', Units(k), heads[k], lists[k]);
    }
    forall c | c in s'.listed ensures Findable(s', lists, c) {
      assert Findable(s, lists, c);
    }
  }
}
