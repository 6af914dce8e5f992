/** The scheduler's binary min-heap as functions on a sequence of event records:
    one function per in-place heap algorithm, and what each of them does to the
    heap order and to the pending events. */
module EventHeap {

  const TWO_64: nat := 0x1_0000_0000_0000_0000

  type U64 = x: nat | x < TWO_64

  type U16 = x: nat | x < 0x1_0000

  /** One pooled event. `key` is the heap key, `uid` names the event in save states. */
  datatype Record = Record(timestamp: U64, key: U64, uid: U64, userData: U64, class_: U16)

  function Parent(n: nat): nat {
    if n == 0 then 0 else (n - 1) / 2
  }

  function LeftChild(n: nat): nat { 2 * n + 1 }

  function RightChild(n: nat): nat { 2 * n + 2 }

  function Swap(h: seq<Record>, i: nat, j: nat): (r: seq<Record>)
    requires i < |h| && j < |h|
  {
    h[i := h[j]][j := h[i]]
  }

  /** The sift-up loop shared by `Add` and `Remove`. */
  function SiftUp(h: seq<Record>, n: nat): (r: seq<Record>)
    requires n < |h|
    ensures |r| == |h|
    decreases n
  {
    if n != 0 && h[Parent(n)].key > h[n].key then
      SiftUp(Swap(h, n, Parent(n)), Parent(n))
    else
      h
  }

  /** The doubly recursive sift-down: both children are tried in turn, so two swaps can happen at one node. */
  function Heapify(h: seq<Record>, size: nat, n: nat): (r: seq<Record>)
    requires size <= |h|
    ensures |r| == |h|
    decreases size - n
  {
    var l, r := LeftChild(n), RightChild(n);
    var h1 := if l < size && h[l].key < h[n].key then Heapify(Swap(h, l, n), size, l) else h;
    if r < size && h1[r].key < h1[n].key then Heapify(Swap(h1, r, n), size, r) else h1
  }

  /** Moves the event at `n` up or down to where it belongs. */
  function Settle(h: seq<Record>, size: nat, n: nat): (r: seq<Record>)
    requires size <= |h| && n < |h|
    ensures |r| == |h|
  {
    if n != 0 && h[Parent(n)].key > h[n].key then SiftUp(h, n) else Heapify(h, size, n)
  }

  /** Removal of position `n` from a heap of `size` events; the removed event ends at `size - 1`. */
  function RemoveAt(h: seq<Record>, size: nat, n: nat): (r: seq<Record>)
    requires n < size <= |h|
    ensures |r| == |h|
  {
    Settle(Swap(h, n, size - 1), size - 1, n)
  }

  /** Insertion of `e` at the end of a heap of `size` events. */
  function Insert(h: seq<Record>, size: nat, e: Record): (r: seq<Record>)
    requires size < |h|
    ensures |r| == |h|
  {
    SiftUp(h[size := e], size)
  }

  // ---------------------------------------------------------------- heap order

  ghost predicate Ordered(h: seq<Record>, size: nat)
    requires size <= |h|
  {
    forall j :: 0 < j < size ==> h[Parent(j)].key <= h[j].key
  }

  /** Ordered everywhere except possibly between `n` and its parent. */
  ghost predicate OrderedBut(h: seq<Record>, size: nat, n: nat)
    requires n < size <= |h|
  {
    && (forall j :: 0 < j < size && j != n ==> h[Parent(j)].key <= h[j].key)
    && (forall j :: 0 < j < size && Parent(j) == n && n != 0 ==> h[Parent(n)].key <= h[j].key)
  }

  lemma {:induction false} SiftUpOrders(h: seq<Record>, size: nat, n: nat)
    requires n < size <= |h| && OrderedBut(h, size, n)
    ensures Ordered(SiftUp(h, n), size)
    decreases n
  {
    if n != 0 && h[Parent(n)].key > h[n].key {
      var p := Parent(n);
      var g := Swap(h, n, p);
      forall j | 0 < j < size && j != p
        ensures g[Parent(j)].key <= g[j].key
      {
        if Parent(j) == n {
          assert h[Parent(n)].key <= h[j].key;
        } else if j != n && Parent(j) == p {
          assert h[p].key <= h[j].key;
        }
      }
      SiftUpOrders(g, size, p);
    }
  }

  /** `j` lies in the subtree rooted at `n`. */
  ghost predicate Below(n: nat, j: nat)
    decreases j
  {
    j == n || (j > n && Below(n, Parent(j)))
  }

  /** The subtree rooted at `n` is a heap. */
  ghost predicate SubHeap(h: seq<Record>, size: nat, n: nat)
    requires size <= |h|
  {
    forall j :: n < j < size && Below(n, j) ==> h[Parent(j)].key <= h[j].key
  }

  /** Every key of the subtree rooted at `n` is at least `b`. */
  ghost predicate AllAtLeast(h: seq<Record>, size: nat, n: nat, b: nat)
    requires size <= |h|
  {
    forall j :: n <= j < size && Below(n, j) ==> b <= h[j].key
  }

  lemma {:induction false} BelowTransitive(a: nat, b: nat, c: nat)
    requires Below(a, b) && Below(b, c)
    ensures Below(a, c)
    decreases c
  {
    if c != b {
      BelowTransitive(a, b, Parent(c));
    }
  }

  /** The subtree of `n` is `n` and the two disjoint subtrees of its children. */
  lemma {:induction false} BelowSplit(n: nat, j: nat)
    ensures Below(n, j) <==> j == n || Below(LeftChild(n), j) || Below(RightChild(n), j)
    ensures !(Below(LeftChild(n), j) && Below(RightChild(n), j))
    ensures Below(LeftChild(n), j) ==> j > n
    ensures Below(RightChild(n), j) ==> j > n
    decreases j
  {
    if j > 0 {
      BelowSplit(n, Parent(j));
    }
  }

  lemma {:induction false} BelowIsLarger(n: nat, j: nat)
    requires Below(n, j)
    ensures n <= j
  {
  }

  lemma {:induction false} RootIsMinimum(h: seq<Record>, size: nat, n: nat, j: nat)
    requires size <= |h| && j < size && Below(n, j) && SubHeap(h, size, n)
    ensures h[n].key <= h[j].key
    decreases j
  {
    if j != n {
      RootIsMinimum(h, size, n, Parent(j));
    }
  }

  lemma {:induction false} AllBelowRoot(j: nat)
    ensures Below(0, j)
    decreases j
  {
    if j != 0 {
      AllBelowRoot(Parent(j));
    }
  }

  lemma {:induction false} SubHeapDown(h: seq<Record>, size: nat, n: nat, c: nat)
    requires size <= |h| && Below(n, c) && SubHeap(h, size, n)
    ensures SubHeap(h, size, c)
  {
    forall j | c < j < size && Below(c, j)
      ensures h[Parent(j)].key <= h[j].key
    {
      BelowTransitive(n, c, j);
      BelowIsLarger(n, c);
    }
  }

  lemma AtLeastDown(h: seq<Record>, size: nat, n: nat, c: nat, b: nat)
    requires size <= |h| && n < c && Parent(c) == n && AllAtLeast(h, size, n, b)
    ensures AllAtLeast(h, size, c, b)
  {
    assert Below(n, n) && Below(n, c);
    forall j | c <= j < size && Below(c, j) ensures b <= h[j].key {
      BelowTransitive(n, c, j);
    }
  }

  /** `r` agrees with `h` on the whole subtree of `c`. */
  ghost predicate SameBelow(h: seq<Record>, r: seq<Record>, size: nat, c: nat)
  {
    && size <= |h| == |r|
    && forall j :: c <= j < size && Below(c, j) ==> r[j] == h[j]
  }

  /** `r` agrees with `h` outside the subtree of `n`. */
  ghost predicate SameOutside(h: seq<Record>, r: seq<Record>, size: nat, n: nat)
  {
    && size <= |h| == |r|
    && forall j :: 0 <= j < |h| && (j >= size || !Below(n, j)) ==> r[j] == h[j]
  }

  lemma UnchangedSubtree(h: seq<Record>, r: seq<Record>, size: nat, c: nat, b: nat)
    requires SameBelow(h, r, size, c) && SubHeap(h, size, c) && AllAtLeast(h, size, c, b)
    ensures SubHeap(r, size, c) && AllAtLeast(r, size, c, b)
  {
    forall j | c < j < size && Below(c, j) ensures r[Parent(j)].key <= r[j].key {
      assert Below(c, Parent(j));
      BelowIsLarger(c, Parent(j));
    }
  }

  /** A node that is not larger than anything in its two heap-shaped child subtrees roots a heap. */
  lemma Assemble(h: seq<Record>, size: nat, n: nat, b: nat)
    requires n < size <= |h| && b <= h[n].key
    requires SubHeap(h, size, LeftChild(n)) && AllAtLeast(h, size, LeftChild(n), h[n].key)
    requires SubHeap(h, size, RightChild(n)) && AllAtLeast(h, size, RightChild(n), h[n].key)
    ensures SubHeap(h, size, n) && AllAtLeast(h, size, n, b)
  {
    forall j | n < j < size && Below(n, j) ensures h[Parent(j)].key <= h[j].key && b <= h[j].key {
      BelowSplit(n, j);
      var c := if Below(LeftChild(n), j) then LeftChild(n) else RightChild(n);
      BelowIsLarger(c, j);
      if j == c {
        assert Parent(j) == n;
      }
    }
  }

  /** One half of a sift-down at `n`, towards child `c`: the subtree of `c` ends as a heap whose keys
      are all at least the new key at `n`, and nothing but `n` and that subtree moves. */
  ghost predicate ChildDone(h: seq<Record>, r: seq<Record>, size: nat, n: nat, c: nat, b: nat)
  {
    && n < size <= |h| == |r|
    && SubHeap(r, size, c)
    && AllAtLeast(r, size, c, r[n].key)
    && b <= r[n].key <= h[n].key
    && forall j :: 0 <= j < |h| && j != n && (j >= size || !Below(c, j)) ==> r[j] == h[j]
  }

  function ChildStep(h: seq<Record>, size: nat, n: nat, c: nat): (r: seq<Record>)
    requires n < size <= |h| && n < c
    ensures |r| == |h|
  {
    if c < size && h[c].key < h[n].key then Heapify(Swap(h, c, n), size, c) else h
  }

  /** Sift-down of `n` repairs its subtree once both child subtrees are heaps, keeps every lower
      bound of the subtree's keys, and moves nothing outside the subtree. */
  lemma {:induction false} HeapifyRepairs(h: seq<Record>, size: nat, n: nat, b: nat)
    requires n < size <= |h|
    requires SubHeap(h, size, LeftChild(n)) && SubHeap(h, size, RightChild(n))
    requires AllAtLeast(h, size, n, b)
    ensures SubHeap(Heapify(h, size, n), size, n)
    ensures AllAtLeast(Heapify(h, size, n), size, n, b)
    ensures SameOutside(h, Heapify(h, size, n), size, n)
    decreases size - n, 1
  {
    var l, r := LeftChild(n), RightChild(n);
    var h1 := ChildStep(h, size, n, l);
    AtLeastDown(h, size, n, l, b);
    AtLeastDown(h, size, n, r, b);
    assert Below(n, n);
    ChildStepRepairs(h, size, n, l, b);
    assert SubHeap(h1, size, r) && AllAtLeast(h1, size, r, b) by {
      forall j | r <= j < size && Below(r, j) ensures h1[j] == h[j] && b <= h[j].key {
        BelowSplit(n, j);
      }
      UnchangedSubtree(h, h1, size, r, b);
    }
    var h2 := ChildStep(h1, size, n, r);
    ChildStepRepairs(h1, size, n, r, b);
    assert SubHeap(h2, size, l) && AllAtLeast(h2, size, l, h2[n].key) by {
      forall j | l <= j < size && Below(l, j) ensures h2[j] == h1[j] {
        BelowSplit(n, j);
      }
      assert AllAtLeast(h1, size, l, h2[n].key);
      UnchangedSubtree(h1, h2, size, l, h2[n].key);
    }
    Assemble(h2, size, n, b);
    assert h2 == Heapify(h, size, n);
    forall j | 0 <= j < |h| && (j >= size || !Below(n, j)) ensures h2[j] == h[j] {
      BelowSplit(n, j);
    }
  }

  lemma {:induction false} ChildStepRepairs(h: seq<Record>, size: nat, n: nat, c: nat, b: nat)
    requires n < size <= |h|
    requires c == LeftChild(n) || c == RightChild(n)
    requires SubHeap(h, size, c) && b <= h[n].key && AllAtLeast(h, size, c, b)
    ensures ChildDone(h, ChildStep(h, size, n, c), size, n, c, b)
    decreases size - n, 0
  {
    if c < size && h[c].key < h[n].key {
      var g := Swap(h, c, n);
      forall j | c <= j < size && Below(c, j) ensures h[c].key <= g[j].key {
        RootIsMinimum(h, size, c, j);
      }
      SwapKeepsGrandchildren(h, size, n, c, LeftChild(c));
      SwapKeepsGrandchildren(h, size, n, c, RightChild(c));
      assert AllAtLeast(g, size, c, h[c].key);
      HeapifyRepairs(g, size, c, h[c].key);
      NotBelowSmaller(c, n);
      assert Below(c, c);
    } else {
      forall j | c <= j < size && Below(c, j) ensures h[n].key <= h[j].key {
        RootIsMinimum(h, size, c, j);
      }
    }
  }

  lemma SwapKeepsGrandchildren(h: seq<Record>, size: nat, n: nat, c: nat, k: nat)
    requires n < c < size <= |h| && (k == LeftChild(c) || k == RightChild(c))
    requires SubHeap(h, size, c)
    ensures SubHeap(Swap(h, c, n), size, k)
  {
    assert Below(c, c);
    assert Below(c, k);
    SubHeapDown(h, size, c, k);
    UnchangedSubtree(h, Swap(h, c, n), size, k, 0);
  }

  lemma NotBelowSmaller(c: nat, n: nat)
    requires n < c
    ensures !Below(c, n)
  {
  }

  // ---------------------------------------------------------------- which events are pending

  lemma SwapPermutes(h: seq<Record>, size: nat, i: nat, j: nat)
    requires i < size <= |h| && j < size
    ensures multiset(Swap(h, i, j)[..size]) == multiset(h[..size])
  {
    var a, c := h[..size], Swap(h, i, j)[..size];
    assert c == a[i := a[j]][j := a[i]];
  }

  lemma {:induction false} SiftUpPermutes(h: seq<Record>, size: nat, n: nat)
    requires n < size <= |h|
    ensures multiset(SiftUp(h, n)[..size]) == multiset(h[..size])
    ensures forall j :: size <= j < |h| ==> SiftUp(h, n)[j] == h[j]
    decreases n
  {
    if n != 0 && h[Parent(n)].key > h[n].key {
      SwapPermutes(h, size, n, Parent(n));
      SiftUpPermutes(Swap(h, n, Parent(n)), size, Parent(n));
    }
  }

  lemma {:induction false} HeapifyPermutes(h: seq<Record>, size: nat, n: nat)
    requires n <= size <= |h|
    ensures multiset(Heapify(h, size, n)[..size]) == multiset(h[..size])
    ensures forall j :: size <= j < |h| ==> Heapify(h, size, n)[j] == h[j]
    decreases size - n, 1
  {
    if n < size {
      var h1 := ChildStep(h, size, n, LeftChild(n));
      ChildStepPermutes(h, size, n, LeftChild(n));
      ChildStepPermutes(h1, size, n, RightChild(n));
      assert ChildStep(h1, size, n, RightChild(n)) == Heapify(h, size, n);
    }
  }

  lemma {:induction false} ChildStepPermutes(h: seq<Record>, size: nat, n: nat, c: nat)
    requires n < size <= |h| && n < c
    ensures multiset(ChildStep(h, size, n, c)[..size]) == multiset(h[..size])
    ensures forall j :: size <= j < |h| ==> ChildStep(h, size, n, c)[j] == h[j]
    decreases size - n, 0
  {
    if c < size && h[c].key < h[n].key {
      SwapPermutes(h, size, c, n);
      HeapifyPermutes(Swap(h, c, n), size, c);
    }
  }

  // ---------------------------------------------------------------- the two operations

  /** Insertion keeps the heap order and adds exactly `e`. */
  lemma InsertIsCorrect(h: seq<Record>, size: nat, e: Record)
    requires size < |h| && Ordered(h, size)
    ensures Ordered(Insert(h, size, e), size + 1)
    ensures multiset(Insert(h, size, e)[..size + 1]) == multiset(h[..size]) + multiset{e}
  {
    hide SiftUp, Ordered;
    var g := h[size := e];
    AppendedOrderedBut(h, size, e);
    SiftUpOrders(g, size + 1, size);
    SiftUpPermutes(g, size + 1, size);
    assert g[..size + 1] == h[..size] + [e];
  }

  lemma AppendedOrderedBut(h: seq<Record>, size: nat, e: Record)
    requires size < |h| && Ordered(h, size)
    ensures OrderedBut(h[size := e], size + 1, size)
  {
  }

  /** Removal keeps the heap order. */
  lemma RemoveOrders(h: seq<Record>, size: nat, n: nat)
    requires n < size <= |h| && Ordered(h, size)
    ensures Ordered(RemoveAt(h, size, n), size - 1)
  {
    var g := Swap(h, n, size - 1);
    if n != 0 && g[Parent(n)].key > g[n].key {
      SwappedOrderedBut(h, size, n);
      SiftUpOrders(g, size - 1, n);
    } else if n < size - 1 {
      SiftDownOrders(h, size, n);
    } else {
      assert Heapify(g, size - 1, n) == g;
    }
  }

  lemma SwappedOrderedBut(h: seq<Record>, size: nat, n: nat)
    requires 0 < n < size <= |h| && Ordered(h, size)
    requires h[Parent(n)].key > h[size - 1].key
    ensures n < size - 1 && OrderedBut(Swap(h, n, size - 1), size - 1, n)
  {
    var g := Swap(h, n, size - 1);
    forall j | 0 < j < size - 1 && Parent(j) == n ensures g[Parent(n)].key <= g[j].key {
      assert h[n].key <= h[j].key && h[Parent(n)].key <= h[n].key;
    }
  }

  /** The sift-down branch of removal: the last event, put at `n`, is not below its new parent. */
  lemma SiftDownOrders(h: seq<Record>, size: nat, n: nat)
    requires n < size - 1 && size <= |h| && Ordered(h, size)
    requires n == 0 || h[Parent(n)].key <= h[size - 1].key
    ensures Ordered(Heapify(Swap(h, n, size - 1), size - 1, n), size - 1)
  {
    hide Heapify, SubHeap, AllAtLeast, SameOutside, Below;
    var last := size - 1;
    var g := Swap(h, n, last);
    var b := if n == 0 then 0 else h[Parent(n)].key;
    SwappedAtLeast(h, size, n, b);
    SwappedSubHeap(h, size, n, LeftChild(n));
    SwappedSubHeap(h, size, n, RightChild(n));
    HeapifyRepairs(g, last, n, b);
    GlueSubtree(h, g, Heapify(g, last, n), last, n, b);
  }

  lemma SwappedAtLeast(h: seq<Record>, size: nat, n: nat, b: nat)
    requires n < size - 1 && size <= |h| && Ordered(h, size)
    requires b <= h[n].key && b <= h[size - 1].key
    ensures AllAtLeast(Swap(h, n, size - 1), size - 1, n, b)
  {
    forall j | n <= j < size - 1 && Below(n, j) ensures b <= Swap(h, n, size - 1)[j].key {
      RootIsMinimum(h, size, n, j);
    }
  }

  /** A repaired subtree that keeps the bound set by its parent fits back into the heap around it. */
  lemma GlueSubtree(h: seq<Record>, g: seq<Record>, r: seq<Record>, size: nat, n: nat, b: nat)
    requires n < size < |h| == |g| && Ordered(h, size + 1) && SameOutside(g, r, size, n)
    requires forall j :: 0 <= j < size && j != n ==> g[j] == h[j]
    requires SubHeap(r, size, n) && AllAtLeast(r, size, n, b)
    requires n == 0 || b == h[Parent(n)].key
    ensures Ordered(r, size)
  {
    forall j | 0 < j < size ensures r[Parent(j)].key <= r[j].key {
      if j == n {
        NotBelowSmaller(n, Parent(n));
        assert Below(n, n);
      } else if !Below(n, j) {
        NotBelowUp(n, j);
        assert r[j] == h[j];
      } else {
        BelowIsLarger(n, j);
      }
    }
  }

  lemma SwappedSubHeap(h: seq<Record>, size: nat, n: nat, k: nat)
    requires n < size - 1 && size <= |h| && Ordered(h, size) && n < k
    ensures SubHeap(Swap(h, n, size - 1), size - 1, k)
  {
    var g := Swap(h, n, size - 1);
    forall j | k < j < size - 1 && Below(k, j) ensures g[Parent(j)].key <= g[j].key {
      BelowIsLarger(k, Parent(j));
    }
  }

  lemma NotBelowUp(n: nat, j: nat)
    requires !Below(n, j) && j != 0
    ensures !Below(n, Parent(j))
  {
    if n > Parent(j) {
      NotBelowSmaller(n, Parent(j));
    }
  }

  /** Removal takes away exactly the event at `n` and parks it just past the heap. */
  lemma RemovePermutes(h: seq<Record>, size: nat, n: nat)
    requires n < size <= |h| && Ordered(h, size)
    ensures multiset(RemoveAt(h, size, n)[..size - 1]) == multiset(h[..size]) - multiset{h[n]}
    ensures RemoveAt(h, size, n)[size - 1] == h[n]
  {
    hide SiftUp, Heapify, Ordered, OrderedBut;
    var g := Swap(h, n, size - 1);
    SwapDropsLast(h, size, n);
    if n != 0 && g[Parent(n)].key > g[n].key {
      SwappedOrderedBut(h, size, n);
      SiftUpPermutes(g, size - 1, n);
    } else {
      HeapifyPermutes(g, size - 1, n);
    }
  }

  lemma SwapDropsLast(h: seq<Record>, size: nat, n: nat)
    requires n < size <= |h|
    ensures multiset(Swap(h, n, size - 1)[..size - 1]) == multiset(h[..size]) - multiset{h[n]}
    ensures Swap(h, n, size - 1)[size - 1] == h[n]
  {
    var g := Swap(h, n, size - 1);
    SwapPermutes(h, size, n, size - 1);
    assert g[..size] == g[..size - 1] + [h[n]];
  }

  /** The top of an ordered heap is a minimum of it. */
  lemma TopIsMinimum(h: seq<Record>, size: nat)
    requires 0 < size <= |h| && Ordered(h, size)
    ensures forall j :: 0 <= j < size ==> h[0].key <= h[j].key
  {
    forall j | 0 <= j < size ensures h[0].key <= h[j].key {
      AllBelowRoot(j);
      RootIsMinimum(h, size, 0, j);
    }
  }
}
