/** What loading a save state does to the order in which events are dispatched: never anything to the first event, and
    something to the second one exactly where keys are tied. */
module SchedulerLoading {
  import opened EventHeap
  import opened SchedulerModel
  import opened SchedulerRuns
  import opened SchedulerSave
  import opened SchedulerReplay

  // ---------------------------------------------------------------- places that insertions leave alone

  /** Sift-up of an event that is not smaller than the one at `k` does not move that one. */
  lemma {:induction false} SiftUpLeaves(h: seq<Record>, n: nat, k: nat)
    requires k < |h| && n < |h| && k != n && h[k].key <= h[n].key
    ensures SiftUp(h, n)[k] == h[k]
    decreases n
  {
    if n != 0 && h[Parent(n)].key > h[n].key {
      SiftUpLeaves(Swap(h, n, Parent(n)), Parent(n), k);
    }
  }

  lemma InsertLeaves(h: seq<Record>, size: nat, e: Record, k: nat)
    requires k < size < |h| && h[k].key <= e.key
    ensures Insert(h, size, e)[k] == h[k]
  {
    hide SiftUp;
    SiftUpLeaves(h[size := e], size, k);
  }

  /** Loading a saved event is inserting it. */
  lemma LoadIsInsert(t: State, e: Record)
    requires Regular(e) && t.size < MAX_EVENTS
    ensures LoadEvent(t, SaveEvent(e), t.now) ==
            Done(t.(slots := Insert(t.slots, t.size, e), size := t.size + 1, nextUid := (t.nextUid + 1) % TWO_64))
  {
    hide Insert, LoadedEvent;
    LoadedEventIsSaved(t, e, t.now);
  }

  /** Loading the other events leaves the event at `k` alone if it is not larger than any of them. */
  lemma {:induction false} LoadLeaves(s: State, t: State, i: nat, k: nat)
    requires i <= s.size && Good(s) && LoadedUpTo(s, i, t) && k < t.size
    requires forall j :: i <= j < s.size ==> t.slots[k].key <= s.slots[j].key
    ensures LoadEvents(t, Save(s).events[i..], s.now).Done?
    ensures LoadEvents(t, Save(s).events[i..], s.now).value.slots[k] == t.slots[k]
    ensures k < s.size == LoadEvents(t, Save(s).events[i..], s.now).value.size
    decreases s.size - i
  {
    hide Good, LoadEvent, LoadedUpTo, SaveEvent;
    var events := Save(s).events;
    if i < s.size {
      var e := s.slots[i];
      assert events[i..][0] == SaveEvent(e) && events[i..][1..] == events[i + 1..];
      LoadOne(s, t, i);
      LoadOneLeaves(s, t, i, k);
      LoadLeaves(s, LoadEvent(t, SaveEvent(e), s.now).value, i + 1, k);
    } else {
      LoadedSize(s, t);
    }
  }

  lemma LoadedSize(s: State, t: State)
    requires Good(s) && LoadedUpTo(s, s.size, t)
    ensures t.size == s.size
  {
    hide Ordered;
    PendingSize(s);
    PendingSize(t);
    assert SENTINEL in Pending(s);
    assert Others(s, s.size) + multiset{SENTINEL} == Pending(s);
  }

  lemma OthersAreFew(s: State, t: State, i: nat)
    requires i < s.size && Good(s) && LoadedUpTo(s, i, t) && s.slots[i] != SENTINEL
    ensures t.size < MAX_EVENTS
  {
    hide Ordered, GoodView;
    NextOther(s, i);
    PendingSize(t);
  }

  lemma LoadOneLeaves(s: State, t: State, i: nat, k: nat)
    requires i < s.size && Good(s) && LoadedUpTo(s, i, t) && k < t.size && t.slots[k].key <= s.slots[i].key
    requires LoadEvent(t, SaveEvent(s.slots[i]), s.now).Done?
    ensures var t' := LoadEvent(t, SaveEvent(s.slots[i]), s.now).value;
            k < t'.size && t'.slots[k] == t.slots[k]
  {
    hide Insert, Ordered;
    var e := s.slots[i];
    NextOther(s, i);
    if e != SENTINEL {
      assert Regular(e);
      hide LoadEvent, Others;
      OthersAreFew(s, t, i);
      LoadIsInsert(t, e);
      InsertLeaves(t.slots, t.size, e, k);
    }
  }

  /** The state after a save and load. */
  ghost function Reloaded(slots: seq<Record>, s: State): (t: State)
    requires |slots| == MAX_EVENTS && Good(s)
    ensures Alike(s, t)
  {
    LoadAfterSave(s, slots);
    Load(slots, Save(s)).value
  }

  /** What has become of an event that is still at `k` after `i` events have been loaded, and that is not larger than
      those that follow. */
  lemma ReloadedLeaves(slots: seq<Record>, s: State, t: State, i: nat, k: nat)
    requires |slots| == MAX_EVENTS && Good(s) && i <= s.size && LoadedUpTo(s, i, t) && k < t.size
    requires forall j :: i <= j < s.size ==> t.slots[k].key <= s.slots[j].key
    requires LoadEvents(Reset(slots).(now := s.now), Save(s).events, s.now) == LoadEvents(t, Save(s).events[i..], s.now)
    ensures k < s.size && Reloaded(slots, s).slots[k] == t.slots[k]
  {
    hide LoadEvents, LoadedUpTo, Good, Save, Reset;
    LoadLeaves(s, t, i, k);
    LoadAfterSave(s, slots);
    SameSize(s, Reloaded(slots, s));
    SavedClock(s);
  }

  lemma SavedClock(s: State)
    ensures Save(s).timestamp == s.now
  {
  }

  // ---------------------------------------------------------------- the first event

  /** The first event comes first after loading, too, whatever keys are tied. */
  lemma LoadKeepsFirst(slots: seq<Record>, s: State)
    requires |slots| == MAX_EVENTS && Good(s) && s.size > 0
    ensures Reloaded(slots, s).size > 0 && Reloaded(slots, s).slots[0] == s.slots[0]
  {
    hide Good, LoadedUpTo, Save, LoadEvents, Reset, Load;
    var t0 := Reset(slots).(now := s.now);
    ResetIsLoadedUpToNothing(s, slots);
    FirstIsLeast(s);
    assert Save(s).events[0..] == Save(s).events;
    if s.slots[0] == SENTINEL {
      ResetTop(slots, s);
      ReloadedLeaves(slots, s, t0, 0, 0);
    } else {
      var t1 := LoadedFirst(slots, s);
      ReloadedLeaves(slots, s, t1, 1, 0);
    }
  }

  lemma FirstIsLeast(s: State)
    requires Good(s) && s.size > 0
    ensures forall j :: 0 <= j < s.size ==> s.slots[0].key <= s.slots[j].key
  {
    hide GoodView;
    TopIsMinimum(s.slots, s.size);
  }

  lemma ResetTop(slots: seq<Record>, s: State)
    requires |slots| == MAX_EVENTS
    ensures var t := Reset(slots).(now := s.now); t.size == 1 && t.slots[0] == SENTINEL
  {
  }

  /** One step of loading. */
  lemma LoadNext(s: State, t: State, i: nat) returns (t': State)
    requires i < s.size && Good(s) && LoadedUpTo(s, i, t) && s.slots[i] != SENTINEL
    ensures LoadedUpTo(s, i + 1, t') && t.size < MAX_EVENTS && t'.size == t.size + 1
    ensures t'.slots == Insert(t.slots, t.size, s.slots[i])
    ensures LoadEvents(t, Save(s).events[i..], s.now) == LoadEvents(t', Save(s).events[i + 1..], s.now)
  {
    hide Ordered, Insert;
    var events, e := Save(s).events, s.slots[i];
    LoadOne(s, t, i);
    NextOther(s, i);
    OthersAreFew(s, t, i);
    LoadIsInsert(t, e);
    t' := LoadEvent(t, SaveEvent(e), s.now).value;
    assert events[i..][0] == SaveEvent(e) && events[i..][1..] == events[i + 1..];
  }

  /** The first event passes the end-of-queue event. */
  lemma LoadedFirst(slots: seq<Record>, s: State) returns (t: State)
    requires |slots| == MAX_EVENTS && Good(s) && s.size > 0 && s.slots[0] != SENTINEL
    ensures LoadedUpTo(s, 1, t) && t.size == 2 && t.slots[0] == s.slots[0] && t.slots[1] == SENTINEL
    ensures LoadEvents(Reset(slots).(now := s.now), Save(s).events, s.now) == LoadEvents(t, Save(s).events[1..], s.now)
  {
    hide LoadedUpTo, LoadEvents, Save, Reset, Insert;
    var t0 := Reset(slots).(now := s.now);
    ResetIsLoadedUpToNothing(s, slots);
    ResetTop(slots, s);
    t := LoadNext(s, t0, 0);
    assert Save(s).events[0..] == Save(s).events;
    KeyBelowSentinel(s, 0);
    InsertPasses(t0.slots, 1, s.slots[0]);
  }

  lemma KeyBelowSentinel(s: State, i: nat)
    requires Good(s) && i < s.size && s.slots[i] != SENTINEL
    ensures s.slots[i].key < SENTINEL.key && Regular(s.slots[i])
  {
    hide Ordered;
    PendingAt(s, s.slots[i]);
  }

  /** Insertion below a larger event that itself lies below a smaller one, or at the top. */
  lemma InsertPasses(h: seq<Record>, size: nat, e: Record)
    requires 0 < size < |h| && e.key < h[Parent(size)].key
    requires Parent(size) == 0 || h[Parent(Parent(size))].key <= e.key
    ensures Insert(h, size, e) == h[size := h[Parent(size)]][Parent(size) := e]
  {
    var g := Swap(h[size := e], size, Parent(size));
    assert g == h[size := h[Parent(size)]][Parent(size) := e];
    assert SiftUp(g, Parent(size)) == g;
  }

  // ---------------------------------------------------------------- the second event

  /** The event that is first once the first one is gone. */
  function Second(s: State): Record
    requires s.size > 0
  {
    Remove(s, 0).slots[0]
  }

  ghost predicate Least(p: multiset<Record>, e: Record) {
    e in p && forall g :: g in p ==> e.key <= g.key
  }

  /** No two events share the least key. */
  ghost predicate OneLeast(p: multiset<Record>) {
    forall e, f :: Least(p, e) && Least(p, f) ==> e == f
  }

  ghost function Rest(s: State): multiset<Record>
    requires s.size > 0
  {
    Pending(s) - multiset{s.slots[0]}
  }

  lemma FirstIsPending(s: State)
    requires Good(s) && s.size > 0
    ensures Least(Pending(s), s.slots[0])
  {
    hide GoodView, Ordered;
    FirstIsLeast(s);
    PendingAt(s, s.slots[0]);
    forall g | g in Pending(s) ensures s.slots[0].key <= g.key { PendingAt(s, g); }
  }

  lemma SecondIsLeast(s: State)
    requires Good(s) && s.size > 1
    ensures Least(Rest(s), Second(s))
  {
    hide GoodView, Ordered, RemoveAt;
    RemoveOrders(s.slots, s.size, 0);
    RemovePermutes(s.slots, s.size, 0);
    var t := Remove(s, 0);
    TopIsMinimum(t.slots, t.size);
    PendingAt(t, t.slots[0]);
    forall g | g in Pending(t) ensures t.slots[0].key <= g.key { PendingAt(t, g); }
  }

  /** Which of the first events of a tie is taken does not matter for this. */
  lemma OneLeastAlike(s: State, t: State)
    requires Alike(s, t) && s.size > 0 && t.size > 0 && OneLeast(Rest(s))
    ensures OneLeast(Rest(t))
  {
    var a, b := s.slots[0], t.slots[0];
    FirstIsPending(s);
    FirstIsPending(t);
    assert Pending(t) == Pending(s) && forall e :: e in Pending(s) ==> Pending(s)[e] == 1;
    hide Good, Pending;
    LeastWithout(Pending(s), a, b);
  }

  lemma LeastWithout(p: multiset<Record>, a: Record, b: Record)
    requires Least(p, a) && Least(p, b) && (forall e :: e in p ==> p[e] == 1) && OneLeast(p - multiset{a})
    ensures OneLeast(p - multiset{b})
  {
    if a != b {
      assert Least(p - multiset{a}, b);
      forall e | Least(p - multiset{b}, e) ensures e == a {
        assert a in p - multiset{b};
        if e != a {
          assert Least(p - multiset{a}, e);
          assert false;
        }
      }
    }
  }

  lemma KeepsSecond(slots: seq<Record>, s: State)
    requires |slots| == MAX_EVENTS && Good(s) && s.size > 0 && OneLeast(Rest(s))
    ensures Reloaded(slots, s).size > 0 && Second(Reloaded(slots, s)) == Second(s)
  {
    hide Good, Reloaded, Second, OneLeast, Least;
    var t := Reloaded(slots, s);
    LoadKeepsFirst(slots, s);
    SameSize(s, t);
    if s.size > 1 {
      SecondIsLeast(s);
      SecondIsLeast(t);
      SameLeast(Rest(s), Second(s), Second(t));
    } else {
      SecondOfOne(s);
      SecondOfOne(t);
    }
  }

  lemma SameLeast(p: multiset<Record>, e: Record, f: Record)
    requires OneLeast(p) && Least(p, e) && Least(p, f)
    ensures e == f
  {
  }

  lemma SecondOfOne(s: State)
    requires s.size == 1
    ensures Second(s) == s.slots[0]
  {
  }

  // ---------------------------------------------------------------- a layout that loading reorders

  lemma {:induction false} HeapifyLeaves(h: seq<Record>, size: nat, n: nat, k: nat)
    requires size <= |h| && k < |h| && !Below(n, k)
    ensures Heapify(h, size, n)[k] == h[k]
    decreases size - n
  {
    hide Below;
    var l, r := LeftChild(n), RightChild(n);
    BelowSplit(n, k);
    BelowItself(n);
    var h1 := h;
    if l < size && h[l].key < h[n].key {
      HeapifyLeaves(Swap(h, l, n), size, l, k);
      BelowItself(l);
      h1 := Heapify(Swap(h, l, n), size, l);
    }
    if r < size && h1[r].key < h1[n].key {
      HeapifyLeaves(Swap(h1, r, n), size, r, k);
      BelowItself(r);
    }
  }

  lemma BelowItself(n: nat)
    ensures Below(n, n)
  {
  }

  /** Where the two events after the first are tied, the left one comes next, unless the last one is tied with them. */
  lemma SecondOfTie(h: seq<Record>, size: nat)
    requires 4 <= size <= |h| && h[1].key == h[2].key <= h[size - 1].key
    ensures RemoveAt(h, size, 0)[0] == if h[1].key < h[size - 1].key then h[1] else h[size - 1]
  {
    var g := Swap(h, 0, size - 1);
    assert g[0] == h[size - 1] && g[1] == h[1] && g[2] == h[2];
    if h[1].key < h[size - 1].key {
      var g1 := Swap(g, 1, 0);
      NotBelowOne();
      HeapifyLeaves(g1, size - 1, 1, 0);
      HeapifyLeaves(g1, size - 1, 1, 2);
      hide Heapify, Below;
    }
  }

  lemma NotBelowOne()
    ensures !Below(1, 0) && !Below(1, 2)
  {
    assert Parent(2) == 0;
  }

  function InsertAll(h: seq<Record>, size: nat, q: seq<Record>): (r: seq<Record>)
    requires size + |q| <= |h|
    ensures |r| == |h|
    decreases |q|
  {
    if q == [] then h else InsertAll(Insert(h, size, q[0]), size + 1, q[1..])
  }

  lemma {:induction false} InsertAllIsCorrect(h: seq<Record>, size: nat, q: seq<Record>)
    requires size + |q| <= |h| && Ordered(h, size)
    ensures Ordered(InsertAll(h, size, q), size + |q|)
    ensures multiset(InsertAll(h, size, q)[..size + |q|]) == multiset(h[..size]) + multiset(q)
    decreases |q|
  {
    hide Ordered, Insert;
    if q != [] {
      InsertIsCorrect(h, size, q[0]);
      InsertAllIsCorrect(Insert(h, size, q[0]), size + 1, q[1..]);
      assert q == [q[0]] + q[1..];
    }
  }

  lemma {:induction false} InsertAllLeaves(h: seq<Record>, size: nat, q: seq<Record>, k: nat)
    requires size + |q| <= |h| && k < size && forall i :: 0 <= i < |q| ==> h[k].key <= q[i].key
    ensures InsertAll(h, size, q)[k] == h[k]
    decreases |q|
  {
    hide Insert;
    if q != [] {
      InsertLeaves(h, size, q[0], k);
      InsertAllLeaves(Insert(h, size, q[0]), size + 1, q[1..], k);
    }
  }

  /** `q` without one occurrence of `e`; the events `m` are still there. */
  lemma Without(q: seq<Record>, e: Record, m: multiset<Record>) returns (r: seq<Record>)
    requires multiset{e} + m <= multiset(q)
    ensures multiset(q) == multiset{e} + multiset(r) && |r| + 1 == |q| && m <= multiset(r)
  {
    assert e in multiset{e} + m;
    var i :| 0 <= i < |q| && q[i] == e;
    r := q[..i] + q[i + 1..];
    assert q == q[..i] + [e] + q[i + 1..];
    StillThere(multiset{e}, m, multiset(r));
  }

  lemma StillThere(p: multiset<Record>, m: multiset<Record>, r: multiset<Record>)
    requires p + m <= p + r
    ensures m <= r
  {
    forall x ensures m[x] <= r[x] {
      assert (p + m)[x] <= (p + r)[x];
    }
  }

  /** A heap with `a`, `e` and `f` in front, and the events of `q` behind them. */
  lemma Front(h: seq<Record>, a: Record, e: Record, f: Record, q: seq<Record>) returns (r: seq<Record>)
    requires |q| + 3 <= |h| && a.key <= e.key == f.key && forall i :: 0 <= i < |q| ==> e.key <= q[i].key
    ensures |r| == |h| && r[0] == a && r[1] == e && r[2] == f
    ensures Ordered(r, |q| + 3) && multiset(r[..|q| + 3]) == multiset{a, e, f} + multiset(q)
  {
    var g := h[0 := a][1 := e][2 := f];
    assert g[..3] == [a, e, f];
    hide InsertAll;
    InsertAllIsCorrect(g, 3, q);
    InsertAllLeaves(g, 3, q, 0);
    InsertAllLeaves(g, 3, q, 1);
    InsertAllLeaves(g, 3, q, 2);
    r := InsertAll(g, 3, q);
  }

  /** An event that is not smaller than any other stays where it is put. */
  lemma AtEnd(h: seq<Record>, n: nat, z: Record)
    requires 0 < n < |h| && Ordered(h, n) && forall i :: 0 <= i < n ==> h[i].key <= z.key
    ensures Ordered(h[n := z], n + 1) && multiset(h[n := z][..n + 1]) == multiset(h[..n]) + multiset{z}
  {
    assert h[n := z][..n + 1] == h[..n] + [z];
  }

  lemma Different(s: State, i: nat, j: nat)
    requires Good(s) && i < j < s.size
    ensures s.slots[i] != s.slots[j]
  {
    hide Ordered;
    PendingAt(s, s.slots[i]);
    Once(s.slots[..s.size], i, j);
  }

  lemma Once(q: seq<Record>, i: nat, j: nat)
    requires i < j < |q| && multiset(q)[q[i]] == 1
    ensures q[i] != q[j]
  {
    assert q == q[..i + 1] + q[i + 1..];
    assert q[i] in multiset(q[..i + 1]) by { assert q[..i + 1][i] == q[i]; }
    assert q[j] in multiset(q[i + 1..]) by { assert q[i + 1..][j - i - 1] == q[j]; }
  }

  lemma InRest(s: State, j: nat)
    requires Good(s) && 0 < j < s.size
    ensures s.slots[j] in Rest(s)
  {
    Different(s, 0, j);
    PendingAt(s, s.slots[j]);
    hide Good;
  }

  lemma TiedAreRegular(s: State, e: Record, f: Record)
    requires Good(s) && s.size > 0 && Least(Rest(s), e) && Least(Rest(s), f) && e != f
    ensures s.slots[0] != SENTINEL && e != SENTINEL && f != SENTINEL
    ensures s.slots[0].key <= e.key == f.key < SENTINEL.key
  {
    hide Ordered;
    FirstIsPending(s);
    assert e in Pending(s) && f in Pending(s);
  }

  /** `q` without four different events. */
  lemma WithoutFour(q: seq<Record>, a: Record, e: Record, f: Record, z: Record) returns (r: seq<Record>)
    requires multiset{a, e, f, z} <= multiset(q)
    ensures multiset(q) == multiset{a, e, f, z} + multiset(r) && |r| + 4 == |q|
  {
    Ungrouped(a, e, f, z);
    var r1 := Without(q, a, multiset{e} + (multiset{f} + multiset{z}));
    var r2 := Without(r1, e, multiset{f} + multiset{z});
    var r3 := Without(r2, f, multiset{z});
    r := Without(r3, z, multiset{});
    Grouped(a, e, f, z, multiset(r));
  }

  lemma Ungrouped(a: Record, e: Record, f: Record, z: Record)
    ensures multiset{a, e, f, z} == multiset{a} + (multiset{e} + (multiset{f} + multiset{z}))
  {
  }

  lemma Grouped(a: Record, e: Record, f: Record, z: Record, p: multiset<Record>)
    ensures multiset{a, e, f, z} + p == multiset{a} + (multiset{e} + (multiset{f} + (multiset{z} + p)))
  {
  }

  lemma FourPending(s: State, e: Record, f: Record)
    requires Good(s) && s.size > 0 && Least(Rest(s), e) && Least(Rest(s), f) && e != f
    ensures multiset{s.slots[0], e, f, SENTINEL} <= Pending(s)
  {
    TiedAreRegular(s, e, f);
    FirstIsPending(s);
    SentinelIsLast(s);
    var a, p := s.slots[0], Pending(s);
    assert p[a] == 1 && e in p && f in p;
    assert e != a && f != a by { assert (p - multiset{a})[a] == 0; }
    hide Good, Pending;
  }

  /** The events that are not put in front nor at the end. */
  lemma RestBetween(s: State, e: Record, f: Record, q: seq<Record>)
    requires Good(s) && s.size > 0 && Least(Rest(s), e)
    requires Pending(s) == multiset{s.slots[0], e, f, SENTINEL} + multiset(q)
    ensures forall i :: 0 <= i < |q| ==> e.key <= q[i].key
  {
    hide Good, Pending;
    forall i | 0 <= i < |q| ensures e.key <= q[i].key {
      assert q[i] in multiset(q);
      assert q[i] in Rest(s);
    }
  }

  lemma BelowSentinel(s: State, r: seq<Record>, n: nat)
    requires Good(s) && n <= |r| && multiset(r[..n]) <= Pending(s)
    ensures forall i :: 0 <= i < n ==> r[i].key <= SENTINEL.key
  {
    SentinelIsLast(s);
    hide Good, Pending;
    forall i | 0 <= i < n ensures r[i].key <= SENTINEL.key {
      assert r[..n][i] in multiset(r[..n]);
    }
  }

  /** A layout with the tied events side by side, and the end-of-queue event at the end. */
  lemma TiedLayout(s: State, e: Record, f: Record) returns (t: State)
    requires Good(s) && s.size > 0 && Least(Rest(s), e) && Least(Rest(s), f) && e != f
    ensures Alike(s, t) && t.size == s.size >= 4 && t.slots[0] == s.slots[0] && t.slots[1] == e && t.slots[2] == f
    ensures t.slots[t.size - 1] == SENTINEL
  {
    hide Good, Least, Ordered, Rest;
    TiedAreRegular(s, e, f);
    FourPending(s, e, f);
    var q := WithoutFour(s.slots[..s.size], s.slots[0], e, f, SENTINEL);
    RestBetween(s, e, f, q);
    var r := Front(s.slots, s.slots[0], e, f, q);
    var n := |q| + 3;
    BelowSentinel(s, r, n);
    AtEnd(r, n, SENTINEL);
    t := s.(slots := r[n := SENTINEL]);
    AlikeIf(s, t);
  }

  lemma AlikeIf(s: State, t: State)
    requires Good(s) && t.now == s.now && t.nextUid == s.nextUid && Pending(t) == Pending(s) && Ordered(t.slots, t.size)
    ensures Alike(s, t)
  {
  }

  lemma SentinelIsLast(s: State)
    requires Good(s)
    ensures SENTINEL in Pending(s) && forall g :: g in Pending(s) ==> g.key <= SENTINEL.key
  {
    hide Ordered;
  }

  /** Loading swaps the tied events. */
  lemma TiedReloaded(slots: seq<Record>, t: State)
    requires |slots| == MAX_EVENTS && Good(t) && t.size >= 4 && t.slots[0] != SENTINEL
    requires t.slots[1] != SENTINEL && t.slots[2] != SENTINEL
    requires t.slots[1].key == t.slots[2].key && Least(Rest(t), t.slots[1])
    ensures var u := Reloaded(slots, t); u.size == t.size && u.slots[1] == t.slots[2] && u.slots[2] == t.slots[1]
  {
    hide Good, LoadedUpTo, LoadEvents, Save, Reset, Insert, Reloaded, Rest;
    SameSize(t, Reloaded(slots, t));
    FirstIsLeast(t);
    KeyBelowSentinel(t, 1);
    forall j | 3 <= j < t.size ensures t.slots[1].key <= t.slots[j].key { InRest(t, j); }
    var t1 := LoadedFirst(slots, t);
    var t2 := LoadNext(t, t1, 1);
    InsertStays(t1.slots, 2, t.slots[1]);
    var t3 := LoadNext(t, t2, 2);
    InsertPasses(t2.slots, 3, t.slots[2]);
    ReloadedLeaves(slots, t, t3, 3, 1);
    ReloadedLeaves(slots, t, t3, 3, 2);
  }

  lemma InsertStays(h: seq<Record>, size: nat, e: Record)
    requires 0 < size < |h| && h[Parent(size)].key <= e.key
    ensures Insert(h, size, e) == h[size := e]
  {
  }

  lemma SecondDiffers(slots: seq<Record>, t: State)
    requires |slots| == MAX_EVENTS && Good(t) && t.size >= 4 && t.slots[0] != SENTINEL
    requires t.slots[1] != SENTINEL && t.slots[2] != SENTINEL && t.slots[t.size - 1] == SENTINEL
    requires t.slots[1].key == t.slots[2].key && Least(Rest(t), t.slots[1])
    ensures Reloaded(slots, t).size > 0 && Second(Reloaded(slots, t)) != Second(t)
  {
    hide Good, Reloaded, Rest, RemoveAt;
    var u := Reloaded(slots, t);
    TiedReloaded(slots, t);
    KeyBelowSentinel(t, 1);
    SecondOfTie(t.slots, t.size);
    Different(t, 1, 2);
    Different(u, 2, u.size - 1);
    FirstIsPending(u);
    LoadKeepsFirst(slots, t);
    SameRest(t, u);
    InRest(u, u.size - 1);
    SecondOfTie(u.slots, u.size);
  }

  lemma SameRest(t: State, u: State)
    requires Alike(t, u) && t.size > 0 && u.size > 0 && t.slots[0] == u.slots[0]
    ensures Rest(t) == Rest(u)
  {
  }

  /** When loading can change the order of dispatch at all: in every layout of the pending events, the event that follows
      the first one is the same with and without loading, if and only if the least key of the events other than the first
      is not shared. */
  lemma LoadKeepsSecondIff(slots: seq<Record>, s: State)
    requires |slots| == MAX_EVENTS && Good(s) && s.size > 0
    ensures (forall t: State :: Alike(s, t) ==>
                                  t.size > 0 && Reloaded(slots, t).size > 0 && Second(Reloaded(slots, t)) == Second(t))
            <==> OneLeast(Rest(s))
  {
    hide Good, Reloaded, Second, Rest, Least;
    if OneLeast(Rest(s)) {
      forall t: State | Alike(s, t)
        ensures t.size > 0 && Reloaded(slots, t).size > 0 && Second(Reloaded(slots, t)) == Second(t)
      {
        SameSize(s, t);
        OneLeastAlike(s, t);
        KeepsSecond(slots, t);
      }
    } else {
      var e, f :| Least(Rest(s), e) && Least(Rest(s), f) && e != f;
      TiedAreRegular(s, e, f);
      var t := TiedLayout(s, e, f);
      SameRest(s, t);
      SecondDiffers(slots, t);
    }
  }

  // ---------------------------------------------------------------- runs

  /** No dispatch but perhaps the first one is tied. */
  ghost predicate TieFreeAfterFirst<Env>(cb: Callback<Env>, s: State, env: Env, limit: int, fuel: nat) {
    Due(s, limit) && fuel > 0 && Dispatch(cb, s, env).Done? ==>
      var d := Dispatch(cb, s, env).value;
      var o := Step(cb, d.state, d.env, limit, fuel - 1);
      o.Done? && TieFree(o.value.log)
  }

  /** A save and load cannot be noticed in a run in which no dispatch but perhaps the first is tied. */
  lemma LoadingAfterFirst<Env>(cb: Callback<Env>, slots: seq<Record>, s: State, env: Env, limit: int, fuel: nat)
    requires |slots| == MAX_EVENTS && Good(s) && limit < TIME_LIMIT && TieFreeAfterFirst(cb, s, env, limit, fuel)
    ensures AlikeAfter(Both(Step(cb, s, env, limit, fuel)), Both(Step(cb, Reloaded(slots, s), env, limit, fuel)))
  {
    hide Dispatch, Alike, TieFree, Reloaded, Good;
    var t := Reloaded(slots, s);
    SameDue(s, t, limit);
    if Due(s, limit) && fuel > 0 {
      LoadKeepsFirst(slots, s);
      DispatchSameTop(cb, s, t, env);
      if Dispatch(cb, s, env).Done? {
        var d := Dispatch(cb, s, env).value;
        RunsAlike(cb, d.state, Dispatch(cb, t, env).value.state, d.env, limit, fuel - 1);
      }
    }
  }
}
