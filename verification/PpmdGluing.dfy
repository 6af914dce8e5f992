/** When free blocks are glued: what the count of searches that no list serves comes to along any run of allocations and
    releases. */
module PpmdGluing {
  import opened PpmdSizes
  import opened PpmdBlocks
  import opened PpmdLists
  import opened PpmdGlue
  import opened PpmdAllocator

  /** What matters of the allocator: the count, the free units, the classes whose lists have blocks, and the gap. */
  datatype Snap = Snap(count: nat, free: set<nat>, stocked: set<nat>, gap: nat)

  /** A block of a class is asked for, and `b` is what is given, or zero; or blocks are given back, shrunk or moved. */
  datatype Event = Request(indx: nat, b: nat) | Other

  ghost function Snapshot(a: Allocator): Snap
    reads a, a.freeList
  {
    Snap(a.glueCount, FreeUnits(a.blocks), set i | 0 <= i < a.freeList.Length && a.freeList[i] != 0,
         if a.lo <= a.hi then a.hi - a.lo else 0)
  }

  /** The request has to be searched for: neither the list of its class nor the gap serves it. */
  predicate Searches(s: Snap, e: Event) {
    e.Request? && e.indx < NUM_INDEXES && e.indx !in s.stocked && s.gap < Units(e.indx)
  }

  /** The search glues the free blocks first. */
  predicate Glues(s: Snap, e: Event) {
    Searches(s, e) && s.count == 0
  }

  /** The search finds no list that serves it, gluing included. */
  ghost predicate Misses(s: Snap, e: Event) {
    Searches(s, e) && if s.count == 0 then !Run(s.free, Units(e.indx)) else forall i :: i in s.stocked ==> i < e.indx
  }

  /** One request or another operation takes the allocator from `s` to `t`. */
  ghost predicate Step(s: Snap, e: Event, t: Snap) {
    && t.count == (if Glues(s, e) then 255 else s.count) - (if Misses(s, e) then 1 else 0)
    && (Glues(s, e) && e.b == 0 ==> !Run(s.free, Units(e.indx)))
  }

  ghost predicate Linked(states: seq<Snap>, events: seq<Event>) {
    |states| == |events| + 1 && forall i :: 0 <= i < |events| ==> Step(states[i], events[i], states[i + 1])
  }

  /** The requests from `i` to `k` that no list served. */
  ghost function Missed(states: seq<Snap>, events: seq<Event>, i: nat, k: nat): (n: nat)
    requires i <= k <= |events| && |states| == |events| + 1
    ensures n <= k - i
    decreases k
  {
    if i == k then 0 else Missed(states, events, i, k - 1) + if Misses(states[k - 1], events[k - 1]) then 1 else 0
  }

  ghost predicate NeverGlued(states: seq<Snap>, events: seq<Event>, i: nat, k: nat)
    requires i <= k <= |events| && |states| == |events| + 1
  {
    forall j :: i <= j < k ==> !Glues(states[j], events[j])
  }

  /** Without gluing, the count goes down by one with every search that no list serves, and by nothing else. */
  lemma {:induction false} CountsDown(states: seq<Snap>, events: seq<Event>, i: nat, k: nat)
    requires Linked(states, events) && i <= k <= |events| && NeverGlued(states, events, i, k)
    ensures states[k].count == states[i].count - Missed(states, events, i, k)
    decreases k
  {
    hide Step, Misses;
    if i < k {
      CountsDown(states, events, i, k - 1);
      NotGlued(states[k - 1], events[k - 1], states[k]);
    }
  }

  lemma NotGlued(s: Snap, e: Event, t: Snap)
    requires Step(s, e, t) && !Glues(s, e)
    ensures t.count == s.count - if Misses(s, e) then 1 else 0
  {
  }

  lemma {:induction false} CountIsByte(states: seq<Snap>, events: seq<Event>, k: nat)
    requires Linked(states, events) && k <= |events| && states[0].count <= 255
    ensures states[k].count <= 255
    decreases k
  {
    hide Run;
    if k > 0 {
      CountIsByte(states, events, k - 1);
      assert Step(states[k - 1], events[k - 1], states[k]);
    }
  }

  /** Of more searches that no list serves than the count says, at most 256, one glues. */
  lemma GluesInTime(states: seq<Snap>, events: seq<Event>, i: nat, k: nat)
    requires Linked(states, events) && i <= k <= |events| && Missed(states, events, i, k) > states[i].count
    ensures exists j :: i <= j < k && Glues(states[j], events[j])
  {
    if NeverGlued(states, events, i, k) {
      CountsDown(states, events, i, k);
    }
  }

  /** When as many searches as the count says have not been served by a list and none of them has glued, the next search
      glues: if it gives nothing, there is no run of free units that is long enough. */
  lemma NextSearchGlues(states: seq<Snap>, events: seq<Event>, i: nat, k: nat)
    requires Linked(states, events) && i <= k < |events| && NeverGlued(states, events, i, k)
    requires Missed(states, events, i, k) == states[i].count && Searches(states[k], events[k])
    ensures Glues(states[k], events[k]) && 254 <= states[k + 1].count <= 255
    ensures events[k].b == 0 ==> !Run(states[k].free, Units(events[k].indx))
  {
    CountsDown(states, events, i, k);
    assert Step(states[k], events[k], states[k + 1]);
  }

  // ---------------------------------------------------------------- any use of the allocator

  /** Ask for a block of a class, ask for a context, or give a block back. */
  datatype Op = Ask(indx: nat) | AskContext | Return(b: nat)

  /** The blocks `held`, with their classes, are among the allocated ones; the root context is not. */
  ghost predicate Holding(used: map<nat, nat>, end: nat, held: map<nat, nat>) {
    forall b :: b in held ==> held[b] < NUM_INDEXES && b != end - 1 && b in used && used[b] == Units(held[b])
  }

  ghost predicate Good(a: Allocator, held: map<nat, nat>)
    reads a, a.mem, a.freeList, a.tables, a.tables.indx2Units, a.tables.units2Indx
  {
    a.Valid() && a.Stamped() && Holding(Used(a.blocks), a.end, held)
  }

  /** What the allocator says of the count, said of the snapshot. */
  lemma CountOfSnap(a: Allocator, indx: nat, b: nat)
    requires a.Valid() && indx < NUM_INDEXES
    ensures var s, e := Snapshot(a), Request(indx, b);
            && (Searches(s, e) <==> !(a.freeList[indx] != 0 || a.hi - a.lo >= Units(indx)))
            && (Searches(s, e) ==> a.CountAfter(indx) == (if Glues(s, e) then 255 else s.count) - if Misses(s, e) then 1 else 0)
  {
    hide Tiled, Used, FreeUnits, ListsOk, Units, Run;
    var s := Snapshot(a);
    if a.glueCount != 0 && a.freeList[indx] == 0 {
      if a.Stocked(indx) {
        var i :| indx <= i < NUM_INDEXES && a.freeList[i] != 0;
        assert i in s.stocked;
      }
    }
  }

  /** The owner of a new block writes its header, which never starts with a zero halfword. */
  method WriteHeader(a: Allocator, b: nat, indx: nat, held: map<nat, nat>) returns (more: map<nat, nat>)
    requires a.Valid() && 0 < b && indx < NUM_INDEXES && b in Used(a.blocks)
    requires Used(a.blocks)[b] == Units(indx) && b != a.end - 1 && Holding(Used(a.blocks), a.end, held)
    requires forall c :: c in Used(a.blocks) && c < a.mem.Length && c != b ==> a.mem[c].stamp != 0
    modifies a.mem
    ensures Good(a, more) && more == held[b := indx]
  {
    hide Tiled, Used, FreeUnits, ListsOk, Units;
    a.UsedInArena(b);
    ghost var was := a.mem[..];
    a.mem[b] := a.mem[b].(stamp := 1);
    WriteUsed(a.blocks, was, a.mem[..], a.freeList[..], a.lists, b, 1);
    more := held[b := indx];
  }

  /** What a block that is new leaves of the others. */
  lemma OthersKeep(a: Allocator, used: map<nat, nat>, was: seq<Unit>, b: nat, n: nat, held: map<nat, nat>)
    requires a.Valid() && a.end - 1 in used && Untouched(was, a.mem[..], used)
    requires if b == 0 then Used(a.blocks) == used else b !in used && Used(a.blocks) == used[b := n]
    requires forall c :: c in used && c < |was| ==> was[c].stamp != 0
    requires forall c :: c in used ==> used[c] > 0
    requires Holding(used, a.end, held)
    ensures Holding(Used(a.blocks), a.end, held) && b != a.end - 1
    ensures forall c :: c in Used(a.blocks) && c < a.mem.Length && (b == 0 || c != b) ==> a.mem[c].stamp != 0
  {
    hide Tiled, Used, ListsOk, Units;
    forall c | c in Used(a.blocks) && c < a.mem.Length && (b == 0 || c != b) ensures a.mem[c].stamp != 0 {
      assert a.mem[..][c] == was[c];
    }
  }

  lemma BlocksAreLarge(a: Allocator)
    requires a.Valid()
    ensures a.end - 1 in Used(a.blocks)
    ensures forall c :: c in Used(a.blocks) ==> Used(a.blocks)[c] > 0
  {
    hide Tiled, Used, ListsOk;
    forall c | c in Used(a.blocks) ensures Used(a.blocks)[c] > 0 {
      a.UsedInArena(c);
    }
  }

  lemma ContextIsUnit()
    ensures Units(0) == 1
  {
  }

  /** Asks for a block of a class, or for a context. */
  method Allocate(a: Allocator, indx: nat, context: bool, held: map<nat, nat>) returns (b: nat, more: map<nat, nat>)
    requires Good(a, held) && indx < NUM_INDEXES && (context ==> indx == 0)
    modifies a, a.mem, a.freeList
    ensures Good(a, more) && Step(old(Snapshot(a)), Request(indx, b), Snapshot(a))
  {
    hide Tiled, Used, FreeUnits, ListsOk, Units, Run, Untouched, Holding;
    ghost var s, used, was := Snapshot(a), Used(a.blocks), a.mem[..];
    BlocksAreLarge(a);
    CountOfSnap(a, indx, 0);
    ContextIsUnit();
    if context {
      b := a.AllocContext();
    } else {
      b := a.AllocUnits(indx);
    }
    OthersKeep(a, used, was, b, Units(indx), held);
    if b == 0 {
      more := held;
    } else {
      more := WriteHeader(a, b, indx, held);
    }
  }

  method GiveBack(a: Allocator, b: nat, held: map<nat, nat>) returns (fewer: map<nat, nat>)
    requires Good(a, held) && b in held
    modifies a`blocks, a`lists, a.mem, a.freeList
    ensures Good(a, fewer) && Step(old(Snapshot(a)), Other, Snapshot(a))
  {
    hide Tiled, Used, FreeUnits, ListsOk, Units, Run, Untouched;
    ghost var used, was := Used(a.blocks), a.mem[..];
    BlocksAreLarge(a);
    a.Release(b, held[b]);
    fewer := held - {b};
    FewerKeep(a, used, was, b);
  }

  lemma FewerKeep(a: Allocator, used: map<nat, nat>, was: seq<Unit>, b: nat)
    requires a.Valid() && Used(a.blocks) == used - {b} && Untouched(was, a.mem[..], Used(a.blocks))
    requires forall c :: c in used && c < |was| ==> was[c].stamp != 0
    requires forall c :: c in used ==> used[c] > 0
    ensures a.Stamped()
  {
    hide Tiled, Used, ListsOk;
    forall c | c in Used(a.blocks) && c < a.mem.Length ensures a.mem[c].stamp != 0 {
      assert a.mem[..][c] == was[c];
    }
  }

  /** What an operation is in the run; one that asks for no class, or gives back what is not held, does nothing. */
  predicate EventOf(op: Op, e: Event) {
    match op
    case Ask(indx) => indx < NUM_INDEXES ==> e.Request? && e.indx == indx
    case AskContext => e.Request? && e.indx == 0
    case Return(_) => e.Other?
  }

  /** Whatever is asked for and given back in whatever order, the allocator's snapshots are a run. */
  method Serve(a: Allocator, ops: seq<Op>) returns (ghost states: seq<Snap>, ghost events: seq<Event>, held: map<nat, nat>)
    requires Good(a, map[])
    modifies a, a.mem, a.freeList
    ensures Good(a, held) && |events| == |ops| && Linked(states, events)
    ensures states[0] == old(Snapshot(a)) && states[|ops|] == Snapshot(a)
    ensures forall i :: 0 <= i < |ops| ==> EventOf(ops[i], events[i])
  {
    hide Tiled, Used, FreeUnits, ListsOk, Units, Run, Untouched, Step, Holding, Snapshot;
    states, events, held := [Snapshot(a)], [], map[];
    for n := 0 to |ops|
      invariant Good(a, held) && |events| == n && Linked(states, events)
      invariant states[0] == old(Snapshot(a)) && states[n] == Snapshot(a)
      invariant forall i :: 0 <= i < n ==> EventOf(ops[i], events[i])
    {
      ghost var e := Other;
      match ops[n] {
        case Ask(indx) =>
          if indx < NUM_INDEXES {
            var b;
            b, held := Allocate(a, indx, false, held);
            e := Request(indx, b);
          } else {
            NothingHappens(Snapshot(a));
          }
        case AskContext =>
          var b;
          b, held := Allocate(a, 0, true, held);
          e := Request(0, b);
        case Return(b) =>
          if b in held {
            held := GiveBack(a, b, held);
          } else {
            NothingHappens(Snapshot(a));
          }
      }
      states, events := states + [Snapshot(a)], events + [e];
    }
  }

  lemma NothingHappens(s: Snap)
    ensures Step(s, Other, s)
  {
  }
}
