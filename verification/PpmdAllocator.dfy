/** PPMd's allocator of units, over one flat arena. */
module PpmdAllocator {
  import opened PpmdSizes
  import opened PpmdBlocks
  import opened PpmdLists
  import opened PpmdGlue

  const UNIT_SIZE: nat := 12
  const MIN_MEM_SIZE: nat := 2048

  /** The units of the given blocks have the same contents in `m` and `m'`. */
  ghost predicate Untouched(m: seq<Unit>, m': seq<Unit>, used: map<nat, nat>) {
    |m| == |m'| && forall b, u :: b in used && b <= u < b + used[b] && u < |m| ==> m'[u] == m[u]
  }

  lemma UntouchedTwice(m: seq<Unit>, m': seq<Unit>, m'': seq<Unit>, used: map<nat, nat>)
    requires Untouched(m, m', used) && Untouched(m', m'', used)
    ensures Untouched(m, m'', used)
  {
  }

  /** Writing to a unit outside of all allocated blocks. */
  lemma WriteOutside(s: Blocks, m: seq<Unit>, u: nat, x: Unit)
    requires Tiled(s) && u < |m| && (u in s.owner ==> s.owner[u] !in Used(s))
    ensures Untouched(m, m[u := x], Used(s))
  {
    hide Tiled;
    forall b, v | b in Used(s) && b <= v < b + Used(s)[b] && v < |m| ensures m[u := x][v] == m[v] {
      UnitOf(s, b, v);
    }
  }

  ghost predicate Covered(s: Blocks, start: nat, lo: nat, hi: nat, end: nat) {
    forall u :: u in s.owner <==> start <= u < lo || hi <= u < end
  }

  ghost function FirstBlocks(start: nat, end: nat): (r: Blocks)
    requires end > 0
  {
    Add(Add(Blocks(map[], map[], {}, {}), start, MAX_UNITS), end - 1, 1)
  }

  lemma FirstTiles(start: nat, lo: nat, end: nat)
    requires 1 <= start && lo == start + MAX_UNITS && lo < end
    ensures var s := FirstBlocks(start, end);
            Tiled(s) && Covered(s, start, lo, end - 1, end) && Used(s) == map[start := MAX_UNITS, end - 1 := 1]
            && s.listed == {} && s.loose == {}
  {
    hide Tiled, Used;
    var s0 := Blocks(map[], map[], {}, {});
    NoBlocks();
    AddTiles(s0, start, MAX_UNITS);
    AddKeeps(s0, start, MAX_UNITS);
    var s1 := Add(s0, start, MAX_UNITS);
    AddTiles(s1, end - 1, 1);
    AddKeeps(s1, end - 1, 1);
  }

  lemma NoBlocks()
    ensures Tiled(Blocks(map[], map[], {}, {})) && Used(Blocks(map[], map[], {}, {})) == map[]
  {
  }

  lemma NoLists(m: seq<Unit>, s: Blocks, heads: seq<nat>, lists: seq<seq<nat>>)
    requires s.listed == {} && |heads| == NUM_INDEXES && |lists| == NUM_INDEXES
    requires forall i :: 0 <= i < NUM_INDEXES ==> heads[i] == 0 && lists[i] == []
    ensures ListsOk(m, s, heads, lists)
  {
  }

  /** Where the units start: in bytes from the bottom of the arena, and in units. */
  lemma UnitsPlace(size: nat, align: nat)
    requires MIN_MEM_SIZE <= size
    ensures var end, start := (align + size) / UNIT_SIZE + 1, (align + size) / UNIT_SIZE + 1 - size / 8 / UNIT_SIZE * 7;
            && 1 <= start && start + MAX_UNITS < end && (align + size) % UNIT_SIZE < UNIT_SIZE
            && (align + size) % UNIT_SIZE + UNIT_SIZE * (start - 1) == align + size - 7 * (size / 96) * 12
            && (align + size) % UNIT_SIZE + UNIT_SIZE * (end - 1) == align + size
            && align < align + size - 7 * (size / 96) * 12
  {
    assert size / 8 / UNIT_SIZE == size / 96;
  }

  class Allocator {
    const mem: array<Unit>
    const freeList: array<nat>
    const tables: Sizes
    const size: nat
    const alignOffset: nat
    const origin: nat
    const end: nat
    var text: nat
    var start: nat
    var lo: nat
    var hi: nat
    var glueCount: nat
    ghost var blocks: Blocks
    ghost var lists: seq<seq<nat>>

    /** An arena of `size` bytes after some bytes that align its end. */
    constructor (size: nat)
      requires MIN_MEM_SIZE <= size
      ensures Valid() && Stamped() && fresh(mem) && fresh(freeList) && this.size == size && glueCount == 0
    {
      var align := (4 - size % 4) % 4;
      this.size, alignOffset, origin, end := size, align, (align + size) % UNIT_SIZE, (align + size) / UNIT_SIZE + 1;
      mem := new Unit[(align + size) / UNIT_SIZE + 1](_ => Unit(0, 0, 0));
      freeList := new nat[NUM_INDEXES](_ => 0);
      tables := new Sizes();
      text, start, lo, hi, glueCount := 0, 0, 0, 0, 0;
      blocks, lists := Blocks(map[], map[], {}, {}), [];
      new;
      RestartModel();
    }

    /** What the constructor fixes for good. */
    ghost predicate Shape()
      reads tables, tables.indx2Units, tables.units2Indx
    {
      && mem.Length == end && freeList.Length == NUM_INDEXES && MIN_MEM_SIZE <= size
      && origin == (alignOffset + size) % UNIT_SIZE && end == (alignOffset + size) / UNIT_SIZE + 1
      && tables.Built() && tables.indx2Units != freeList && tables.units2Indx != freeList
    }

    method ClearLists()
      requires freeList.Length == NUM_INDEXES
      modifies freeList
      ensures forall j :: 0 <= j < NUM_INDEXES ==> freeList[j] == 0
    {
      for i := 0 to NUM_INDEXES
        invariant forall j :: 0 <= j < i ==> freeList[j] == 0
      {
        freeList[i] := 0;
      }
    }

    /** The text starts at the bottom and the units take seven eighths of the arena from its top. Back to two allocated
        blocks: the statistics of all symbols, and the root context in the last unit. */
    method RestartModel()
      requires Shape()
      modifies this`text, this`start, this`lo, this`hi, this`glueCount, this`blocks, this`lists, mem, freeList
      ensures Valid() && Stamped() && Used(blocks) == map[start := MAX_UNITS, end - 1 := 1] && glueCount == 0
      ensures text == alignOffset && lo == start + MAX_UNITS && hi == end - 1
      ensures Address(start) == alignOffset + size - 7 * (size / 96) * 12 && Address(end) == alignOffset + size
    {
      hide Tiled, Used, ListsOk, FreeUnits, FirstBlocks, Covered, Valid, Core, Stamped;
      ClearLists();
      text, hi := alignOffset, end;
      start := hi - size / 8 / UNIT_SIZE * 7;
      lo, glueCount := start, 0;
      UnitsPlace(size, alignOffset);
      hi := hi - 1;
      mem[hi] := Unit(256, 257, 0);
      mem[start] := Unit(256, 0, 257 * HALF);
      lo := lo + MAX_UNITS;
      blocks, lists := FirstBlocks(start, end), seq(NUM_INDEXES, _ => []);
      Restarted();
    }

    lemma Restarted()
      requires Shape() && 1 <= start && lo == start + MAX_UNITS && lo <= hi && hi + 1 == end && text < Address(start)
      requires forall j :: 0 <= j < NUM_INDEXES ==> freeList[j] == 0
      requires blocks == FirstBlocks(start, end) && lists == seq(NUM_INDEXES, _ => [])
      requires mem[start].stamp != 0 && mem[end - 1].stamp != 0
      ensures Valid() && Stamped() && Used(blocks) == map[start := MAX_UNITS, end - 1 := 1]
    {
      hide Tiled, Used, ListsOk, FreeUnits, FirstBlocks, Covered;
      FirstTiles(start, lo, end);
      NoLists(mem[..], blocks, freeList[..], lists);
    }

    /** The offset of a unit in the arena, in bytes. Units have numbers from one on, so that zero can be no unit. */
    function Address(u: nat): int {
      origin + UNIT_SIZE * (u - 1)
    }

    ghost predicate Fields()
      reads this`text, this`start, this`lo, this`hi, tables, tables.indx2Units, tables.units2Indx
    {
      && mem.Length == end && freeList.Length == NUM_INDEXES && origin < UNIT_SIZE
      && 1 <= start <= lo <= hi < end && text < Address(start)
      && tables.Built() && tables.indx2Units != freeList && tables.units2Indx != freeList
    }

    ghost predicate Tiles()
      reads this`start, this`lo, this`hi, this`blocks
    {
      && Tiled(blocks) && Covered(blocks, start, lo, hi, end)
      && end > 0 && end - 1 in Used(blocks)
    }

    ghost predicate Lists()
      reads this`blocks, this`lists, mem, freeList
    {
      ListsOk(mem[..], blocks, freeList[..], lists)
    }

    ghost predicate Core()
      reads this, mem, freeList, tables, tables.indx2Units, tables.units2Indx
    {
      Fields() && Tiles() && Lists()
    }

    /** Every unit from the start to the end is in one block or in the gap, and every free block is in its list. */
    ghost predicate Valid()
      reads this, mem, freeList, tables, tables.indx2Units, tables.units2Indx
    {
      Core() && blocks.loose == {}
    }

    /** Allocated blocks start with a halfword that is not zero. */
    ghost predicate Stamped()
      reads this`blocks, mem
    {
      forall b :: b in Used(blocks) && b < mem.Length ==> mem[b].stamp != 0
    }

    lemma UsedInArena(b: nat)
      requires Fields() && Tiles() && b in Used(blocks)
      ensures 0 < b && b + Used(blocks)[b] <= mem.Length && Used(blocks)[b] > 0
      ensures end - 1 in Used(blocks) && b in blocks.size && blocks.size[b] == Used(blocks)[b]
    {
      hide Tiled;
      UsedSize(blocks, b);
      BlockInArena(b);
    }

    lemma BlockInArena(b: nat)
      requires Fields() && Tiles() && b in blocks.size
      ensures 0 < b && b + blocks.size[b] <= mem.Length && blocks.size[b] > 0
    {
      hide Tiled, Used;
      BlockOf(blocks, b);
      UnitOf(blocks, b, b);
      UnitOf(blocks, b, b + blocks.size[b] - 1);
    }

    /** Puts a block in front of the list of its size. */
    method InsertNode(node: nat, indx: nat)
      requires Core() && node in blocks.loose && indx < NUM_INDEXES
      requires node in blocks.size && blocks.size[node] == Units(indx)
      modifies this`blocks, this`lists, mem, freeList
      ensures Core() && blocks == List(old(blocks), node)
      ensures SameOutside(old(mem[..]), mem[..], node, 1)
      ensures indx < |old(lists)| && lists == old(lists)[indx := [node] + old(lists)[indx]]
    {
      hide ListsOk, Tiled, Used, Units, FreeUnits;
      BlockInArena(node);
      Push(mem[..], blocks, freeList[..], lists, node, indx);
      ListKeeps(blocks, node);
      mem[node] := WithLink(mem[node], freeList[indx]);
      freeList[indx] := node;
      blocks := List(blocks, node);
      lists := lists[indx := [node] + lists[indx]];
    }

    /** Takes the first block out of a list. */
    method RemoveNode(indx: nat) returns (node: nat)
      requires Core() && indx < NUM_INDEXES && freeList[indx] != 0
      modifies this`blocks, this`lists, freeList
      ensures Core() && node == old(freeList[indx]) && node in old(blocks).listed && blocks == Unlist(old(blocks), node)
      ensures node in blocks.size && blocks.size[node] == Units(indx)
    {
      hide ListsOk, Tiled, Used, Units, FreeUnits;
      Pop(mem[..], blocks, freeList[..], lists, indx);
      UnlistKeeps(blocks, freeList[indx]);
      node := freeList[indx];
      freeList[indx] := Link(mem[node]);
      blocks := Unlist(blocks, node);
      lists := lists[indx := lists[indx][1..]];
    }

    /** Two loose blocks in place of one. */
    ghost method CutLoose(b: nat, k: nat)
      requires Core() && b in blocks.loose && b in blocks.size && 0 < k < blocks.size[b]
      modifies this`blocks
      ensures Core() && blocks == Cut(old(blocks), b, k) && b + k !in old(blocks).size
      ensures b + k !in old(blocks).loose
      ensures Used(blocks) == Used(old(blocks)) && FreeUnits(blocks) == FreeUnits(old(blocks))
    {
      hide Tiled, Used, FreeUnits, ListsOk;
      CutTiles(blocks, b, k);
      CutKeeps(blocks, b, k);
      TiledParts(blocks);
      KeepAll(mem[..], blocks, mem[..], Cut(blocks, b, k), freeList[..], lists);
      blocks := Cut(blocks, b, k);
    }

    /** Puts a block of any size up to the largest class into the lists, in one piece or in two. */
    method InsertUnits(ptr: nat, nu: nat, ghost want: nat)
      requires Core() && ptr in blocks.loose && ptr in blocks.size && blocks.size[ptr] == nu && 1 <= nu <= MAX_UNITS
      requires want < NUM_INDEXES
      modifies this`blocks, this`lists, mem, freeList
      ensures Core() && OnlyWithin(old(blocks), blocks, ptr, nu)
      ensures SameOutside(old(mem[..]), mem[..], ptr, nu)
      ensures Units(want) <= nu || HasFrom(old(lists), want) ==> HasFrom(lists, want)
    {
      hide Tiled, Used, FreeUnits, Lists, Units, ClassOf, OnlyWithin, HasFrom;
      var i := tables.units2Indx[nu - 1];
      if Units(want) <= nu { ClassHolds(want, nu); }
      if tables.indx2Units[i] != nu {
        RemainderFits(nu);
        i := i - 1;
        var k := tables.indx2Units[i];
        CutOnly(blocks, ptr, k);
        CutLoose(ptr, k);
        ghost var before := lists;
        InsertNode(ptr + k, nu - k - 1);
        PushedHas(before, nu - k - 1, ptr + k, want);
      } else {
        ListOnly(blocks, ptr);
      }
      ghost var before := lists;
      InsertNode(ptr, i);
      PushedHas(before, i, ptr, want);
    }

    /** Gives the end of a block back to the lists. */
    method SplitBlock(ptr: nat, oldIndx: nat, newIndx: nat)
      requires Core() && newIndx < oldIndx < NUM_INDEXES
      requires ptr in blocks.loose && ptr in blocks.size && blocks.size[ptr] == Units(oldIndx)
      modifies this`blocks, this`lists, mem, freeList
      ensures Core() && blocks.loose == old(blocks).loose && ptr in blocks.size && blocks.size[ptr] == Units(newIndx)
      ensures Used(blocks) == Used(old(blocks)) && FreeUnits(blocks) == FreeUnits(old(blocks))
      ensures Units(newIndx) < Units(oldIndx)
      ensures SameOutside(old(mem[..]), mem[..], ptr + Units(newIndx), Units(oldIndx) - Units(newIndx))
    {
      hide Tiled, Used, FreeUnits, Lists, Units, ClassOf;
      UnitsIncrease(newIndx, oldIndx);
      var nu := tables.indx2Units[oldIndx] - tables.indx2Units[newIndx];
      var k := tables.indx2Units[newIndx];
      CutLoose(ptr, k);
      InsertUnits(ptr + k, nu, 0);
    }

    // -------------------------------------------------------------- gluing

    /** Since the blocks were `s0` and the memory `m0`, only free units have changed, and they are still free. */
    ghost predicate Since(m0: seq<Unit>, s0: Blocks)
      reads this`blocks, mem
    {
      Used(blocks) == Used(s0) && FreeUnits(blocks) == FreeUnits(s0) && Quiet(m0, mem[..], FreeUnits(s0))
    }

    ghost predicate Emptied(i: nat)
      reads this`lists
    {
      |lists| == NUM_INDEXES && i <= NUM_INDEXES && forall j :: 0 <= j < i ==> lists[j] == []
    }

    method Store(u: nat, x: Unit, ghost m0: seq<Unit>, ghost s0: Blocks)
      requires Core() && Since(m0, s0) && u < mem.Length && u in blocks.owner && blocks.owner[u] in blocks.loose
      modifies mem
      ensures Core() && Since(m0, s0) && mem[..] == old(mem[..])[u := x]
    {
      hide Tiled, Used, FreeUnits, ListsOk, Fields, Quiet;
      WriteLoose(mem[..], blocks, freeList[..], lists, u, x);
      QuietTwice(m0, mem[..], mem[..][u := x], FreeUnits(s0));
      mem[u] := x;
      assert mem[..] == old(mem[..])[u := x];
    }

    /** Empties a list for the program; its blocks are loose from now on. */
    method DetachList(i: nat, ghost m0: seq<Unit>, ghost s0: Blocks) returns (next: nat, ghost todo: seq<nat>)
      requires Core() && Since(m0, s0) && Emptied(i) && i < NUM_INDEXES
      modifies this`blocks, this`lists, freeList
      ensures Core() && Since(m0, s0) && Emptied(i + 1) && blocks == Detach(old(blocks), todo)
      ensures Waiting(mem[..], blocks, Units(i), next, todo) && forall j :: 0 <= j < |todo| ==> todo[j] in old(blocks).listed
    {
      hide Tiled, Used, FreeUnits, ListsOk, Quiet, Waiting, Units;
      DetachLists(mem[..], blocks, freeList[..], lists, i);
      todo := lists[i];
      DetachTiles(blocks, todo);
      next := freeList[i];
      freeList[i] := 0;
      blocks := Detach(blocks, todo);
      lists := lists[i := []];
    }

    /** Moves the blocks of one free list to the front of the long list. */
    method GatherList(i: nat, n0: nat, ghost l0: seq<nat>, ghost m0: seq<Unit>, ghost s0: Blocks)
      returns (n: nat, ghost l: seq<nat>)
      requires Core() && Since(m0, s0) && Emptied(i) && i < NUM_INDEXES
      requires Roll(mem[..], blocks, l0, 0) && n0 == At(l0, 0) && Gathered(blocks, l0, [])
      modifies this`blocks, this`lists, mem, freeList
      ensures Core() && Since(m0, s0) && Emptied(i + 1)
      ensures Roll(mem[..], blocks, l, 0) && n == At(l, 0) && Gathered(blocks, l, [])
    {
      hide Tiled, Used, FreeUnits, Lists, Quiet, Waiting, Units, Since, Roll, Gathered, Apart, Detach;
      n, l := n0, l0;
      var nu := tables.indx2Units[i];
      ghost var before := blocks;
      var next, todo := DetachList(i, m0, s0);
      ListedApart(mem[..], before, l, todo);
      DetachRoll(mem[..], before, l, todo);
      DetachGathered(before, l, todo);
      while next != 0
        invariant Core() && Since(m0, s0) && Emptied(i + 1) && nu == Units(i)
        invariant Roll(mem[..], blocks, l, 0) && n == At(l, 0) && Gathered(blocks, l, todo)
        invariant Waiting(mem[..], blocks, nu, next, todo) && Apart(l, todo)
        decreases |todo|
      {
        GatherStep(mem[..], blocks, nu, next, todo, l);
        GatherOne(blocks, l, todo);
        LooseIsFree(blocks, next);
        var tmp := next;
        next := Link(mem[tmp]);
        Store(tmp, Unit(0, nu, n), m0, s0);
        n, l, todo := tmp, [tmp] + l, todo[1..];
      }
      NothingWaits(mem[..], blocks, nu, next, todo);
    }

    /** Makes one long list of all free blocks, each with a header. */
    method CollectFree(ghost m0: seq<Unit>, ghost s0: Blocks) returns (n: nat, ghost l: seq<nat>)
      requires Valid() && Since(m0, s0)
      modifies this`blocks, this`lists, mem, freeList
      ensures Core() && Since(m0, s0) && blocks.listed == {}
      ensures Roll(mem[..], blocks, l, 0) && n == At(l, 0) && Holds(blocks, l, 0)
    {
      hide Tiled, Used, FreeUnits, ListsOk, Quiet, Units, Since, Roll;
      n, l := 0, [];
      NoList(mem[..], blocks, freeList[..], lists);
      for i := 0 to NUM_INDEXES
        invariant Core() && Since(m0, s0) && Emptied(i)
        invariant Roll(mem[..], blocks, l, 0) && n == At(l, 0) && Gathered(blocks, l, [])
      {
        n, l := GatherList(i, n, l, m0, s0);
      }
      NoneListed(mem[..], blocks, freeList[..], lists);
      GatheredAll(blocks, l);
    }

    /** What gluing relies on: allocated blocks and the gap do not look like free blocks. */
    ghost predicate Marked(m0: seq<Unit>, s0: Blocks)
      reads this`lo, this`hi
    {
      && (lo != hi ==> lo < |m0| && m0[lo].stamp == 1)
      && (forall b :: b in Used(s0) && b < |m0| ==> m0[b].stamp != 0)
    }

    /** The unit after a loose block lies in the arena; if it looks free, it starts a loose block. */
    lemma NextUnit(node: nat, m0: seq<Unit>, s0: Blocks)
      requires Fields() && Tiles() && Since(m0, s0) && Marked(m0, s0) && blocks.listed == {}
      requires node in blocks.loose && node in blocks.size
      ensures node + blocks.size[node] < mem.Length
      ensures mem[node + blocks.size[node]].stamp == 0 ==> node + blocks.size[node] in blocks.loose
    {
      hide Tiled, Quiet, Used, FreeUnits;
      var u := node + blocks.size[node];
      BlockInArena(node);
      UnitOf(blocks, node, u - 1);
      LooseUnused(blocks, node);
      UsedInArena(end - 1);
      UnitOf(blocks, end - 1, end - 1);
      if u in blocks.owner {
        NextStarts(blocks, node);
        if u !in blocks.loose {
          UsedUnmoved(blocks, m0, mem[..], u);
        }
      } else {
        GapUnmoved(blocks, m0, mem[..], u);
      }
    }

    /** A loose block and the loose block after it become one. */
    ghost method JoinLoose(a: nat, m0: seq<Unit>, s0: Blocks)
      requires Core() && Since(m0, s0) && a in blocks.loose && a in blocks.size && a + blocks.size[a] in blocks.loose
      requires a + blocks.size[a] in blocks.size && blocks.listed == {}
      modifies this`blocks
      ensures Core() && Since(m0, s0) && blocks == Join(old(blocks), a)
    {
      hide Tiled, Used, FreeUnits, ListsOk, Quiet;
      JoinTiles(blocks, a);
      JoinKeeps(blocks, a);
      KeepAll(mem[..], blocks, mem[..], Join(blocks, a), freeList[..], lists);
      blocks := Join(blocks, a);
    }

    method Swallow(node: nat, node2: nat, nu: nat, ghost l: seq<nat>, ghost p: nat, ghost m0: seq<Unit>, ghost s0: Blocks)
      requires Core() && Since(m0, s0) && blocks.listed == {}
      requires Roll(mem[..], blocks, l, 0) && Holds(blocks, l, 0) && InOrder(blocks, l, 0, p + 1)
      requires p < |l| && l[p] == node && node in blocks.loose && node in blocks.size && node2 in blocks.loose
      requires node2 == node + blocks.size[node] < mem.Length && nu == blocks.size[node] + mem[node2].nu < HALF
      modifies this`blocks, mem
      ensures Core() && Since(m0, s0) && blocks.listed == {} && node in blocks.loose
      ensures Roll(mem[..], blocks, l, 0) && Holds(blocks, l, 0) && InOrder(blocks, l, 0, p + 1)
      ensures node in blocks.size && blocks.size[node] == nu > old(blocks.size[node])
      ensures Settled(old(blocks), l, p) ==> Settled(blocks, l, p)
    {
      hide Tiled, Used, FreeUnits, Lists, Quiet, Since, Roll, Holds, InOrder, Settled;
      IsDistinct(mem[..], blocks, l);
      SwallowNext(mem[..], blocks, l, p);
      if Settled(blocks, l, p) { SettledSwallow(blocks, l, p); }
      BlockOf(blocks, node2);
      LooseIsFree(blocks, node);
      LooseIsFree(blocks, node2);
      Store(node, mem[node].(nu := nu), m0, s0);
      Store(node2, mem[node2].(nu := 0), m0, s0);
      JoinLoose(node, m0, s0);
    }

    /** Glues the free blocks after `node` to it, as long as its size fits in a halfword. */
    method GlueNode(node: nat, ghost l: seq<nat>, ghost p: nat, ghost m0: seq<Unit>, ghost s0: Blocks)
      requires Core() && Since(m0, s0) && Marked(m0, s0) && blocks.listed == {}
      requires Roll(mem[..], blocks, l, 0) && Holds(blocks, l, 0) && InOrder(blocks, l, 0, p + 1)
      requires p < |l| && l[p] == node && node in blocks.loose && Settled(blocks, l, p)
      modifies this`blocks, mem
      ensures Core() && Since(m0, s0) && blocks.listed == {}
      ensures Roll(mem[..], blocks, l, 0) && Holds(blocks, l, 0) && InOrder(blocks, l, 0, p + 1) && Settled(blocks, l, p + 1)
    {
      hide Tiled, Used, FreeUnits, Lists, Quiet, Since, Roll, Holds, InOrder, Join, Marked, Settled;
      LooseHeader(mem[..], blocks, l, p, 0);
      var nu := mem[node].nu;
      while true
        invariant Core() && Since(m0, s0) && blocks.listed == {}
        invariant Roll(mem[..], blocks, l, 0) && Holds(blocks, l, 0) && InOrder(blocks, l, 0, p + 1)
        invariant node in blocks.loose && node in blocks.size && nu == blocks.size[node] < HALF && Settled(blocks, l, p)
        decreases HALF - nu
      {
        NextUnit(node, m0, s0);
        var node2 := node + nu;
        if node2 in blocks.loose { SwallowNext(mem[..], blocks, l, p); }
        nu := nu + mem[node2].nu;
        if mem[node2].stamp != 0 || nu >= HALF {
          SettledMore(blocks, l, p);
          break;
        }
        Swallow(node, node2, nu, l, p, m0, s0);
      }
    }

    /** Walks the long list, glues what can be glued, and drops entries that were swallowed before their turn. */
    method GlueNodes(head0: nat, ghost l0: seq<nat>, ghost m0: seq<Unit>, ghost s0: Blocks)
      returns (head: nat, ghost l: seq<nat>)
      requires Core() && Since(m0, s0) && Marked(m0, s0) && blocks.listed == {}
      requires Roll(mem[..], blocks, l0, 0) && Holds(blocks, l0, 0) && head0 == At(l0, 0)
      modifies this`blocks, mem
      ensures Core() && Since(m0, s0) && blocks.listed == {}
      ensures Roll(mem[..], blocks, l, 0) && Holds(blocks, l, 0) && InOrder(blocks, l, 0, |l|) && head == At(l, 0)
      ensures Settled(blocks, l, |l|)
    {
      hide Tiled, Used, FreeUnits, Lists, Quiet, Since, Roll, Holds, InOrder, Marked, Settled;
      head, l := head0, l0;
      var n, prev: nat := head, 0;
      ghost var p: nat := 0;
      NoOrder(blocks, l);
      SettledNone(blocks, l);
      while n != 0
        invariant Core() && Since(m0, s0) && Marked(m0, s0) && blocks.listed == {} && p <= |l|
        invariant Roll(mem[..], blocks, l, 0) && Holds(blocks, l, 0) && InOrder(blocks, l, 0, p)
        invariant n == At(l, p) && head == At(l, 0) && (prev == if p == 0 then 0 else l[p - 1]) && Settled(blocks, l, p)
        decreases |l| - p
      {
        LooseHeader(mem[..], blocks, l, p, 0);
        var node := n;
        var nu := mem[node].nu;
        n := mem[node].next;
        if nu == 0 {
          SettledDrop(blocks, l, p);
          head := DropNode(head, prev, n, l, p, m0, s0);
          l := Without(l, p);
        } else {
          EnterEntry(mem[..], blocks, l, p);
          GlueNode(node, l, p, m0, s0);
          prev, p := node, p + 1;
        }
      }
      NoEntry(mem[..], blocks, l, p, 0);
    }

    /** Lets the entry before point to the entry after. */
    method DropNode(head: nat, prev: nat, n: nat, ghost l: seq<nat>, ghost p: nat, ghost m0: seq<Unit>, ghost s0: Blocks)
      returns (newHead: nat)
      requires Core() && Since(m0, s0) && Roll(mem[..], blocks, l, 0) && Holds(blocks, l, 0) && InOrder(blocks, l, 0, p)
      requires p < |l| && l[p] !in blocks.loose && n == At(l, p + 1)
      requires head == At(l, 0) && prev == if p == 0 then 0 else l[p - 1]
      modifies mem
      ensures Core() && Since(m0, s0)
      ensures Roll(mem[..], blocks, Without(l, p), 0) && Holds(blocks, Without(l, p), 0) && InOrder(blocks, Without(l, p), 0, p)
      ensures n == At(Without(l, p), p) && newHead == At(Without(l, p), 0) && p <= |Without(l, p)|
      ensures prev == if p == 0 then 0 else Without(l, p)[p - 1]
    {
      hide Tiled, Used, FreeUnits, Lists, Quiet, Since, Roll, Holds, InOrder;
      DropEntry(mem[..], blocks, l, p);
      newHead := head;
      if p > 0 { LooseHeader(mem[..], blocks, l, p - 1, 0); }
      if prev == 0 {
        newHead := n;
      } else {
        Store(prev, mem[prev].(next := n), m0, s0);
      }
    }

    /** Puts a block of any size into the lists, the largest class first. */
    method FillBlock(ptr: nat, units: nat, ghost want: nat)
      requires Core() && ptr in blocks.loose && ptr in blocks.size && blocks.size[ptr] == units && want < NUM_INDEXES
      modifies this`blocks, this`lists, mem, freeList
      ensures Core() && OnlyWithin(old(blocks), blocks, ptr, units) && SameOutside(old(mem[..]), mem[..], ptr, units)
      ensures Units(want) <= units || HasFrom(old(lists), want) ==> HasFrom(lists, want)
    {
      hide Tiled, Used, FreeUnits, Lists, Partly, OnlyWithin, HasFrom;
      ghost var first := blocks;
      var nu, node := units, ptr;
      BlockOf(blocks, ptr);
      PartlyNone(blocks, ptr);
      while nu > MAX_UNITS
        invariant Core() && nu > 0 && node + nu == ptr + units && Partly(first, blocks, ptr, units, node)
        invariant SameOutside(old(mem[..]), mem[..], ptr, units)
        invariant (nu == units && lists == old(lists)) || HasFrom(lists, want)
      {
        PartlyNode(first, blocks, ptr, units, node);
        PartlyMore(first, blocks, ptr, units, node, MAX_UNITS);
        CutLoose(node, MAX_UNITS);
        ghost var was := lists;
        InsertNode(node, NUM_INDEXES - 1);
        PushedHas(was, NUM_INDEXES - 1, node, want);
        nu, node := nu - MAX_UNITS, node + MAX_UNITS;
      }
      PartlyNode(first, blocks, ptr, units, node);
      ghost var part := blocks;
      InsertUnits(node, nu, want);
      PartlyAll(first, part, blocks, ptr, units, node);
    }

    /** Fills the free lists from the long list. */
    method FillLists(head: nat, ghost want: nat, ghost l: seq<nat>, ghost m0: seq<Unit>, ghost s0: Blocks)
      requires Core() && Since(m0, s0) && head == At(l, 0) && want < NUM_INDEXES
      requires Roll(mem[..], blocks, l, 0) && Holds(blocks, l, 0) && InOrder(blocks, l, 0, |l|)
      modifies this`blocks, this`lists, mem, freeList
      ensures Valid() && Since(m0, s0)
      ensures Big(old(blocks), Units(want)) ==> HasFrom(lists, want)
    {
      hide Tiled, Used, FreeUnits, Lists, Quiet, Since, Roll, Holds, InOrder, Big, HasFrom, Units;
      var n := head;
      ghost var p: nat := 0;
      while n != 0
        invariant Core() && Since(m0, s0) && p <= |l| && n == At(l, p)
        invariant Roll(mem[..], blocks, l, p) && Holds(blocks, l, p) && InOrder(blocks, l, p, |l|)
        invariant Big(old(blocks), Units(want)) ==> Big(blocks, Units(want)) || HasFrom(lists, want)
        decreases |l| - p
      {
        LooseHeader(mem[..], blocks, l, p, p);
        var node := n;
        var nu := mem[node].nu;
        n := mem[node].next;
        if nu == 0 {
          SkipEntry(mem[..], blocks, l, p);
        } else {
          FillNode(node, nu, want, l, p, m0, s0);
        }
        p := p + 1;
      }
      NoEntry(mem[..], blocks, l, p, p);
      NoneLoose(blocks, l);
      NoneBig(blocks, Units(want));
    }

    method FillNode(node: nat, nu: nat, ghost want: nat, ghost l: seq<nat>, ghost p: nat, ghost m0: seq<Unit>, ghost s0: Blocks)
      requires Core() && Since(m0, s0) && p < |l| && l[p] == node && node in blocks.loose
      requires node in blocks.size && nu == blocks.size[node] && want < NUM_INDEXES
      requires Roll(mem[..], blocks, l, p) && Holds(blocks, l, p) && InOrder(blocks, l, p, |l|)
      modifies this`blocks, this`lists, mem, freeList
      ensures Core() && Since(m0, s0)
      ensures Roll(mem[..], blocks, l, p + 1) && Holds(blocks, l, p + 1) && InOrder(blocks, l, p + 1, |l|)
      ensures Big(old(blocks), Units(want)) || HasFrom(old(lists), want) ==> Big(blocks, Units(want)) || HasFrom(lists, want)
    {
      hide Tiled, Used, FreeUnits, Lists, Quiet, Roll, Holds, InOrder, SameOutside, Big, HasFrom, Units;
      ghost var before, was := blocks, mem[..];
      FillBlock(node, nu, want);
      if Big(before, Units(want)) && nu < Units(want) { BigLater(before, blocks, node, Units(want), nu); }
      FillEntry(was, before, mem[..], blocks, l, p);
      WithinFree(before, was, mem[..], node);
      QuietTwice(m0, was, mem[..], FreeUnits(s0));
    }

    /** Some list from class `indx` on has a block. */
    ghost predicate Stocked(indx: nat)
      reads freeList
    {
      freeList.Length == NUM_INDEXES && exists i :: indx <= i < NUM_INDEXES && freeList[i] != 0
    }

    /** Blocks in the lists are free units in a row. */
    lemma StockIsRun(indx: nat)
      requires Valid() && indx < NUM_INDEXES
      ensures Stocked(indx) ==> Run(FreeUnits(blocks), Units(indx))
    {
      hide Tiled, Used, ListsOk, Units;
      if Stocked(indx) {
        var i :| indx <= i < NUM_INDEXES && freeList[i] != 0;
        ListOf(mem[..], blocks, freeList[..], lists, i);
        var b := freeList[i];
        assert NodeOk(mem[..], blocks, Units(i), lists[i], 0);
        if indx < i { UnitsIncrease(indx, i); }
        forall u | b <= u < b + Units(indx) ensures u in FreeUnits(blocks) {
          UnitOf(blocks, b, u);
        }
        assert RunAt(FreeUnits(blocks), b, Units(indx));
      }
    }

    /** What a search among the lists leaves of the count: each search that no list serves counts down, and at zero the
        free blocks are glued first. */
    ghost function CountAfter(indx: nat): nat
      requires indx < NUM_INDEXES
      reads this`glueCount, this`blocks, freeList
    {
      if glueCount == 0 then (if Run(FreeUnits(blocks), Units(indx)) then 255 else 254)
      else if Stocked(indx) then glueCount
      else glueCount - 1
    }

    /** Glues free blocks with their free neighbours: the same units are free before and after. */
    method GlueFreeBlocks(ghost want: nat)
      requires Valid() && Stamped() && want < NUM_INDEXES
      modifies this`glueCount, this`blocks, this`lists, mem, freeList
      ensures Valid() && Stamped() && glueCount == 255
      ensures Stocked(want) <==> Run(FreeUnits(blocks), Units(want))
      ensures Used(blocks) == Used(old(blocks)) && FreeUnits(blocks) == FreeUnits(old(blocks))
      ensures Untouched(old(mem[..]), mem[..], Used(blocks))
    {
      hide Tiled, Used, FreeUnits, ListsOk, Quiet, Roll, Holds, InOrder, Untouched, Stamped, Run, HasFrom, Big, Settled, Units;
      glueCount := 255;
      SetGuard();
      ghost var m0, s0 := mem[..], blocks;
      var n, l := CollectFree(m0, s0);
      var head, l' := GlueNodes(n, l, m0, s0);
      if Run(FreeUnits(blocks), Units(want)) { RunIsBig(blocks, l', Units(want)); }
      FillLists(head, want, l', m0, s0);
      if Run(FreeUnits(blocks), Units(want)) { HeadsHave(mem[..], blocks, freeList[..], lists, want); }
      StockIsRun(want);
      QuietUntouched(s0, m0, mem[..]);
      UntouchedTwice(old(mem[..]), m0, mem[..], Used(s0));
      StillStamped(s0, m0);
    }

    lemma StillStamped(s0: Blocks, m0: seq<Unit>)
      requires Marked(m0, s0) && Used(s0) == Used(blocks) && Untouched(m0, mem[..], Used(s0)) && Tiled(s0)
      ensures Stamped()
    {
      hide Tiled, Used;
      forall b | b in Used(blocks) && b < mem.Length ensures mem[b].stamp != 0 {
        UsedSize(s0, b);
      }
    }

    /** The gap starts with a unit that does not look free. */
    method SetGuard()
      requires Valid() && Stamped()
      modifies mem
      ensures Valid() && Stamped() && Since(mem[..], blocks) && Marked(mem[..], blocks)
      ensures Untouched(old(mem[..]), mem[..], Used(blocks))
    {
      hide Tiled, Used, FreeUnits, ListsOk, Untouched;
      UntouchedNone(mem[..], Used(blocks));
      if lo != hi {
        WriteGap(mem[..], blocks, freeList[..], lists, lo, mem[lo].(stamp := 1));
        mem[lo] := mem[lo].(stamp := 1);
        assert mem[..] == old(mem[..])[lo := mem[lo]];
      }
    }

    // -------------------------------------------------------------- allocating and freeing

    /** Either `b` is a new allocated block of `n` units, or nothing is allocated that was not. */
    ghost predicate Got(used0: map<nat, nat>, b: nat, n: nat)
      reads this`blocks
    {
      if b == 0 then Used(blocks) == used0 else b !in used0 && Used(blocks) == used0[b := n]
    }

    /** No list from class `indx` on has a block, and neither the gap nor the room below the units is large enough. */
    ghost predicate Exhausted(indx: nat)
      requires indx < NUM_INDEXES
      reads this`start, this`text, this`lo, this`hi, freeList
    {
      && freeList.Length == NUM_INDEXES && (forall i :: indx <= i < NUM_INDEXES ==> freeList[i] == 0)
      && hi - lo < Units(indx) && Address(start) - text <= UNIT_SIZE * Units(indx)
    }

    /** What a new block keeps, below the first unit or at either end of the gap. */
    lemma Extend(b: nat, n: nat, start': nat, lo': nat, hi': nat)
      requires Core() && n > 0 && b > 0
      requires || (start' == b && b + n == start && lo' == lo && hi' == hi)
               || (start' == start && b == lo && lo' == lo + n && lo' <= hi && hi' == hi)
               || (start' == start && lo' == lo && lo <= b && hi' == b && b + n == hi)
      ensures var t := Add(blocks, b, n);
              Tiled(t) && Covered(t, start', lo', hi', end) && Used(t) == Used(blocks)[b := n] && b !in Used(blocks)
              && ListsOk(mem[..], t, freeList[..], lists) && end - 1 in Used(t)
              && t.loose == blocks.loose
    {
      hide Tiled, FreeUnits, ListsOk;
      TiledParts(blocks);
      forall u | b <= u < b + n ensures u !in blocks.owner {
      }
      AddTiles(blocks, b, n);
      AddKeeps(blocks, b, n);
      KeepAll(mem[..], blocks, mem[..], Add(blocks, b, n), freeList[..], lists);
    }

    /** The first block of a list becomes allocated. */
    method TakeNode(indx: nat) returns (b: nat)
      requires Valid() && indx < NUM_INDEXES && freeList[indx] != 0
      modifies this`blocks, this`lists, freeList
      ensures Valid() && b == old(freeList[indx]) && b != 0 && Got(Used(old(blocks)), b, Units(indx))
    {
      hide Tiled, Used, FreeUnits, ListsOk, Units;
      b := RemoveNode(indx);
      UnlistKeeps(old(blocks), b);
      TakeLoose(b);
    }

    /** A loose block becomes allocated. */
    ghost method TakeLoose(b: nat)
      requires Core() && b in blocks.loose && b in blocks.size
      modifies this`blocks
      ensures Core() && blocks == Take(old(blocks), b) && b !in Used(old(blocks))
      ensures Used(blocks) == Used(old(blocks))[b := old(blocks.size[b])]
    {
      hide Tiled, Used, FreeUnits, ListsOk;
      TakeKeeps(blocks, b);
      KeepAll(mem[..], blocks, mem[..], Take(blocks, b), freeList[..], lists);
      blocks := Take(blocks, b);
    }

    /** A block of a larger class gives what is asked for, and the rest goes back to the lists. */
    method TakeFrom(i: nat, indx: nat) returns (b: nat)
      requires Valid() && indx < i < NUM_INDEXES && freeList[i] != 0
      modifies this`blocks, this`lists, mem, freeList
      ensures Valid() && b == old(freeList[i]) && b != 0 && Got(Used(old(blocks)), b, Units(indx))
      ensures Untouched(old(mem[..]), mem[..], Used(old(blocks)))
    {
      hide Tiled, Used, FreeUnits, Lists, Units, Untouched, SameOutside;
      b := RemoveNode(i);
      UnlistKeeps(old(blocks), b);
      ghost var before, was := blocks, mem[..];
      SplitBlock(b, i, indx);
      OutsideMore(was, mem[..], b, Units(i), b + Units(indx), Units(i) - Units(indx));
      WithinFree(before, was, mem[..], b);
      QuietUntouched(before, was, mem[..]);
      TakeLoose(b);
      BlockInArena(b);
    }

    /** The first block of the smallest class from `i` on that has one, or zero. */
    function FirstListed(i: nat): (b: nat)
      requires freeList.Length == NUM_INDEXES && i <= NUM_INDEXES
      reads freeList
      decreases NUM_INDEXES - i
    {
      if i == NUM_INDEXES then 0 else if freeList[i] != 0 then freeList[i] else FirstListed(i + 1)
    }

    /** The units below the first one, if they leave room for the text, or zero. */
    function Below(indx: nat): nat
      requires indx < NUM_INDEXES
      reads this`start, this`text
    {
      if Address(start) - text > UNIT_SIZE * Units(indx) && start >= Units(indx) then start - Units(indx) else 0
    }

    /** Units from below the first one, if the text leaves enough room. */
    method TakeBelow(indx: nat) returns (b: nat)
      requires Valid() && indx < NUM_INDEXES
      modifies this`start, this`blocks
      ensures Valid() && Got(Used(old(blocks)), b, Units(indx)) && b == old(Below(indx))
      ensures b == 0 ==> blocks == old(blocks) && start == old(start) && Address(start) - text <= UNIT_SIZE * Units(indx)
    {
      hide Tiled, Used, FreeUnits, ListsOk, Units;
      var n := tables.indx2Units[indx];
      if Address(start) - text > UNIT_SIZE * n {
        b := start - n;
        Extend(b, n, b, lo, hi);
        blocks := Add(blocks, b, n);
        start := b;
      } else {
        b := 0;
      }
    }

    method AllocUnitsRare(indx: nat) returns (b: nat)
      requires Valid() && Stamped() && indx < NUM_INDEXES && freeList[indx] == 0 && hi - lo < Units(indx)
      modifies this`start, this`glueCount, this`blocks, this`lists, mem, freeList
      ensures Valid() && Got(Used(old(blocks)), b, Units(indx)) && (b == 0 ==> Exhausted(indx))
      ensures Untouched(old(mem[..]), mem[..], Used(old(blocks)))
      ensures b == 0 && old(glueCount) == 0 ==> !Run(FreeUnits(old(blocks)), Units(indx))
      ensures glueCount == old(CountAfter(indx))
      ensures old(glueCount) != 0 ==> b == old(if Stocked(indx) then FirstListed(indx) else Below(indx))
    {
      hide Tiled, Used, FreeUnits, Lists, Units, Untouched, Tiles, Run;
      UntouchedNone(mem[..], Used(blocks));
      if glueCount == 0 {
        GlueFreeBlocks(indx);
        if freeList[indx] != 0 {
          b := TakeNode(indx);
          return;
        }
      }
      var i := indx + 1;
      while i < NUM_INDEXES && freeList[i] == 0
        invariant indx < i <= NUM_INDEXES && forall j :: indx <= j < i ==> freeList[j] == 0
        invariant FirstListed(i) == FirstListed(indx)
      {
        i := i + 1;
      }
      if i == NUM_INDEXES {
        glueCount := glueCount - 1;
        b := TakeBelow(indx);
      } else {
        ghost var was := mem[..];
        b := TakeFrom(i, indx);
        UntouchedTwice(old(mem[..]), was, mem[..], Used(old(blocks)));
      }
    }

    /** Units for symbol statistics: from a list of the right size, from the gap, or the hard way. */
    method AllocUnits(indx: nat) returns (b: nat)
      requires Valid() && Stamped() && indx < NUM_INDEXES
      modifies this`start, this`lo, this`glueCount, this`blocks, this`lists, mem, freeList
      ensures Valid() && Got(Used(old(blocks)), b, Units(indx)) && (b == 0 ==> Exhausted(indx))
      ensures Untouched(old(mem[..]), mem[..], Used(old(blocks)))
      ensures b == 0 && old(glueCount) == 0 ==> !Run(FreeUnits(old(blocks)), Units(indx))
      ensures glueCount == if old(freeList[indx] != 0 || hi - lo >= Units(indx)) then old(glueCount) else old(CountAfter(indx))
      ensures old(freeList[indx]) != 0 ==> b == old(freeList[indx])
      ensures old(freeList[indx]) == 0 && old(hi - lo) >= Units(indx) ==> b == old(lo) && lo == b + Units(indx)
    {
      hide Tiled, Used, FreeUnits, ListsOk, Units, Untouched, Run, CountAfter;
      UntouchedNone(mem[..], Used(blocks));
      if freeList[indx] != 0 {
        b := TakeNode(indx);
        return;
      }
      var n := tables.indx2Units[indx];
      if hi - lo >= n {
        b := lo;
        Extend(b, n, start, lo + n, hi);
        blocks := Add(blocks, b, n);
        lo := lo + n;
        return;
      }
      b := AllocUnitsRare(indx);
    }

    /** One unit for a context: from the end of the gap, from the first list, or the hard way. */
    method AllocContext() returns (b: nat)
      requires Valid() && Stamped()
      modifies this`start, this`hi, this`glueCount, this`blocks, this`lists, mem, freeList
      ensures Valid() && Got(Used(old(blocks)), b, 1) && (b == 0 ==> Exhausted(0))
      ensures Untouched(old(mem[..]), mem[..], Used(old(blocks)))
      ensures b == 0 && old(glueCount) == 0 ==> !Run(FreeUnits(old(blocks)), Units(0))
      ensures glueCount == if old(freeList[0] != 0 || hi - lo >= Units(0)) then old(glueCount) else old(CountAfter(0))
      ensures old(hi != lo) ==> b == old(hi) - 1 && hi == b
      ensures old(hi == lo && freeList[0] != 0) ==> b == old(freeList[0])
    {
      hide Tiled, Used, FreeUnits, ListsOk, Untouched, Run, CountAfter;
      UntouchedNone(mem[..], Used(blocks));
      if hi != lo {
        b := hi - 1;
        Extend(b, 1, start, lo, b);
        blocks := Add(blocks, b, 1);
        hi := b;
      } else if freeList[0] != 0 {
        b := TakeNode(0);
      } else {
        b := AllocUnitsRare(0);
      }
    }

    /** An allocated block goes back to the list of its class. The block of the root context stays. */
    method Release(ptr: nat, indx: nat)
      requires Valid() && indx < NUM_INDEXES && ptr in Used(blocks) && Used(blocks)[ptr] == Units(indx)
      requires ptr != end - 1
      modifies this`blocks, this`lists, mem, freeList
      ensures Valid() && Used(blocks) == Used(old(blocks)) - {ptr}
      ensures |lists| == NUM_INDEXES == |old(lists)| && lists == old(lists)[indx := [ptr] + old(lists)[indx]]
      ensures Untouched(old(mem[..]), mem[..], Used(blocks))
    {
      hide Tiled, Used, FreeUnits, ListsOk, Units, Untouched, SameOutside;
      NoList(mem[..], blocks, freeList[..], lists);
      GiveLoose(ptr);
      ghost var given, was := blocks, mem[..];
      ListKeeps(blocks, ptr);
      InsertNode(ptr, indx);
      BlockOf(given, ptr);
      OutsideMore(was, mem[..], ptr, given.size[ptr], ptr, 1);
      WithinFree(given, was, mem[..], ptr);
      QuietUntouched(given, was, mem[..]);
    }

    /** An allocated block becomes loose. */
    ghost method GiveLoose(b: nat)
      requires Valid() && b in Used(blocks) && b != end - 1
      modifies this`blocks
      ensures Core() && blocks == Give(old(blocks), b) && b in blocks.size && blocks.size[b] == Used(old(blocks))[b]
      ensures Used(blocks) == Used(old(blocks)) - {b}
    {
      hide Tiled, Used, FreeUnits, ListsOk;
      UsedSize(blocks, b);
      GiveKeeps(blocks, b);
      KeepAll(mem[..], blocks, mem[..], Give(blocks, b), freeList[..], lists);
      blocks := Give(blocks, b);
    }

    /** Copies `n` units from one block to another. */
    method CopyUnits(dest: nat, src: nat, n: nat)
      requires dest + n <= mem.Length && src + n <= mem.Length && (dest + n <= src || src + n <= dest)
      modifies mem
      ensures mem[dest..dest + n] == old(mem[src..src + n])
      ensures SameOutside(old(mem[..]), mem[..], dest, n)
    {
      ghost var was := mem[..];
      for i := 0 to n
        invariant mem[..] == Spliced(was, dest, src, i)
      {
        NextSpliced(was, dest, src, i);
        mem[dest + i] := mem[src + i];
      }
    }

    /** Moves the contents of a block to another one and gives the old block back. */
    method Relocate(dest: nat, src: nat, n: nat, indx: nat)
      requires Valid() && indx < NUM_INDEXES && dest in Used(blocks) && src in Used(blocks) && dest != src
      requires src != end - 1 && Used(blocks)[src] == Units(indx)
      requires n <= Used(blocks)[src] && n <= Used(blocks)[dest] && dest + n <= mem.Length && src + n <= mem.Length
      modifies this`blocks, this`lists, mem, freeList
      ensures Valid() && Used(blocks) == Used(old(blocks)) - {src}
      ensures mem[dest..dest + n] == old(mem[src..src + n])
      ensures Untouched(old(mem[..]), mem[..], Used(old(blocks)) - {src} - {dest})
    {
      hide Tiled, Used, FreeUnits, ListsOk, Units, Untouched, SameOutside;
      ghost var was, used := mem[..], Used(blocks);
      UsedApart(blocks, dest, src);
      CopyUnits(dest, src, n);
      WriteUsed(blocks, was, mem[..], freeList[..], lists, dest, n);
      ghost var copied := mem[..];
      Release(src, indx);
      UntouchedSlice(copied, mem[..], used - {src}, dest, n);
      UntouchedFewer(was, copied, used - {dest}, used - {src} - {dest});
      UntouchedFewer(copied, mem[..], used - {src}, used - {src} - {dest});
      UntouchedTwice(was, copied, mem[..], used - {src} - {dest});
    }

    method ShrinkInPlace(ptr: nat, n: nat, oldIndx: nat, newIndx: nat)
      requires Valid() && newIndx < oldIndx < NUM_INDEXES && ptr in Used(blocks) && Used(blocks)[ptr] == Units(oldIndx)
      requires ptr != end - 1 && n <= Units(newIndx) && ptr + n <= mem.Length
      modifies this`blocks, this`lists, mem, freeList
      ensures Valid() && Used(blocks) == (Used(old(blocks)) - {ptr})[ptr := Units(newIndx)]
      ensures mem[ptr..ptr + n] == old(mem[ptr..ptr + n])
      ensures Untouched(old(mem[..]), mem[..], Used(old(blocks)) - {ptr})
    {
      hide Tiled, Used, FreeUnits, ListsOk, Units, Untouched;
      GiveLoose(ptr);
      ghost var given, was := blocks, mem[..];
      SplitBlock(ptr, oldIndx, newIndx);
      OutsideMore(was, mem[..], ptr, Units(oldIndx), ptr + Units(newIndx), Units(oldIndx) - Units(newIndx));
      WithinFree(given, was, mem[..], ptr);
      QuietUntouched(given, was, mem[..]);
      TakeLoose(ptr);
    }

    /** Makes statistics smaller. They move when a block of the right size is free, and else keep their place. */
    method ShrinkUnits(oldPtr: nat, oldNU: nat, newNU: nat) returns (ptr: nat)
      requires Valid() && 1 <= newNU <= oldNU <= MAX_UNITS
      requires oldPtr in Used(blocks) && Used(blocks)[oldPtr] == Units(ClassOf(oldNU)) && oldPtr != end - 1
      modifies this`blocks, this`lists, mem, freeList
      ensures Valid() && Used(blocks) == (Used(old(blocks)) - {oldPtr})[ptr := Units(ClassOf(newNU))]
      ensures ptr != oldPtr ==> ptr !in Used(old(blocks))
      ensures oldPtr + oldNU <= mem.Length && ptr + newNU <= mem.Length
      ensures mem[ptr..ptr + newNU] == old(mem[oldPtr..oldPtr + newNU])
      ensures Untouched(old(mem[..]), mem[..], Used(old(blocks)) - {oldPtr})
    {
      hide Tiled, Used, FreeUnits, Lists, Units, Untouched, SameOutside, ClassOf;
      var i0, i1 := tables.units2Indx[oldNU - 1], tables.units2Indx[newNU - 1];
      UsedInArena(oldPtr);
      UntouchedNone(mem[..], Used(blocks) - {oldPtr});
      if i0 == i1 {
        return oldPtr;
      }
      ClassesIncrease(newNU, oldNU);
      if freeList[i1] != 0 {
        ptr := TakeNode(i1);
        UsedInArena(ptr);
        assert Used(blocks) - {oldPtr} - {ptr} == Used(old(blocks)) - {oldPtr};
        Relocate(ptr, oldPtr, newNU, i0);
      } else {
        ptr := oldPtr;
        ShrinkInPlace(ptr, newNU, i0, i1);
      }
    }

    /** Makes room for one more unit of statistics: nothing to do within a class, and else the statistics move. */
    method GrowUnits(oldPtr: nat, oldNU: nat) returns (ptr: nat)
      requires Valid() && Stamped() && 1 <= oldNU < MAX_UNITS
      requires oldPtr in Used(blocks) && Used(blocks)[oldPtr] == Units(ClassOf(oldNU)) && oldPtr != end - 1
      modifies this`start, this`lo, this`glueCount, this`blocks, this`lists, mem, freeList
      ensures Valid()
      ensures ptr == 0 ==> Used(blocks) == Used(old(blocks)) && Untouched(old(mem[..]), mem[..], Used(blocks))
      ensures ptr != 0 ==> Used(blocks) == (Used(old(blocks)) - {oldPtr})[ptr := Units(ClassOf(oldNU + 1))]
      ensures ptr != 0 && ptr != oldPtr ==> ptr !in Used(old(blocks))
      ensures ptr != 0 ==> oldPtr + oldNU <= mem.Length && ptr + oldNU <= mem.Length
                           && mem[ptr..ptr + oldNU] == old(mem[oldPtr..oldPtr + oldNU])
      ensures ptr != 0 ==> Untouched(old(mem[..]), mem[..], Used(old(blocks)) - {oldPtr})
      ensures var i := ClassOf(oldNU + 1);
              glueCount == if i == ClassOf(oldNU) || old(freeList[i] != 0 || hi - lo >= Units(i)) then old(glueCount)
                           else old(CountAfter(i))
      ensures ptr == 0 && old(glueCount) == 0 ==> !Run(FreeUnits(old(blocks)), Units(ClassOf(oldNU + 1)))
    {
      hide Tiled, Used, FreeUnits, ListsOk, Units, Untouched, SameOutside, ClassOf, Run, Exhausted, CountAfter;
      var i := tables.units2Indx[oldNU - 1];
      UsedInArena(oldPtr);
      UntouchedNone(mem[..], Used(blocks) - {oldPtr});
      NextClass(oldNU);
      if i == tables.units2Indx[oldNU] {
        return oldPtr;
      }
      ghost var used, was := Used(blocks), mem[..];
      ptr := AllocUnits(i + 1);
      if ptr == 0 {
        return;
      }
      UsedInArena(ptr);
      UntouchedSlice(was, mem[..], used, oldPtr, oldNU);
      UntouchedFewer(was, mem[..], used, used - {oldPtr});
      ghost var got := mem[..];
      assert Used(blocks) - {oldPtr} - {ptr} == used - {oldPtr};
      Relocate(ptr, oldPtr, oldNU, i);
      UntouchedTwice(was, got, mem[..], used - {oldPtr});
    }
  }

  lemma NoList(m: seq<Unit>, s: Blocks, heads: seq<nat>, lists: seq<seq<nat>>)
    requires ListsOk(m, s, heads, lists)
    ensures |lists| == NUM_INDEXES && Roll(m, s, [], 0) && (s.loose == {} ==> Gathered(s, [], []))
  {
  }

  lemma LooseUnused(s: Blocks, b: nat)
    requires b in s.loose
    ensures b !in Used(s)
  {
  }

  lemma UsedUnmoved(s: Blocks, m0: seq<Unit>, m: seq<Unit>, b: nat)
    requires Tiled(s) && b in s.size && b !in s.listed && b !in s.loose && Quiet(m0, m, FreeUnits(s)) && b < |m|
    ensures b in Used(s) && |m| == |m0| && m[b] == m0[b]
  {
    hide Tiled;
    BlockOf(s, b);
    UnitOf(s, b, b);
  }

  lemma GapUnmoved(s: Blocks, m0: seq<Unit>, m: seq<Unit>, u: nat)
    requires u !in s.owner && Quiet(m0, m, FreeUnits(s)) && u < |m|
    ensures |m| == |m0| && m[u] == m0[u]
  {
  }

  lemma UntouchedNone(m: seq<Unit>, used: map<nat, nat>)
    ensures Untouched(m, m, used)
  {
  }

  lemma WriteGap(m: seq<Unit>, s: Blocks, heads: seq<nat>, lists: seq<seq<nat>>, u: nat, x: Unit)
    requires ListsOk(m, s, heads, lists) && Tiled(s) && u !in s.owner && u < |m|
    ensures ListsOk(m[u := x], s, heads, lists) && Untouched(m, m[u := x], Used(s)) && u !in Used(s)
  {
    hide Tiled, ListsOk;
    WriteOutside(s, m, u, x);
    TiledParts(s);
    forall b | b in s.size ensures b != u {
      BlockOf(s, b);
      UnitOf(s, b, b);
    }
    KeepAll(m, s, m[u := x], s, heads, lists);
  }

  lemma QuietUntouched(s: Blocks, m: seq<Unit>, m': seq<Unit>)
    requires Tiled(s) && Quiet(m, m', FreeUnits(s))
    ensures Untouched(m, m', Used(s))
  {
    hide Tiled;
    forall b, u | b in Used(s) && b <= u < b + Used(s)[b] && u < |m| ensures m'[u] == m[u] {
      UnitOf(s, b, u);
    }
  }

  lemma UsedSize(s: Blocks, b: nat)
    requires Tiled(s) && b in Used(s)
    ensures b in s.size && Used(s)[b] == s.size[b] > 0
  {
    assert BlockOk(s, b);
  }

  lemma OutsideMore(m: seq<Unit>, m': seq<Unit>, a: nat, n: nat, b: nat, k: nat)
    requires SameOutside(m, m', b, k) && a <= b && b + k <= a + n
    ensures SameOutside(m, m', a, n)
  {
  }

  lemma UntouchedSlice(m: seq<Unit>, m': seq<Unit>, used: map<nat, nat>, b: nat, n: nat)
    requires Untouched(m, m', used) && b in used && n <= used[b] && b + n <= |m|
    ensures |m| == |m'| && m'[b..b + n] == m[b..b + n]
  {
  }

  lemma UntouchedFewer(m: seq<Unit>, m': seq<Unit>, used: map<nat, nat>, fewer: map<nat, nat>)
    requires Untouched(m, m', used) && forall b :: b in fewer ==> b in used && used[b] == fewer[b]
    ensures Untouched(m, m', fewer)
  {
  }

  /** The memory after the first `n` units have been copied. */
  function Spliced(m: seq<Unit>, dest: nat, src: nat, n: nat): (r: seq<Unit>)
    requires dest + n <= |m| && src + n <= |m|
    ensures |r| == |m|
  {
    m[..dest] + m[src..src + n] + m[dest + n..]
  }

  lemma NextSpliced(m: seq<Unit>, dest: nat, src: nat, n: nat)
    requires dest + n < |m| && src + n < |m| && (dest + n < src || src + n < dest)
    ensures Spliced(m, dest, src, n)[dest + n := Spliced(m, dest, src, n)[src + n]] == Spliced(m, dest, src, n + 1)
  {
    assert Spliced(m, dest, src, n)[src + n] == m[src + n];
  }

  /** Writing within an allocated block disturbs no list and no other allocated block. */
  lemma WriteUsed(s: Blocks, m: seq<Unit>, m': seq<Unit>, heads: seq<nat>, lists: seq<seq<nat>>, a: nat, n: nat)
    requires ListsOk(m, s, heads, lists) && Tiled(s) && a in Used(s) && n <= Used(s)[a] && SameOutside(m, m', a, n)
    ensures ListsOk(m', s, heads, lists) && Untouched(m, m', Used(s) - {a})
  {
    hide Tiled, ListsOk;
    UsedSize(s, a);
    TiledParts(s);
    forall b | b in s.listed && b < |m| ensures m'[b] == m[b] {
      BlockOf(s, b);
      UnitOf(s, b, b);
      if a <= b < a + n { UnitOf(s, a, b); assert false; }
    }
    KeepAll(m, s, m', s, heads, lists);
    forall b, u | b in Used(s) - {a} && b <= u < b + (Used(s) - {a})[b] && u < |m| ensures m'[u] == m[u] {
      if a <= u < a + n { SameBlock(s, a, b, u); assert false; }
    }
  }

  lemma UsedApart(s: Blocks, a: nat, b: nat)
    requires Tiled(s) && a in Used(s) && b in Used(s) && a != b
    ensures a + Used(s)[a] <= b || b + Used(s)[b] <= a
  {
    hide Tiled;
    UsedSize(s, a);
    UsedSize(s, b);
    if a <= b < a + s.size[a] {
      SameBlock(s, a, b, b);
    } else if b <= a < b + s.size[b] {
      SameBlock(s, a, b, a);
    }
  }

  lemma ClassesIncrease(a: nat, b: nat)
    requires 1 <= a <= b <= MAX_UNITS
    ensures ClassOf(a) <= ClassOf(b)
  {
  }
}
