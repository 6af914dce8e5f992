/** How PPMd's arena is cut into blocks of units. */
module PpmdBlocks {
  /** All blocks by their first unit, the block each unit lies in, and the free blocks in and outside of lists. */
  datatype Blocks = Blocks(size: map<nat, nat>, owner: map<nat, nat>, listed: set<nat>, loose: set<nat>)

  ghost predicate OwnerOk(s: Blocks, u: nat) {
    u in s.owner ==> s.owner[u] in s.size && s.owner[u] <= u < s.owner[u] + s.size[s.owner[u]]
  }

  ghost predicate BlockOk(s: Blocks, b: nat) {
    b in s.size ==> s.size[b] > 0 && forall u :: b <= u < b + s.size[b] ==> u in s.owner && s.owner[u] == b
  }

  ghost predicate FreeOk(s: Blocks) {
    s.listed <= s.size.Keys && s.loose <= s.size.Keys && s.listed !! s.loose
  }

  /** No two blocks share a unit, and every unit that is owned lies in its block. */
  ghost predicate Tiled(s: Blocks) {
    && (forall u :: u in s.owner ==> OwnerOk(s, u))
    && (forall b :: b in s.size ==> BlockOk(s, b))
    && FreeOk(s)
  }

  /** The allocated blocks. */
  ghost function Used(s: Blocks): (r: map<nat, nat>) {
    map b | b in s.size && b !in s.listed && b !in s.loose :: s.size[b]
  }

  ghost function FreeUnits(s: Blocks): (r: set<nat>) {
    set u | u in s.owner && (s.owner[u] in s.listed || s.owner[u] in s.loose)
  }

  // ---------------------------------------------------------------- steps

  ghost function Range(b: nat, n: nat): (r: set<nat>)
    ensures forall u :: u in r <==> b <= u < b + n
  {
    if n == 0 then {} else Range(b, n - 1) + {b + n - 1}
  }

  ghost function Assign(owner: map<nat, nat>, b: nat, n: nat, to: nat): (r: map<nat, nat>)
    ensures forall u :: u in r <==> u in owner || b <= u < b + n
    ensures forall u :: u in r ==> r[u] == if b <= u < b + n then to else owner[u]
  {
    owner + (map u | u in Range(b, n) :: to)
  }

  ghost function Cut(s: Blocks, b: nat, k: nat): (r: Blocks)
    requires b in s.size && k < s.size[b]
  {
    var n := s.size[b];
    Blocks(s.size[b := k][b + k := n - k], Assign(s.owner, b + k, n - k, b + k), s.listed, s.loose + {b + k})
  }

  ghost function Join(s: Blocks, a: nat): (r: Blocks)
    requires a in s.size && a + s.size[a] in s.size
  {
    var b := a + s.size[a];
    var n := s.size[b];
    Blocks((s.size - {b})[a := s.size[a] + n], Assign(s.owner, b, n, a), s.listed, s.loose - {b})
  }

  /** A new block of units that had no block. */
  ghost function Add(s: Blocks, b: nat, n: nat): (r: Blocks) {
    Blocks(s.size[b := n], Assign(s.owner, b, n, b), s.listed, s.loose)
  }

  ghost function List(s: Blocks, b: nat): (r: Blocks) {
    Blocks(s.size, s.owner, s.listed + {b}, s.loose - {b})
  }

  ghost function Unlist(s: Blocks, b: nat): (r: Blocks) {
    Blocks(s.size, s.owner, s.listed - {b}, s.loose + {b})
  }

  /** A loose block becomes an allocated one. */
  ghost function Take(s: Blocks, b: nat): (r: Blocks) {
    Blocks(s.size, s.owner, s.listed, s.loose - {b})
  }

  /** An allocated block becomes a loose one. */
  ghost function Give(s: Blocks, b: nat): (r: Blocks) {
    Blocks(s.size, s.owner, s.listed, s.loose + {b})
  }

  /** Two blocks with a unit in common are one. */
  lemma SameBlock(s: Blocks, a: nat, b: nat, u: nat)
    requires Tiled(s) && a in s.size && b in s.size && a <= u < a + s.size[a] && b <= u < b + s.size[b]
    ensures a == b
  {
    UnitOf(s, a, u);
    UnitOf(s, b, u);
  }

  lemma UnitOf(s: Blocks, b: nat, u: nat)
    requires Tiled(s) && b in s.size && b <= u < b + s.size[b]
    ensures u in s.owner && s.owner[u] == b
  {
    assert BlockOk(s, b);
  }

  lemma OwnerOf(s: Blocks, u: nat)
    requires Tiled(s) && u in s.owner
    ensures s.owner[u] in s.size && s.owner[u] <= u < s.owner[u] + s.size[s.owner[u]] && s.size[s.owner[u]] > 0
  {
    assert OwnerOk(s, u) && BlockOk(s, s.owner[u]);
  }

  lemma TiledParts(s: Blocks)
    requires Tiled(s)
    ensures FreeOk(s)
  {
  }

  lemma PartsTile(s: Blocks)
    requires FreeOk(s)
    requires forall u :: u in s.owner ==> OwnerOk(s, u)
    requires forall b :: b in s.size ==> BlockOk(s, b)
    ensures Tiled(s)
  {
  }

  lemma BlockOf(s: Blocks, b: nat)
    requires Tiled(s) && b in s.size
    ensures BlockOk(s, b) && s.size[b] > 0
  {
    assert BlockOk(s, b);
  }

  // ---------------------------------------------------------------- cutting

  lemma CutTiles(s: Blocks, b: nat, k: nat)
    requires Tiled(s) && b in s.size && 0 < k < s.size[b]
    ensures Tiled(Cut(s, b, k)) && b + k !in s.size
  {
    hide Tiled, Range;
    var t := Cut(s, b, k);
    BlockOf(s, b);
    if b + k in s.size {
      BlockOf(s, b + k);
      SameBlock(s, b, b + k, b + k);
    }
    forall u | u in t.owner ensures OwnerOk(t, u) {
      CutOwner(s, b, k, u);
    }
    forall c | c in t.size ensures BlockOk(t, c) {
      CutBlock(s, b, k, c);
    }
    TiledParts(s);
    PartsTile(t);
  }

  lemma CutOwner(s: Blocks, b: nat, k: nat, u: nat)
    requires Tiled(s) && b in s.size && 0 < k < s.size[b] && b + k !in s.size
    ensures OwnerOk(Cut(s, b, k), u)
  {
    hide Tiled, Range;
    if u in s.owner {
      OwnerOf(s, u);
    }
  }

  lemma CutBlock(s: Blocks, b: nat, k: nat, c: nat)
    requires Tiled(s) && b in s.size && 0 < k < s.size[b] && b + k !in s.size
    ensures BlockOk(Cut(s, b, k), c)
  {
    hide Tiled, Range;
    var t := Cut(s, b, k);
    if c in t.size {
      BlockOf(s, b);
      if c in s.size {
        BlockOf(s, c);
      }
    }
  }

  /** Cutting a free block changes neither what is allocated nor which units are free. */
  lemma CutKeeps(s: Blocks, b: nat, k: nat)
    requires Tiled(s) && b in s.size && 0 < k < s.size[b] && b + k !in s.size
    ensures b in s.loose ==> Used(Cut(s, b, k)) == Used(s) && FreeUnits(Cut(s, b, k)) == FreeUnits(s)
    ensures b in Used(s) ==> Used(Cut(s, b, k)) == Used(s)[b := k]
    ensures Cut(s, b, k).owner.Keys == s.owner.Keys
  {
    hide Tiled, Range;
    TiledParts(s);
    BlockOf(s, b);
    var t := Cut(s, b, k);
    if b in s.loose {
      forall u ensures u in FreeUnits(t) <==> u in FreeUnits(s) {
        if u in s.owner { OwnerOf(s, u); }
        if b + k <= u < b + s.size[b] { UnitOf(s, b, u); }
      }
    }
  }

  // ---------------------------------------------------------------- joining

  lemma JoinTiles(s: Blocks, a: nat)
    requires Tiled(s) && a in s.loose && a + s.size[a] in s.loose
    ensures Tiled(Join(s, a)) && s.size[a] > 0
  {
    hide Tiled, Range;
    TiledParts(s);
    var t := Join(s, a);
    BlockOf(s, a);
    forall u | u in t.owner ensures OwnerOk(t, u) {
      JoinOwner(s, a, u);
    }
    forall c | c in t.size ensures BlockOk(t, c) {
      JoinBlock(s, a, c);
    }
    PartsTile(t);
  }

  lemma JoinOwner(s: Blocks, a: nat, u: nat)
    requires Tiled(s) && a in s.loose && a + s.size[a] in s.loose && s.size[a] > 0
    ensures OwnerOk(Join(s, a), u)
  {
    hide Tiled, Range;
    TiledParts(s);
    BlockOf(s, a + s.size[a]);
    if u in s.owner {
      OwnerOf(s, u);
    }
  }

  lemma JoinBlock(s: Blocks, a: nat, c: nat)
    requires Tiled(s) && a in s.loose && a + s.size[a] in s.loose && s.size[a] > 0
    ensures BlockOk(Join(s, a), c)
  {
    hide Tiled, Range;
    TiledParts(s);
    var t := Join(s, a);
    if c in t.size {
      BlockOf(s, a);
      BlockOf(s, a + s.size[a]);
      BlockOf(s, c);
    }
  }

  lemma JoinKeeps(s: Blocks, a: nat)
    requires Tiled(s) && a in s.loose && a + s.size[a] in s.loose && s.size[a] > 0
    ensures Used(Join(s, a)) == Used(s) && FreeUnits(Join(s, a)) == FreeUnits(s)
    ensures Join(s, a).owner.Keys == s.owner.Keys
  {
    hide Tiled, Range;
    TiledParts(s);
    var t := Join(s, a);
    BlockOf(s, a + s.size[a]);
    forall u ensures u in FreeUnits(t) <==> u in FreeUnits(s) {
      if u in s.owner { OwnerOf(s, u); }
    }
  }

  // ---------------------------------------------------------------- new blocks

  lemma AddTiles(s: Blocks, b: nat, n: nat)
    requires Tiled(s) && n > 0 && forall u :: b <= u < b + n ==> u !in s.owner
    ensures Tiled(Add(s, b, n)) && b !in s.size
  {
    hide Tiled, Range;
    var t := Add(s, b, n);
    if b in s.size {
      BlockOf(s, b);
      UnitOf(s, b, b);
      assert false;
    }
    forall u | u in t.owner ensures OwnerOk(t, u) {
      if u in s.owner { OwnerOf(s, u); }
    }
    forall c | c in t.size ensures BlockOk(t, c) {
      if c in s.size { BlockOf(s, c); }
    }
    TiledParts(s);
    PartsTile(t);
  }

  lemma AddKeeps(s: Blocks, b: nat, n: nat)
    requires FreeOk(s) && b !in s.size && forall u :: b <= u < b + n ==> u !in s.owner
    ensures Used(Add(s, b, n)) == Used(s)[b := n]
  {
    hide Range;
  }

  // ---------------------------------------------------------------- in and out of lists

  lemma ListKeeps(s: Blocks, b: nat)
    requires Tiled(s) && b in s.loose
    ensures Tiled(List(s, b)) && Used(List(s, b)) == Used(s) && FreeUnits(List(s, b)) == FreeUnits(s)
  {
  }

  lemma UnlistKeeps(s: Blocks, b: nat)
    requires Tiled(s) && b in s.listed
    ensures Tiled(Unlist(s, b)) && Used(Unlist(s, b)) == Used(s) && FreeUnits(Unlist(s, b)) == FreeUnits(s)
  {
  }

  lemma TakeKeeps(s: Blocks, b: nat)
    requires Tiled(s) && b in s.loose
    ensures Tiled(Take(s, b)) && Used(Take(s, b)) == Used(s)[b := s.size[b]] && b !in Used(s)
  {
  }

  lemma GiveKeeps(s: Blocks, b: nat)
    requires Tiled(s) && b in Used(s)
    ensures Tiled(Give(s, b)) && Used(Give(s, b)) == Used(s) - {b} && Used(s)[b] == s.size[b]
  {
  }

  /** The unit after a block, if it is owned at all, starts the next block. */
  lemma NextStarts(s: Blocks, a: nat)
    requires Tiled(s) && a in s.size && a + s.size[a] in s.owner
    ensures a + s.size[a] in s.size && s.owner[a + s.size[a]] == a + s.size[a]
  {
    hide Tiled;
    var u := a + s.size[a];
    OwnerOf(s, u);
    BlockOf(s, a);
    if s.owner[u] < u {
      SameBlock(s, a, s.owner[u], u - 1);
      assert false;
    }
  }

  // ---------------------------------------------------------------- changes within one block

  /** `t` comes from `s` by changes within the loose block `a` of `n` units, which is loose no more. */
  ghost predicate OnlyWithin(s: Blocks, t: Blocks, a: nat, n: nat) {
    && t.owner.Keys == s.owner.Keys && t.loose == s.loose - {a} && s.listed <= t.listed
    && (forall u :: u in s.owner && !(a <= u < a + n) ==> t.owner[u] == s.owner[u])
    && (forall c :: c in s.size && c != a ==> c in t.size && t.size[c] == s.size[c])
    && Used(t) == Used(s) && FreeUnits(t) == FreeUnits(s)
  }

  lemma ListOnly(s: Blocks, b: nat)
    requires Tiled(s) && b in s.loose && b in s.size
    ensures OnlyWithin(s, List(s, b), b, s.size[b])
  {
    hide Tiled, Used, FreeUnits;
    ListKeeps(s, b);
  }

  /** Cutting a block in two and putting both in lists changes nothing outside of the block. */
  lemma CutOnly(s: Blocks, b: nat, k: nat)
    requires Tiled(s) && b in s.loose && b in s.size && 0 < k < s.size[b]
    ensures var t := Cut(s, b, k); OnlyWithin(s, List(List(t, b + k), b), b, s.size[b])
  {
    hide Tiled, Used, FreeUnits;
    CutTiles(s, b, k);
    CutKeeps(s, b, k);
    TiledParts(s);
    BlockOf(s, b);
    var t := Cut(s, b, k);
    ListKeeps(t, b + k);
    ListKeeps(List(t, b + k), b);
    assert b + k !in s.loose;
  }
}
