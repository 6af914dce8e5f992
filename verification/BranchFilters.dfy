/** Branch converters on one instruction: relative branch targets become absolute ones, and back. Machine words are
    numbers; a mask of adjacent bits shows as a remainder or a quotient by a power of two, and joining disjoint bits
    as a sum. */
module BranchFilters {
  import opened Modular

  const WORD: nat := 0x1_0000_0000

  type Word = x: nat | x < WORD

  /** 32-bit addition when encoding, subtraction when decoding. */
  function Moved(v: nat, c: nat, encoding: bool): Word {
    if encoding then (v + c) % WORD else (v - c) % WORD
  }

  /** The same within a field of `m` values. */
  function Turned(x: nat, c: nat, m: nat, encoding: bool): (r: nat)
    requires m > 0
    ensures r < m
  {
    if encoding then (x + c) % m else (x - c) % m
  }

  lemma UpAndDown(x: nat, c: nat, m: nat)
    requires x < m
    ensures ((x + c) % m - c) % m == x
  {
    var q := (x + c) / m;
    assert x + c == q * m + (x + c) % m;
    assert (x + c) % m - c == x + (0 - q) * m;
    AddMultiple(x, 0 - q, m);
    Remainder(x, m, 0, x);
  }

  lemma DownAndUp(x: nat, c: nat, m: nat)
    requires x < m
    ensures ((x - c) % m + c) % m == x
  {
    var q := (x - c) / m;
    assert x - c == q * m + (x - c) % m;
    assert (x - c) % m + c == x + (0 - q) * m;
    AddMultiple(x, 0 - q, m);
    Remainder(x, m, 0, x);
  }

  lemma TurnedBack(x: nat, c: nat, m: nat, e: bool)
    requires x < m
    ensures Turned(Turned(x, c, m, e), c, m, !e) == x
  {
    UpAndDown(x, c, m);
    DownAndUp(x, c, m);
  }

  // ---------------------------------------------------------------- ARM

  predicate IsBl(v: Word) { v / 0x100_0000 == 0xEB }

  /** Branches are relative to the instruction after the next one. */
  function Arm(v: Word, pc: nat, encoding: bool): Word {
    if IsBl(v) then Moved(v, (pc + 8) % WORD / 4, encoding) % 0x100_0000 + 0xEB00_0000 else v
  }

  lemma MovedLow(v: nat, c: nat, e: bool, m: nat, k: nat)
    requires m > 0 && k * m == WORD
    ensures Moved(v, c, e) % m == Turned(v % m, c, m, e)
  {
    var x := if e then v + c else v - c;
    var q, r := x / WORD, x % WORD;
    assert x == q * WORD + r;
    assert q * WORD == (q * k) * m;
    AddMultiple(r, q * k, m);
    var l := if e then v % m + c else v % m - c;
    assert v == v / m * m + v % m;
    AddMultiple(l, v / m, m);
  }

  lemma ArmInverse(v: Word, pc: nat, e: bool)
    ensures Arm(Arm(v, pc, e), pc, !e) == v && IsBl(Arm(v, pc, e)) == IsBl(v)
  {
    hide Moved, Turned;
    if IsBl(v) {
      var c, m := (pc + 8) % WORD / 4, 0x100_0000;
      MovedLow(v, c, e, m, 0x100);
      var w := Arm(v, pc, e);
      assert w % m == Turned(v % m, c, m, e) && IsBl(w);
      MovedLow(w, c, !e, m, 0x100);
      TurnedBack(v % m, c, m, e);
    }
  }

  // ---------------------------------------------------------------- PowerPC

  predicate IsPpcBl(v: Word) {
    var x := (v - 0x4800_0001) % WORD;
    x / 0x400_0000 == 0 && x % 4 == 0
  }

  function Ppc(v: Word, pc: nat, encoding: bool): Word {
    if IsPpcBl(v) then Moved(v, pc, encoding) % 0x400_0000 + 0x4800_0000 else v
  }

  lemma PpcFields(v: Word)
    ensures IsPpcBl(v) <==> v / 0x400_0000 == 0x12 && v % 4 == 1
  {
  }

  lemma LowBitsMove(x: nat, c: nat, e: bool, m: nat)
    requires m > 0 && m % 4 == 0
    ensures Turned(x, c, m, e) % 4 == (if e then x + c else x - c) % 4
  {
    var y := if e then x + c else x - c;
    var q, r := y / m, y % m;
    assert y == q * m + r;
    assert m == m / 4 * 4;
    assert q * m == (q * (m / 4)) * 4;
    AddMultiple(r, q * (m / 4), 4);
  }

  lemma PpcMoves(v: Word, pc: nat, e: bool)
    requires IsPpcBl(v)
    ensures var w := Ppc(v, pc, e);
            w / 0x400_0000 == 0x12 && w % 0x400_0000 == Turned(v % 0x400_0000, pc, 0x400_0000, e)
  {
    hide Moved, Turned;
    MovedLow(v, pc, e, 0x400_0000, 0x40);
  }

  lemma PpcInverse(v: Word, pc: nat, e: bool)
    requires pc % 4 == 0
    ensures Ppc(Ppc(v, pc, e), pc, !e) == v && IsPpcBl(Ppc(v, pc, e)) == IsPpcBl(v)
  {
    hide Moved, Turned, IsPpcBl, Ppc;
    if IsPpcBl(v) {
      var m, w := 0x400_0000, Ppc(v, pc, e);
      PpcFields(v);
      PpcMoves(v, pc, e);
      PpcMarks(v, w, pc, e);
      PpcFields(w);
      PpcMoves(w, pc, !e);
      TurnedBack(v % m, pc, m, e);
    } else {
      PpcElse(v, pc);
    }
  }

  /** The two low bits of a word are those of its field, and move with the position. */
  lemma PpcMarks(v: Word, w: Word, pc: nat, e: bool)
    requires v / 0x400_0000 == 0x12 == w / 0x400_0000 && v % 4 == 1
    requires w % 0x400_0000 == Turned(v % 0x400_0000, pc, 0x400_0000, e)
    ensures w % 4 == 1 <==> pc % 4 == 0
  {
    hide Turned;
    LowTwoBits(v);
    LowTwoBits(w);
    LowBitsMove(v % 0x400_0000, pc, e, 0x400_0000);
    OneAndMore(v % 0x400_0000, pc, e);
  }

  lemma LowTwoBits(v: Word)
    ensures v % 0x400_0000 % 4 == v % 4
  {
    var q, r := v / 0x400_0000, v % 0x400_0000;
    assert v == r + q * 0x100_0000 * 4;
    AddMultiple(r, q * 0x100_0000, 4);
  }

  lemma OneAndMore(x: nat, pc: nat, e: bool)
    requires x % 4 == 1
    ensures (if e then x + pc else x - pc) % 4 == 1 <==> pc % 4 == 0
  {
    var k, j, r := x / 4, pc / 4, pc % 4;
    if e {
      assert x + pc == 1 + r + (k + j) * 4;
      AddMultiple(1 + r, k + j, 4);
    } else {
      assert x - pc == 1 - r + (k - j) * 4;
      AddMultiple(1 - r, k - j, 4);
    }
  }

  lemma PpcElse(v: Word, pc: nat)
    requires !IsPpcBl(v)
    ensures Ppc(v, pc, true) == Ppc(v, pc, false) == v
  {
  }

  /** The PowerPC filter can be undone exactly at aligned positions. */
  lemma PpcNeedsAlignment(pc: nat)
    ensures (forall v: Word :: Ppc(Ppc(v, pc, true), pc, false) == v) <==> pc % 4 == 0
  {
    hide Ppc;
    if pc % 4 == 0 {
      forall v: Word ensures Ppc(Ppc(v, pc, true), pc, false) == v {
        PpcInverse(v, pc, true);
      }
    } else {
      PpcMisaligned(pc, 0x4800_0001);
    }
  }

  lemma PpcMisaligned(pc: nat, v: Word)
    requires pc % 4 != 0 && v == 0x4800_0001
    ensures Ppc(Ppc(v, pc, true), pc, false) != v
  {
    hide Moved, Turned, Ppc, IsPpcBl;
    var w := Ppc(v, pc, true);
    PpcFields(v);
    PpcMoves(v, pc, true);
    PpcMarks(v, w, pc, true);
    PpcFields(w);
    PpcElse(w, pc);
  }

  // ---------------------------------------------------------------- SPARC

  /** The displacement of a call, biased by half its range: the sign bits are added off and flipped. */
  function Displaced(v: Word): Word {
    var y := (v + 0xA000_0000) % WORD;
    ((7 - y / 0x2000_0000) * 0x2000_0000 + y % 0x2000_0000 + 0x40_0000) % WORD
  }

  /** A call whose displacement fits into 22 bits and a sign. */
  predicate IsSparcCall(v: Word) { Displaced(v) / 0x80_0000 == 0 }

  /** The call with the biased displacement `s / 4`. */
  function SparcCall(s: nat): Word
    requires s < 0x200_0000
  {
    var q := (s - 0x100_0000) % WORD / 4;
    if q / 0x4000_0000 % 2 == 1 then q else q + 0x4000_0000
  }

  function Sparc(v: Word, pc: nat, encoding: bool): Word {
    if IsSparcCall(v) then SparcCall(Moved(4 * Displaced(v) % WORD, pc, encoding) % 0x200_0000) else v
  }

  lemma SparcFields(v: Word)
    ensures IsSparcCall(v) <==> 0x4000_0000 <= v < 0x4040_0000 || 0x7FC0_0000 <= v < 0x8000_0000
    ensures IsSparcCall(v) ==> Displaced(v) == if v < 0x4040_0000 then v - 0x3FC0_0000 else v - 0x7FC0_0000
  {
    SparcTop(v);
    hide Displaced;
  }

  /** The three highest bits, by the value they have. */
  lemma SparcTop(v: Word)
    ensures v < 0x4000_0000 ==> Displaced(v) >= 0x2000_0000
    ensures 0x4000_0000 <= v < 0x6000_0000 ==> Displaced(v) == v - 0x3FC0_0000
    ensures 0x6000_0000 <= v < 0x7FC0_0000 ==> Displaced(v) >= 0x80_0000
    ensures 0x7FC0_0000 <= v < 0x8000_0000 ==> Displaced(v) == v - 0x7FC0_0000
    ensures v >= 0x8000_0000 ==> Displaced(v) >= 0x80_0000
  {
    var y := (v + 0xA000_0000) % WORD;
    if v < 0x6000_0000 {
      Remainder(v + 0xA000_0000, WORD, 0, v + 0xA000_0000);
    } else {
      Remainder(v + 0xA000_0000, WORD, 1, v - 0x6000_0000);
    }
    var t, low := y / 0x2000_0000, y % 0x2000_0000;
    assert y == t * 0x2000_0000 + low && t < 8;
    hide Displaced;
    SparcTopIs(v, y, t, low);
  }

  lemma SparcTopIs(v: Word, y: nat, t: nat, low: nat)
    requires y == t * 0x2000_0000 + low && t < 8 && low < 0x2000_0000
    requires y == if v < 0x6000_0000 then v + 0xA000_0000 else v - 0x6000_0000
    requires y == (v + 0xA000_0000) % WORD && t == y / 0x2000_0000 && low == y % 0x2000_0000
    ensures v < 0x4000_0000 ==> Displaced(v) >= 0x2000_0000
    ensures 0x4000_0000 <= v < 0x6000_0000 ==> Displaced(v) == v - 0x3FC0_0000
    ensures 0x6000_0000 <= v < 0x7FC0_0000 ==> Displaced(v) >= 0x80_0000
    ensures 0x7FC0_0000 <= v < 0x8000_0000 ==> Displaced(v) == v - 0x7FC0_0000
    ensures v >= 0x8000_0000 ==> Displaced(v) >= 0x80_0000
  {
    var u := (7 - t) * 0x2000_0000 + low + 0x40_0000;
    assert Displaced(v) == u % WORD;
    if u >= WORD {
      Remainder(u, WORD, 1, u - WORD);
    } else {
      Remainder(u, WORD, 0, u);
    }
  }

  lemma SparcCallIs(s: nat)
    requires s < 0x200_0000
    ensures SparcCall(s) == if s >= 0x100_0000 then s / 4 + 0x3FC0_0000 else s / 4 + 0x7FC0_0000
  {
  }

  lemma SparcMoves(v: Word, pc: nat, e: bool)
    requires IsSparcCall(v)
    ensures Sparc(v, pc, e) == SparcCall(Turned(4 * Displaced(v), pc, 0x200_0000, e))
  {
    hide Moved, Turned, SparcCall;
    SparcFields(v);
    hide Displaced, IsSparcCall;
    MovedLow(4 * Displaced(v), pc, e, 0x200_0000, 0x80);
  }

  lemma SparcRound(s: nat)
    requires s < 0x200_0000 && s % 4 == 0
    ensures IsSparcCall(SparcCall(s)) && 4 * Displaced(SparcCall(s)) == s
  {
    hide Displaced, IsSparcCall, SparcCall;
    SparcCallIs(s);
    SparcFields(SparcCall(s));
  }

  lemma SparcBack(v: Word)
    requires IsSparcCall(v)
    ensures 4 * Displaced(v) < 0x200_0000 && SparcCall(4 * Displaced(v)) == v
  {
    hide Displaced, IsSparcCall, SparcCall;
    SparcFields(v);
    SparcCallIs(4 * Displaced(v));
  }

  lemma SparcInverse(v: Word, pc: nat, e: bool)
    requires pc % 4 == 0
    ensures Sparc(Sparc(v, pc, e), pc, !e) == v && IsSparcCall(Sparc(v, pc, e)) == IsSparcCall(v)
  {
    hide Displaced, IsSparcCall, SparcCall, Turned, Sparc;
    if IsSparcCall(v) {
      var m, x := 0x200_0000, 4 * Displaced(v);
      SparcBack(v);
      SparcMoves(v, pc, e);
      FoursMove(Displaced(v), pc, e);
      SparcRound(Turned(x, pc, m, e));
      SparcMoves(Sparc(v, pc, e), pc, !e);
      TurnedBack(x, pc, m, e);
    } else {
      SparcElse(v, pc);
    }
  }

  lemma FoursMove(d: nat, pc: nat, e: bool)
    requires pc % 4 == 0
    ensures Turned(4 * d, pc, 0x200_0000, e) % 4 == 0
  {
    hide Turned;
    LowBitsMove(4 * d, pc, e, 0x200_0000);
    FourSum(d, pc);
  }

  lemma FourSum(d: nat, pc: nat)
    requires pc % 4 == 0
    ensures (4 * d + pc) % 4 == 0 && (4 * d - pc) % 4 == 0
  {
    var b := pc / 4;
    assert 4 * d + pc == 4 * (d + b) && 4 * d - pc == 4 * (d - b);
  }

  lemma SparcElse(v: Word, pc: nat)
    requires !IsSparcCall(v)
    ensures Sparc(v, pc, true) == Sparc(v, pc, false) == v
  {
  }

  /** The SPARC filter can be undone exactly at aligned positions, too. */
  lemma SparcNeedsAlignment(pc: nat)
    ensures (forall v: Word :: Sparc(Sparc(v, pc, true), pc, false) == v) <==> pc % 4 == 0
  {
    hide Sparc;
    if pc % 4 == 0 {
      forall v: Word ensures Sparc(Sparc(v, pc, true), pc, false) == v {
        SparcInverse(v, pc, true);
      }
    } else {
      SparcMisaligned(pc, 0x4000_0000);
    }
  }

  lemma SparcMisaligned(pc: nat, v: Word)
    requires pc % 4 != 0 && v == 0x4000_0000
    ensures Sparc(Sparc(v, pc, true), pc, false) != v
  {
    hide Displaced, IsSparcCall, SparcCall, Turned, Sparc;
    var m, x, r := 0x200_0000, 0x100_0000, pc % 4;
    SparcFields(v);
    SparcMoves(v, pc, true);
    var s := Turned(x, pc, m, true);
    LowBitsMove(x, pc, true, m);
    assert s % 4 == r;
    SparcCallIs(s);
    SparcCallIs(s - r);
    SparcRound(s - r);
    SparcMoves(Sparc(v, pc, true), pc, false);
    OffByRemainder(x, pc, m);
    SparcCallIs(x - r);
  }

  /** Forth with the whole, back from a multiple of four: the remainder is lost. */
  lemma OffByRemainder(x: nat, pc: nat, m: nat)
    requires m % 4 == 0 && 4 <= x < m && x % 4 == 0
    ensures var s, r := Turned(x, pc, m, true), pc % 4;
            s % 4 == r && Turned(s - r, pc, m, false) == x - r
  {
    hide Turned;
    var s, r := Turned(x, pc, m, true), pc % 4;
    LowBitsMove(x, pc, true, m);
    FourAndMore(x, pc);
    SumParts(x, pc, m);
    Lost(x, pc, m, s, (x + pc) / m, r);
    TurnedDown(s - r, pc, m);
  }

  lemma FourAndMore(x: nat, pc: nat)
    requires x % 4 == 0
    ensures (x + pc) % 4 == pc % 4
  {
    var k := x / 4;
    assert x + pc == pc + k * 4;
    AddMultiple(pc, k, 4);
  }

  lemma SumParts(x: nat, pc: nat, m: nat)
    requires m > 0
    ensures x + pc == (x + pc) / m * m + Turned(x, pc, m, true)
  {
  }

  lemma TurnedDown(x: nat, c: nat, m: nat)
    requires m > 0
    ensures Turned(x, c, m, false) == (x - c) % m
  {
  }

  lemma Lost(x: nat, pc: nat, m: nat, s: nat, q: int, r: nat)
    requires m > 0 && x + pc == q * m + s && r <= x < m
    ensures (s - r - pc) % m == x - r
  {
    assert s - r - pc == x - r + (0 - q) * m;
    AddMultiple(x - r, 0 - q, m);
    Remainder(x - r, m, 0, x - r);
  }

  // ---------------------------------------------------------------- ARM64

  predicate IsBl64(v: Word) { (v - 0x9400_0000) % WORD / 0x400_0000 == 0 }

  /** ADRP without its fixed bits, and the same with the page offset biased by half the range that is converted. */
  function Bare(v: Word): Word { (v - 0x9000_0000) % WORD }

  function Biased(v: Word): Word { (Bare(v) + 0x10_0000) % WORD }

  /** ADRP, with an offset small enough to be converted. */
  predicate IsAdrp(v: Word) {
    Bare(v) / 0x100_0000 % 0x20 == 0 && Bare(v) / 0x8000_0000 == 0 && Biased(v) / 0x20_0000 % 8 == 0
  }

  /** The page offset, in steps of eight; its two low bits are at the top of the instruction. */
  function Page(v: Word): nat { Biased(v) / 0x20 * 0x20 + Biased(v) / 0x400_0000 }

  /** ADRP with the register `r` and the page offset `z`. */
  function Adrp(r: nat, z: nat): Word
    requires r < 0x20
  {
    0x9000_0000 + z / 8 % 4 * 0x2000_0000 + (z % 0x20_0000 - 0x10_0000) % 0x100_0000 / 0x20 * 0x20 + r
  }

  function Arm64(v: Word, pc: nat, encoding: bool): Word {
    if IsBl64(v) then Moved(v, pc / 4, encoding) % 0x400_0000 + 0x9400_0000
    else if IsAdrp(v) then Adrp(Biased(v) % 0x20, Moved(Page(v), PageOf(pc), encoding))
    else v
  }

  lemma Bl64Fields(v: Word)
    ensures IsBl64(v) <==> v / 0x400_0000 == 0x25
  {
  }

  lemma Bl64Inverse(v: Word, pc: nat, e: bool)
    requires IsBl64(v)
    ensures Arm64(Arm64(v, pc, e), pc, !e) == v && IsBl64(Arm64(v, pc, e))
  {
    hide Moved, Turned, IsBl64;
    var c, m := pc / 4, 0x400_0000;
    Bl64Fields(v);
    MovedLow(v, c, e, m, 0x40);
    var w := Arm64(v, pc, e);
    Bl64Fields(w);
    assert w % m == Turned(v % m, c, m, e);
    MovedLow(w, c, !e, m, 0x40);
    TurnedBack(v % m, c, m, e);
  }

  /** The fields of an instruction: register, low and high bits of the offset. */
  function Made(r: nat, lo: nat, hi: nat): nat { 0x9000_0000 + lo * 0x2000_0000 + hi * 0x20 + r }

  predicate FieldsOk(r: nat, lo: nat, hi: nat) { r < 0x20 && lo < 4 && hi < 0x8_0000 }

  lemma AdrpFields(v: Word) returns (r: nat, lo: nat, hi: nat)
    requires IsAdrp(v)
    ensures FieldsOk(r, lo, hi) && v == Made(r, lo, hi)
  {
    var x := v - 0x9000_0000;
    r, lo, hi := v % 0x20, x / 0x2000_0000, x % 0x2000_0000 / 0x20;
  }

  /** The offset's high bits, biased. */
  function Up(hi: nat): nat { (hi + 0x8000) % 0x8_0000 }

  lemma MadeBare(r: nat, lo: nat, hi: nat)
    requires FieldsOk(r, lo, hi)
    ensures Made(r, lo, hi) < WORD && Bare(Made(r, lo, hi)) == lo * 0x2000_0000 + hi * 0x20 + r
    ensures Biased(Made(r, lo, hi)) == lo * 0x2000_0000 + (hi + 0x8000) * 0x20 + r
    ensures !IsBl64(Made(r, lo, hi))
  {
  }

  lemma MadeParts(r: nat, lo: nat, hi: nat)
    requires FieldsOk(r, lo, hi)
    ensures var b := lo * 0x2000_0000 + (hi + 0x8000) * 0x20 + r;
            && b % 0x20 == r && b / 0x20 * 0x20 == lo * 0x2000_0000 + (hi + 0x8000) * 0x20 && b / 0x400_0000 == lo * 8
            && b / 0x20_0000 % 8 == (hi + 0x8000) / 0x1_0000 % 8
    ensures var x := lo * 0x2000_0000 + hi * 0x20 + r;
            x / 0x100_0000 % 0x20 == 0 && x / 0x8000_0000 == 0
  {
    var b := lo * 0x2000_0000 + (hi + 0x8000) * 0x20 + r;
    assert b / 0x20 == lo * 0x100_0000 + hi + 0x8000;
    assert b / 0x20_0000 == lo * 0x100 + (hi + 0x8000) / 0x1_0000;
  }

  /** When the offset is small enough, and what the page offset is then. */
  lemma MadePage(r: nat, lo: nat, hi: nat)
    requires FieldsOk(r, lo, hi)
    ensures var v := Made(r, lo, hi);
            && v < WORD && !IsBl64(v) && (IsAdrp(v) <==> Up(hi) < 0x1_0000) && Biased(v) % 0x20 == r
            && (IsAdrp(v) ==> Page(v) % 0x20_0000 == Up(hi) * 0x20 + lo * 8)
  {
    MadeBare(r, lo, hi);
    MadeParts(r, lo, hi);
    hide Made, IsBl64, Bare, Biased;
    PageLow(lo, hi);
  }

  lemma PageLow(lo: nat, hi: nat)
    requires lo < 4 && hi < 0x8_0000
    ensures Up(hi) < 0x1_0000 ==>
              (lo * 0x2000_0000 + (hi + 0x8000) * 0x20 + lo * 8) % 0x20_0000 == Up(hi) * 0x20 + lo * 8
  {
    if Up(hi) < 0x1_0000 {
      var k := if hi + 0x8000 < 0x8_0000 then 0 else 1;
      AddMultiple(Up(hi) * 0x20 + lo * 8, lo * 0x100 + k * 8, 0x20_0000);
      Remainder(Up(hi) * 0x20 + lo * 8, 0x20_0000, 0, Up(hi) * 0x20 + lo * 8);
    }
  }

  /** The instruction for the page offset `z`, of which only 21 bits count. */
  lemma AdrpIs(r: nat, z: nat)
    requires r < 0x20
    ensures Adrp(r, z) == Rebuilt(r, z % 0x20_0000)
  {
    LowEights(z);
    HighPart(z % 0x20_0000);
  }

  /** Taking half the range off before or after dropping the low bits. */
  lemma HighPart(x: nat)
    requires x < 0x20_0000
    ensures (x - 0x10_0000) % 0x100_0000 / 0x20 == (x / 0x20 + 0x7_8000) % 0x8_0000
  {
    if x < 0x10_0000 {
      Remainder(x - 0x10_0000, 0x100_0000, -1, x + 0xF0_0000);
      assert (x + 0xF0_0000) / 0x20 == x / 0x20 + 0x7_8000;
    } else {
      Remainder(x - 0x10_0000, 0x100_0000, 0, x - 0x10_0000);
      assert (x - 0x10_0000) / 0x20 == x / 0x20 - 0x8000;
      Remainder(x / 0x20 + 0x7_8000, 0x8_0000, 1, x / 0x20 - 0x8000);
    }
  }

  lemma LowEights(z: nat)
    ensures z / 8 % 4 == z % 0x20_0000 / 8 % 4
  {
    var q, y := z / 0x20_0000, z % 0x20_0000;
    assert z / 8 == y / 8 + q * 0x1_0000 * 4;
    AddMultiple(y / 8, q * 0x1_0000, 4);
  }

  lemma UpBack(u: nat)
    ensures u < 0x1_0000 ==> Up((u + 0x7_8000) % 0x8_0000) == u
  {
  }

  lemma UpForth(hi: nat)
    requires hi < 0x8_0000
    ensures (Up(hi) + 0x7_8000) % 0x8_0000 == hi
  {
  }

  /** The instruction with register `r` and biased page offset `x`, which is a multiple of eight. */
  function Rebuilt(r: nat, x: nat): nat { Made(r, x / 8 % 4, (x / 0x20 + 0x7_8000) % 0x8_0000) }

  predicate OffsetOk(r: nat, x: nat) { r < 0x20 && x < 0x20_0000 && x % 8 == 0 }

  lemma RebuiltIs(r: nat, x: nat)
    requires OffsetOk(r, x)
    ensures var v := Rebuilt(r, x);
            v < WORD && !IsBl64(v) && IsAdrp(v) && Biased(v) % 0x20 == r && Page(v) % 0x20_0000 == x
  {
    hide Made, IsBl64, IsAdrp, Biased, Page, Up;
    var u := x / 0x20;
    UpBack(u);
    MadePage(r, x / 8 % 4, (u + 0x7_8000) % 0x8_0000);
    assert u * 0x20 + x / 8 % 4 * 8 == x;
  }

  lemma AdrpForm(v: Word) returns (r: nat, x: nat)
    requires IsAdrp(v)
    ensures OffsetOk(r, x) && v == Rebuilt(r, x)
  {
    hide Made, IsBl64, IsAdrp, Biased, Page, Up, Rebuilt, OffsetOk;
    var lo, hi;
    r, lo, hi := AdrpFields(v);
    MadePage(r, lo, hi);
    FormOfFields(r, lo, hi);
    x := Up(hi) * 0x20 + lo * 8;
  }

  lemma FormOfFields(r: nat, lo: nat, hi: nat)
    requires FieldsOk(r, lo, hi) && Up(hi) < 0x1_0000
    ensures var x := Up(hi) * 0x20 + lo * 8;
            OffsetOk(r, x) && Rebuilt(r, x) == Made(r, lo, hi)
  {
    hide Made, Up;
    UpForth(hi);
    Digits(Up(hi), lo);
  }

  lemma Digits(u: nat, lo: nat)
    requires lo < 4
    ensures var x := u * 0x20 + lo * 8;
            x / 8 % 4 == lo && x / 0x20 == u && x % 8 == 0
  {
    assert u * 0x20 + lo * 8 == 8 * (4 * u + lo);
  }

  /** How far a page address moves. */
  function PageOf(pc: nat): (c: nat)
    ensures c % 8 == 0
  {
    pc / 0x200 / 8 * 8
  }

  lemma EightsMove(x: nat, c: nat, e: bool)
    requires x % 8 == 0 && c % 8 == 0
    ensures Turned(x, c, 0x20_0000, e) % 8 == 0
  {
    EightSum(x, c);
    Eights(if e then x + c else x - c);
  }

  lemma EightSum(x: nat, c: nat)
    requires x % 8 == 0 && c % 8 == 0
    ensures (x + c) % 8 == 0 && (x - c) % 8 == 0
  {
    var a, b := x / 8, c / 8;
    assert x == 8 * a && c == 8 * b;
    assert x + c == 8 * (a + b) && x - c == 8 * (a - b);
  }

  lemma Eights(y: int)
    requires y % 8 == 0
    ensures y % 0x20_0000 % 8 == 0
  {
    var q, r := y / 0x20_0000, y % 0x20_0000;
    assert y == r + q * 0x4_0000 * 8;
    AddMultiple(r, q * 0x4_0000, 8);
  }

  /** A page address is converted by moving its offset. */
  lemma AdrpMoves(r: nat, x: nat, pc: nat, e: bool)
    requires OffsetOk(r, x) && Rebuilt(r, x) < WORD
    ensures var y := Turned(x, PageOf(pc), 0x20_0000, e);
            OffsetOk(r, y) && Arm64(Rebuilt(r, x), pc, e) == Rebuilt(r, y)
  {
    hide Turned, Moved, Rebuilt, IsBl64, IsAdrp, Page, Biased, Adrp, PageOf;
    var v, c := Rebuilt(r, x), PageOf(pc);
    RebuiltIs(r, x);
    Arm64OfAdrp(v, pc, e);
    MovedLow(Page(v), c, e, 0x20_0000, 0x800);
    AdrpIs(r, Moved(Page(v), c, e));
    EightsMove(x, c, e);
  }

  lemma Arm64OfAdrp(v: Word, pc: nat, e: bool)
    requires IsAdrp(v) && !IsBl64(v)
    ensures Arm64(v, pc, e) == Adrp(Biased(v) % 0x20, Moved(Page(v), PageOf(pc), e))
  {
    hide IsBl64, IsAdrp, Page, Biased, Adrp, Moved;
  }

  lemma AdrpInverse(v: Word, pc: nat, e: bool)
    requires IsAdrp(v)
    ensures Arm64(Arm64(v, pc, e), pc, !e) == v && IsAdrp(Arm64(v, pc, e)) && !IsBl64(Arm64(v, pc, e)) && !IsBl64(v)
  {
    hide Turned, Rebuilt, IsBl64, IsAdrp, Arm64, PageOf, Biased, Page;
    var r, x := AdrpForm(v);
    var y := Turned(x, PageOf(pc), 0x20_0000, e);
    RebuiltIs(r, x);
    AdrpMoves(r, x, pc, e);
    RebuiltIs(r, y);
    AdrpMoves(r, y, pc, !e);
    TurnedBack(x, PageOf(pc), 0x20_0000, e);
  }

  /** Converting back undoes a conversion, in both directions, and the same instructions are recognized. */
  lemma Arm64Inverse(v: Word, pc: nat, e: bool)
    ensures Arm64(Arm64(v, pc, e), pc, !e) == v
    ensures IsBl64(Arm64(v, pc, e)) == IsBl64(v) && (!IsBl64(v) ==> IsAdrp(Arm64(v, pc, e)) == IsAdrp(v))
  {
    hide IsBl64, IsAdrp, Arm64;
    if IsBl64(v) {
      Bl64Inverse(v, pc, e);
    } else if IsAdrp(v) {
      AdrpInverse(v, pc, e);
    } else {
      Arm64Else(v, pc);
    }
  }

  lemma Arm64Else(v: Word, pc: nat)
    requires !IsBl64(v) && !IsAdrp(v)
    ensures Arm64(v, pc, true) == Arm64(v, pc, false) == v
  {
  }

  // ---------------------------------------------------------------- ARM Thumb

  type Half = x: nat | x < 0x1_0000

  /** The two halves of a long branch. */
  predicate IsBlPair(a: Half, b: Half) { a / 0x800 == 0x1E && b / 0x800 == 0x1F }

  /** Branches are relative to the instruction after the pair. */
  function Thumb(a: Half, b: Half, pc: nat, encoding: bool): (Half, Half) {
    var v := Moved(a * 0x800 + b % 0x800, (pc + 4) % WORD / 2, encoding);
    (v / 0x800 % 0x800 + 0xF000, v % 0x800 + 0xF800)
  }

  lemma ThumbInverse(a: Half, b: Half, pc: nat, e: bool)
    requires IsBlPair(a, b)
    ensures var (x, y) := Thumb(a, b, pc, e);
            IsBlPair(x, y) && Thumb(x, y, pc, !e) == (a, b)
  {
    hide Turned, Moved;
    var c, m := (pc + 4) % WORD / 2, 0x40_0000;
    var (x, y) := Thumb(a, b, pc, e);
    var v, w := a * 0x800 + b % 0x800, x * 0x800 + y % 0x800;
    ThumbTarget(a, b, c, e);
    ThumbTarget(x, y, c, !e);
    TurnedBack(v % m, c, m, e);
    Halves(a, b);
  }

  lemma Halves(a: Half, b: Half)
    requires IsBlPair(a, b)
    ensures var v := (a * 0x800 + b % 0x800) % 0x40_0000;
            v / 0x800 + 0xF000 == a && v % 0x800 + 0xF800 == b
  {
  }

  /** Only the 22 bits of the target count. */
  lemma ThumbTarget(a: Half, b: Half, c: nat, e: bool)
    ensures var v, m := Moved(a * 0x800 + b % 0x800, c, e), 0x40_0000;
            && v % m == Turned((a * 0x800 + b % 0x800) % m, c, m, e)
            && v / 0x800 % 0x800 == v % m / 0x800 && v % 0x800 == v % m % 0x800
  {
    hide Turned, Moved;
    MovedLow(a * 0x800 + b % 0x800, c, e, 0x40_0000, 0x400);
  }
}
