/** What the converters do to branches, told by the addresses they lead to: an encoded instruction holds the address itself
    instead of the distance, so that branches to one place become equal wherever they stand. Offsets are signed numbers of
    instructions or pages, as in the manuals of the processors. */
module BranchTargets {
  import opened Modular
  import opened BranchFilters
  import opened SparcRotation
  import opened BranchConverters

  // ---------------------------------------------------------------- ARM

  /** BL: the address of the instruction, eight, and four times the offset. */
  function ArmCall(off: int): Word { 0xEB00_0000 + off % 0x100_0000 }

  function ArmTarget(pc: nat, off: int): int { pc + 8 + 4 * off }

  lemma ArmHoldsTarget(off: int, pc: nat)
    ensures Arm(ArmCall(off), pc, true) == ArmCall(ArmTarget(pc, off) / 4)
  {
    hide Moved, Turned;
    var m, c := 0x100_0000, (pc + 8) % WORD / 4;
    MovedLow(ArmCall(off), c, true, m, 0x100);
    TurnedUp(off % m, c, m);
    QuarterOfWord(pc + 8, m);
    SumOfRemainders(off, c, (pc + 8) / 4, m);
    assert ArmTarget(pc, off) / 4 == (pc + 8) / 4 + off;
  }

  lemma TurnedUp(x: nat, c: nat, m: nat)
    requires m > 0
    ensures Turned(x, c, m, true) == (x + c) % m
  {
  }

  /** A quarter of an address, cut to 32 bits before or after. */
  lemma QuarterOfWord(a: nat, m: nat)
    requires m > 0 && 0x4000_0000 % m == 0
    ensures a % WORD / 4 % m == a / 4 % m
  {
    var q, r, k := a / WORD, a % WORD, 0x4000_0000 / m;
    assert a / 4 == r / 4 + q * 0x4000_0000;
    assert q * 0x4000_0000 == q * k * m;
    AddMultiple(r / 4, q * k, m);
  }

  lemma SumOfRemainders(a: int, b: int, c: int, m: nat)
    requires m > 0 && b % m == c % m
    ensures (a % m + b) % m == (c + a) % m
  {
    assert a == a / m * m + a % m && b == b / m * m + b % m && c == c / m * m + c % m;
    assert c + a == (a % m + b) + (a / m + c / m - b / m) * m;
    AddMultiple(a % m + b, a / m + c / m - b / m, m);
  }

  // ---------------------------------------------------------------- ARM Thumb

  /** BL in two halves: the address, four, and twice the offset. */
  function ThumbCall(off: int): (Half, Half) { (0xF000 + off % 0x40_0000 / 0x800, 0xF800 + off % 0x800) }

  function ThumbTargetOf(pc: nat, off: int): int { pc + 4 + 2 * off }

  lemma ThumbHoldsTarget(off: int, pc: nat)
    ensures var (a, b) := ThumbCall(off);
            IsBlPair(a, b) && Thumb(a, b, pc, true) == ThumbCall(ThumbTargetOf(pc, off) / 2)
  {
    hide Moved, Turned;
    var (a, b) := ThumbCall(off);
    var m, c, t := 0x40_0000, (pc + 4) % WORD / 2, ThumbTargetOf(pc, off) / 2;
    ThumbTarget(a, b, c, true);
    ThumbOffset(off);
    TurnedUp(off % m, c, m);
    HalfOfWord(pc + 4, m);
    SumOfRemainders(off, c, (pc + 4) / 2, m);
    assert t == (pc + 4) / 2 + off;
    LowElevenBits(t);
    assert Moved(a * 0x800 + b % 0x800, c, true) % m == t % m;
  }

  lemma ThumbOffset(off: int)
    ensures var (a, b) := ThumbCall(off); (a * 0x800 + b % 0x800) % 0x40_0000 == off % 0x40_0000 && IsBlPair(a, b)
  {
    LowElevenBits(off);
  }

  lemma LowElevenBits(off: int)
    ensures off % 0x40_0000 % 0x800 == off % 0x800
  {
    var q, r := off / 0x40_0000, off % 0x40_0000;
    assert off == r + q * 0x800 * 0x800;
    AddMultiple(r, q * 0x800, 0x800);
  }

  lemma HalfOfWord(a: nat, m: nat)
    requires m > 0 && 0x8000_0000 % m == 0
    ensures a % WORD / 2 % m == a / 2 % m
  {
    var q, r, k := a / WORD, a % WORD, 0x8000_0000 / m;
    assert a / 2 == r / 2 + q * 0x8000_0000;
    assert q * 0x8000_0000 == q * k * m;
    AddMultiple(r / 2, q * k, m);
  }

  // ---------------------------------------------------------------- PowerPC

  /** BL: the address and the offset in bytes, a multiple of four. */
  function PpcCall(off: int): Word
    requires off % 4 == 0
  {
    LowBitsZero(off);
    0x4800_0001 + off % 0x400_0000
  }

  lemma LowBitsZero(off: int)
    ensures off % 0x400_0000 % 4 == off % 4
  {
    var q, r := off / 0x400_0000, off % 0x400_0000;
    assert off == r + q * 0x100_0000 * 4;
    AddMultiple(r, q * 0x100_0000, 4);
  }

  lemma PpcHoldsTarget(off: int, pc: nat)
    requires off % 4 == 0 && pc % 4 == 0
    ensures IsPpcBl(PpcCall(off)) && (pc + off) % 4 == 0 && Ppc(PpcCall(off), pc, true) == PpcCall(pc + off)
  {
    hide Moved, Turned, IsPpcBl, Ppc;
    var m, v := 0x400_0000, PpcCall(off);
    FourthSum(pc, off);
    PpcCallFields(off);
    PpcCallFields(pc + off);
    hide PpcCall;
    PpcFields(v);
    PpcMoves(v, pc, true);
    TurnedUp(off % m + 1, pc, m);
    OneMore(off, pc);
    TopBits(Ppc(v, pc, true));
    TopBits(PpcCall(pc + off));
  }

  lemma PpcCallFields(off: int)
    requires off % 4 == 0
    ensures var v := PpcCall(off); v / 0x400_0000 == 0x12 && v % 0x400_0000 == off % 0x400_0000 + 1 && v % 4 == 1
  {
    var x := off % 0x400_0000;
    LowBitsZero(off);
    var k := x / 4;
    assert x == 4 * k && k < 0x100_0000;
    Remainder(0x4800_0001 + x, 0x400_0000, 0x12, x + 1);
    AddMultiple(1, 0x1200_0000 + k, 4);
    assert 0x4800_0001 + x == 1 + (0x1200_0000 + k) * 4;
  }

  lemma FourthSum(a: int, b: int)
    requires a % 4 == 0 && b % 4 == 0
    ensures (a + b) % 4 == 0
  {
    var x, y := a / 4, b / 4;
    assert a + b == 4 * (x + y);
  }

  /** The bit that is set in every call stays. */
  lemma OneMore(off: int, pc: nat)
    requires off % 4 == 0 && pc % 4 == 0 && (pc + off) % 4 == 0
    ensures (off % 0x400_0000 + 1 + pc) % 0x400_0000 == (pc + off) % 0x400_0000 + 1
  {
    var m, q, s, r := 0x400_0000, off / 0x400_0000, (pc + off) / 0x400_0000, (pc + off) % 0x400_0000;
    LowBitsZero(pc + off);
    assert off % m + 1 + pc == r + 1 + (s - q) * m;
    AddMultiple(r + 1, s - q, m);
    Remainder(r + 1, m, 0, r + 1);
  }

  lemma TopBits(v: Word)
    requires v / 0x400_0000 == 0x12
    ensures v == 0x4800_0000 + v % 0x400_0000
  {
  }

  // ---------------------------------------------------------------- SPARC

  /** The number in the range of a field of `m` values around zero that stands for `x`. */
  function Wrapped(x: int, m: nat): (r: int)
    requires m > 0 && m % 2 == 0
    ensures 0 - m / 2 <= r < m / 2
  {
    (x + m / 2) % m - m / 2
  }

  /** CALL: the address and four times the offset. The converter takes calls of up to 2^22 instructions either way. */
  function SparcCallTo(off: int): Word { 0x4000_0000 + off % 0x4000_0000 }

  lemma SparcHoldsTarget(off: int, pc: nat)
    requires -0x40_0000 <= off < 0x40_0000 && pc % 4 == 0
    ensures IsSparcCall(SparcCallTo(off)) && Sparc(SparcCallTo(off), pc, true) == SparcCallTo(Wrapped((pc + 4 * off) / 4, 0x80_0000))
  {
    hide Moved, Turned, Displaced, IsSparcCall, Sparc, SparcCall, SparcCallTo, Wrapped;
    var t, x: nat := pc / 4 + off, 4 * (off + 0x40_0000);
    SparcCallFields(off);
    SparcMoves(SparcCallTo(off), pc, true);
    TurnedUp(x, pc, 0x200_0000);
    assert x + pc == 4 * (t + 0x40_0000) && (pc + 4 * off) / 4 == t;
    SparcCallOfOffset(t);
  }

  lemma SparcCallFields(off: int)
    requires -0x40_0000 <= off < 0x40_0000
    ensures IsSparcCall(SparcCallTo(off)) && Displaced(SparcCallTo(off)) == off + 0x40_0000
  {
    hide Displaced, IsSparcCall;
    Remainder(off, 0x4000_0000, if off >= 0 then 0 else -1, if off >= 0 then off else off + 0x4000_0000);
    SparcFields(SparcCallTo(off));
  }

  lemma SparcCallOfOffset(t: int)
    ensures 4 * (t + 0x40_0000) % 0x200_0000 < 0x200_0000
    ensures SparcCall(4 * (t + 0x40_0000) % 0x200_0000) == SparcCallTo(Wrapped(t, 0x80_0000))
  {
    hide SparcCall;
    Quarters(t + 0x40_0000);
    var s := (t + 0x40_0000) % 0x80_0000;
    SparcCallIs(4 * s);
    Remainder(s - 0x40_0000, 0x4000_0000, if s >= 0x40_0000 then 0 else -1, if s >= 0x40_0000 then s - 0x40_0000 else s + 0x3FC0_0000);
  }

  lemma Quarters(y: int)
    ensures 4 * y % 0x200_0000 == 4 * (y % 0x80_0000)
  {
    var q, r := y / 0x80_0000, y % 0x80_0000;
    assert 4 * y == q * 0x200_0000 + 4 * r;
    Remainder(4 * y, 0x200_0000, q, 4 * r);
  }

  // ---------------------------------------------------------------- ARM64

  /** BL: the address and four times the offset. */
  function Arm64Call(off: int): Word { 0x9400_0000 + off % 0x400_0000 }

  lemma Arm64HoldsTarget(off: int, pc: nat)
    ensures IsBl64(Arm64Call(off)) && Arm64(Arm64Call(off), pc, true) == Arm64Call((pc + 4 * off) / 4)
  {
    hide Moved, Turned, IsBl64;
    var m, v := 0x400_0000, Arm64Call(off);
    Bl64Fields(v);
    MovedLow(v, pc / 4, true, m, 0x40);
    TurnedUp(off % m, pc / 4, m);
    SumOfRemainders(off, pc / 4, pc / 4, m);
    assert (pc + 4 * off) / 4 == pc / 4 + off;
  }

  /** ADRP: the address of a page, as an offset in pages of 4096 bytes from the page of the instruction. */
  function PageCode(r: nat, off: int): nat
    requires r < 0x20
  {
    Made(r, off % 4, off / 4 % 0x8_0000)
  }

  /** The converter takes offsets of up to 2^17 pages either way. */
  lemma AdrpHoldsPage(r: nat, off: int, pc: nat)
    requires r < 0x20 && -0x2_0000 <= off < 0x2_0000
    ensures var v, w := PageCode(r, off), PageCode(r, Wrapped(pc / 4096 + off, 0x4_0000));
            v < WORD && IsAdrp(v) && !IsBl64(v) && w < WORD && Arm64(v, pc, true) == w
  {
    hide Turned, Moved, Rebuilt, IsBl64, IsAdrp, Arm64, PageOf, Wrapped, Made;
    var x: nat := 8 * (off + 0x2_0000);
    PageCodeIs(r, off);
    RebuiltIs(r, x);
    AdrpMoves(r, x, pc, true);
    PageMoves(off, pc);
    var t := Wrapped(pc / 4096 + off, 0x4_0000);
    PageCodeIs(r, t);
    RebuiltIs(r, 8 * (t + 0x2_0000));
  }

  lemma PageCodeIs(r: nat, off: int)
    requires r < 0x20 && -0x2_0000 <= off < 0x2_0000
    ensures OffsetOk(r, 8 * (off + 0x2_0000)) && PageCode(r, off) == Rebuilt(r, 8 * (off + 0x2_0000))
  {
    hide Made;
    var x := 8 * (off + 0x2_0000);
    assert x / 8 == off + 0x2_0000 && x / 0x20 == off / 4 + 0x8000;
    AddMultiple(off / 4, 1, 0x8_0000);
    assert off / 4 + 0x8000 + 0x7_8000 == off / 4 + 1 * 0x8_0000;
  }

  lemma PageMoves(off: int, pc: nat)
    requires -0x2_0000 <= off < 0x2_0000
    ensures Turned(8 * (off + 0x2_0000), PageOf(pc), 0x20_0000, true) == 8 * (Wrapped(pc / 4096 + off, 0x4_0000) + 0x2_0000)
  {
    assert pc / 0x200 / 8 == pc / 4096;
    var y := pc / 4096 + off + 0x2_0000;
    var q, z := y / 0x4_0000, y % 0x4_0000;
    assert 8 * (off + 0x2_0000) + 8 * (pc / 4096) == 8 * y == q * 0x20_0000 + 8 * z;
    Remainder(8 * y, 0x20_0000, q, 8 * z);
  }

  /** ADRP with a larger offset, in a field that reaches to 2^20 pages either way, is left alone. */
  lemma FarPagesStay(r: nat, off: int, pc: nat, e: bool)
    requires r < 0x20 && (-0x10_0000 <= off < -0x2_0000 || 0x2_0000 <= off < 0x10_0000)
    ensures var v := PageCode(r, off);
            v < WORD && Arm64(v, pc, e) == v
  {
    hide Made, Arm64, IsAdrp, IsBl64, Page, Biased;
    MadePage(r, off % 4, off / 4 % 0x8_0000);
    Arm64Else(PageCode(r, off), pc);
  }

  // ---------------------------------------------------------------- nothing else changes

  lemma OnlyArmCalls(v: Word, pc: nat, e: bool)
    ensures Arm(v, pc, e) == v || v == ArmCall(v % 0x100_0000)
  {
    hide Moved;
  }

  lemma OnlyPpcCalls(v: Word, pc: nat, e: bool)
    ensures Ppc(v, pc, e) == v || (v % 4 == 1 && v == PpcCall(v - 0x4800_0001))
  {
    hide Moved, IsPpcBl;
    PpcFields(v);
  }

  lemma OnlySparcCalls(v: Word, pc: nat, e: bool)
    ensures Sparc(v, pc, e) == v || exists off :: -0x40_0000 <= off < 0x40_0000 && v == SparcCallTo(off)
  {
    hide Moved, Displaced, IsSparcCall, SparcCall;
    SparcFields(v);
    if IsSparcCall(v) {
      var off := if v < 0x4040_0000 then v - 0x4000_0000 else v - 0x8000_0000;
      assert v == SparcCallTo(off);
    }
  }

  lemma OnlyArm64Calls(v: Word, pc: nat, e: bool)
    ensures Arm64(v, pc, e) == v || v == Arm64Call(v % 0x400_0000)
            || exists r: nat, off :: r < 0x20 && -0x2_0000 <= off < 0x2_0000 && v == PageCode(r, off)
  {
    hide Moved, IsBl64, IsAdrp, Adrp, Page, Biased, Made, Up;
    Bl64Fields(v);
    if IsAdrp(v) {
      var r, lo, hi := AdrpFields(v);
      MadePage(r, lo, hi);
      var off := OffsetOfFields(lo, hi);
      assert v == PageCode(r, off);
    }
  }

  lemma OffsetOfFields(lo: nat, hi: nat) returns (off: int)
    requires lo < 4 && hi < 0x8_0000 && Up(hi) < 0x1_0000
    ensures -0x2_0000 <= off < 0x2_0000 && off % 4 == lo && off / 4 % 0x8_0000 == hi
  {
    off := 4 * (Up(hi) - 0x8000) + lo;
    assert off / 4 == Up(hi) - 0x8000;
  }

  // ---------------------------------------------------------------- whole buffers

  /** The call `off` instructions away, and whether the converter takes it. */
  function Call(f: Filter, off: int): Word {
    match f
    case FilterArm => ArmCall(off)
    case FilterArm64 => Arm64Call(off)
    case FilterPpc => PpcCall(4 * off)
    case _ => SparcCallTo(off)
  }

  predicate Takes(f: Filter, start: Word, off: int) {
    match f
    case FilterArm => true
    case FilterArm64 => true
    case FilterPpc => start % 4 == 0
    case _ => start % 4 == 0 && -0x40_0000 <= off < 0x40_0000
  }

  /** What an encoded call holds, up to what its field cannot show. */
  function Held(f: Filter, pc: nat, off: int): int {
    match f
    case FilterArm => (pc + 8 + 4 * off) / 4
    case FilterArm64 => (pc + 4 * off) / 4
    case FilterPpc => (pc + 4 * off) / 4
    case _ => Wrapped((pc + 4 * off) / 4, 0x80_0000)
  }

  lemma CallHoldsTarget(f: Filter, pc: Word, off: int)
    requires Takes(f, pc, off)
    ensures Convert(f, Call(f, off), pc, true) == Call(f, Held(f, pc, off))
  {
    hide Arm, Arm64, Ppc, Sparc, SparcRotated, ArmCall, Arm64Call, PpcCall, SparcCallTo, Wrapped;
    match f
    case FilterArm => ArmHoldsTarget(off, pc);
    case FilterArm64 => Arm64HoldsTarget(off, pc);
    case FilterPpc =>
      PpcHoldsTarget(4 * off, pc);
      assert 4 * ((pc + 4 * off) / 4) == pc + 4 * off;
    case FilterSparc => SparcHoldsTarget(off, pc);
    case FilterSparcRotated =>
      RotationIsUnobservable(SparcCallTo(off), pc, true);
      SparcHoldsTarget(off, pc);
  }

  lemma QuarterCongruent(x: int, y: int)
    requires x % WORD == y % WORD
    ensures x / 4 % 0x4000_0000 == y / 4 % 0x4000_0000
  {
    var q, p := x / WORD, y / WORD;
    assert x / 4 == y / 4 + (q - p) * 0x4000_0000;
    AddMultiple(y / 4, q - p, 0x4000_0000);
  }

  lemma RemainderOfRemainder(x: int, y: int, m: nat)
    requires m > 0 && 0x4000_0000 % m == 0 && x % 0x4000_0000 == y % 0x4000_0000
    ensures x % m == y % m
  {
    var k, q, p := 0x4000_0000 / m, x / 0x4000_0000, y / 0x4000_0000;
    assert x == y + (q - p) * 0x4000_0000;
    assert (q - p) * 0x4000_0000 == (q - p) * k * m;
    AddMultiple(y, (q - p) * k, m);
  }

  lemma ArmCongruent(x: int, y: int)
    requires x / 4 % 0x4000_0000 == y / 4 % 0x4000_0000
    ensures ArmCall((x + 8) / 4) == ArmCall((y + 8) / 4)
  {
    assert (x + 8) / 4 == x / 4 + 2 && (y + 8) / 4 == y / 4 + 2;
    RemainderOfRemainder(x / 4, y / 4, 0x100_0000);
    SumOfRemainders(2, x / 4, y / 4, 0x100_0000);
    SumOfRemainders(2, y / 4, y / 4, 0x100_0000);
  }

  lemma PpcCongruent(s: int, t: int)
    requires s % 0x4000_0000 == t % 0x4000_0000
    ensures PpcCall(4 * s) == PpcCall(4 * t)
  {
    RemainderOfRemainder(s, t, 0x100_0000);
    FourTimes(s);
    FourTimes(t);
  }

  lemma WrappedCongruent(s: int, t: int)
    requires s % 0x4000_0000 == t % 0x4000_0000
    ensures Wrapped(s, 0x80_0000) == Wrapped(t, 0x80_0000)
  {
    RemainderOfRemainder(s, t, 0x80_0000);
    SumOfRemainders(0x40_0000, s, t, 0x80_0000);
    SumOfRemainders(0x40_0000, t, t, 0x80_0000);
  }

  lemma HeldCongruent(f: Filter, pc: Word, off: int, pc': Word, off': int)
    requires (pc + 4 * off) % WORD == (pc' + 4 * off') % WORD
    ensures Call(f, Held(f, pc, off)) == Call(f, Held(f, pc', off'))
  {
    hide ArmCall, PpcCall, SparcCallTo, Wrapped;
    var x, y := pc + 4 * off, pc' + 4 * off';
    QuarterCongruent(x, y);
    match f
    case FilterArm => ArmCongruent(x, y);
    case FilterArm64 => RemainderOfRemainder(x / 4, y / 4, 0x400_0000);
    case FilterPpc => PpcCongruent(x / 4, y / 4);
    case _ => WrappedCongruent(x / 4, y / 4);
  }

  lemma FourTimes(t: int)
    ensures 4 * t % 0x400_0000 == 4 * (t % 0x100_0000)
  {
    var q, r := t / 0x100_0000, t % 0x100_0000;
    assert 4 * t == q * 0x400_0000 + 4 * r;
    Remainder(4 * t, 0x400_0000, q, 4 * r);
  }

  /** What the filters are for: in an encoded buffer, calls to one place have become one word, wherever they stand. */
  lemma EqualTargets(f: Filter, words: seq<Word>, start: Word, i: nat, a: int, j: nat, b: int)
    requires i < |words| && j < |words| && words[i] == Call(f, a) && words[j] == Call(f, b) && i + a == j + b
    requires Takes(f, start, a) && Takes(f, start, b)
    ensures ConvertAll(f, words, start, true)[i] == ConvertAll(f, words, start, true)[j]
  {
    hide Convert, ConvertAll, Call, Held;
    ByPosition(f, words, start, true, i);
    ByPosition(f, words, start, true, j);
    StaysAligned(start, i);
    StaysAligned(start, j);
    CallHoldsTarget(f, (start + 4 * i) % WORD, a);
    CallHoldsTarget(f, (start + 4 * j) % WORD, b);
    SumOfRemainders(start + 4 * i, 4 * a, 4 * a, WORD);
    SumOfRemainders(start + 4 * j, 4 * b, 4 * b, WORD);
    HeldCongruent(f, (start + 4 * i) % WORD, a, (start + 4 * j) % WORD, b);
  }

  lemma StaysAligned(start: Word, i: nat)
    ensures start % 4 == 0 ==> (start + 4 * i) % WORD % 4 == 0
  {
    if start % 4 == 0 {
      var q, r := (start + 4 * i) / WORD, (start + 4 * i) % WORD;
      assert start + 4 * i == r + q * 0x4000_0000 * 4;
      AddMultiple(r, q * 0x4000_0000, 4);
      FourthSum(start, 4 * i);
    }
  }
}
