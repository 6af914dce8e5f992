/** The SPARC filter as it is compiled where rotations are fast: the two bits that mark a call are rotated to the low end
    and back. */
module SparcRotation {
  import opened Modular
  import opened BranchFilters

  function RotatedLeft(v: Word): Word { v * 4 % WORD + v / 0x4000_0000 }

  function RotatedRight(v: Word): Word { v / 4 + v % 4 * 0x4000_0000 }

  /** The displacement in bytes, biased; the low bits are zero for calls. */
  function Shifted(v: Word): Word { (RotatedLeft(v) + 0xFF_FFFF) % WORD }

  predicate IsRotatedCall(v: Word) { Shifted(v) % 4 == 0 && Shifted(v) / 0x200_0000 == 0 }

  function RotatedCall(s: nat): Word
    requires s < 0x200_0000
  {
    RotatedRight((s - 0xFF_FFFF) % WORD)
  }

  function SparcRotated(v: Word, pc: nat, encoding: bool): Word {
    if IsRotatedCall(v) then RotatedCall(Moved(Shifted(v), pc, encoding) % 0x200_0000) else v
  }

  /** Both variants convert the same instructions. */
  lemma SameCalls(v: Word)
    ensures IsRotatedCall(v) <==> IsSparcCall(v)
    ensures IsSparcCall(v) ==> Shifted(v) == 4 * Displaced(v) < 0x200_0000
  {
    SparcFields(v);
    ShiftedIs(v);
    hide Displaced, Shifted;
  }

  lemma ShiftedIs(v: Word)
    ensures v < 0x4000_0000 ==> Shifted(v) % 4 == 3
    ensures 0x4000_0000 <= v < 0x7FC0_0000 ==> Shifted(v) == 4 * (v - 0x4000_0000) + 0x100_0000
    ensures 0x7FC0_0000 <= v < 0x8000_0000 ==> Shifted(v) == 4 * (v - 0x7FC0_0000)
    ensures v >= 0x8000_0000 ==> Shifted(v) % 4 != 0
  {
    var t, low := v / 0x4000_0000, v % 0x4000_0000;
    Remainder(v * 4, WORD, t, 4 * low);
    assert RotatedLeft(v) == 4 * low + t;
    var u := 4 * low + t + 0xFF_FFFF;
    if u < WORD {
      Remainder(u, WORD, 0, u);
    } else {
      Remainder(u, WORD, 1, u - WORD);
    }
    hide RotatedLeft;
    LowOfShifted(low, t);
  }

  lemma LowOfShifted(low: nat, t: nat)
    requires t < 4
    ensures (4 * low + t + 0xFF_FFFF) % 4 == (t + 3) % 4 && (4 * low + t + 0xFF_FFFF - WORD) % 4 == (t + 3) % 4
  {
    AddMultiple(t + 3, low + 0x3F_FFFF, 4);
    AddMultiple(t + 3, low + 0x3F_FFFF - 0x4000_0000, 4);
    assert 4 * low + t + 0xFF_FFFF == t + 3 + (low + 0x3F_FFFF) * 4;
    assert 4 * low + t + 0xFF_FFFF - WORD == t + 3 + (low + 0x3F_FFFF - 0x4000_0000) * 4;
  }

  lemma RotatedCallIs(s: nat)
    requires s < 0x200_0000
    ensures s % 4 == 0 ==> RotatedCall(s) == SparcCall(s)
    ensures s % 4 != 0 ==> RotatedCall(s) / 0x4000_0000 != 1
  {
  }

  lemma RotatedMoves(v: Word, pc: nat, e: bool)
    requires IsSparcCall(v)
    ensures SparcRotated(v, pc, e) == RotatedCall(Turned(4 * Displaced(v), pc, 0x200_0000, e))
    ensures Sparc(v, pc, e) == SparcCall(Turned(4 * Displaced(v), pc, 0x200_0000, e))
  {
    hide Displaced, IsSparcCall, SparcCall, RotatedCall, Turned, Moved, Sparc, Shifted, IsRotatedCall;
    SameCalls(v);
    SparcMoves(v, pc, e);
    MovedLow(4 * Displaced(v), pc, e, 0x200_0000, 0x80);
  }

  lemma RotatedElse(v: Word, pc: nat, e: bool)
    requires !IsSparcCall(v)
    ensures SparcRotated(v, pc, e) == Sparc(v, pc, e) == v
  {
    hide Displaced, SparcCall, RotatedCall, Shifted;
    SameCalls(v);
  }

  /** At aligned positions both variants are the same. */
  lemma RotationIsUnobservable(v: Word, pc: nat, e: bool)
    requires pc % 4 == 0
    ensures SparcRotated(v, pc, e) == Sparc(v, pc, e)
  {
    hide Displaced, IsSparcCall, SparcCall, RotatedCall, Turned, Sparc, SparcRotated;
    if IsSparcCall(v) {
      SparcBack(v);
      RotatedMoves(v, pc, e);
      FoursMove(Displaced(v), pc, e);
      RotatedCallIs(Turned(4 * Displaced(v), pc, 0x200_0000, e));
    } else {
      RotatedElse(v, pc, e);
    }
  }

  /** At other positions, the mark of a call is lost. */
  lemma RotatedMisaligned(pc: nat, v: Word, e: bool)
    requires pc % 4 != 0 && IsSparcCall(v)
    ensures !IsSparcCall(SparcRotated(v, pc, e))
  {
    hide Displaced, IsSparcCall, SparcCall, RotatedCall, Turned, Sparc, SparcRotated;
    var s := Turned(4 * Displaced(v), pc, 0x200_0000, e);
    RotatedMoves(v, pc, e);
    LowBitsMove(4 * Displaced(v), pc, e, 0x200_0000);
    NotFours(Displaced(v), pc);
    RotatedCallIs(s);
    SparcFields(RotatedCall(s));
  }

  lemma NotFours(d: nat, pc: nat)
    requires pc % 4 != 0
    ensures (4 * d + pc) % 4 != 0 && (4 * d - pc) % 4 != 0
  {
    var b, r := pc / 4, pc % 4;
    assert 4 * d + pc == 4 * (d + b) + r && 4 * d - pc == 4 * (d - b) - r;
  }

  /** The variants differ exactly at positions that are not aligned. */
  lemma RotationIff(pc: nat)
    ensures (forall v: Word, e: bool :: SparcRotated(v, pc, e) == Sparc(v, pc, e)) <==> pc % 4 == 0
  {
    hide SparcRotated, Sparc, IsSparcCall;
    if pc % 4 == 0 {
      forall v: Word, e: bool ensures SparcRotated(v, pc, e) == Sparc(v, pc, e) { RotationIsUnobservable(v, pc, e); }
    } else {
      var v: Word := 0x4000_0000;
      SparcFields(v);
      RotatedMisaligned(pc, v, true);
      StaysCall(v, pc, true);
      assert SparcRotated(v, pc, true) != Sparc(v, pc, true);
    }
  }

  lemma StaysCall(v: Word, pc: nat, e: bool)
    requires IsSparcCall(v)
    ensures IsSparcCall(Sparc(v, pc, e))
  {
    hide Displaced, IsSparcCall, SparcCall, RotatedCall, Turned, Sparc;
    var s := Turned(4 * Displaced(v), pc, 0x200_0000, e);
    SparcMoves(v, pc, e);
    SparcCallIs(s);
    SparcFields(SparcCall(s));
  }

  lemma RotatedInverse(v: Word, pc: nat, e: bool)
    requires pc % 4 == 0
    ensures SparcRotated(SparcRotated(v, pc, e), pc, !e) == v && IsSparcCall(SparcRotated(v, pc, e)) == IsSparcCall(v)
  {
    hide SparcRotated, Sparc, IsSparcCall;
    RotationIsUnobservable(v, pc, e);
    RotationIsUnobservable(Sparc(v, pc, e), pc, !e);
    SparcInverse(v, pc, e);
  }

  /** The filter can be undone exactly at aligned positions in this variant, too. */
  lemma RotatedNeedsAlignment(pc: nat)
    ensures (forall v: Word :: SparcRotated(SparcRotated(v, pc, true), pc, false) == v) <==> pc % 4 == 0
  {
    hide SparcRotated;
    if pc % 4 == 0 {
      forall v: Word ensures SparcRotated(SparcRotated(v, pc, true), pc, false) == v { RotatedInverse(v, pc, true); }
    } else {
      RotatedNotUndone(pc, 0x4000_0000);
    }
  }

  lemma RotatedNotUndone(pc: nat, v: Word)
    requires pc % 4 != 0 && v == 0x4000_0000
    ensures SparcRotated(SparcRotated(v, pc, true), pc, false) != v
  {
    hide SparcRotated, IsSparcCall, Displaced;
    SparcFields(v);
    RotatedMisaligned(pc, v, true);
    RotatedElse(SparcRotated(v, pc, true), pc, false);
  }
}
