/** The syntax of one LZMA symbol, as an automaton over the bits that a range decoder delivers. */
module LzmaSymbol {
  import opened LowBits
  import opened Bits

  // ---------------------------------------------------------------- layout of the probabilities

  const SPEC_POS: nat := 0
  const IS_REP0_LONG: nat := 128
  const REP_LEN_CODER: nat := 384
  const LEN_CODER: nat := 896
  const IS_MATCH: nat := 1408
  const ALIGN: nat := 1664
  const IS_REP: nat := 1680
  const IS_REP_G0: nat := 1692
  const IS_REP_G1: nat := 1704
  const IS_REP_G2: nat := 1716
  const POS_SLOT: nat := 1728
  const LITERAL: nat := 1984
  const LIT_SIZE: nat := 0x300
  const LEN_HIGH: nat := 256
  const LEN_PROBS: nat := 512

  /** What the decoding of a symbol depends on besides the probabilities: properties, state, position, whether
      nothing has been decoded yet, the previous byte and the byte at distance rep0. */
  datatype Ctx = Ctx(lc: nat, lp: nat, pb: nat, state: nat, pos: nat, first: bool, prev: Byte, match0: Byte)

  predicate Proper(c: Ctx) {
    c.lc <= 8 && c.lp <= 4 && c.pb <= 4 && c.state < 12
  }

  function NumProbs(c: Ctx): nat {
    LITERAL + LIT_SIZE * Pow2(c.lc + c.lp)
  }

  function PosState(c: Ctx): nat {
    c.pos % Pow2(c.pb) * 16
  }

  /** The literal coder is chosen by the low bits of the position and the high bits of the previous byte. */
  function LiteralCell(lc: nat, lp: nat, pos: nat, prev: Byte): nat
    requires lc <= 8
  {
    pos % Pow2(lp) * Pow2(lc) + prev / Pow2(8 - lc)
  }

  function LitBase(c: Ctx): nat
    requires Proper(c)
  {
    LITERAL + if c.first then 0 else LIT_SIZE * LiteralCell(c.lc, c.lp, c.pos, c.prev)
  }

  // ---------------------------------------------------------------- the automaton

  /** A match with a new distance, or with one of the last four. */
  datatype Which = New | Old(k: nat)

  /** A decoded symbol; lengths do not yet include the minimum of two. */
  datatype Symbol =
    | Literal(byte: Byte)
    | ShortRep
    | OldMatch(k: nat, len: nat)
    | NewMatch(len: nat, distance: nat)

  datatype Sym =
    | AtIsMatch
    | Lit(symbol: nat, offs: nat, matchByte: nat)
    | AtIsRep
    | AtG0
    | AtLong
    | AtG1
    | AtG2
    | Choice(w: Which)
    | Choice2(w: Which)
    | Low(w: Which, i: nat)
    | Mid(w: Which, i: nat)
    | High(w: Which, i: nat)
    | Slot(len: nat, i: nat)
    | Special(len: nat, slot: nat, i: nat, m: nat, left: nat)
    | Raw(len: nat, dist: nat, left: nat)
    | Aligned(len: nat, dist: nat, i: nat, m: nat, left: nat)
    | Done(s: Symbol)

  predicate Sane(st: Sym) {
    match st
    case Lit(symbol, offs, _) => 1 <= symbol < 256 && (offs == 0 || offs == 256)
    case Low(_, i) => 1 <= i < 8
    case Mid(_, i) => 1 <= i < 8
    case High(_, i) => 1 <= i < 256
    case Slot(_, i) => 1 <= i < 64
    case Special(_, slot, i, m, left) =>
      4 <= slot < 14 && 1 <= left <= DirectBits(slot) && m == Pow2(DirectBits(slot) - left) && m <= i < 2 * m
    case Raw(_, _, left) => 1 <= left <= 26
    case Aligned(_, _, i, m, left) => 1 <= left <= 4 && m == Pow2(4 - left) && m <= i < 2 * m
    case _ => true
  }

  function DirectBits(slot: nat): nat
    requires slot >= 4
  {
    slot / 2 - 1
  }

  function SlotBase(slot: nat): nat
    requires slot >= 4
  {
    (2 + slot % 2) * Pow2(DirectBits(slot))
  }

  function LenBase(w: Which): nat { if w.New? then LEN_CODER else REP_LEN_CODER }

  function Capped(len: nat): nat { if len < 4 then len else 3 }

  /** The bit of the match byte that the literal decoder compares with, in place. */
  function MatchBit(offs: nat, matchByte: nat): nat {
    if offs == 256 && (2 * matchByte / 256) % 2 == 1 then 256 else 0
  }

  /** Which probability decides the next bit. */
  function SlotOf(c: Ctx, st: Sym): nat
    requires Proper(c) && !st.Done? && !st.Raw? && (st.Special? ==> st.slot >= 4)
  {
    match st
    case AtIsMatch => IS_MATCH + PosState(c) + c.state
    case Lit(symbol, offs, matchByte) => LitBase(c) + (MatchBit(offs, matchByte) + offs + symbol)
    case AtIsRep => IS_REP + c.state
    case AtG0 => IS_REP_G0 + c.state
    case AtLong => IS_REP0_LONG + PosState(c) + c.state
    case AtG1 => IS_REP_G1 + c.state
    case AtG2 => IS_REP_G2 + c.state
    case Choice(w) => LenBase(w)
    case Choice2(w) => LenBase(w) + 8
    case Low(w, i) => LenBase(w) + PosState(c) + i
    case Mid(w, i) => LenBase(w) + PosState(c) + 8 + i
    case High(w, i) => LenBase(w) + LEN_HIGH + i
    case Slot(len, i) => POS_SLOT + Capped(len) * 64 + i
    case Special(_, slot, i, _, _) => SPEC_POS + SlotBase(slot) + i
    case Aligned(_, _, i, _, _) => ALIGN + i
  }

  function LenDone(w: Which, len: nat): Sym {
    match w
    case New => Slot(len, 1)
    case Old(k) => Done(OldMatch(k, len))
  }

  function SlotDone(len: nat, slot: nat): Sym {
    if slot < 4 then Done(NewMatch(len, slot))
    else if slot < 14 then Special(len, slot, 1, 1, DirectBits(slot))
    else Raw(len, 2 + slot % 2, DirectBits(slot) - 4)
  }

  /** The automaton's transitions. */
  function After(c: Ctx, st: Sym, b: bool): (r: Sym)
    requires !st.Done? && Sane(st)
  {
    match st
    case AtIsMatch => if b then AtIsRep else if c.state < 7 then Lit(1, 0, 0) else Lit(1, 256, c.match0)
    case Lit(symbol, offs, matchByte) =>
      var s := 2 * symbol + Bit(b);
      var o := MatchBit(offs, matchByte);
      if s >= 256 then Done(Literal(s - 256))
      else Lit(s, if b then o else if o == offs then 0 else 256, 2 * matchByte)
    case AtIsRep => if b then AtG0 else Choice(New)
    case AtG0 => if b then AtG1 else AtLong
    case AtLong => if b then Choice(Old(0)) else Done(ShortRep)
    case AtG1 => if b then AtG2 else Choice(Old(1))
    case AtG2 => Choice(Old(if b then 3 else 2))
    case Choice(w) => if b then Choice2(w) else Low(w, 1)
    case Choice2(w) => if b then High(w, 1) else Mid(w, 1)
    case Low(w, i) =>
      var n := 2 * i + Bit(b);
      if n < 8 then Low(w, n) else LenDone(w, n - 8)
    case Mid(w, i) =>
      var n := 2 * i + Bit(b);
      if n < 8 then Mid(w, n) else LenDone(w, n)
    case High(w, i) =>
      var n := 2 * i + Bit(b);
      if n < 256 then High(w, n) else LenDone(w, n - 256 + 16)
    case Slot(len, i) =>
      var n := 2 * i + Bit(b);
      if n < 64 then Slot(len, n) else SlotDone(len, n - 64)
    case Special(len, slot, i, m, left) =>
      var n := if b then i + 2 * m else i + m;
      if left > 1 then Special(len, slot, n, 2 * m, left - 1) else Done(NewMatch(len, SlotBase(slot) + n - 2 * m))
    case Raw(len, dist, left) =>
      var d := 2 * dist + Bit(b);
      if left > 1 then Raw(len, d, left - 1) else Aligned(len, d, 1, 1, 4)
    case Aligned(len, dist, i, m, left) =>
      var n := if b then i + 2 * m else i + m;
      if left > 1 then Aligned(len, dist, n, 2 * m, left - 1) else Done(NewMatch(len, 16 * dist + n - 2 * m))
  }

  /** Decoding a symbol ends. */
  function Height(st: Sym): nat
    requires Sane(st)
  {
    match st
    case AtIsMatch => 600
    case Lit(symbol, _, _) => 256 - symbol
    case AtIsRep => 506
    case AtG0 => 505
    case AtLong => 504
    case AtG1 => 503
    case AtG2 => 502
    case Choice(_) => 501
    case Choice2(_) => 500
    case Low(_, i) => 200 + 256 - i
    case Mid(_, i) => 200 + 256 - i
    case High(_, i) => 200 + 256 - i
    case Slot(_, i) => 100 - i
    case Special(_, _, _, _, left) => left
    case Raw(_, _, left) => 4 + left
    case Aligned(_, _, _, _, left) => left
    case Done(_) => 0
  }

  predicate InHeader(st: Sym) {
    st.AtIsMatch? || st.AtIsRep? || st.AtG0? || st.AtLong? || st.AtG1? || st.AtG2? || st.Choice? || st.Choice2?
  }

  lemma HeaderIsSane(c: Ctx, st: Sym, b: bool)
    requires Sane(st) && InHeader(st)
    ensures Sane(After(c, st, b)) && Height(After(c, st, b)) < Height(st)
  {
    hide Pow2;
  }

  lemma LengthIsSane(c: Ctx, st: Sym, b: bool)
    requires Sane(st) && (st.Lit? || st.Low? || st.Mid? || st.High?)
    ensures Sane(After(c, st, b)) && Height(After(c, st, b)) < Height(st)
  {
    hide Pow2, MatchBit, SlotBase, DirectBits;
    if st.Lit? {
      MatchBitBound(st.offs, st.matchByte);
    }
  }

  lemma MatchBitBound(offs: nat, matchByte: nat)
    ensures MatchBit(offs, matchByte) == 0 || MatchBit(offs, matchByte) == 256
  {
  }

  lemma SlotIsSane(c: Ctx, st: Sym, b: bool)
    requires Sane(st) && st.Slot?
    ensures Sane(After(c, st, b)) && Height(After(c, st, b)) < Height(st)
  {
    var n := 2 * st.i + Bit(b);
    if n >= 64 {
      SlotDoneIsSane(st.len, n - 64);
    }
  }

  lemma SlotDoneIsSane(len: nat, slot: nat)
    requires slot < 64
    ensures Sane(SlotDone(len, slot)) && Height(SlotDone(len, slot)) <= 30
  {
    assert Pow2(0) == 1;
    hide Pow2;
  }

  lemma SpecialIsSane(c: Ctx, st: Sym, b: bool)
    requires Sane(st) && st.Special?
    ensures Sane(After(c, st, b)) && Height(After(c, st, b)) < Height(st)
  {
    Pow2Next(DirectBits(st.slot) - st.left);
    hide Pow2;
    if st.left > 1 {
      assert DirectBits(st.slot) - (st.left - 1) == DirectBits(st.slot) - st.left + 1;
    }
  }

  lemma AlignedIsSane(c: Ctx, st: Sym, b: bool)
    requires Sane(st) && (st.Aligned? || st.Raw?)
    ensures Sane(After(c, st, b)) && Height(After(c, st, b)) < Height(st)
  {
    assert Pow2(0) == 1;
    if st.Aligned? {
      Pow2Next(4 - st.left);
      hide Pow2;
    }
  }

  lemma AfterIsSane(c: Ctx, st: Sym, b: bool)
    requires Sane(st) && !st.Done?
    ensures Sane(After(c, st, b)) && Height(After(c, st, b)) < Height(st)
  {
    hide After, Height, Sane;
    match st
    case Lit(_, _, _) | Low(_, _) | Mid(_, _) | High(_, _) => LengthIsSane(c, st, b);
    case Slot(_, _) => SlotIsSane(c, st, b);
    case Special(_, _, _, _, _) => SpecialIsSane(c, st, b);
    case Aligned(_, _, _, _, _) | Raw(_, _, _) => AlignedIsSane(c, st, b);
    case _ => HeaderIsSane(c, st, b);
  }

  // ---------------------------------------------------------------- no probability is used twice

  /** The region of the probabilities for new distances. */
  predicate ForDistance(s: nat) {
    s < IS_REP0_LONG || ALIGN <= s < IS_REP || POS_SLOT <= s < LITERAL
  }

  predicate ForLength(w: Which, s: nat, from: nat, to: nat) {
    LenBase(w) + from <= s < LenBase(w) + to || (w.New? && ForDistance(s))
  }

  /** The probabilities that may still be used from a state on. */
  predicate Later(c: Ctx, st: Sym, s: nat)
    requires Proper(c) && Sane(st)
  {
    match st
    case AtIsMatch => true
    case Lit(symbol, _, _) => LitBase(c) <= s && (s - LitBase(c)) % 256 >= symbol
    case AtIsRep => s != IS_MATCH + PosState(c) + c.state && s < LITERAL
    case AtG0 =>
      || s == IS_REP_G0 + c.state || s == IS_REP_G1 + c.state || s == IS_REP_G2 + c.state
      || s == IS_REP0_LONG + PosState(c) + c.state || ForLength(Old(0), s, 0, LEN_PROBS)
    case AtLong => s == IS_REP0_LONG + PosState(c) + c.state || ForLength(Old(0), s, 0, LEN_PROBS)
    case AtG1 => s == IS_REP_G1 + c.state || s == IS_REP_G2 + c.state || ForLength(Old(0), s, 0, LEN_PROBS)
    case AtG2 => s == IS_REP_G2 + c.state || ForLength(Old(0), s, 0, LEN_PROBS)
    case Choice(w) => ForLength(w, s, 0, LEN_PROBS)
    case Choice2(w) => ForLength(w, s, 8, LEN_PROBS)
    case Low(w, i) => ForLength(w, s, PosState(c) + i, PosState(c) + 8)
    case Mid(w, i) => ForLength(w, s, PosState(c) + 8 + i, PosState(c) + 16)
    case High(w, i) => ForLength(w, s, LEN_HIGH + i, LEN_PROBS)
    case Slot(len, i) =>
      || POS_SLOT + Capped(len) * 64 + i <= s < POS_SLOT + Capped(len) * 64 + 64
      || s < IS_REP0_LONG || ALIGN <= s < IS_REP
    case Special(_, slot, i, _, _) => SPEC_POS + SlotBase(slot) + i <= s < IS_REP0_LONG
    case Raw(_, _, _) => ALIGN <= s < IS_REP
    case Aligned(_, _, i, _, _) => ALIGN + i <= s < IS_REP
    case Done(_) => false
  }

  lemma PosStateBound(c: Ctx)
    requires Proper(c)
    ensures PosState(c) <= 240 && PosState(c) % 16 == 0
  {
    Pow2Grows(c.pb, 4);
    assert Pow2(4) == 16;
  }

  lemma SlotBaseBound(slot: nat)
    requires 4 <= slot < 14
    ensures SlotBase(slot) + Pow2(DirectBits(slot)) <= IS_REP0_LONG && 1 <= DirectBits(slot) <= 5
  {
    hide Pow2;
    var n := DirectBits(slot);
    Pow2Grows(n, 5);
    PowFive();
  }

  lemma PowFive()
    ensures Pow2(5) == 32
  {
  }

  lemma SpecialBound(st: Sym)
    requires Sane(st) && st.Special?
    ensures SlotBase(st.slot) + st.i < IS_REP0_LONG
  {
    SlotBaseBound(st.slot);
    var n := DirectBits(st.slot);
    Pow2Next(n - st.left);
    Pow2Grows(n - st.left + 1, n);
  }

  lemma AlignedBound(st: Sym)
    requires Sane(st) && st.Aligned?
    ensures st.i < 16
  {
    Pow2Next(4 - st.left);
    Pow2Grows(4 - st.left + 1, 4);
    assert Pow2(4) == 16;
  }

  lemma SlotIsLater(c: Ctx, st: Sym)
    requires Proper(c) && Sane(st) && !st.Done? && !st.Raw?
    ensures Later(c, st, SlotOf(c, st))
  {
    hide LitBase, PosState, Pow2, SlotBase;
    PosStateBound(c);
    match st
    case Special(_, _, _, _, _) => SpecialBound(st);
    case Aligned(_, _, _, _, _) => AlignedBound(st);
    case Lit(symbol, offs, matchByte) => assert MatchBit(offs, matchByte) == 0 || MatchBit(offs, matchByte) == 256;
    case _ =>
  }

  lemma HeaderShrinks(c: Ctx, st: Sym, b: bool, s: nat)
    requires Proper(c) && InHeader(st) && Sane(After(c, st, b)) && Later(c, After(c, st, b), s)
    ensures Later(c, st, s) && s != SlotOf(c, st)
  {
    hide PosState, Pow2, SlotBase, LitBase;
    PosStateBound(c);
    LitBaseBound(c);
  }

  lemma LitBaseBound(c: Ctx)
    requires Proper(c)
    ensures LitBase(c) >= LITERAL
  {
  }

  lemma LengthShrinks(c: Ctx, st: Sym, b: bool, s: nat)
    requires Proper(c) && Sane(st) && (st.Low? || st.Mid? || st.High?) && Sane(After(c, st, b)) && Later(c, After(c, st, b), s)
    ensures Later(c, st, s) && s != SlotOf(c, st)
  {
    hide PosState, Pow2, SlotBase, LitBase;
    PosStateBound(c);
  }

  lemma SlotShrinks(c: Ctx, st: Sym, b: bool, s: nat)
    requires Proper(c) && Sane(st) && st.Slot? && Sane(After(c, st, b)) && Later(c, After(c, st, b), s)
    ensures Later(c, st, s) && s != SlotOf(c, st)
  {
    hide PosState, Pow2, SlotBase, LitBase;
  }

  lemma TailShrinks(c: Ctx, st: Sym, b: bool, s: nat)
    requires Proper(c) && Sane(st) && (st.Special? || st.Aligned? || st.Raw?)
    requires Sane(After(c, st, b)) && Later(c, After(c, st, b), s)
    ensures Later(c, st, s) && (!st.Raw? ==> s != SlotOf(c, st))
  {
    hide PosState, Pow2, SlotBase, LitBase, DirectBits;
  }

  /** A transition leaves behind the probability it has used. */
  lemma LaterShrinks(c: Ctx, st: Sym, b: bool, s: nat)
    requires Proper(c) && Sane(st) && !st.Done? && Sane(After(c, st, b)) && Later(c, After(c, st, b), s)
    ensures Later(c, st, s) && (!st.Raw? ==> s != SlotOf(c, st))
  {
    hide After, Later, SlotOf, Sane;
    match st
    case Lit(_, _, _) => LiteralShrinks(c, st, b, s);
    case Low(_, _) | Mid(_, _) | High(_, _) => LengthShrinks(c, st, b, s);
    case Slot(_, _) => SlotShrinks(c, st, b, s);
    case Special(_, _, _, _, _) | Aligned(_, _, _, _, _) | Raw(_, _, _) => TailShrinks(c, st, b, s);
    case _ => HeaderShrinks(c, st, b, s);
  }

  lemma LiteralShrinks(c: Ctx, st: Sym, b: bool, s: nat)
    requires Proper(c) && Sane(st) && st.Lit? && Sane(After(c, st, b)) && Later(c, After(c, st, b), s)
    ensures Later(c, st, s) && s != SlotOf(c, st)
  {
    hide LitBase;
    assert MatchBit(st.offs, st.matchByte) == 0 || MatchBit(st.offs, st.matchByte) == 256;
  }

  lemma LitBaseFits(c: Ctx)
    requires Proper(c)
    ensures LITERAL <= LitBase(c) && LitBase(c) + LIT_SIZE <= NumProbs(c)
  {
    hide Pow2;
    var x, y := c.pos % Pow2(c.lp), c.prev / Pow2(8 - c.lc);
    Pow2Add(c.lc, c.lp);
    Pow2Add(c.lc, 8 - c.lc);
    assert c.lc + (8 - c.lc) == 8;
    Pow2Eight();
    QuotientBound(c.prev, Pow2(c.lc), Pow2(8 - c.lc));
    CellFits(x, Pow2(c.lp), y, Pow2(c.lc));
    CellFits(0, 1, 0, Pow2(c.lc) * Pow2(c.lp));
  }

  lemma CellFits(x: nat, p: nat, y: nat, q: nat)
    requires x < p && y < q
    ensures x * q + y + 1 <= q * p && q * p >= 1
  {
    assert (x + 1) * q <= p * q;
    assert (x + 1) * q == x * q + q;
  }

  /** Every probability the automaton uses exists. */
  lemma SlotInRange(c: Ctx, st: Sym)
    requires Proper(c) && Sane(st) && !st.Done? && !st.Raw?
    ensures SlotOf(c, st) < NumProbs(c)
  {
    hide LitBase, PosState, Pow2, SlotBase, NumProbs;
    PosStateBound(c);
    LitBaseFits(c);
    match st
    case Special(_, _, _, _, _) => SpecialBound(st);
    case Aligned(_, _, _, _, _) => AlignedBound(st);
    case Lit(symbol, offs, matchByte) => MatchBitBound(offs, matchByte);
    case _ =>
  }

  // ---------------------------------------------------------------- bit trees

  /** The trees of bits within a symbol: lengths, distance slots, and literals without a match byte. */
  datatype Tree = LowTree(w: Which) | MidTree(w: Which) | HighTree(w: Which) | SlotTree(len: nat) | LitTree

  function Limit(t: Tree): nat {
    match t
    case LowTree(_) => 8
    case MidTree(_) => 8
    case HighTree(_) => 256
    case SlotTree(_) => 64
    case LitTree => 256
  }

  function TreeBase(c: Ctx, t: Tree): nat
    requires Proper(c)
  {
    match t
    case LowTree(w) => LenBase(w) + PosState(c)
    case MidTree(w) => LenBase(w) + PosState(c) + 8
    case HighTree(w) => LenBase(w) + LEN_HIGH
    case SlotTree(len) => POS_SLOT + Capped(len) * 64
    case LitTree => LitBase(c)
  }

  function Node(t: Tree, i: nat): Sym {
    match t
    case LowTree(w) => Low(w, i)
    case MidTree(w) => Mid(w, i)
    case HighTree(w) => High(w, i)
    case SlotTree(len) => Slot(len, i)
    case LitTree => Lit(i, 0, 0)
  }

  /** Where the tree ends with the value `v`. */
  function Leaf(t: Tree, v: nat): Sym {
    match t
    case LowTree(w) => LenDone(w, v)
    case MidTree(w) => LenDone(w, v + 8)
    case HighTree(w) => LenDone(w, v + 16)
    case SlotTree(len) => SlotDone(len, v)
    case LitTree => if v < 256 then Done(Literal(v)) else AtIsMatch
  }

  lemma NodeStep(c: Ctx, t: Tree, i: nat, b: bool)
    requires Proper(c) && 1 <= i < Limit(t)
    ensures var s := Node(t, i);
            && Sane(s) && !s.Done? && !s.Raw? && SlotOf(c, s) == TreeBase(c, t) + i
            && After(c, s, b) == if 2 * i + Bit(b) < Limit(t) then Node(t, 2 * i + Bit(b)) else Leaf(t, 2 * i + Bit(b) - Limit(t))
  {
    hide LitBase, PosState, Pow2, SlotBase, DirectBits;
  }

  /** The reversed bits at the low end of a distance. */
  datatype Rev = SpecialRev(len: nat, slot: nat) | AlignRev(len: nat, dist: nat)

  function RevNode(v: Rev, i: nat, m: nat, left: nat): Sym {
    match v
    case SpecialRev(len, slot) => Special(len, slot, i, m, left)
    case AlignRev(len, dist) => Aligned(len, dist, i, m, left)
  }

  predicate RevOk(v: Rev) { v.SpecialRev? ==> 4 <= v.slot < 14 }

  function RevBits(v: Rev): nat
    requires RevOk(v)
  {
    if v.SpecialRev? then DirectBits(v.slot) else 4
  }

  function RevBase(v: Rev): nat
    requires RevOk(v)
  {
    if v.SpecialRev? then SPEC_POS + SlotBase(v.slot) else ALIGN
  }

  function RevDone(v: Rev, i: nat, m: nat): Sym
    requires RevOk(v) && i >= m
  {
    Done(NewMatch(v.len, i - m + if v.SpecialRev? then SlotBase(v.slot) else 16 * v.dist))
  }

  lemma RevStep(c: Ctx, v: Rev, i: nat, m: nat, left: nat, b: bool)
    requires Proper(c) && RevOk(v) && Sane(RevNode(v, i, m, left))
    ensures var s, n := RevNode(v, i, m, left), if b then i + 2 * m else i + m;
            && !s.Done? && !s.Raw? && SlotOf(c, s) == RevBase(v) + i && n >= 2 * m
            && After(c, s, b) == if left > 1 then RevNode(v, n, 2 * m, left - 1) else RevDone(v, n, 2 * m)
  {
    hide LitBase, PosState, Pow2, SlotBase;
  }
}
