/** Looking ahead at one LZMA symbol: nothing is changed, and the end of the input may come at any bit. */
module LzmaLookAhead {
  import opened Options
  import opened Bits
  import opened LowBits
  import opened LzmaSymbol
  import opened LzmaRange
  import opened LzmaLiteral

  datatype Dummy = InputEof | DummyLit | DummyMatch | DummyRep

  /** How the look-ahead classifies a symbol. */
  function ClassOf(s: Symbol): Dummy {
    match s
    case Literal(_) => DummyLit
    case NewMatch(_, _) => DummyMatch
    case _ => DummyRep
  }

  /** Looking ahead from this state leads to `goal`. */
  ghost predicate On(c: Ctx, probs: Probs, st: Sym, rc: Rc, data: seq<Byte>, goal: Option<Dry>) {
    Proper(c) && |probs| == NumProbs(c) && Sane(st) && DryRun(c, probs, st, rc, data) == goal
  }

  // ---------------------------------------------------------------- looking ahead

  /** One bit, without adapting its probability; fails at the end of the input. */
  method CheckBit(probs: Probs, slot: nat, rc: Rc, data: seq<Byte>, ghost c: Ctx, ghost st: Sym, ghost goal: Option<Dry>)
    returns (ok: bool, b: bool, r: Rc)
    requires On(c, probs, st, rc, data, goal) && !st.Done? && !st.Raw? && slot == SlotOf(c, st)
    ensures !ok ==> goal == None
    ensures ok ==> On(c, probs, After(c, st, b), r, data, goal)
  {
    hide After, SlotOf, Sane, DryRun, NumProbs;
    SlotInRange(c, st);
    DryStep(c, probs, st, rc, data);
    var range, code, at := rc.range, rc.code, rc.at;
    if range < TOP {
      if at >= |data| {
        return false, false, rc;
      }
      range := range * 256;
      code := (code * 256 + data[at]) % WORD;
      at := at + 1;
    }
    var bound := range / MODEL * probs[slot];
    if code < bound {
      range, b := bound, false;
    } else {
      range, code, b := if range >= bound then range - bound else 0, code - bound, true;
    }
    return true, b, Rc(range, code, at);
  }

  /** Bits without probabilities. */
  method CheckRaw(probs: Probs, count: nat, rc: Rc, data: seq<Byte>, ghost c: Ctx, ghost len: nat, ghost dist: nat,
                  ghost goal: Option<Dry>)
    returns (ok: bool, r: Rc, ghost d: nat)
    requires 1 <= count <= 26 && On(c, probs, Raw(len, dist, count), rc, data, goal)
    ensures !ok ==> goal == None
    ensures ok ==> On(c, probs, Aligned(len, d, 1, 1, 4), r, data, goal)
  {
    hide DryRun, NumProbs;
    var left := count;
    r, d := rc, dist;
    while left > 0
      invariant 0 <= left <= count
      invariant On(c, probs, if left > 0 then Raw(len, d, left) else Aligned(len, d, 1, 1, 4), r, data, goal)
    {
      DryStep(c, probs, Raw(len, d, left), r, data);
      var range, code, at := r.range, r.code, r.at;
      if range < TOP {
        if at >= |data| {
          return false, r, d;
        }
        range := range * 256;
        code := (code * 256 + data[at]) % WORD;
        at := at + 1;
      }
      range := range / 2;
      var below := (code - range) % WORD / 0x8000_0000 == 1;
      if !below {
        code := (code - range) % WORD;
      }
      r := Rc(range, code, at);
      d := 2 * d + Bit(!below);
      left := left - 1;
    }
    return true, r, d;
  }

  /** A tree of bits; the value is what follows the leading one. */
  method CheckTree(probs: Probs, base: nat, limit: nat, rc: Rc, data: seq<Byte>, ghost c: Ctx, ghost t: Tree,
                   ghost goal: Option<Dry>)
    returns (ok: bool, v: nat, r: Rc)
    requires On(c, probs, Node(t, 1), rc, data, goal) && base == TreeBase(c, t) && limit == Limit(t)
    ensures !ok ==> goal == None
    ensures ok ==> v < limit && On(c, probs, Leaf(t, v), r, data, goal)
  {
    hide After, SlotOf, Sane, DryRun, NumProbs, Node, Leaf, TreeBase;
    var i := 1;
    r := rc;
    while i < limit
      invariant 1 <= i < 2 * limit
      invariant On(c, probs, if i < limit then Node(t, i) else Leaf(t, i - limit), r, data, goal)
      decreases limit - i
    {
      NodeStep(c, t, i, false);
      NodeStep(c, t, i, true);
      var b;
      ok, b, r := CheckBit(probs, base + i, r, data, c, Node(t, i), goal);
      if !ok {
        return false, 0, r;
      }
      i := 2 * i + Bit(b);
    }
    return true, i - limit, r;
  }

  /** Bits in reversed order. */
  method CheckReverse(probs: Probs, base: nat, count: nat, rc: Rc, data: seq<Byte>, ghost c: Ctx, ghost v: Rev,
                      ghost goal: Option<Dry>)
    returns (ok: bool, r: Rc, ghost s: Symbol)
    requires RevOk(v) && base == RevBase(v) && count == RevBits(v) && count > 0
    requires On(c, probs, RevNode(v, 1, 1, count), rc, data, goal)
    ensures !ok ==> goal == None
    ensures ok ==> s.NewMatch? && s.len == v.len && On(c, probs, Done(s), r, data, goal)
  {
    hide After, SlotOf, Sane, DryRun, NumProbs, RevNode, RevBase;
    var i: nat, m: nat, left: nat := 1, 1, count;
    r := rc;
    while left > 0
      invariant 0 <= left <= count && m <= i
      invariant On(c, probs, if left > 0 then RevNode(v, i, m, left) else RevDone(v, i, m), r, data, goal)
    {
      RevStep(c, v, i, m, left, false);
      RevStep(c, v, i, m, left, true);
      var b;
      ok, b, r := CheckBit(probs, base + i, r, data, c, RevNode(v, i, m, left), goal);
      if !ok {
        return false, r, ShortRep;
      }
      if b {
        m := 2 * m;
        i := i + m;
      } else {
        i := i + m;
        m := 2 * m;
      }
      left := left - 1;
    }
    return true, r, RevDone(v, i, m).s;
  }

  method LiteralProb(c: Ctx) returns (prob: nat)
    requires Proper(c)
    ensures prob == LitBase(c)
  {
    hide LiteralCell;
    prob := LITERAL;
    if !c.first {
      prob := prob + LIT_SIZE * LiteralCell(c.lc, c.lp, c.pos, c.prev);
    }
  }

  /** A literal, with or without a byte to compare with. */
  method CheckLiteral(probs: Probs, rc: Rc, data: seq<Byte>, c: Ctx, ghost goal: Option<Dry>)
    returns (ok: bool, r: Rc, ghost s: Symbol)
    requires On(c, probs, After(c, AtIsMatch, false), rc, data, goal)
    ensures !ok ==> goal == None
    ensures ok ==> s.Literal? && On(c, probs, Done(s), r, data, goal)
  {
    hide SlotOf, DryRun, NumProbs, MatchBit, LitBase, Pow2;
    var prob := LiteralProb(c);
    if c.state < 7 {
      var v;
      ok, v, r := CheckTree(probs, prob, 0x100, rc, data, c, LitTree, goal);
      return ok, r, if ok then Literal(v) else ShortRep;
    }
    ok, r, s := CheckMatched(probs, prob, rc, data, c, goal);
  }

  /** A literal after a match: each probability depends on the byte at distance rep0, as long as the bits agree. */
  method CheckMatched(probs: Probs, prob: nat, rc: Rc, data: seq<Byte>, c: Ctx, ghost goal: Option<Dry>)
    returns (ok: bool, r: Rc, ghost s: Symbol)
    requires On(c, probs, Lit(1, 256, c.match0), rc, data, goal) && prob == LitBase(c)
    ensures !ok ==> goal == None
    ensures ok ==> s.Literal? && On(c, probs, Done(s), r, data, goal)
  {
    hide SlotOf, DryRun, NumProbs, LitBase, MatchBit;
    var matchByte: nat, offs: nat, symbol: nat := c.match0, 0x100, 1;
    r := rc;
    while symbol < 0x100
      invariant 1 <= symbol < 0x200 && (offs == 0 || offs == 256)
      invariant On(c, probs, if symbol < 0x100 then Lit(symbol, offs, matchByte) else Done(Literal(symbol - 256)), r, data, goal)
      decreases 0x100 - symbol
    {
      MatchedStep(c, symbol, offs, matchByte);
      ghost var st := Lit(symbol, offs, matchByte);
      matchByte := matchByte + matchByte;
      var bit := offs;
      offs := And(offs, matchByte);
      var b;
      ok, b, r := CheckBit(probs, prob + (offs + bit + symbol), r, data, c, st, goal);
      if !ok {
        return false, r, ShortRep;
      }
      if b {
        symbol := 2 * symbol + 1;
      } else {
        symbol := 2 * symbol;
        offs := if offs == bit then 0 else 0x100;
      }
    }
    return true, r, Literal(symbol - 256);
  }

  /** One step through a literal that is compared with a byte. */
  lemma MatchedStep(c: Ctx, symbol: nat, offs: nat, matchByte: nat)
    requires Proper(c) && 1 <= symbol < 256 && (offs == 0 || offs == 256)
    ensures var s, o := Lit(symbol, offs, matchByte), And(offs, 2 * matchByte);
            && (o == 0 || o == 256) && SlotOf(c, s) == LitBase(c) + (o + offs + symbol)
            && After(c, s, true) ==
               (if 2 * symbol + 1 >= 256 then Done(Literal(2 * symbol + 1 - 256)) else Lit(2 * symbol + 1, o, 2 * matchByte))
            && After(c, s, false) ==
               (if 2 * symbol >= 256 then Done(Literal(2 * symbol - 256))
                else Lit(2 * symbol, if o == offs then 0 else 256, 2 * matchByte))
  {
    hide LitBase, And, MatchBit;
    MatchBitIsAnd(offs, matchByte);
    MatchBitBound(offs, matchByte);
  }

  // ---------------------------------------------------------------- looking ahead at matches

  /** The length of a match; for a new distance its tree of slots follows. */
  method CheckLength(probs: Probs, prob: nat, rc: Rc, data: seq<Byte>, c: Ctx, ghost w: Which, ghost goal: Option<Dry>)
    returns (ok: bool, len: nat, r: Rc)
    requires On(c, probs, Choice(w), rc, data, goal) && prob == LenBase(w)
    ensures !ok ==> goal == None
    ensures ok ==> On(c, probs, LenDone(w, len), r, data, goal)
  {
    hide DryRun, NumProbs, LenBase, Pow2;
    var base, offset, limit;
    var b;
    len := 0;
    ghost var t := LowTree(w);
    ok, b, r := CheckBit(probs, prob, rc, data, c, Choice(w), goal);
    if !ok {
      return;
    }
    if !b {
      base, offset, limit := prob + PosState(c), 0, 8;
    } else {
      ok, b, r := CheckBit(probs, prob + 8, r, data, c, Choice2(w), goal);
      if !ok {
        return;
      }
      if !b {
        base, offset, limit := prob + PosState(c) + 8, 8, 8;
        t := MidTree(w);
      } else {
        base, offset, limit := prob + LEN_HIGH, 16, 256;
        t := HighTree(w);
      }
    }
    ok, len, r := CheckTree(probs, base, limit, r, data, c, t, goal);
    len := len + offset;
  }

  /** A new distance. */
  method CheckDistance(probs: Probs, len: nat, rc: Rc, data: seq<Byte>, c: Ctx, ghost goal: Option<Dry>)
    returns (ok: bool, r: Rc, ghost s: Symbol)
    requires On(c, probs, Slot(len, 1), rc, data, goal)
    ensures !ok ==> goal == None
    ensures ok ==> s.NewMatch? && On(c, probs, Done(s), r, data, goal)
  {
    hide DryRun, NumProbs, Pow2;
    var posSlot;
    s := ShortRep;
    ok, posSlot, r := CheckTree(probs, POS_SLOT + (if len < 3 then len else 3) * 64, 64, rc, data, c, SlotTree(len), goal);
    if !ok {
      return;
    }
    if posSlot < 4 {
      return true, r, NewMatch(len, posSlot);
    }
    var bits := posSlot / 2 - 1;
    if posSlot < 14 {
      ok, r, s := CheckReverse(probs, SPEC_POS + (2 + posSlot % 2) * Pow2(bits), bits, r, data, c,
                               SpecialRev(len, posSlot), goal);
    } else {
      ghost var d;
      ok, r, d := CheckRaw(probs, bits - 4, r, data, c, len, 2 + posSlot % 2, goal);
      if !ok {
        return;
      }
      ok, r, s := CheckReverse(probs, ALIGN, 4, r, data, c, AlignRev(len, d), goal);
    }
  }

  /** Which of the earlier distances a match repeats. */
  method CheckRep(probs: Probs, rc: Rc, data: seq<Byte>, c: Ctx, ghost goal: Option<Dry>)
    returns (ok: bool, short: bool, r: Rc, ghost k: nat)
    requires On(c, probs, AtG0, rc, data, goal)
    ensures !ok ==> goal == None
    ensures ok ==> On(c, probs, if short then Done(ShortRep) else Choice(Old(k)), r, data, goal)
  {
    hide DryRun, NumProbs, Pow2, PosState;
    var b;
    short, k := false, 0;
    ok, b, r := CheckBit(probs, IS_REP_G0 + c.state, rc, data, c, AtG0, goal);
    if !ok {
      return;
    }
    if !b {
      ok, b, r := CheckBit(probs, IS_REP0_LONG + PosState(c) + c.state, r, data, c, AtLong, goal);
      short := !b;
    } else {
      ok, b, r := CheckBit(probs, IS_REP_G1 + c.state, r, data, c, AtG1, goal);
      k := 1;
      if ok && b {
        ok, b, r := CheckBit(probs, IS_REP_G2 + c.state, r, data, c, AtG2, goal);
        k := if b then 3 else 2;
      }
    }
  }

  /** A match of any kind. */
  method CheckMatch(probs: Probs, rc: Rc, data: seq<Byte>, c: Ctx, ghost goal: Option<Dry>)
    returns (res: Dummy, r: Rc, ghost s: Symbol)
    requires On(c, probs, AtIsRep, rc, data, goal)
    ensures res == InputEof ==> goal == None
    ensures res != InputEof ==> res == ClassOf(s) && On(c, probs, Done(s), r, data, goal)
  {
    hide DryRun, NumProbs, Pow2;
    var ok, b;
    var len: nat;
    s := ShortRep;
    ok, b, r := CheckBit(probs, IS_REP + c.state, rc, data, c, AtIsRep, goal);
    if !ok {
      return InputEof, r, s;
    }
    if !b {
      ok, len, r := CheckLength(probs, LEN_CODER, r, data, c, New, goal);
      if ok {
        ok, r, s := CheckDistance(probs, len, r, data, c, goal);
      }
      return if ok then DummyMatch else InputEof, r, s;
    }
    var short;
    ghost var k;
    ok, short, r, k := CheckRep(probs, r, data, c, goal);
    if ok && !short {
      ok, len, r := CheckLength(probs, REP_LEN_CODER, r, data, c, Old(k), goal);
      s := OldMatch(k, len);
    }
    return if ok then DummyRep else InputEof, r, s;
  }
}
