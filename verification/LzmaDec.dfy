/** The LZMA decoder for one symbol, which adapts the probabilities as it goes. */
module LzmaDec {
  import opened Options
  import opened Bits
  import opened LowBits
  import opened LzmaSymbol
  import opened LzmaRange
  import opened LzmaLiteral
  import opened LzmaBudget
  import opened LzmaLookAhead

  const MATCH_SPEC_LEN_START: nat := 274
  const ERROR_DATA: nat := 512
  const MIN_LEN: nat := 2
  const END_MARK: nat := 0xFFFF_FFFF

  class LzmaDec {
    const lc: nat
    const lp: nat
    const pb: nat
    const dic: array<Byte>
    const probs: array<nat>
    var dicPos: nat
    var range: nat
    var code: nat
    var at: nat               // position in the input
    var state: nat
    var rep0: nat
    var rep1: nat
    var rep2: nat
    var rep3: nat
    var processedPos: nat
    var checkDicSize: nat
    ghost var ctx: Ctx        // what the current symbol depends on
    ghost var st: Sym         // how far it has been decoded
    ghost var goal: Wet       // what decoding it leads to

    /** A decoder that writes into a given dictionary. */
    constructor (lc: nat, lp: nat, pb: nat, dic: array<Byte>)
      ensures this.lc == lc && this.lp == lp && this.pb == pb && this.dic == dic && fresh(probs)
      ensures probs.Length == LITERAL + LIT_SIZE * Pow2(lc + lp) && dicPos == 0 && processedPos == 0 && checkDicSize == 0
    {
      this.lc, this.lp, this.pb, this.dic := lc, lp, pb, dic;
      probs := new nat[LITERAL + LIT_SIZE * Pow2(lc + lp)](_ => 0);
      dicPos, processedPos, checkDicSize := 0, 0, 0;
      range, code, at, state, rep0, rep1, rep2, rep3 := 0, 0, 0, 0, 0, 0, 0, 0;
    }

    ghost predicate Running(data: seq<Byte>)
      reads this`ctx, this`st, this`goal, this`range, this`code, this`at, probs
    {
      && Proper(ctx) && probs.Length == NumProbs(ctx) && Sane(st) && code < WORD
      && WetRun(ctx, probs[..], st, Rc(range, code, at), data) == Some(goal)
    }

    /** One bit with its probability. */
    method DecodeBit(slot: nat, data: seq<Byte>) returns (b: bool)
      requires Running(data) && !st.Done? && !st.Raw? && slot == SlotOf(ctx, st)
      modifies probs, this`range, this`code, this`at, this`st
      ensures Running(data) && st == After(ctx, old(st), b)
    {
      hide After, SlotOf, Sane, WetRun, NumProbs;
      SlotInRange(ctx, st);
      WetStep(ctx, probs[..], st, Rc(range, code, at), data);
      if range < TOP {
        range := range * 256;
        code := (code * 256 + data[at]) % WORD;
        at := at + 1;
      }
      ghost var before := probs[..];
      var p := probs[slot];
      var bound := range / MODEL * p;
      if code < bound {
        range, b := bound, false;
        probs[slot] := if p <= MODEL then p + (MODEL - p) / 32 else p;
      } else {
        range, code, b := if range >= bound then range - bound else 0, code - bound, true;
        probs[slot] := p - p / 32;
      }
      assert probs[..] == before[slot := Adapted(p, b)];
      st := After(ctx, st, b);
    }

    /** A tree of bits; the value is what follows the leading one. */
    method DecodeTree(base: nat, limit: nat, data: seq<Byte>, ghost t: Tree) returns (v: nat)
      requires Running(data) && st == Node(t, 1) && base == TreeBase(ctx, t) && limit == Limit(t)
      modifies probs, this`range, this`code, this`at, this`st
      ensures Running(data) && v < limit && st == Leaf(t, v)
    {
      hide After, SlotOf, Sane, WetRun, NumProbs, Node, Leaf, TreeBase;
      var i: nat := 1;
      while i < limit
        invariant 1 <= i < 2 * limit && Running(data) && st == if i < limit then Node(t, i) else Leaf(t, i - limit)
        decreases limit - i
      {
        NodeStep(ctx, t, i, false);
        NodeStep(ctx, t, i, true);
        var b := DecodeBit(base + i, data);
        i := 2 * i + Bit(b);
      }
      v := i - limit;
    }

    /** One bit without probability. */
    method DecodeHalf(data: seq<Byte>) returns (b: bool)
      requires Running(data) && st.Raw?
      modifies this`range, this`code, this`at, this`st
      ensures Running(data) && st == After(ctx, old(st), b)
    {
      hide WetRun, NumProbs, Pow2, After, Sane;
      WetStep(ctx, probs[..], st, Place(), data);
      if range < TOP {
        range := range * 256;
        code := (code * 256 + data[at]) % WORD;
        at := at + 1;
      }
      range := range / 2;
      ghost var before := code;
      code := (code - range) % WORD;
      b := code / 0x8000_0000 == 0;
      if !b {
        SumOfDifference(before, range);
        code := (code + range) % WORD;
      }
      st := After(ctx, st, b);
    }

    /** Bits without probabilities, appended to a distance. */
    method DecodeRaw(count: nat, start: nat, data: seq<Byte>, ghost len: nat) returns (distance: nat)
      requires 1 <= count <= 26 && Running(data) && st == Raw(len, start, count)
      modifies this`range, this`code, this`at, this`st
      ensures Running(data) && st == Aligned(len, distance, 1, 1, 4)
    {
      hide Running, Pow2;
      var left := count;
      distance := start;
      while left > 0
        invariant 0 <= left <= count && Running(data)
        invariant st == if left > 0 then Raw(len, distance, left) else Aligned(len, distance, 1, 1, 4)
      {
        var b := DecodeHalf(data);
        distance := 2 * distance + Bit(b);
        left := left - 1;
      }
    }

    /** The low bits of a distance below 128, each with its own probability. */
    method DecodeSpecial(slot: nat, data: seq<Byte>, ghost len: nat) returns (distance: nat)
      requires 4 <= slot < 14 && Running(data) && st == Special(len, slot, 1, 1, DirectBits(slot))
      modifies probs, this`range, this`code, this`at, this`st
      ensures Running(data) && st == Done(NewMatch(len, distance))
    {
      hide After, SlotOf, Sane, WetRun, NumProbs, Pow2;
      var left: nat := slot / 2 - 1;
      ghost var v, base := SpecialRev(len, slot), SlotBase(slot);
      distance := (2 + slot % 2) * Pow2(left);
      var m: nat := 1;
      distance := distance + 1;
      while left > 0
        invariant left <= DirectBits(slot) && Running(data) && distance >= base + m
        invariant st == if left > 0 then Special(len, slot, distance - base, m, left) else RevDone(v, distance - base, m)
      {
        RevStep(ctx, v, distance - base, m, left, false);
        RevStep(ctx, v, distance - base, m, left, true);
        var b := DecodeBit(SPEC_POS + distance, data);
        if !b {
          distance := distance + m;
          m := m + m;
        } else {
          m := m + m;
          distance := distance + m;
        }
        left := left - 1;
      }
      distance := distance - m;
    }

    /** The low four bits of a long distance. */
    method DecodeAlign(high: nat, data: seq<Byte>, ghost len: nat) returns (distance: nat)
      requires Running(data) && st == Aligned(len, high, 1, 1, 4)
      modifies probs, this`range, this`code, this`at, this`st
      ensures Running(data) && st == Done(NewMatch(len, distance))
    {
      hide After, SlotOf, Sane, WetRun, NumProbs, Pow2;
      ghost var v := AlignRev(len, high);
      var i: nat := 1;
      var m: nat := 1;
      while m < 8
        invariant (m == 1 || m == 2 || m == 4 || m == 8) && m <= i && Running(data)
        invariant st == Aligned(len, high, i, m, if m == 1 then 4 else if m == 2 then 3 else if m == 4 then 2 else 1)
        decreases 8 - m
      {
        RevStep(ctx, v, i, m, st.left, false);
        RevStep(ctx, v, i, m, st.left, true);
        var b := DecodeBit(ALIGN + i, data);
        i := if b then i + m * 2 else i + m;
        m := m * 2;
      }
      RevStep(ctx, v, i, 8, 1, false);
      RevStep(ctx, v, i, 8, 1, true);
      var b := DecodeBit(ALIGN + i, data);
      if !b {
        i := i - 8;
      }
      distance := 16 * high + i;
    }

    /** A literal after a match: each probability depends on the byte at distance rep0, as long as the bits agree. */
    method DecodeMatched(prob: nat, match0: Byte, data: seq<Byte>) returns (symbol: nat)
      requires Running(data) && st == Lit(1, 256, match0) && prob == LitBase(ctx)
      modifies probs, this`range, this`code, this`at, this`st
      ensures Running(data) && 256 <= symbol < 512 && st == Done(Literal(symbol - 256))
    {
      hide After, SlotOf, Sane, WetRun, NumProbs, LitBase, MatchBit;
      var matchByte: nat, offs: nat := match0, 0x100;
      symbol := 1;
      while symbol < 0x100
        invariant 1 <= symbol < 0x200 && (offs == 0 || offs == 256) && Running(data)
        invariant st == if symbol < 0x100 then Lit(symbol, offs, matchByte) else Done(Literal(symbol - 256))
        decreases 0x100 - symbol
      {
        MatchedStep(ctx, symbol, offs, matchByte);
        matchByte := matchByte + matchByte;
        var bit := offs;
        offs := And(offs, matchByte);
        var b := DecodeBit(prob + (offs + bit + symbol), data);
        if b {
          symbol := 2 * symbol + 1;
        } else {
          symbol := 2 * symbol;
          offs := if offs == bit then 0 else 0x100;
        }
      }
    }

    /** The literal coder of the current position. */
    method LiteralCoder(prev: Byte) returns (prob: nat)
      requires Proper(ctx) && lc == ctx.lc && lp == ctx.lp && processedPos == ctx.pos
      requires ctx.first == (processedPos == 0 && checkDicSize == 0) && (!ctx.first ==> prev == ctx.prev)
      ensures prob == LitBase(ctx)
    {
      hide Pow2, And;
      prob := LITERAL;
      if processedPos != 0 || checkDicSize != 0 {
        LiteralIndices(lc, lp, processedPos, prev);
        var lpMask := 256 * Pow2(lp) - Pow2(8 - lc);
        prob := prob + 3 * (And((processedPos * 256 + prev) % WORD, lpMask) * Pow2(lc));
      }
    }

    /** The length of a match. */
    method DecodeLength(prob: nat, posState: nat, data: seq<Byte>, ghost w: Which) returns (len: nat)
      requires Running(data) && st == Choice(w) && prob == LenBase(w) && posState == PosState(ctx)
      modifies probs, this`range, this`code, this`at, this`st
      ensures Running(data) && st == LenDone(w, len)
    {
      hide WetRun, NumProbs, LenBase, PosState;
      var b := DecodeBit(prob, data);
      if !b {
        len := DecodeTree(prob + posState, 8, data, LowTree(w));
      } else {
        b := DecodeBit(prob + 8, data);
        if !b {
          len := DecodeTree(prob + posState + 8, 8, data, MidTree(w));
          len := len + 8;
        } else {
          len := DecodeTree(prob + LEN_HIGH, 256, data, HighTree(w));
          len := len + 16;
        }
      }
    }

    /** A new distance. */
    method DecodeDistance(len: nat, data: seq<Byte>) returns (distance: nat)
      requires Running(data) && st == Slot(len, 1)
      modifies probs, this`range, this`code, this`at, this`st
      ensures Running(data) && st == Done(NewMatch(len, distance))
    {
      hide WetRun, NumProbs, Pow2;
      var posSlot := DecodeTree(POS_SLOT + (if len < 4 then len else 3) * 64, 64, data, SlotTree(len));
      if posSlot < 4 {
        distance := posSlot;
      } else if posSlot < 14 {
        distance := DecodeSpecial(posSlot, data, len);
      } else {
        distance := DecodeRaw(posSlot / 2 - 1 - 4, 2 + posSlot % 2, data, len);
        distance := DecodeAlign(distance, data, len);
      }
    }

    /** Which of the earlier distances a match repeats; 4 stands for a single byte. */
    method DecodeRep(posState: nat, data: seq<Byte>) returns (k: nat)
      requires Running(data) && st == AtG0 && posState == PosState(ctx) && state == ctx.state
      modifies probs, this`range, this`code, this`at, this`st
      ensures Running(data) && k <= 4 && st == if k == 4 then Done(ShortRep) else Choice(Old(k))
    {
      hide WetRun, NumProbs, PosState;
      var b := DecodeBit(IS_REP_G0 + state, data);
      if !b {
        b := DecodeBit(IS_REP0_LONG + posState + state, data);
        return if b then 0 else 4;
      }
      b := DecodeBit(IS_REP_G1 + state, data);
      if !b {
        return 1;
      }
      b := DecodeBit(IS_REP_G2 + state, data);
      return if b then 3 else 2;
    }

    // -------------------------------------------------------------- one symbol

    ghost predicate Valid()
      reads this`state, this`dicPos, this`rep0, this`rep1, this`rep2, this`rep3, this`checkDicSize, this`processedPos
    {
      && lc <= 8 && lp <= 4 && pb <= 4 && state < 12 && 0 < dic.Length && dicPos <= dic.Length
      && probs.Length == LITERAL + LIT_SIZE * Pow2(lc + lp) && RepsOk()
      && (if checkDicSize == 0 then processedPos else checkDicSize) <= dic.Length
    }

    /** Earlier distances reach into the dictionary. */
    ghost predicate RepsOk()
      reads this`rep0, this`rep1, this`rep2, this`rep3
    {
      1 <= rep0 <= dic.Length && 1 <= rep1 <= dic.Length && 1 <= rep2 <= dic.Length && 1 <= rep3 <= dic.Length
    }

    function PrevByte(): Byte
      reads this`state, this`dicPos, this`rep0, this`rep1, this`rep2, this`rep3, this`checkDicSize, this`processedPos, dic
      requires Valid()
    {
      dic[(if dicPos == 0 then dic.Length else dicPos) - 1]
    }

    /** The byte at distance rep0, in a dictionary that is a ring. */
    function MatchByte(): Byte
      reads this`state, this`dicPos, this`rep0, this`rep1, this`rep2, this`rep3, this`checkDicSize, this`processedPos, dic
      requires Valid()
    {
      dic[dicPos - rep0 + if dicPos < rep0 then dic.Length else 0]
    }

    function Context(): (c: Ctx)
      reads this`state, this`dicPos, this`rep0, this`rep1, this`rep2, this`rep3, this`checkDicSize, this`processedPos, dic
      requires Valid()
      ensures Proper(c) && NumProbs(c) == probs.Length
    {
      Ctx(lc, lp, pb, state, processedPos, processedPos == 0 && checkDicSize == 0, PrevByte(), MatchByte())
    }

    function Place(): Rc
      reads this`range, this`code, this`at
    {
      Rc(range, code, at)
    }

    function Registers(): Regs
      reads this`state, this`rep0, this`rep1, this`rep2, this`rep3, this`processedPos
    {
      Regs(state, rep0, rep1, rep2, rep3, processedPos)
    }

    /** Looks ahead at the next symbol, without changing anything: the class of the symbol that decoding would find, and
        where it would leave the input; or that the input ends before. */
    method TryDummy(data: seq<Byte>) returns (res: Dummy, next: nat)
      requires Valid()
      ensures var run := WetRun(Context(), probs[..], AtIsMatch, Place(), data);
              && (res == InputEof <==> run == None)
              && (res != InputEof ==> res == ClassOf(run.value.symbol) && next == run.value.rc.at)
    {
      hide DryRun, WetRun, NumProbs, Pow2, LitBase, PosState;
      var c, ps, rc := Context(), probs[..], Place();
      ghost var goal := DryRun(c, ps, AtIsMatch, rc, data);
      RunsAgree(c, ps, ps, AtIsMatch, rc, data);
      var ok, b, r := CheckBit(ps, IS_MATCH + PosState(c) + c.state, rc, data, c, AtIsMatch, goal);
      if !ok {
        return InputEof, 0;
      }
      ghost var s;
      if !b {
        ok, r, s := CheckLiteral(ps, r, data, c, goal);
        res := if ok then DummyLit else InputEof;
      } else {
        res, r, s := CheckMatch(ps, r, data, c, goal);
      }
      if res != InputEof {
        res, next := CheckEnd(ps, res, r, data, c, s, goal);
      } else {
        next := 0;
      }
    }

    /** Loads a byte if the range has become small. */
    method NormalizeRange(data: seq<Byte>)
      requires Running(data) && st.Done?
      modifies this`range, this`code, this`at
      ensures goal == Wet(Place(), st.s, probs[..])
    {
      if range < TOP {
        range := range * 256;
        code := (code * 256 + data[at]) % WORD;
        at := at + 1;
      }
    }

    /** A literal symbol. */
    method DecodeLiteral(data: seq<Byte>) returns (symbol: nat)
      requires Valid() && Running(data) && ctx == Context() && st == After(ctx, AtIsMatch, false)
      modifies probs, this`range, this`code, this`at, this`st
      ensures Running(data) && 256 <= symbol < 512 && st == Done(Literal(symbol - 256))
    {
      hide WetRun, NumProbs, LitBase, MatchBit, Pow2, PosState;
      var prob := LiteralCoder(PrevByte());
      if state < 7 {
        symbol := DecodeTree(prob, 0x100, data, LitTree);
        symbol := symbol + 0x100;
      } else {
        symbol := DecodeMatched(prob, MatchByte(), data);
      }
    }

    /** The kind and the length of a match that repeats an earlier distance; the registers follow. */
    method DecodeOldMatch(data: seq<Byte>, posState: nat) returns (len: nat, single: bool)
      requires Valid() && Running(data) && ctx == Context() && st == AtG0 && posState == PosState(ctx)
      modifies probs, this`range, this`code, this`at, this`st
      modifies this`state, this`rep0, this`rep1, this`rep2, this`rep3
      ensures Running(data) && st.Done? && processedPos == old(processedPos) && single == (st.s == ShortRep)
      ensures !single ==> st.s.OldMatch? && len == st.s.len && Registers() == Applied(old(Registers()), st.s) && RepsOk()
      ensures single ==> Registers() == old(Registers())
    {
      hide WetRun, NumProbs, LitBase, MatchBit, Pow2, PosState, Running, After, SlotOf, Sane, MatchByte, PrevByte;
      var k := DecodeRep(posState, data);
      if k == 4 {
        return 0, true;
      }
      if k != 0 {
        var distance;
        if k == 1 {
          distance := rep1;
        } else {
          if k == 2 {
            distance := rep2;
          } else {
            distance := rep3;
            rep3 := rep2;
          }
          rep2 := rep1;
        }
        rep1 := rep0;
        rep0 := distance;
      }
      state := if state < 7 then 8 else 11;
      len := DecodeLength(REP_LEN_CODER, posState, data, Old(k));
      single := false;
    }

    /** How far back a match may go. */
    function Reach(): nat
      reads this`checkDicSize, this`processedPos
    {
      if checkDicSize == 0 then processedPos else checkDicSize
    }

    /** A match with a new distance, or the end mark. */
    method DecodeNewMatch(data: seq<Byte>, posState: nat) returns (len: nat)
      requires Valid() && Running(data) && ctx == Context() && st == Choice(New) && posState == PosState(ctx)
      modifies probs, this`range, this`code, this`at, this`st
      modifies this`state, this`rep0, this`rep1, this`rep2, this`rep3
      ensures Running(data) && st.Done? && st.s.NewMatch? && processedPos == old(processedPos)
      ensures Registers() == Applied(old(Registers()), st.s) && len == LengthOf(st.s, Reach())
      ensures len < ERROR_DATA ==> RepsOk()
    {
      hide WetRun, NumProbs, LitBase, MatchBit, Pow2, PosState, Running, After, SlotOf, Sane, Context, MatchByte, PrevByte;
      len := DecodeLength(LEN_CODER, posState, data, New);
      var distance := DecodeDistance(len, data);
      if distance == END_MARK {
        return MATCH_SPEC_LEN_START;
      }
      rep3 := rep2;
      rep2 := rep1;
      rep1 := rep0;
      rep0 := distance + 1;
      state := if state < 7 then 7 else 10;
      len := if distance >= Reach() then len + ERROR_DATA + MIN_LEN else len + MIN_LEN;
    }

    /** Writes a literal. */
    method WriteLiteral(b: Byte)
      requires dicPos < dic.Length
      modifies dic, this`dicPos, this`processedPos, this`state
      ensures dic[..] == old(dic[..])[old(dicPos) := b] && dicPos == old(dicPos) + 1
      ensures Registers() == Applied(old(Registers()), Literal(b))
    {
      processedPos := (processedPos + 1) % WORD;
      state := if state < 7 then (if state < 4 then 0 else state - 3) else if state < 10 then state - 3 else state - 6;
      dic[dicPos] := b;
      dicPos := dicPos + 1;
    }

    /** Repeats the byte at distance rep0. */
    method WriteShortRep()
      requires Valid() && dicPos < dic.Length
      modifies dic, this`dicPos, this`processedPos, this`state
      ensures dic[..] == old(dic[..])[old(dicPos) := old(MatchByte())] && dicPos == old(dicPos) + 1
      ensures Registers() == Applied(old(Registers()), ShortRep)
    {
      hide Pow2;
      dic[dicPos] := dic[dicPos - rep0 + if dicPos < rep0 then dic.Length else 0];
      dicPos := dicPos + 1;
      processedPos := (processedPos + 1) % WORD;
      state := if state < 7 then 9 else 11;
    }

    method LiteralSymbol(data: seq<Byte>)
      requires Valid() && Running(data) && ctx == Context() && st == After(ctx, AtIsMatch, false)
      requires dicPos < dic.Length || ClassOf(goal.symbol) == DummyMatch
      modifies probs, this`range, this`code, this`at, this`st, dic, this`dicPos, this`processedPos, this`state
      ensures st.Done? && goal == Wet(Place(), st.s, probs[..]) && st.s.Literal?
      ensures Registers() == Applied(old(Registers()), st.s) && RepsOk()
      ensures old(dicPos) < dic.Length && dic[..] == old(dic[..])[old(dicPos) := st.s.byte] && dicPos == old(dicPos) + 1
    {
      hide WetRun, NumProbs, After, Pow2, Applied, Valid, Running, SlotOf, Sane, Context, MatchByte, PrevByte;
      InDictionary();
      var symbol := DecodeLiteral(data);
      NormalizeRange(data);
      WriteLiteral(symbol - 256);
    }

    lemma InDictionary()
      requires Valid()
      ensures state < 12 && 0 < dic.Length && dicPos <= dic.Length && RepsOk()
    {
      hide Pow2;
    }

    method MatchSymbol(data: seq<Byte>, posState: nat) returns (len: nat)
      requires Valid() && Running(data) && ctx == Context() && st == AtIsRep && posState == PosState(ctx)
      requires dicPos < dic.Length || ClassOf(goal.symbol) == DummyMatch
      modifies probs, this`range, this`code, this`at, this`st, dic, this`dicPos, this`processedPos, this`state
      modifies this`rep0, this`rep1, this`rep2, this`rep3
      ensures st.Done? && goal == Wet(Place(), st.s, probs[..]) && !st.s.Literal?
      ensures Registers() == Applied(old(Registers()), st.s) && len == LengthOf(st.s, old(Reach()))
      ensures len < ERROR_DATA ==> RepsOk()
      ensures if st.s == ShortRep then dic[..] == old(dic[..])[old(dicPos) := old(MatchByte())] && dicPos == old(dicPos) + 1
              else dic[..] == old(dic[..]) && dicPos == old(dicPos)
    {
      hide WetRun, NumProbs, Pow2, Applied, Valid, PosState, Running, MatchByte, PrevByte, LengthOf;
      InDictionary();
      var b := DecodeBit(IS_REP + state, data);
      if !b {
        len := DecodeNewMatch(data, posState);
        NormalizeRange(data);
      } else {
        len := OldSymbol(data, posState);
      }
    }

    method OldSymbol(data: seq<Byte>, posState: nat) returns (len: nat)
      requires Valid() && Running(data) && ctx == Context() && st == AtG0 && posState == PosState(ctx)
      requires dicPos < dic.Length || ClassOf(goal.symbol) == DummyMatch
      modifies probs, this`range, this`code, this`at, this`st, dic, this`dicPos, this`processedPos, this`state
      modifies this`rep0, this`rep1, this`rep2, this`rep3
      ensures st.Done? && goal == Wet(Place(), st.s, probs[..]) && (st.s == ShortRep || st.s.OldMatch?)
      ensures Registers() == Applied(old(Registers()), st.s) && len == LengthOf(st.s, old(Reach())) && RepsOk()
      ensures if st.s == ShortRep then dic[..] == old(dic[..])[old(dicPos) := old(MatchByte())] && dicPos == old(dicPos) + 1
              else dic[..] == old(dic[..]) && dicPos == old(dicPos)
    {
      hide WetRun, NumProbs, Pow2, Applied, PosState, Running, After, SlotOf, Sane, Context, PrevByte;
      var single;
      len, single := DecodeOldMatch(data, posState);
      NormalizeRange(data);
      if single {
        WriteShortRep();
        len := 0;
      } else {
        len := len + MIN_LEN;
      }
    }

    /** Decodes one symbol: everything but the copying of a match, for which the length is returned. There must be room
        for a byte, unless the symbol is a match with a new distance. */
    method DecodeSymbol(data: seq<Byte>, ghost w: Wet) returns (len: nat)
      requires Valid() && code < WORD && WetRun(Context(), probs[..], AtIsMatch, Place(), data) == Some(w)
      requires dicPos < dic.Length || ClassOf(w.symbol) == DummyMatch
      modifies this`ctx, this`st, this`goal, this`range, this`code, this`at, this`state, this`dicPos, this`processedPos
      modifies this`rep0, this`rep1, this`rep2, this`rep3, probs, dic
      ensures Place() == w.rc && probs[..] == w.probs
      ensures Registers() == Applied(old(Registers()), w.symbol) && len == LengthOf(w.symbol, old(Reach()))
      ensures len < ERROR_DATA ==> RepsOk()
      ensures match w.symbol
              case Literal(b) => dic[..] == old(dic[..])[old(dicPos) := b] && dicPos == old(dicPos) + 1
              case ShortRep => dic[..] == old(dic[..])[old(dicPos) := old(MatchByte())] && dicPos == old(dicPos) + 1
              case _ => dic[..] == old(dic[..]) && dicPos == old(dicPos)
    {
      hide WetRun, NumProbs, Pow2, Applied, Valid, PosState, MatchByte, Context, Running, After;
      var b, posState := StartSymbol(data, w);
      len := 0;
      if !b {
        LiteralSymbol(data);
      } else {
        len := MatchSymbol(data, posState);
      }
    }

    /** The first bit tells literals from matches. */
    method StartSymbol(data: seq<Byte>, ghost w: Wet) returns (b: bool, posState: nat)
      requires Valid() && code < WORD && WetRun(Context(), probs[..], AtIsMatch, Place(), data) == Some(w)
      modifies this`ctx, this`st, this`goal, this`range, this`code, this`at, probs
      ensures Valid() && Running(data) && ctx == Context() && goal == w && posState == PosState(ctx)
      ensures st == After(ctx, AtIsMatch, b) && (b ==> st == AtIsRep)
    {
      hide WetRun, NumProbs, Pow2;
      ctx, st, goal := Context(), AtIsMatch, w;
      posState := processedPos % Pow2(pb) * 16;
      b := DecodeBit(IS_MATCH + posState + state, data);
    }
  }

  /** The last normalization. */
  method CheckEnd(probs: Probs, kind: Dummy, rc: Rc, data: seq<Byte>, ghost c: Ctx, ghost s: Symbol, ghost goal: Option<Dry>)
    returns (res: Dummy, next: nat)
    requires On(c, probs, Done(s), rc, data, goal) && kind != InputEof
    ensures res == InputEof <==> goal == None
    ensures res != InputEof ==> res == kind && goal.value.symbol == s && next == goal.value.rc.at
  {
    if rc.range < TOP {
      if rc.at >= |data| {
        return InputEof, 0;
      }
      return kind, rc.at + 1;
    }
    return kind, rc.at;
  }

  /** The registers that a symbol changes. */
  datatype Regs = Regs(state: nat, rep0: nat, rep1: nat, rep2: nat, rep3: nat, pos: nat)

  /** What a symbol does to them. */
  function Applied(r: Regs, s: Symbol): Regs {
    match s
    case Literal(_) =>
      r.(state := if r.state < 4 then 0 else if r.state < 10 then r.state - 3 else r.state - 6, pos := (r.pos + 1) % WORD)
    case ShortRep => r.(state := if r.state < 7 then 9 else 11, pos := (r.pos + 1) % WORD)
    case OldMatch(k, _) =>
      var q := r.(state := if r.state < 7 then 8 else 11);
      if k == 0 then q
      else if k == 1 then q.(rep0 := r.rep1, rep1 := r.rep0)
      else if k == 2 then q.(rep0 := r.rep2, rep1 := r.rep0, rep2 := r.rep1)
      else q.(rep0 := r.rep3, rep1 := r.rep0, rep2 := r.rep1, rep3 := r.rep2)
    case NewMatch(_, d) =>
      if d == END_MARK then r
      else Regs(if r.state < 7 then 7 else 10, d + 1, r.rep0, r.rep1, r.rep2, r.pos)
  }

  /** What is left to be copied, or an error: `reach` is how far back a match may go. */
  function LengthOf(s: Symbol, reach: nat): nat {
    match s
    case Literal(_) => 0
    case ShortRep => 0
    case OldMatch(_, len) => len + MIN_LEN
    case NewMatch(len, d) =>
      if d == END_MARK then MATCH_SPEC_LEN_START
      else if d >= reach then len + ERROR_DATA + MIN_LEN
      else len + MIN_LEN
  }

  lemma SumOfDifference(code: nat, range: nat)
    requires code < WORD
    ensures ((code - range) % WORD + range) % WORD == code
  {
  }
}
