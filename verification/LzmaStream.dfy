/** A whole LZMA stream, as a run of symbols over everything that has been written so far. */
module LzmaStream {
  import opened Options
  import opened Bits
  import opened LowBits
  import opened History
  import opened LzmaSymbol
  import opened LzmaRange
  import opened LzmaBudget
  import opened LzmaDec

  const FULL_RANGE: nat := 0xFFFF_FFFF
  const BAD_REP_CODE: nat := 0xC000_0000 - 0x400

  datatype Props = Props(lc: nat, lp: nat, pb: nat, dicSize: nat)

  /** The state between two symbols. */
  datatype Lz = Lz(past: seq<Byte>, regs: Regs, probs: Probs, rc: Rc)

  predicate PropsOk(p: Props) {
    p.lc <= 8 && p.lp <= 4 && p.pb <= 4 && 1 <= p.dicSize < WORD
  }

  /** How far back a match may go. */
  function Far(p: Props, past: seq<Byte>): nat {
    if |past| < p.dicSize then |past| else p.dicSize
  }

  predicate RepOk(p: Props, past: seq<Byte>, rep: nat) {
    1 <= rep && (rep <= Far(p, past) || (past == [] && rep == 1))
  }

  /** Before the first symbol: no probability has been adapted, and the code is not that of a repeated match. */
  predicate Opening(z: Lz) {
    && z.regs.state == 0 && z.rc.range == FULL_RANGE && z.rc.code < BAD_REP_CODE
    && |z.probs| > IS_REP && z.probs[IS_MATCH] == MODEL / 2 && z.probs[IS_REP] == MODEL / 2
  }

  ghost predicate Sound(p: Props, z: Lz) {
    && PropsOk(p) && |z.probs| == LITERAL + LIT_SIZE * Pow2(p.lc + p.lp) && Bounded(z.probs)
    && z.regs.state < 12 && z.regs.pos == |z.past| % WORD && z.rc.code < WORD && z.rc.range >= TOP
    && RepOk(p, z.past, z.regs.rep0) && RepOk(p, z.past, z.regs.rep1)
    && RepOk(p, z.past, z.regs.rep2) && RepOk(p, z.past, z.regs.rep3)
    && (z.past == [] ==> Opening(z))
  }

  function ByteBack(past: seq<Byte>, back: nat): Byte {
    if 1 <= back <= |past| then past[|past| - back] else 0
  }

  function ContextOf(p: Props, z: Lz): Ctx {
    Ctx(p.lc, p.lp, p.pb, z.regs.state, z.regs.pos, z.past == [], ByteBack(z.past, 1), ByteBack(z.past, z.regs.rep0))
  }

  // ---------------------------------------------------------------- what a symbol does

  datatype Advance = Next(z: Lz) | Mark(rc: Rc, probs: Probs) | Bad | Starved

  /** The state after bytes have been written. */
  function Wrote(past: seq<Byte>, regs: Regs, w: Wet): Lz {
    Lz(past, regs.(pos := |past| % WORD), w.probs, w.rc)
  }

  function Apply(p: Props, z: Lz, w: Wet): Advance {
    var r := Applied(z.regs, w.symbol);
    match w.symbol
    case Literal(b) => Next(Wrote(z.past + [b], r, w))
    case ShortRep => if 1 <= r.rep0 <= |z.past| then Next(Wrote(z.past + [ByteBack(z.past, r.rep0)], r, w)) else Bad
    case OldMatch(_, len) => if 1 <= r.rep0 <= |z.past| then Next(Wrote(Copied(z.past, r.rep0, len + MIN_LEN), r, w)) else Bad
    case NewMatch(len, d) =>
      if d == END_MARK then Mark(w.rc, w.probs)
      else if d >= Far(p, z.past) then Bad
      else Next(Wrote(Copied(z.past, d + 1, len + MIN_LEN), r, w))
  }

  /** The next symbol, if it is not cut off. */
  function Found(p: Props, z: Lz, data: seq<Byte>): Option<Wet>
    requires PropsOk(p) && z.regs.state < 12
  {
    WetRun(ContextOf(p, z), z.probs, AtIsMatch, z.rc, data)
  }

  /** One symbol of the stream. */
  function Symbol1(p: Props, z: Lz, data: seq<Byte>): Advance
    requires PropsOk(p) && z.regs.state < 12
  {
    match Found(p, z, data)
    case None => Starved
    case Some(w) => Apply(p, z, w)
  }

  // ---------------------------------------------------------------- the code of the first symbol

  /** No way leads from here to a repeated match. */
  predicate NoRep(st: Sym) {
    match st
    case Lit(_, _, _) => true
    case Choice(w) => w.New?
    case Choice2(w) => w.New?
    case Low(w, _) => w.New?
    case Mid(w, _) => w.New?
    case High(w, _) => w.New?
    case Slot(_, _) => true
    case Special(_, _, _, _, _) => true
    case Raw(_, _, _) => true
    case Aligned(_, _, _, _, _) => true
    case Done(s) => s.Literal? || s.NewMatch?
    case _ => false
  }

  /** Every way from here leads to a repeated match. */
  predicate OnlyRep(st: Sym) {
    match st
    case AtG0 => true
    case AtLong => true
    case AtG1 => true
    case AtG2 => true
    case Choice(w) => w.Old?
    case Choice2(w) => w.Old?
    case Low(w, _) => w.Old?
    case Mid(w, _) => w.Old?
    case High(w, _) => w.Old?
    case Done(s) => s.ShortRep? || s.OldMatch?
    case _ => false
  }

  lemma KindStays(c: Ctx, st: Sym, b: bool)
    requires !st.Done? && Sane(st)
    ensures NoRep(st) ==> NoRep(After(c, st, b))
    ensures OnlyRep(st) ==> OnlyRep(After(c, st, b))
  {
    hide Pow2;
  }

  lemma {:induction false} KindDecides(c: Ctx, probs: Probs, st: Sym, rc: Rc, data: seq<Byte>)
    requires Proper(c) && Sane(st) && (NoRep(st) || OnlyRep(st)) && WetRun(c, probs, st, rc, data).Some?
    ensures var s := WetRun(c, probs, st, rc, data).value.symbol;
            if NoRep(st) then s.Literal? || s.NewMatch? else s.ShortRep? || s.OldMatch?
    decreases Height(st)
  {
    hide After, SlotOf, Sane, OneBit, Height, Learned;
    var n := Normalize(rc, data).value;
    if !st.Done? {
      var (r, b) := OneBit(c, probs, st, n);
      AfterIsSane(c, st, b);
      KindStays(c, st, b);
      KindDecides(c, Learned(c, probs, st, b), After(c, st, b), r, data);
    }
  }

  lemma FirstBounds()
    ensures Bound(FULL_RANGE, MODEL / 2) == 0x7FFF_FC00
    ensures Bound(FULL_RANGE - 0x7FFF_FC00, MODEL / 2) == BAD_REP_CODE - 0x7FFF_FC00
  {
  }

  /** The early check of the code rejects exactly the streams whose first symbol would repeat a match. */
  lemma FirstSymbol(c: Ctx, probs: Probs, rc: Rc, data: seq<Byte>)
    requires Proper(c) && c.state == 0 && c.pos == 0 && |probs| == NumProbs(c) && rc.range == FULL_RANGE && rc.code < WORD
    requires probs[IS_MATCH] == MODEL / 2 && probs[IS_REP] == MODEL / 2
    requires WetRun(c, probs, AtIsMatch, rc, data).Some?
    ensures var s := WetRun(c, probs, AtIsMatch, rc, data).value.symbol; s.ShortRep? || s.OldMatch? <==> rc.code >= BAD_REP_CODE
  {
    hide Sane, Height, NumProbs, After, Learned, Pow2;
    FirstBounds();
    FirstSlots(c);
    var (r1, b1) := OneBit(c, probs, AtIsMatch, rc);
    WetOpens(c, probs, AtIsMatch, rc, data);
    var s1, q1 := After(c, AtIsMatch, b1), Learned(c, probs, AtIsMatch, b1);
    if !b1 {
      KindDecides(c, q1, s1, r1, data);
    } else {
      var (r2, b2) := OneBit(c, q1, s1, r1);
      WetOpens(c, q1, s1, r1, data);
      KindDecides(c, Learned(c, q1, s1, b2), After(c, s1, b2), r2, data);
    }
  }

  /** The first two steps of a run. */
  lemma WetOpens(c: Ctx, probs: Probs, st: Sym, rc: Rc, data: seq<Byte>)
    requires Proper(c) && Sane(st) && !st.Done? && rc.range >= TOP
    ensures var (r, b) := OneBit(c, probs, st, rc);
            Sane(After(c, st, b)) && WetRun(c, probs, st, rc, data) == WetRun(c, Learned(c, probs, st, b), After(c, st, b), r, data)
  {
    hide Sane, Height, NumProbs, After, Learned, Pow2, OneBit;
    WetStep(c, probs, st, rc, data);
  }

  lemma FirstSlots(c: Ctx)
    requires Proper(c) && c.state == 0 && c.pos == 0
    ensures SlotOf(c, AtIsMatch) == IS_MATCH && SlotOf(c, AtIsRep) == IS_REP
    ensures After(c, AtIsMatch, true) == AtIsRep && NoRep(After(c, AtIsMatch, false))
    ensures OnlyRep(After(c, AtIsRep, true)) && NoRep(After(c, AtIsRep, false))
    ensures NumProbs(c) > IS_REP && Sane(AtIsMatch) && Sane(AtIsRep)
    ensures forall probs: Probs :: |probs| == NumProbs(c) ==>
              Learned(c, probs, AtIsMatch, true) == probs[IS_MATCH := Adapted(probs[IS_MATCH], true)]
  {
    assert c.pos % Pow2(c.pb) == 0;
  }

  // ---------------------------------------------------------------- what a symbol keeps

  /** The code stays a word. */
  lemma {:induction false} CodeStays(c: Ctx, probs: Probs, st: Sym, rc: Rc, data: seq<Byte>)
    requires Proper(c) && Sane(st) && rc.code < WORD && WetRun(c, probs, st, rc, data).Some?
    ensures WetRun(c, probs, st, rc, data).value.rc.code < WORD
    decreases Height(st)
  {
    hide After, SlotOf, Sane, Height, Learned;
    var n := Normalize(rc, data).value;
    if !st.Done? {
      var (r, b) := OneBit(c, probs, st, n);
      AfterIsSane(c, st, b);
      CodeStays(c, Learned(c, probs, st, b), After(c, st, b), r, data);
    }
  }

  /** Where decoding a symbol leaves the range decoder and the probabilities. */
  lemma WetSound(c: Ctx, probs: Probs, rc: Rc, data: seq<Byte>)
    requires Proper(c) && Bounded(probs) && rc.code < WORD && rc.range >= TOP
    requires WetRun(c, probs, AtIsMatch, rc, data).Some?
    ensures var w := WetRun(c, probs, AtIsMatch, rc, data).value;
            && Bounded(w.probs) && |w.probs| == |probs| && w.rc.code < WORD && w.rc.range >= TOP
            && (rc.at <= |data| ==> rc.at <= w.rc.at <= |data|)
  {
    hide WetRun, DryRun, Bounded;
    CodeStays(c, probs, AtIsMatch, rc, data);
    WetKeepsBounds(c, probs, AtIsMatch, rc, data);
    RunsAgree(c, probs, probs, AtIsMatch, rc, data);
    EndsNormalized(c, probs, AtIsMatch, rc, data);
    MoreInput(c, probs, AtIsMatch, rc, data, []);
  }

  lemma FarGrows(p: Props, past: seq<Byte>, more: seq<Byte>, rep: nat)
    requires RepOk(p, past, rep) && |past| <= |more| && |more| > 0 && p.dicSize >= 1
    ensures RepOk(p, more, rep) && rep <= Far(p, more)
  {
  }

  /** Every symbol leaves a sound state with more output. */
  lemma SymbolKeepsSound(p: Props, z: Lz, data: seq<Byte>)
    requires Sound(p, z)
    ensures Symbol1(p, z, data).Next? ==>
              var y := Symbol1(p, z, data).z;
              Sound(p, y) && z.past <= y.past && |z.past| < |y.past| && (z.rc.at <= |data| ==> z.rc.at <= y.rc.at <= |data|)
  {
    hide WetRun, Pow2, Bounded, Copied;
    var run := WetRun(ContextOf(p, z), z.probs, AtIsMatch, z.rc, data);
    if run.Some? {
      WetSound(ContextOf(p, z), z.probs, z.rc, data);
      var a := Apply(p, z, run.value);
      if a.Next? {
        RepsStay(p, z, run.value);
      }
    }
  }

  lemma RepsStay(p: Props, z: Lz, w: Wet)
    requires Sound(p, z) && Apply(p, z, w).Next?
    ensures var y := Apply(p, z, w).z;
            && z.past <= y.past && |z.past| < |y.past| && y.regs.state < 12
            && RepOk(p, y.past, y.regs.rep0) && RepOk(p, y.past, y.regs.rep1)
            && RepOk(p, y.past, y.regs.rep2) && RepOk(p, y.past, y.regs.rep3)
  {
    hide Pow2, Bounded, Copied;
    var y := Apply(p, z, w).z;
    FarGrows(p, z.past, y.past, z.regs.rep0);
    FarGrows(p, z.past, y.past, z.regs.rep1);
    FarGrows(p, z.past, y.past, z.regs.rep2);
    FarGrows(p, z.past, y.past, z.regs.rep3);
  }

  // ---------------------------------------------------------------- bytes that do not matter

  /** Contexts that differ only in bytes that are not looked at. */
  predicate Alike(c: Ctx, d: Ctx) {
    && d == c.(prev := d.prev, match0 := d.match0)
    && (c.first || c.prev == d.prev) && (c.state < 7 || c.match0 == d.match0)
  }

  lemma AlikeStep(c: Ctx, d: Ctx, probs: Probs, st: Sym, rc: Rc, b: bool)
    requires Proper(c) && Alike(c, d) && !st.Done? && Sane(st)
    ensures OneBit(c, probs, st, rc) == OneBit(d, probs, st, rc) && After(c, st, b) == After(d, st, b)
    ensures Learned(c, probs, st, b) == Learned(d, probs, st, b)
  {
    hide Pow2, Decide, Halve, Adapted, LiteralCell;
  }

  lemma {:induction false} AlikeRuns(c: Ctx, d: Ctx, probs: Probs, st: Sym, rc: Rc, data: seq<Byte>)
    requires Proper(c) && Alike(c, d) && Sane(st)
    ensures WetRun(c, probs, st, rc, data) == WetRun(d, probs, st, rc, data)
    decreases Height(st)
  {
    hide After, SlotOf, Sane, Height, Learned, OneBit;
    var n := Normalize(rc, data);
    if n.Some? && !st.Done? {
      var (r, b) := OneBit(c, probs, st, n.value);
      AlikeStep(c, d, probs, st, n.value, b);
      AfterIsSane(c, st, b);
      AlikeRuns(c, d, Learned(c, probs, st, b), After(c, st, b), r, data);
    }
  }

  // ---------------------------------------------------------------- lengths

  const MAX_LEN: nat := 271

  /** Lengths on the way are short. */
  predicate Short(st: Sym) {
    match st
    case Slot(len, _) => len <= MAX_LEN
    case Special(len, _, _, _, _) => len <= MAX_LEN
    case Raw(len, _, _) => len <= MAX_LEN
    case Aligned(len, _, _, _, _) => len <= MAX_LEN
    case Done(s) => (s.OldMatch? || s.NewMatch?) ==> s.len <= MAX_LEN
    case _ => true
  }

  lemma ShortStays(c: Ctx, st: Sym, b: bool)
    requires !st.Done? && Sane(st) && Short(st)
    ensures Short(After(c, st, b))
  {
    hide Pow2;
  }

  lemma {:induction false} MatchIsShort(c: Ctx, probs: Probs, st: Sym, rc: Rc, data: seq<Byte>)
    requires Proper(c) && Sane(st) && Short(st) && WetRun(c, probs, st, rc, data).Some?
    ensures Short(Done(WetRun(c, probs, st, rc, data).value.symbol))
    decreases Height(st)
  {
    hide After, SlotOf, Sane, OneBit, Height, Learned, Short;
    var n := Normalize(rc, data).value;
    if !st.Done? {
      var (r, b) := OneBit(c, probs, st, n);
      AfterIsSane(c, st, b);
      ShortStays(c, st, b);
      MatchIsShort(c, Learned(c, probs, st, b), After(c, st, b), r, data);
    }
  }

  // ---------------------------------------------------------------- runs

  /** The state after `k` symbols. */
  function Symbols(p: Props, z: Lz, data: seq<Byte>, k: nat): (r: Option<Lz>)
    requires PropsOk(p) && z.regs.state < 12
    ensures r.Some? ==> r.value.regs.state < 12
    decreases k
  {
    if k == 0 then Some(z)
    else
      match Symbols(p, z, data, k - 1)
      case None => None
      case Some(y) =>
        var a := Symbol1(p, y, data);
        if a.Next? && a.z.regs.state < 12 then Some(a.z) else None
  }

  // ---------------------------------------------------------------- the start of a stream

  const RC_INIT_SIZE: nat := 5

  function FirstCode(header: seq<Byte>): (r: nat)
    requires |header| >= RC_INIT_SIZE
    ensures r < WORD
  {
    var a: nat, b: nat, c: nat, d: nat := header[1], header[2], header[3], header[4];
    a * 0x100_0000 + b * 0x1_0000 + c * 0x100 + d
  }

  function FirstRegs(): Regs { Regs(0, 1, 1, 1, 1, 0) }

  function FirstProbs(n: nat): (r: Probs)
    ensures |r| == n && forall i :: 0 <= i < n ==> r[i] == MODEL / 2
  {
    seq(n, _ => MODEL / 2)
  }

  /** A stream starts with a zero byte and the first code, which must not be that of a repeated match. */
  function Begin(p: Props, stream: seq<Byte>): Option<Lz> {
    if |stream| < RC_INIT_SIZE || stream[0] != 0 || FirstCode(stream) >= BAD_REP_CODE then None
    else Some(Lz([], FirstRegs(), FirstProbs(LITERAL + LIT_SIZE * Pow2(p.lc + p.lp)), Rc(FULL_RANGE, FirstCode(stream), RC_INIT_SIZE)))
  }

  lemma BeginIsSound(p: Props, stream: seq<Byte>)
    requires PropsOk(p) && Begin(p, stream).Some?
    ensures Sound(p, Begin(p, stream).value)
  {
    hide Pow2;
  }
}
