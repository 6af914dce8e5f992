/** The registers of the LZMA decoder, told from the list of the symbols decoded so far: what kind the last symbols
    were, and which distances were used last. */
module LzmaHistory {
  import opened Options
  import opened LowBits
  import opened History
  import opened LzmaSymbol
  import opened LzmaRange
  import opened LzmaDec
  import opened LzmaStream

  datatype Kind = OfLiteral | OfMatch | OfRep | OfShortRep

  function KindOf(s: Symbol): Kind {
    match s
    case Literal(_) => OfLiteral
    case ShortRep => OfShortRep
    case OldMatch(_, _) => OfRep
    case NewMatch(_, _) => OfMatch
  }

  /** The kind of the last symbol but `i`; before the first symbol everything counts as a literal. */
  function Last(h: seq<Symbol>, i: nat): Kind {
    if i < |h| then KindOf(h[|h| - 1 - i]) else OfLiteral
  }

  /** What is remembered of a match that literals follow: `before` is the kind of the symbol before it. */
  function Remembered(k: Kind, before: Kind): nat {
    match k
    case OfLiteral => 0
    case OfMatch => 1
    case OfRep => 2
    case OfShortRep => if before.OfLiteral? then 3 else 2
  }

  /** The state is a summary of the kinds of the last four symbols. */
  function StateOf(h: seq<Symbol>): nat {
    match Last(h, 0)
    case OfLiteral =>
      if !Last(h, 1).OfLiteral? then 3 + Remembered(Last(h, 1), Last(h, 2)) else Remembered(Last(h, 2), Last(h, 3))
    case OfMatch => if Last(h, 1).OfLiteral? then 7 else 10
    case OfRep => if Last(h, 1).OfLiteral? then 8 else 11
    case OfShortRep => if Last(h, 1).OfLiteral? then 9 else 11
  }

  /** The last four distances, the latest in front: a new one pushes the oldest out, one that is used again moves to the
      front. */
  function Recent(h: seq<Symbol>): (r: seq<nat>)
    ensures |r| == 4
  {
    if h == [] then [1, 1, 1, 1]
    else
      var r := Recent(h[..|h| - 1]);
      match h[|h| - 1]
      case NewMatch(_, d) => [d + 1] + r[..3]
      case OldMatch(k, _) => if k < 4 then [r[k]] + r[..k] + r[k + 1..] else r
      case _ => r
  }

  /** What the symbols say: literal bytes, and bytes that repeat what lies one of the distances back. */
  function Told(h: seq<Symbol>): seq<Byte> {
    if h == [] then []
    else
      var e := h[..|h| - 1];
      match h[|h| - 1]
      case Literal(b) => Told(e) + [b]
      case ShortRep => Repeated(Told(e), Recent(e)[0], 1)
      case OldMatch(k, len) => if k < 4 then Repeated(Told(e), Recent(e)[k], len + 2) else Told(e)
      case NewMatch(len, d) => Repeated(Told(e), d + 1, len + 2)
  }

  function Repeated(past: seq<Byte>, back: nat, n: nat): seq<Byte> {
    if 1 <= back <= |past| then Copied(past, back, n) else past
  }

  // ---------------------------------------------------------------- one more symbol

  lemma LastMoves(h: seq<Symbol>, s: Symbol, i: nat)
    ensures Last(h + [s], 0) == KindOf(s) && Last(h + [s], i + 1) == Last(h, i)
  {
  }

  /** The state is below seven exactly after a literal. */
  lemma LiteralState(h: seq<Symbol>)
    ensures StateOf(h) < 7 <==> Last(h, 0).OfLiteral?
    ensures StateOf(h) < 4 <==> Last(h, 0).OfLiteral? && Last(h, 1).OfLiteral?
    ensures StateOf(h) < 12
  {
  }

  lemma StateMoves(h: seq<Symbol>, s: Symbol, r: Regs)
    requires r.state == StateOf(h) && !(s.NewMatch? && s.distance == END_MARK)
    ensures Applied(r, s).state == StateOf(h + [s])
  {
    LastMoves(h, s, 0);
    LastMoves(h, s, 1);
    LastMoves(h, s, 2);
    hide Last;
  }

  predicate Holds(r: Regs, d: seq<nat>) {
    d == [r.rep0, r.rep1, r.rep2, r.rep3]
  }

  lemma RecentMoves(h: seq<Symbol>, s: Symbol, r: Regs)
    requires Holds(r, Recent(h)) && !(s.NewMatch? && s.distance == END_MARK) && (s.OldMatch? ==> s.k < 4)
    ensures Holds(Applied(r, s), Recent(h + [s]))
  {
    assert (h + [s])[..|h|] == h && (h + [s])[|h|] == s;
  }

  lemma ToldMoves(p: Props, h: seq<Symbol>, z: Lz, w: Wet)
    requires z.past == Told(h) && Holds(z.regs, Recent(h)) && (w.symbol.OldMatch? ==> w.symbol.k < 4)
    requires Apply(p, z, w).Next?
    ensures Apply(p, z, w).z.past == Told(h + [w.symbol])
  {
    hide Copied;
    var s := w.symbol;
    assert (h + [s])[..|h|] == h && (h + [s])[|h|] == s;
    if s.ShortRep? {
      CopiedNone(z.past, z.regs.rep0);
      CopiedNext(z.past, z.regs.rep0, 0);
    }
  }

  // ---------------------------------------------------------------- only four distances are remembered

  /** On every way from here at most the fourth distance is used. */
  predicate FourDistances(st: Sym) {
    match st
    case Choice(w) => w.Old? ==> w.k < 4
    case Choice2(w) => w.Old? ==> w.k < 4
    case Low(w, _) => w.Old? ==> w.k < 4
    case Mid(w, _) => w.Old? ==> w.k < 4
    case High(w, _) => w.Old? ==> w.k < 4
    case Done(s) => s.OldMatch? ==> s.k < 4
    case _ => true
  }

  lemma FourStay(c: Ctx, st: Sym, b: bool)
    requires !st.Done? && Sane(st) && FourDistances(st)
    ensures FourDistances(After(c, st, b))
  {
    hide Bits.Pow2;
  }

  lemma {:induction false} DecodesFour(c: Ctx, probs: Probs, st: Sym, rc: Rc, data: seq<Byte>)
    requires LzmaSymbol.Proper(c) && Sane(st) && FourDistances(st) && WetRun(c, probs, st, rc, data).Some?
    ensures FourDistances(Done(WetRun(c, probs, st, rc, data).value.symbol))
    decreases Height(st)
  {
    hide After, SlotOf, Sane, OneBit, Height, Learned, FourDistances;
    var n := Normalize(rc, data).value;
    if !st.Done? {
      var (r, b) := OneBit(c, probs, st, n);
      AfterIsSane(c, st, b);
      FourStay(c, st, b);
      DecodesFour(c, Learned(c, probs, st, b), After(c, st, b), r, data);
    }
  }

  // ---------------------------------------------------------------- runs

  function Seen(f: Option<Wet>): seq<Symbol> {
    match f
    case None => []
    case Some(w) => [w.symbol]
  }

  /** The symbols of a run. */
  function Story(p: Props, z: Lz, data: seq<Byte>, k: nat): seq<Symbol>
    requires PropsOk(p) && z.regs.state < 12
    decreases k
  {
    if k == 0 then []
    else
      match Symbols(p, z, data, k - 1)
      case None => []
      case Some(y) => Story(p, z, data, k - 1) + Seen(Found(p, y, data))
  }

  ghost predicate Remembers(z: Lz, h: seq<Symbol>) {
    z.regs.state == StateOf(h) && Holds(z.regs, Recent(h)) && z.past == Told(h)
  }

  lemma StoryMoves(p: Props, z: Lz, data: seq<Byte>, h: seq<Symbol>)
    requires PropsOk(p) && z.regs.state < 12 && Remembers(z, h) && Symbol1(p, z, data).Next?
    ensures Found(p, z, data).Some? && Remembers(Symbol1(p, z, data).z, h + [Found(p, z, data).value.symbol])
  {
    hide WetRun, StateOf, Recent, Told, Applied, Copied, Holds, Bits.Pow2;
    var w := Found(p, z, data).value;
    DecodesFour(ContextOf(p, z), z.probs, AtIsMatch, z.rc, data);
    NoMark(p, z, w);
    StateMoves(h, w.symbol, z.regs);
    RecentMoves(h, w.symbol, z.regs);
    ToldMoves(p, h, z, w);
    WroteRegisters(p, z, w);
  }

  lemma NoMark(p: Props, z: Lz, w: Wet)
    requires Apply(p, z, w).Next?
    ensures !(w.symbol.NewMatch? && w.symbol.distance == END_MARK)
  {
    hide Copied;
  }

  lemma WroteRegisters(p: Props, z: Lz, w: Wet)
    requires Apply(p, z, w).Next?
    ensures var a, b := Apply(p, z, w).z.regs, Applied(z.regs, w.symbol);
            a.state == b.state && forall d :: Holds(a, d) <==> Holds(b, d)
  {
    hide Copied, Applied;
  }

  /** Along every run of a stream, the state is what the kinds of the last symbols say, the registers hold the last
      distances, the latest first, and the output is what the symbols say. */
  lemma {:induction false} RunRemembers(p: Props, stream: seq<Byte>, k: nat)
    requires PropsOk(p) && Begin(p, stream).Some? && Symbols(p, Begin(p, stream).value, stream, k).Some?
    ensures Remembers(Symbols(p, Begin(p, stream).value, stream, k).value, Story(p, Begin(p, stream).value, stream, k))
    decreases k
  {
    hide Symbol1, Found, Bits.Pow2, FirstCode;
    if k == 0 {
      assert Recent([]) == [1, 1, 1, 1];
    } else {
      RunRemembers(p, stream, k - 1);
      var z := Begin(p, stream).value;
      StoryMoves(p, Symbols(p, z, stream, k - 1).value, stream, Story(p, z, stream, k - 1));
    }
  }
}
