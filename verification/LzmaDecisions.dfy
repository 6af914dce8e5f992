/** How LZMA writes a symbol: as decisions between zero and one, each under a probability with a name. Everything is told
    from the symbol and from the place it stands at; the decoder's automaton and its array of probabilities are proved
    against it. */
module LzmaDecisions {
  import opened Modular
  import opened Bits
  import opened Logarithm
  import opened LowBits
  import opened LzmaSymbol

  /** What the names depend on: the state, the low bits of the position, the number of the literal coder and the byte at
      the latest distance. */
  datatype Where = Where(state: nat, posState: nat, coder: nat, matchByte: Byte)

  /** The probabilities. A node of a tree is numbered by a one bit and the bits that were decided before it. */
  datatype Name =
    | IsMatch(state: nat, posState: nat)
    | IsRep(state: nat)
    | IsRepG0(state: nat)
    | IsRepG1(state: nat)
    | IsRepG2(state: nat)
    | IsRep0Long(state: nat, posState: nat)
    | LenChoice(w: bool)
    | LenChoice2(w: bool)
    | LenLow(w: bool, posState: nat, node: nat)
    | LenMid(w: bool, posState: nat, node: nat)
    | LenHigh(w: bool, node: nat)
    | DistSlot(lenState: nat, node: nat)
    | DistSpecial(slot: nat, done: nat, low: nat)
    | DistAlign(done: nat, low: nat)
    | LiteralNode(coder: nat, variant: nat, node: nat)
    | Even

  datatype Decision = Decision(name: Name, bit: bool)

  // ---------------------------------------------------------------- numbers as decisions

  datatype Family = Lows(w: bool, posState: nat) | Mids(w: bool, posState: nat) | Highs(w: bool) | Slots(lenState: nat)
                  | Literals(coder: nat)

  function NodeName(f: Family, node: nat): Name {
    match f
    case Lows(w, posState) => LenLow(w, posState, node)
    case Mids(w, posState) => LenMid(w, posState, node)
    case Highs(w) => LenHigh(w, node)
    case Slots(lenState) => DistSlot(lenState, node)
    case Literals(coder) => LiteralNode(coder, 0, node)
  }

  /** The highest of `n` bits, and the others. */
  function Front(v: nat, n: nat): bool
    requires n > 0
  {
    v >= Pow2(n - 1)
  }

  function Tail(v: nat, n: nat): nat
    requires n > 0
  {
    if v >= Pow2(n - 1) then v - Pow2(n - 1) else v
  }

  /** A number of `n` bits, the highest first. */
  function Tree(f: Family, node: nat, v: nat, n: nat): seq<Decision>
    decreases n
  {
    if n == 0 then []
    else
      [Decision(NodeName(f, node), Front(v, n))] + Tree(f, 2 * node + Bit(Front(v, n)), Tail(v, n), n - 1)
  }

  /** A literal after a match: as long as its bits are those of the match byte, they have probabilities of their own. */
  function Matched(coder: nat, node: nat, v: nat, m: nat, n: nat, alike: bool): seq<Decision>
    decreases n
  {
    if n == 0 then []
    else
      var b, c := Front(v, n), Front(m, n);
      [Decision(LiteralNode(coder, if alike then 1 + Bit(c) else 0, node), b)]
      + Matched(coder, 2 * node + Bit(b), Tail(v, n), Tail(m, n), n - 1, alike && b == c)
  }

  /** The low end of a distance, the lowest bit first. */
  datatype LowEnd = OfSlot(slot: nat) | OfAlign

  function LowName(f: LowEnd, done: nat, low: nat): Name {
    match f
    case OfSlot(slot) => DistSpecial(slot, done, low)
    case OfAlign => DistAlign(done, low)
  }

  function Reverse(f: LowEnd, done: nat, low: nat, v: nat, n: nat): seq<Decision>
    decreases n
  {
    if n == 0 then []
    else [Decision(LowName(f, done, low), v % 2 == 1)] + Reverse(f, done + 1, low + v % 2 * Pow2(done), v / 2, n - 1)
  }

  /** Bits without probability, the highest first. */
  function Evens(v: nat, n: nat): seq<Decision>
    decreases n
  {
    if n == 0 then []
    else
      [Decision(Even, Front(v, n))] + Evens(Tail(v, n), n - 1)
  }

  // ---------------------------------------------------------------- symbols

  /** The length of a match, less two; `w` tells matches that repeat a distance. */
  function LengthPart(x: Where, w: bool, len: nat): seq<Decision> {
    if len < 8 then [Decision(LenChoice(w), false)] + Tree(Lows(w, x.posState), 1, len, 3)
    else if len < 16 then
      [Decision(LenChoice(w), true), Decision(LenChoice2(w), false)] + Tree(Mids(w, x.posState), 1, len - 8, 3)
    else [Decision(LenChoice(w), true), Decision(LenChoice2(w), true)] + Tree(Highs(w), 1, len - 16, 8)
  }

  /** The first four distances have a slot each; from there every doubling of the range is cut in half. */
  function DistanceSlot(d: nat): nat {
    if d < 4 then d else 2 * Log2(d) + Div(d, Pow2(Log2(d) - 1)) % 2
  }

  /** What a distance, less one, has below its two highest bits. */
  function Footer(d: nat): seq<Decision> {
    if d < 4 then []
    else
      var n := Log2(d) - 1;
      var low := Mod(d, Pow2(n));
      if n < 6 then Reverse(OfSlot(DistanceSlot(d)), 0, 0, low, n)
      else Evens(low / 16, n - 4) + Reverse(OfAlign, 0, 0, low % 16, 4)
  }

  function DistancePart(len: nat, d: nat): seq<Decision> {
    Tree(Slots(if len < 4 then len else 3), 1, DistanceSlot(d), 6) + Footer(d)
  }

  function LiteralPart(x: Where, b: Byte): seq<Decision> {
    if x.state < 7 then Tree(Literals(x.coder), 1, b, 8) else Matched(x.coder, 1, b, x.matchByte, 8, true)
  }

  /** Which of the last distances is repeated. */
  function RepPart(x: Where, k: nat): seq<Decision> {
    if k == 0 then [Decision(IsRepG0(x.state), false), Decision(IsRep0Long(x.state, x.posState), true)]
    else if k == 1 then [Decision(IsRepG0(x.state), true), Decision(IsRepG1(x.state), false)]
    else [Decision(IsRepG0(x.state), true), Decision(IsRepG1(x.state), true), Decision(IsRepG2(x.state), k != 2)]
  }

  function SymbolPart(x: Where, s: Symbol): seq<Decision> {
    match s
    case Literal(b) => [Decision(IsMatch(x.state, x.posState), false)] + LiteralPart(x, b)
    case NewMatch(len, d) =>
      [Decision(IsMatch(x.state, x.posState), true), Decision(IsRep(x.state), false)]
      + (LengthPart(x, false, len) + DistancePart(len, d))
    case ShortRep =>
      [Decision(IsMatch(x.state, x.posState), true), Decision(IsRep(x.state), true),
       Decision(IsRepG0(x.state), false), Decision(IsRep0Long(x.state, x.posState), false)]
    case OldMatch(k, len) =>
      [Decision(IsMatch(x.state, x.posState), true), Decision(IsRep(x.state), true)]
      + (RepPart(x, k) + LengthPart(x, true, len))
  }

  /** The symbols that can be written. */
  predicate Writable(s: Symbol) {
    match s
    case Literal(_) => true
    case ShortRep => true
    case OldMatch(k, len) => k < 4 && len <= 271
    case NewMatch(len, d) => len <= 271 && d < 0x1_0000_0000
  }

  // ---------------------------------------------------------------- where the probabilities are kept

  function LenPlace(w: bool): nat { if w then REP_LEN_CODER else LEN_CODER }

  function Place(n: Name): nat {
    match n
    case IsMatch(state, posState) => IS_MATCH + 16 * posState + state
    case IsRep(state) => IS_REP + state
    case IsRepG0(state) => IS_REP_G0 + state
    case IsRepG1(state) => IS_REP_G1 + state
    case IsRepG2(state) => IS_REP_G2 + state
    case IsRep0Long(state, posState) => IS_REP0_LONG + 16 * posState + state
    case LenChoice(w) => LenPlace(w)
    case LenChoice2(w) => LenPlace(w) + 8
    case LenLow(w, posState, node) => LenPlace(w) + 16 * posState + node
    case LenMid(w, posState, node) => LenPlace(w) + 16 * posState + 8 + node
    case LenHigh(w, node) => LenPlace(w) + LEN_HIGH + node
    case DistSlot(lenState, node) => POS_SLOT + 64 * lenState + node
    case DistSpecial(slot, done, low) => SPEC_POS + (if slot >= 4 then SlotBase(slot) else 0) + Pow2(done) + low
    case DistAlign(done, low) => ALIGN + Pow2(done) + low
    case LiteralNode(coder, variant, node) => LITERAL + LIT_SIZE * coder + 256 * variant + node
    case Even => 0
  }

  /** The names there are. */
  predicate Named(n: Name) {
    match n
    case IsMatch(state, posState) => state < 12 && posState < 16
    case IsRep(state) => state < 12
    case IsRepG0(state) => state < 12
    case IsRepG1(state) => state < 12
    case IsRepG2(state) => state < 12
    case IsRep0Long(state, posState) => state < 12 && posState < 16
    case LenChoice(w) => true
    case LenChoice2(w) => true
    case LenLow(w, posState, node) => posState < 16 && 1 <= node < 8
    case LenMid(w, posState, node) => posState < 16 && 1 <= node < 8
    case LenHigh(w, node) => 1 <= node < 256
    case DistSlot(lenState, node) => lenState < 4 && 1 <= node < 64
    case DistSpecial(slot, done, low) => 4 <= slot < 14 && done < DirectBits(slot) && low < Pow2(done)
    case DistAlign(done, low) => done < 4 && low < Pow2(done)
    case LiteralNode(coder, variant, node) => variant < 3 && 1 <= node < 256
    case Even => false
  }

  // ---------------------------------------------------------------- every name has a place of its own

  /** Which name a place within a length coder belongs to. */
  function InCoder(w: bool, i: nat): Name {
    if i >= 256 then LenHigh(w, i - 256)
    else if i == 0 then LenChoice(w)
    else if i == 8 then LenChoice2(w)
    else if i % 16 < 8 then LenLow(w, i / 16, i % 8)
    else LenMid(w, i / 16, i % 8)
  }

  function LengthAt(j: nat): Name {
    InCoder(j < 512, j % 512)
  }

  /** And one in the region of the low ends of distances. */
  function SpecialAt(j: nat): Name {
    if j < 4 then Even
    else
      var n := Log2(j) - 1;
      var t := Mod(j, Pow2(n));
      if t == 0 then Even else DistSpecial(DistanceSlot(j), Log2(t), t - Pow2(Log2(t)))
  }

  function NameAt(i: nat): Name {
    if i < IS_REP0_LONG then SpecialAt(i)
    else if i < REP_LEN_CODER then IsRep0Long((i - IS_REP0_LONG) % 16, (i - IS_REP0_LONG) / 16)
    else if i < IS_MATCH then LengthAt(i - REP_LEN_CODER)
    else if i < ALIGN then IsMatch((i - IS_MATCH) % 16, (i - IS_MATCH) / 16)
    else if i == ALIGN then Even
    else if i < IS_REP then DistAlign(Log2(i - ALIGN), i - ALIGN - Pow2(Log2(i - ALIGN)))
    else if i < IS_REP_G0 then IsRep(i - IS_REP)
    else if i < IS_REP_G1 then IsRepG0(i - IS_REP_G0)
    else if i < IS_REP_G2 then IsRepG1(i - IS_REP_G1)
    else if i < POS_SLOT then IsRepG2(i - IS_REP_G2)
    else if i < LITERAL then DistSlot((i - POS_SLOT) / 64, (i - POS_SLOT) % 64)
    else LiteralNode((i - LITERAL) / LIT_SIZE, (i - LITERAL) % LIT_SIZE / 256, (i - LITERAL) % 256)
  }

  lemma SlotOfParts(q: nat, t: nat, n: nat)
    requires 2 <= q < 4 && t < Pow2(n) && 1 <= n
    ensures var j := q * Pow2(n) + t;
            j >= 4 && Log2(j) == n + 1 && DistanceSlot(j) == 2 * n + q && j % Pow2(n) == t
  {
    SmallPowers();
    hide Pow2, Log2;
    Pow2Grows(1, n);
    Factor(2, q, Pow2(n));
    PartOf(q, t, n, 1);
  }

  lemma SlotNumbers(slot: nat)
    requires 4 <= slot < 14
    ensures var n, q := DirectBits(slot), 2 + slot % 2; 1 <= n <= 5 && 2 * n + q == slot && SlotBase(slot) == q * Pow2(n)
  {
    hide Pow2;
  }

  lemma SpecialAtIs(j: nat, t: nat, done: nat, low: nat)
    requires j >= 4 && t == j % Pow2(Log2(j) - 1) == Pow2(done) + low && Log2(t) == done
    ensures SpecialAt(j) == DistSpecial(DistanceSlot(j), done, low)
  {
    hide Pow2, Log2, DistanceSlot;
  }

  lemma SpecialPlace(slot: nat, done: nat, low: nat)
    requires 4 <= slot < 14 && done < DirectBits(slot) && low < Pow2(done)
    ensures var j := SlotBase(slot) + Pow2(done) + low; 4 <= j < 128 && SpecialAt(j) == DistSpecial(slot, done, low)
  {
    hide Pow2, Log2, DistanceSlot, SpecialAt, SlotBase, DirectBits;
    SlotNumbers(slot);
    SpecialFits(done, low, DirectBits(slot), 2 + slot % 2);
    SlotOfParts(2 + slot % 2, Pow2(done) + low, DirectBits(slot));
    SpecialAtIs(SlotBase(slot) + Pow2(done) + low, Pow2(done) + low, done, low);
  }

  lemma SpecialFits(done: nat, low: nat, n: nat, q: nat)
    requires done < n <= 5 && low < Pow2(done) && 2 <= q < 4
    ensures 1 <= Pow2(done) + low < Pow2(n) && Log2(Pow2(done) + low) == done
    ensures q * Pow2(n) + Pow2(done) + low < 128
  {
    SmallPowers();
    hide Pow2, Log2;
    Pow2Next(done);
    Pow2Grows(done + 1, n);
    Pow2Grows(n, 5);
    Factor(q, 3, Pow2(n));
    HighestBit(Pow2(done) + low, done);
  }

  lemma AlignPlace(done: nat, low: nat)
    requires done < 4 && low < Pow2(done)
    ensures 1 <= Pow2(done) + low < 16 && Log2(Pow2(done) + low) == done
  {
    SmallPowers();
    hide Pow2;
    Pow2Next(done);
    Pow2Grows(done + 1, 4);
    HighestBit(Pow2(done) + low, done);
  }

  lemma LengthIndex(w: bool, i: nat)
    requires i < 512
    ensures var j := LenPlace(w) + i - REP_LEN_CODER; j < 1024 && LengthAt(j) == InCoder(w, i)
  {
    hide InCoder;
  }

  lemma TreeIndex(i: nat, node: nat)
    requires i < 4 && node < 64
    ensures (64 * i + node) / 64 == i && (64 * i + node) % 64 == node
  {
  }

  lemma SixteenIndex(posState: nat, i: nat)
    requires posState < 16 && i < 16
    ensures 16 * posState + i < 256 && (16 * posState + i) % 16 == i && (16 * posState + i) / 16 == posState
    ensures (16 * posState + i) % 8 == i % 8
  {
  }

  lemma LengthPlace(n: Name)
    requires Named(n) && (n.LenChoice? || n.LenChoice2? || n.LenLow? || n.LenMid? || n.LenHigh?)
    ensures REP_LEN_CODER <= Place(n) < IS_MATCH && LengthAt(Place(n) - REP_LEN_CODER) == n
  {
    hide Pow2, LengthAt;
    if n.LenLow? {
      SixteenIndex(n.posState, n.node);
    } else if n.LenMid? {
      SixteenIndex(n.posState, 8 + n.node);
    }
    var i := Place(n) - LenPlace(n.w);
    assert InCoder(n.w, i) == n;
    LengthIndex(n.w, i);
  }

  lemma LiteralPlace(coder: nat, variant: nat, node: nat)
    requires variant < 3 && 1 <= node < 256
    ensures NameAt(LITERAL + LIT_SIZE * coder + 256 * variant + node) == LiteralNode(coder, variant, node)
  {
    hide Pow2, Log2;
    Remainder(LIT_SIZE * coder + 256 * variant + node, LIT_SIZE, coder, 256 * variant + node);
    assert LIT_SIZE * coder + 256 * variant + node == (3 * coder + variant) * 256 + node;
    Remainder(LIT_SIZE * coder + 256 * variant + node, 256, 3 * coder + variant, node);
  }

  /** A name can be told from its place, so no probability serves for two. */
  lemma NameOfPlace(n: Name)
    requires Named(n)
    ensures NameAt(Place(n)) == n
  {
    hide Pow2, Log2, SpecialAt, LengthAt, SlotBase, DirectBits;
    if n.IsMatch? || n.IsRep0Long? {
      SixteenIndex(n.posState, n.state);
    } else if n.DistSlot? {
      TreeIndex(n.lenState, n.node);
    }
    match n
    case DistSpecial(slot, done, low) => SpecialPlace(slot, done, low);
    case DistAlign(done, low) => AlignPlace(done, low);
    case LiteralNode(coder, variant, node) => LiteralPlace(coder, variant, node);
    case LenChoice(_) | LenChoice2(_) | LenLow(_, _, _) | LenMid(_, _, _) | LenHigh(_, _) => LengthPlace(n);
    case _ =>
  }
}
