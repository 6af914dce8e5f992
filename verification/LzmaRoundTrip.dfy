/** Decoding undoes encoding for whole LZMA streams: any number in the interval of a list of symbols decodes to them. */
module LzmaRoundTrip {
  import opened Options
  import opened Modular
  import opened Bits
  import opened LowBits
  import opened History
  import opened LzmaSymbol
  import opened LzmaRange
  import opened LzmaDec
  import opened LzmaStream
  import opened LzmaHistory
  import opened LzmaDecisions
  import opened LzmaWalk
  import opened LzmaEncoder

  function LastByte(past: seq<Byte>): Byte { if past == [] then 0 else past[|past| - 1] }

  function Low(x: nat, n: nat): nat { Mod(x, Pow2(n)) }

  function High(x: nat, n: nat): nat { Div(x, Pow2(n)) }

  /** The place after the symbols `e`: the state and the byte at the latest distance follow from the symbols, the rest from
      how much they say and from its last byte. */
  function WhereAfter(p: Props, e: seq<Symbol>): Where
    requires PropsOk(p)
  {
    var past := Told(e);
    Where(StateOf(e), Low(|past|, p.pb), Low(|past|, p.lp) * Pow2(p.lc) + High(LastByte(past), 8 - p.lc),
          ByteBack(past, Recent(e)[0]))
  }

  /** The symbol can follow the symbols `e`: matches stay within what they say and within the dictionary. */
  predicate Legal(p: Props, e: seq<Symbol>, s: Symbol) {
    Writable(s) &&
    match s
    case Literal(_) => true
    case ShortRep => 1 <= Recent(e)[0] <= |Told(e)|
    case OldMatch(k, _) => k < 4 && 1 <= Recent(e)[k] <= |Told(e)|
    case NewMatch(_, d) => d < |Told(e)| && d < p.dicSize && d != 0xFFFF_FFFF
  }

  predicate AllLegal(p: Props, e: seq<Symbol>, todo: seq<Symbol>)
    decreases |todo|
  {
    todo != [] ==> Legal(p, e, todo[0]) && AllLegal(p, e + [todo[0]], todo[1..])
  }

  /** The second interval within the first. */
  function Within(i: Interval, more: Interval): Interval {
    Interval(i.low * Pow256(more.bytes) + more.low, more.range, i.bytes + more.bytes)
  }

  /** The interval of the symbols `todo` after the symbols `e`, which took the decisions `h`. */
  function Encoded(p: Props, e: seq<Symbol>, h: seq<Decision>, range: nat, todo: seq<Symbol>): Interval
    requires PropsOk(p)
    decreases |todo|
  {
    if todo == [] then Interval(0, range, 0)
    else
      var ds := SymbolPart(WhereAfter(p, e), todo[0]);
      var i := Narrowed(h, range, ds);
      Within(i, Encoded(p, e + [todo[0]], h + ds, i.range, todo[1..]))
  }

  // ---------------------------------------------------------------- one symbol

  /** The state of the decoder is that after the symbols `e` and the decisions `h`. */
  ghost predicate Stands(p: Props, e: seq<Symbol>, h: seq<Decision>, z: Lz) {
    && PropsOk(p) && Remembers(z, e) && Agrees(h, z.probs) && InRange(z.rc.range)
    && |z.probs| == LITERAL + LIT_SIZE * Pow2(p.lc + p.lp) && z.regs.pos == |z.past| % LzmaRange.WORD
  }

  lemma RemainderTwice(a: nat, m: nat, k: nat)
    requires m > 0 && k > 0
    ensures m * k > 0 && a % (m * k) % m == a % m
  {
    var q, r := a / (m * k), a % (m * k);
    assert a == r + q * k * m;
    AddMultiple(r, q * k, m);
  }

  lemma PowerDivides(a: nat, n: nat)
    requires n <= 32
    ensures a % LzmaRange.WORD % Pow2(n) == a % Pow2(n)
  {
    WordPower();
    hide Pow2;
    Pow2Add(n, 32 - n);
    assert n + (32 - n) == 32;
    RemainderTwice(a, Pow2(n), Pow2(32 - n));
  }

  lemma ContextIsPlace(p: Props, e: seq<Symbol>, h: seq<Decision>, z: Lz)
    requires Stands(p, e, h, z)
    ensures z.regs.state < 12 && At(ContextOf(p, z), WhereAfter(p, e))
  {
    hide StateOf, Recent, Told, Agrees, Holds, InRange;
    LiteralState(e);
    var n := |z.past|;
    PowerDivides(n, p.pb);
    PowerDivides(n, p.lp);
    PosStateFits(n, p.pb);
    FirstReps(z.regs, Recent(e));
    if z.past == [] {
      FirstCell(p);
    }
  }

  lemma PosStateFits(n: nat, pb: nat)
    requires pb <= 4
    ensures n % Pow2(pb) < 16
  {
    Pow2Grows(pb, 4);
    assert Pow2(4) == 16;
  }

  lemma FirstReps(r: Regs, d: seq<nat>)
    requires Holds(r, d)
    ensures d[0] == r.rep0
  {
  }

  lemma FirstCell(p: Props)
    requires PropsOk(p)
    ensures 0 % Pow2(p.lp) * Pow2(p.lc) + 0 / Pow2(8 - p.lc) == 0
  {
    hide Pow2;
    assert 0 % Pow2(p.lp) == 0;
  }

  /** Exactly the legal symbols are taken; the others are an error, but for the mark that ends the stream. */
  lemma LegalIffTaken(p: Props, e: seq<Symbol>, z: Lz, w: Wet)
    requires Remembers(z, e) && Writable(w.symbol)
    ensures Apply(p, z, w).Next? <==> Legal(p, e, w.symbol)
    ensures Apply(p, z, w).Mark? <==> w.symbol.NewMatch? && w.symbol.distance == 0xFFFF_FFFF
    ensures Apply(p, z, w).Next? || Apply(p, z, w).Mark? || Apply(p, z, w).Bad?
  {
    hide StateOf, Recent, Told, Copied;
  }

  lemma SymbolDecodes(p: Props, e: seq<Symbol>, h: seq<Decision>, z: Lz, s: Symbol, data: seq<Byte>)
    requires Stands(p, e, h, z) && Legal(p, e, s)
    requires var i := Narrowed(h, z.rc.range, SymbolPart(WhereAfter(p, e), s)); Hits(i, z.rc, data)
    ensures z.regs.state < 12 && Symbol1(p, z, data).Next?
    ensures var ds := SymbolPart(WhereAfter(p, e), s);
            var y := Symbol1(p, z, data).z;
            && y.regs.state < 12 && Found(p, z, data).Some? && Found(p, z, data).value.symbol == s
            && Stands(p, e + [s], h + ds, y) && y.rc == Rest(Narrowed(h, z.rc.range, ds), z.rc, data)
  {
    hide StateOf, Recent, Told, Agrees, Holds, SymbolPart, WhereAfter, At, Walks, Narrowed, Hits, Rest, WetRun, Copied;
    var ds := SymbolPart(WhereAfter(p, e), s);
    ContextIsPlace(p, e, h, z);
    SymbolWalks(ContextOf(p, z), WhereAfter(p, e), s);
    DecisionsDecode(ContextOf(p, z), AtIsMatch, h, ds, s, z.probs, z.rc, data);
    var w := Found(p, z, data).value;
    LegalIffTaken(p, e, z, w);
    StoryMoves(p, z, data, e);
    LiteralState(e + [s]);
    RestIsLong(h, z.rc, ds, data);
    Positions(p, z, w);
  }

  /** A match with the largest distance ends the stream instead. */
  lemma MarkDecodes(p: Props, e: seq<Symbol>, h: seq<Decision>, z: Lz, len: nat, data: seq<Byte>)
    requires Stands(p, e, h, z) && len <= 271
    requires var i := Narrowed(h, z.rc.range, SymbolPart(WhereAfter(p, e), NewMatch(len, 0xFFFF_FFFF))); Hits(i, z.rc, data)
    ensures z.regs.state < 12 && Symbol1(p, z, data).Mark?
  {
    hide StateOf, Recent, Told, Agrees, Holds, SymbolPart, WhereAfter, At, Walks, Narrowed, Hits, Rest, WetRun, Copied;
    var s := NewMatch(len, 0xFFFF_FFFF);
    ContextIsPlace(p, e, h, z);
    SymbolWalks(ContextOf(p, z), WhereAfter(p, e), s);
    DecisionsDecode(ContextOf(p, z), AtIsMatch, h, SymbolPart(WhereAfter(p, e), s), s, z.probs, z.rc, data);
  }

  lemma RestIsLong(h: seq<Decision>, rc: Rc, ds: seq<Decision>, data: seq<Byte>)
    requires InRange(rc.range) && Hits(Narrowed(h, rc.range, ds), rc, data)
    ensures InRange(Rest(Narrowed(h, rc.range, ds), rc, data).range)
  {
    hide Narrowed;
    NarrowedFits(h, rc.range, ds);
  }

  lemma Positions(p: Props, z: Lz, w: Wet)
    requires Apply(p, z, w).Next?
    ensures var y := Apply(p, z, w).z; y.regs.pos == |y.past| % LzmaRange.WORD && y.probs == w.probs && y.rc == w.rc
  {
    hide Copied;
  }

  // ---------------------------------------------------------------- runs of symbols

  lemma {:induction false} EncodedFits(p: Props, e: seq<Symbol>, h: seq<Decision>, range: nat, todo: seq<Symbol>)
    requires PropsOk(p) && InRange(range)
    ensures var i := Encoded(p, e, h, range, todo);
            InRange(i.range) && i.low + i.range <= range * Pow256(i.bytes)
    decreases |todo|
  {
    hide WhereAfter, SymbolPart, Narrowed;
    if todo != [] {
      var ds := SymbolPart(WhereAfter(p, e), todo[0]);
      var i := Narrowed(h, range, ds);
      NarrowedFits(h, range, ds);
      EncodedFits(p, e + [todo[0]], h + ds, i.range, todo[1..]);
      var more := Encoded(p, e + [todo[0]], h + ds, i.range, todo[1..]);
      Pow256Add(i.bytes, more.bytes);
      LzmaEncoder.Within(i.low, i.range, range * Pow256(i.bytes), Pow256(more.bytes), more.low + more.range);
      Product(range, Pow256(i.bytes), Pow256(more.bytes));
    }
  }

  lemma {:induction false} AheadInParts(code: nat, data: seq<Byte>, at: nat, a: nat, b: nat)
    requires at + a + b <= |data|
    ensures Ahead(code, data, at, a + b) == Ahead(Ahead(code, data, at, a), data, at + a, b)
    decreases a
  {
    if a > 0 {
      AheadInParts(256 * code + data[at], data, at + 1, a - 1, b);
    }
  }

  /** A number in the interval of all symbols lies in that of the first, and what is left in that of the others. */
  lemma HitsParts(i: Interval, more: Interval, rc: Rc, data: seq<Byte>)
    requires Hits(Within(i, more), rc, data) && more.low + more.range <= i.range * Pow256(more.bytes)
    ensures Hits(i, rc, data) && Hits(more, Rest(i, rc, data), data)
  {
    hide Ahead;
    AheadInParts(rc.code, data, rc.at, i.bytes, more.bytes);
    CodeInPart(Ahead(rc.code, data, rc.at, i.bytes), data, rc.at + i.bytes, more.bytes, i.low, i.range, more.low, more.range);
  }

  lemma StoryOfOne(p: Props, z: Lz, data: seq<Byte>)
    requires PropsOk(p) && z.regs.state < 12 && Found(p, z, data).Some?
    ensures Story(p, z, data, 1) == [Found(p, z, data).value.symbol]
  {
    hide Found;
    assert Story(p, z, data, 0) == [];
  }

  lemma {:induction false} StoryAdd(p: Props, z: Lz, data: seq<Byte>, y: Lz, n: nat)
    requires PropsOk(p) && z.regs.state < 12 && Symbols(p, z, data, 1) == Some(y) && y.regs.state < 12
    requires Symbols(p, y, data, n).Some?
    ensures Symbols(p, z, data, 1 + n) == Symbols(p, y, data, n)
    ensures Story(p, z, data, 1 + n) == Story(p, z, data, 1) + Story(p, y, data, n)
    decreases n
  {
    hide Symbol1, Found, Seen;
    if n == 0 {
      assert Story(p, y, data, 0) == [];
    } else {
      StoryAdd(p, z, data, y, n - 1);
      assert 1 + n - 1 == 1 + (n - 1);
    }
  }

  lemma OneSymbol(p: Props, z: Lz, data: seq<Byte>)
    requires PropsOk(p) && z.regs.state < 12 && Symbol1(p, z, data).Next? && Symbol1(p, z, data).z.regs.state < 12
    ensures Symbols(p, z, data, 1) == Some(Symbol1(p, z, data).z)
  {
    hide Symbol1;
    assert Symbols(p, z, data, 0) == Some(z);
  }

  /** The first symbol and the others. */
  lemma HitsFirst(p: Props, e: seq<Symbol>, h: seq<Decision>, rc: Rc, todo: seq<Symbol>, data: seq<Byte>)
    requires PropsOk(p) && InRange(rc.range) && todo != [] && Hits(Encoded(p, e, h, rc.range, todo), rc, data)
    ensures var ds := SymbolPart(WhereAfter(p, e), todo[0]);
            var i := Narrowed(h, rc.range, ds);
            Hits(i, rc, data) && Hits(Encoded(p, e + [todo[0]], h + ds, i.range, todo[1..]), Rest(i, rc, data), data)
  {
    hide SymbolPart, WhereAfter, Narrowed, Hits, Rest, Within;
    var ds := SymbolPart(WhereAfter(p, e), todo[0]);
    var i := Narrowed(h, rc.range, ds);
    NarrowedFits(h, rc.range, ds);
    EncodedFits(p, e + [todo[0]], h + ds, i.range, todo[1..]);
    HitsParts(i, Encoded(p, e + [todo[0]], h + ds, i.range, todo[1..]), rc, data);
  }

  /** A number in the interval of some symbols decodes to them, and to what they say. */
  lemma {:induction false} SymbolsDecode(p: Props, e: seq<Symbol>, h: seq<Decision>, z: Lz, todo: seq<Symbol>, data: seq<Byte>)
    requires Stands(p, e, h, z) && AllLegal(p, e, todo) && Hits(Encoded(p, e, h, z.rc.range, todo), z.rc, data)
    ensures z.regs.state < 12
    ensures Symbols(p, z, data, |todo|).Some? && Story(p, z, data, |todo|) == todo
    ensures Remembers(Symbols(p, z, data, |todo|).value, e + todo)
    decreases |todo|
  {
    hide StateOf, Recent, Told, Agrees, Holds, SymbolPart, WhereAfter, Narrowed, Hits, Rest, Legal, Symbol1, Found, Encoded;
    StateBound(p, e, h, z);
    if todo == [] {
      assert e + todo == e;
      assert Symbols(p, z, data, 0) == Some(z) && Story(p, z, data, 0) == [];
    } else {
      var ds, s := SymbolPart(WhereAfter(p, e), todo[0]), todo[0];
      var i := Narrowed(h, z.rc.range, ds);
      HitsFirst(p, e, h, z.rc, todo, data);
      SymbolDecodes(p, e, h, z, s, data);
      var y := Symbol1(p, z, data).z;
      RestRange(i, z.rc, data);
      SymbolsDecode(p, e + [s], h + ds, y, todo[1..], data);
      FirstAndOthers(p, z, data, y, todo);
      assert e + [s] + todo[1..] == e + todo;
    }
  }

  lemma FirstAndOthers(p: Props, z: Lz, data: seq<Byte>, y: Lz, todo: seq<Symbol>)
    requires PropsOk(p) && z.regs.state < 12 && todo != [] && Symbol1(p, z, data) == Next(y) && y.regs.state < 12
    requires Found(p, z, data).Some? && Found(p, z, data).value.symbol == todo[0]
    requires Symbols(p, y, data, |todo| - 1).Some? && Story(p, y, data, |todo| - 1) == todo[1..]
    ensures Symbols(p, z, data, |todo|) == Symbols(p, y, data, |todo| - 1) && Story(p, z, data, |todo|) == todo
  {
    hide Symbol1, Found, Symbols, Story;
    OneSymbol(p, z, data);
    StoryAdd(p, z, data, y, |todo| - 1);
    StoryOfOne(p, z, data);
    assert [todo[0]] + todo[1..] == todo;
  }

  lemma StateBound(p: Props, e: seq<Symbol>, h: seq<Decision>, z: Lz)
    requires Stands(p, e, h, z)
    ensures z.regs.state < 12
  {
    hide Told, Agrees, Holds, StateOf;
    LiteralState(e);
  }

  lemma RestRange(i: Interval, rc: Rc, data: seq<Byte>)
    requires Hits(i, rc, data)
    ensures Rest(i, rc, data).range == i.range
  {
  }

  // ---------------------------------------------------------------- whole streams

  /** The range a stream starts with. */
  const FIRST_RANGE: nat := 0xFFFF_FFFF

  lemma StartStands(p: Props, n: nat, rc: Rc)
    requires PropsOk(p) && n == LITERAL + LIT_SIZE * Pow2(p.lc + p.lp) && rc.range == FIRST_RANGE
    ensures Stands(p, [], [], Lz([], FirstRegs(), FirstProbs(n), rc))
  {
    hide Pow2;
    assert Recent([]) == [1, 1, 1, 1];
  }

  /** The first symbol can only be a literal, so the code is below that of a repeated match. */
  lemma FirstCodeIsSmall(p: Props, s: Symbol, rc: Rc, data: seq<Byte>)
    requires PropsOk(p) && Legal(p, [], s) && rc.range == FIRST_RANGE
    requires Hits(Narrowed([], FIRST_RANGE, SymbolPart(WhereAfter(p, []), s)), rc, data)
    ensures rc.code < BAD_REP_CODE
  {
    hide Narrowed, Hits, Rest, LiteralPart;
    var x := WhereAfter(p, []);
    var ds := SymbolPart(x, s);
    FirstIsLiteral(p, s);
    assert ds[0] == Decision(IsMatch(x.state, x.posState), false);
    HitsOn([], ds, rc, data);
    HalfOfFirst(ds[0].name);
  }

  lemma FirstIsLiteral(p: Props, s: Symbol)
    requires Legal(p, [], s)
    ensures s.Literal?
  {
    assert Told([]) == [];
  }

  lemma HalfOfFirst(n: Name)
    requires !n.Even?
    ensures Share([], FIRST_RANGE, n) == 0x7FFF_FC00
  {
    assert Chance([], n) == 1024;
  }

  /** A stream that starts with a zero byte and goes on with any number in the interval of some symbols decodes to them,
      and what comes out is what they say. */
  lemma RoundTrip(p: Props, h: seq<Symbol>, stream: seq<Byte>)
    requires PropsOk(p) && h != [] && AllLegal(p, [], h) && |stream| >= 5 && stream[0] == 0
    requires Hits(Encoded(p, [], [], FIRST_RANGE, h), Rc(FIRST_RANGE, FirstCode(stream), 5), stream)
    ensures Begin(p, stream).Some?
    ensures var z := Begin(p, stream).value;
            && Symbols(p, z, stream, |h|).Some? && Story(p, z, stream, |h|) == h
            && Symbols(p, z, stream, |h|).value.past == Told(h)
  {
    hide Told, Legal, Hits, Encoded, Symbols, Story, Stands, FirstCode, FirstProbs;
    var rc := Rc(FIRST_RANGE, FirstCode(stream), 5);
    StreamBegins(p, h, rc, stream);
    var z := Begin(p, stream).value;
    StartStands(p, |z.probs|, rc);
    SymbolsDecode(p, [], [], z, h, stream);
    assert [] + h == h;
  }

  lemma StreamBegins(p: Props, h: seq<Symbol>, rc: Rc, data: seq<Byte>)
    requires PropsOk(p) && h != [] && AllLegal(p, [], h) && rc.range == FIRST_RANGE
    requires Hits(Encoded(p, [], [], FIRST_RANGE, h), rc, data)
    ensures rc.code < BAD_REP_CODE
  {
    hide Legal, Hits, Encoded, Narrowed, SymbolPart, WhereAfter, Rest;
    HitsFirst(p, [], [], rc, h, data);
    FirstCodeIsSmall(p, h[0], rc, data);
  }

  lemma LastOfSlice(data: seq<Byte>, at: nat, n: nat)
    requires n > 0 && at + n <= |data|
    ensures data[at..at + n] == data[at..at + (n - 1)] + [data[at + n - 1]]
    ensures data[at..at + n][..n - 1] == data[at..at + (n - 1)] && data[at..at + n][n - 1] == data[at + n - 1]
  {
  }

  lemma {:induction false} AheadOfBytes(data: seq<Byte>, at: nat, v: nat, n: nat)
    requires at + n <= |data| && data[at..at + n] == BigBytes(v, n) && v < Pow256(n)
    ensures Ahead(0, data, at, n) == v
    decreases n
  {
    if n > 0 {
      LastOfSlice(data, at, n);
      AheadOfBytes(data, at, v / 256, n - 1);
      AheadInParts(0, data, at, n - 1, 1);
      assert Ahead(v / 256, data, at + n - 1, 1) == 256 * (v / 256) + data[at + n - 1];
    }
  }

  /** The stream of some symbols: a zero byte and the first number of their interval. */
  function StreamOf(p: Props, h: seq<Symbol>): seq<Byte>
    requires PropsOk(p)
  {
    var i := Encoded(p, [], [], FIRST_RANGE, h);
    [0] + BigBytes(i.low, 4 + i.bytes)
  }

  /** It decodes to the symbols, whatever follows it. */
  lemma StreamDecodes(p: Props, h: seq<Symbol>, more: seq<Byte>)
    requires PropsOk(p) && h != [] && AllLegal(p, [], h)
    ensures var stream := StreamOf(p, h) + more;
            && Begin(p, stream).Some? && Symbols(p, Begin(p, stream).value, stream, |h|).Some?
            && Story(p, Begin(p, stream).value, stream, |h|) == h
            && Symbols(p, Begin(p, stream).value, stream, |h|).value.past == Told(h)
  {
    hide Encoded, Told, AllLegal, Story, Symbols, Begin;
    var i, stream := Encoded(p, [], [], FIRST_RANGE, h), StreamOf(p, h) + more;
    EncodedFits(p, [], [], FIRST_RANGE, h);
    FourBytes(i.bytes);
    assert stream[1..1 + (4 + i.bytes)] == BigBytes(i.low, 4 + i.bytes);
    FirstRangeFits(i);
    AheadOfBytes(stream, 1, i.low, 4 + i.bytes);
    AheadInParts(0, stream, 1, 4, i.bytes);
    CodeOfFour(stream);
    RoundTrip(p, h, stream);
  }

  lemma FourBytes(n: nat)
    ensures Pow256(4 + n) == 0x1_0000_0000 * Pow256(n)
  {
    Pow256Add(4, n);
    assert Pow256(4) == 0x1_0000_0000;
  }

  lemma FirstRangeFits(i: Interval)
    requires i.range > 0 && i.low + i.range <= FIRST_RANGE * Pow256(i.bytes)
    ensures i.low < Pow256(4 + i.bytes)
  {
    FourBytes(i.bytes);
    Factor(FIRST_RANGE, 0x1_0000_0000, Pow256(i.bytes));
  }

  lemma CodeOfFour(stream: seq<Byte>)
    requires |stream| >= 5
    ensures Ahead(0, stream, 1, 4) == FirstCode(stream)
  {
    assert Ahead(0, stream, 1, 4) == Ahead(stream[1], stream, 2, 3);
    var b: nat := stream[1];
    assert Ahead(b, stream, 2, 3) == Ahead(256 * b + stream[2], stream, 3, 2);
    assert Ahead(256 * b + stream[2], stream, 3, 2) == Ahead(256 * (256 * b + stream[2]) + stream[3], stream, 4, 1);
  }
}
