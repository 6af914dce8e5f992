/** Decoding undoes encoding, for whole streams of stored, static and dynamic blocks. */
module DeflateBlocks {
  import opened Bits
  import opened LowBits
  import opened CanonicalCode
  import opened InflateSetup
  import opened Deflate
  import opened DeflateRules
  import opened DeflateSteps
  import opened DeflateEncoding

  /** A block: what the three kinds of blocks are written from. */
  datatype Block =
    | StoredBlock(pad: seq<bool>, bytes: seq<Byte>)
    | StaticBlock(tokens: seq<Token>)
    | DynamicBlock(header: Header, tokens: seq<Token>)

  /** The start of a dynamic block: how many literal and distance symbols there are, the 19 code lengths of the code in
      which the other code lengths are written, how many of them are transmitted, and the other code lengths. */
  datatype Header = Header(hlit: nat, hdist: nat, code: seq<nat>, n: nat, lengths: seq<LengthToken>)

  // ---------------------------------------------------------------- code lengths

  /** The code lengths after one more token. */
  function MoreLengths(got: seq<nat>, k: LengthToken): (r: seq<nat>)
    requires k.CopyLast? ==> got != []
    ensures got <= r
  {
    match k
    case Single(length) => got + [length]
    case CopyLast(n) => got + seq(n, _ => got[|got| - 1])
    case ZeroLengths(n) => got + seq(n, _ => 0)
  }

  predicate TokenFits(code: seq<nat>, got: seq<nat>, k: LengthToken) {
    ProperLength(k) && Coded(code, LengthTokenField(k).symbol) && (k.CopyLast? ==> got != [])
  }

  /** The tokens have symbols in the code, and make up `total` lengths. */
  predicate LengthsFit(code: seq<nat>, total: nat, got: seq<nat>, ks: seq<LengthToken>)
    decreases |ks|
  {
    if ks == [] then |got| == total
    else
      && |got| < total && TokenFits(code, got, ks[0])
      && |MoreLengths(got, ks[0])| <= total && LengthsFit(code, total, MoreLengths(got, ks[0]), ks[1..])
  }

  function AllLengths(code: seq<nat>, total: nat, got: seq<nat>, ks: seq<LengthToken>): (r: seq<nat>)
    requires LengthsFit(code, total, got, ks)
    ensures |r| == total
    decreases |ks|
  {
    if ks == [] then got else AllLengths(code, total, MoreLengths(got, ks[0]), ks[1..])
  }

  function LengthsBits(code: seq<nat>, total: nat, got: seq<nat>, ks: seq<LengthToken>): seq<bool>
    requires LengthsFit(code, total, got, ks)
    decreases |ks|
  {
    if ks == [] then []
    else FieldBits(code, LengthTokenField(ks[0])) + LengthsBits(code, total, MoreLengths(got, ks[0]), ks[1..])
  }

  lemma LengthRunsOnce(c: Conf, k: LengthToken, ahead: seq<bool>)
    requires c.mode.Lengths? && Fits(c.mode.code) && |c.mode.got| < c.mode.hlit + c.mode.hdist
    requires TokenFits(c.mode.code, c.mode.got, k) && |MoreLengths(c.mode.got, k)| <= c.mode.hlit + c.mode.hdist
    requires c.rest == FieldBits(c.mode.code, LengthTokenField(k)) + ahead
    ensures Run(c) == Run(Conf(c.mode.(got := MoreLengths(c.mode.got, k)), c.final, ahead, c.out))
  {
    hide Step, Run, Fits, WordOf, Pow2, LowValue, RepeatBits, RepeatBase;
    var f := LengthTokenField(k);
    var word, extra := WordOf(c.mode.code, f.symbol), LowWord(f.extra, f.width);
    if k.Single? {
      assert word + extra == word;
      hide LowWord;
      LengthsSymbol(c, f.symbol, word, ahead);
    } else {
      hide LowWord;
      RepeatHasSymbol(k);
      Associate(word, extra, ahead);
      LengthsSymbol(c, f.symbol, word, extra + ahead);
      FieldOfWord(f.extra, f.width, ahead);
    }
    RunStep(c);
  }

  lemma {:induction false} LengthsRun(c: Conf, ks: seq<LengthToken>, ahead: seq<bool>)
    requires c.mode.Lengths? && Fits(c.mode.code)
    requires LengthsFit(c.mode.code, c.mode.hlit + c.mode.hdist, c.mode.got, ks)
    requires c.rest == LengthsBits(c.mode.code, c.mode.hlit + c.mode.hdist, c.mode.got, ks) + ahead
    ensures Run(c) == Run(Conf(c.mode.(got := AllLengths(c.mode.code, c.mode.hlit + c.mode.hdist, c.mode.got, ks)),
                               c.final, ahead, c.out))
    decreases |ks|
  {
    hide Step, Run, Fits, FieldBits, LengthTokenField, MoreLengths;
    if ks == [] {
      assert c.rest == ahead;
    } else {
      var code, total, got := c.mode.code, c.mode.hlit + c.mode.hdist, MoreLengths(c.mode.got, ks[0]);
      var more := LengthsBits(code, total, got, ks[1..]);
      Associate(FieldBits(code, LengthTokenField(ks[0])), more, ahead);
      LengthRunsOnce(c, ks[0], more + ahead);
      LengthsRun(Conf(c.mode.(got := got), c.final, more + ahead, c.out), ks[1..], ahead);
    }
  }

  /** The lengths of the code in which code lengths are written, three bits each. */
  function PreBits(pre: seq<nat>): seq<bool> {
    if pre == [] then [] else LowWord(pre[0], 3) + PreBits(pre[1..])
  }

  lemma {:induction false} PreRuns(c: Conf, pre: seq<nat>, ahead: seq<bool>)
    requires c.mode.CodeLengths? && |c.mode.pre| + |pre| == c.mode.hclen <= 19
    requires forall i :: 0 <= i < |pre| ==> pre[i] < 8
    requires c.rest == PreBits(pre) + ahead && Fits(Scatter(c.mode.pre + pre))
    ensures Run(c) == Run(Conf(Lengths(c.mode.hlit, c.mode.hdist, Scatter(c.mode.pre + pre), []), c.final, ahead, c.out))
    decreases |pre|
  {
    hide Step, Run, Fits, LowWord, LowValue, Pow2, Scatter;
    CodeLengthsSteps(c);
    RunStep(c);
    if pre == [] {
      assert c.mode.pre + pre == c.mode.pre && c.rest == ahead;
    } else {
      Associate(LowWord(pre[0], 3), PreBits(pre[1..]), ahead);
      PowThree();
      FieldOfWord(pre[0], 3, PreBits(pre[1..]) + ahead);
      assert c.mode.pre + pre == (c.mode.pre + [pre[0]]) + pre[1..];
      PreRuns(Step(c).conf, pre[1..], ahead);
    }
  }

  lemma PowThree()
    ensures Pow2(2) == 4 && Pow2(3) == 8 && Pow2(4) == 16 && Pow2(5) == 32
  {
  }

  lemma Regrouped(a: seq<bool>, x: seq<bool>, w: seq<bool>, y: seq<bool>, ahead: seq<bool>)
    ensures (a + (x + (w + y))) + ahead == a + (x + (w + (y + ahead)))
  {
  }

  // ---------------------------------------------------------------- blocks

  /** The tokens of the header make up all code lengths. */
  predicate Told(h: Header) {
    LengthsFit(h.code, h.hlit + h.hdist, [], h.lengths)
  }

  /** The header is one that section 3.2.7 of RFC 1951 allows, and tells codes that can be used. */
  ghost predicate CodesOk(h: Header)
    requires Told(h)
  {
    && 257 <= h.hlit <= 288 && 1 <= h.hdist <= 32
    && |h.code| == 19 && 4 <= h.n <= 19 && (forall s :: 0 <= s < 19 ==> h.code[s] < 8) && RestIsZero(h.code, h.n)
    && Fits(h.code) && Usable(LitOf(h), DistOf(h))
  }

  ghost predicate Usable(lit: seq<nat>, dist: seq<nat>) {
    Fits(lit) && Fits(dist) && |dist| <= 32 && Budget(lit, dist) && Coded(lit, 256)
  }

  function LitOf(h: Header): seq<nat>
    requires Told(h)
  {
    AllLengths(h.code, h.hlit + h.hdist, [], h.lengths)[..h.hlit]
  }

  function DistOf(h: Header): (r: seq<nat>)
    requires Told(h)
    ensures |r| == h.hdist
  {
    AllLengths(h.code, h.hlit + h.hdist, [], h.lengths)[h.hlit..]
  }

  /** The block can be written after the output `out`. */
  ghost predicate BlockOk(out: seq<Byte>, b: Block) {
    match b
    case StoredBlock(pad, bytes) => |pad| < 8 && |bytes| < 0x10000
    case StaticBlock(tokens) => Fitting(StaticLengths(), StaticDistances(), tokens, out)
    case DynamicBlock(h, tokens) => Told(h) && CodesOk(h) && Fitting(LitOf(h), DistOf(h), tokens, out)
  }

  /** All output after the block. */
  ghost function BlockOut(out: seq<Byte>, b: Block): seq<Byte>
    requires BlockOk(out, b)
  {
    match b
    case StoredBlock(pad, bytes) => out + bytes
    case StaticBlock(tokens) => Expand(StaticLengths(), StaticDistances(), tokens, out)
    case DynamicBlock(h, tokens) => Expand(LitOf(h), DistOf(h), tokens, out)
  }

  function StoredBits(pad: seq<bool>, bytes: seq<Byte>): seq<bool>
    requires |bytes| < 0x10000
  {
    pad + (LowWord(|bytes|, 16) + (LowWord(0xFFFF - |bytes|, 16) + LowBitsOf(bytes)))
  }

  function HeaderBits(h: Header): seq<bool>
    requires 257 <= h.hlit && 1 <= h.hdist && |h.code| == 19 && 4 <= h.n <= 19
    requires Told(h)
  {
    LowWord(h.hlit - 257, 5) + (LowWord(h.hdist - 1, 5) + (LowWord(h.n - 4, 4)
    + (PreBits(Transmitted(h.code, h.n)) + LengthsBits(h.code, h.hlit + h.hdist, [], h.lengths))))
  }

  /** The bits of a block after its three header bits. */
  ghost function BodyBits(out: seq<Byte>, b: Block): seq<bool>
    requires BlockOk(out, b)
  {
    match b
    case StoredBlock(pad, bytes) => StoredBits(pad, bytes)
    case StaticBlock(tokens) =>
      StaticEnds();
      BlockBits(StaticLengths(), StaticDistances(), tokens, out)
    case DynamicBlock(h, tokens) => HeaderBits(h) + BlockBits(LitOf(h), DistOf(h), tokens, out)
  }

  lemma StaticEnds()
    ensures Coded(StaticLengths(), 256)
  {
    assert StaticLengths()[256] == StaticLength(256);
  }

  function Kind(b: Block): nat {
    match b
    case StoredBlock(_, _) => 0
    case StaticBlock(_) => 1
    case DynamicBlock(_, _) => 2
  }

  // ---------------------------------------------------------------- streams

  ghost predicate BlocksOk(out: seq<Byte>, blocks: seq<Block>)
    decreases |blocks|
  {
    blocks != [] ==> BlockOk(out, blocks[0]) && BlocksOk(BlockOut(out, blocks[0]), blocks[1..])
  }

  /** The blocks one after the other; only the last says so. */
  ghost function StreamBits(out: seq<Byte>, blocks: seq<Block>, tail: seq<bool>): seq<bool>
    requires BlocksOk(out, blocks)
    decreases |blocks|
  {
    if blocks == [] then tail
    else [|blocks| == 1] + (LowWord(Kind(blocks[0]), 2)
         + (BodyBits(out, blocks[0]) + StreamBits(BlockOut(out, blocks[0]), blocks[1..], tail)))
  }

  /** The padding of each stored block ends at a byte boundary of the stream. */
  ghost predicate Aligned(out: seq<Byte>, blocks: seq<Block>, tail: seq<bool>)
    requires BlocksOk(out, blocks)
    decreases |blocks|
  {
    blocks != [] ==>
      var rest := BlockOut(out, blocks[0]);
      && (blocks[0].StoredBlock? ==> |StreamBits(rest, blocks[1..], tail)| % 8 == 0)
      && Aligned(rest, blocks[1..], tail)
  }

  ghost function AllOut(out: seq<Byte>, blocks: seq<Block>): seq<Byte>
    requires BlocksOk(out, blocks)
    decreases |blocks|
  {
    if blocks == [] then out else AllOut(BlockOut(out, blocks[0]), blocks[1..])
  }

  // ---------------------------------------------------------------- decoding a block

  lemma BlockHeaderRuns(c: Conf, last: bool, b: Block, body: seq<bool>)
    requires c.mode == Boundary && !c.final && c.rest == [last] + (LowWord(Kind(b), 2) + body)
    ensures Run(c) == Run(Conf(if b.StoredBlock? then StoredHeader else if b.StaticBlock? then StaticHeader
                               else DynamicHeader, last, body, c.out))
  {
    hide Step, Run, LowWord, Pow2;
    BoundarySteps(c);
    PowThree();
    FieldOfWord(Kind(b), 2, body);
    assert c.rest[1..] == LowWord(Kind(b), 2) + body;
    FirstBit(c.rest);
    RunStep(c);
  }

  lemma StoredBlockRuns(c: Conf, pad: seq<bool>, bytes: seq<Byte>, ahead: seq<bool>)
    requires c.mode == StoredHeader && |pad| < 8 && |bytes| < 0x10000 && |ahead| % 8 == 0
    requires c.rest == StoredBits(pad, bytes) + ahead
    ensures Run(c) == Run(Conf(Boundary, c.final, ahead, c.out + bytes))
  {
    hide Step, Run, LowWord, LowBitsOf, LowValue, Pow2;
    var l, m, n := LowWord(|bytes|, 16), LowWord(0xFFFF - |bytes|, 16), LowBitsOf(bytes);
    Regrouped(pad, l, m, n, ahead);
    StoredHeaderSteps(c);
    assert c.rest[|pad|..] == l + (m + (n + ahead));
    PowSixteen();
    FieldOfWord(|bytes|, 16, m + (n + ahead));
    FieldOfWord(0xFFFF - |bytes|, 16, n + ahead);
    RunStep(c);
    StoredRuns(Conf(Stored(|bytes|), c.final, n + ahead, c.out), bytes, ahead);
  }

  lemma StaticBlockRuns(c: Conf, tokens: seq<Token>, ahead: seq<bool>)
    requires c.mode == StaticHeader && Fitting(StaticLengths(), StaticDistances(), tokens, c.out)
    requires Coded(StaticLengths(), 256)
    requires c.rest == BlockBits(StaticLengths(), StaticDistances(), tokens, c.out) + ahead
    ensures Run(c) == Run(Conf(Boundary, c.final, ahead, Expand(StaticLengths(), StaticDistances(), tokens, c.out)))
  {
    hide Step, Run, Fits, BlockBits, Expand, Fitting, StaticLengths, StaticDistances, Coded;
    StaticSteps(c);
    RunStep(c);
    StaticCodesFit();
    BlockRuns(c.(mode := Codes(StaticLengths(), StaticDistances())), tokens, ahead);
  }

  /** The three numbers at the start of a dynamic block. */
  lemma DynamicHeaderRuns(c: Conf, hlit: nat, hdist: nat, n: nat, ahead: seq<bool>)
    requires c.mode == DynamicHeader && 257 <= hlit <= 288 && 1 <= hdist <= 32 && 4 <= n <= 19
    requires c.rest == LowWord(hlit - 257, 5) + (LowWord(hdist - 1, 5) + (LowWord(n - 4, 4) + ahead))
    ensures Run(c) == Run(Conf(CodeLengths(hlit, hdist, n, []), c.final, ahead, c.out))
  {
    hide Step, Run, LowWord, LowValue, Pow2;
    DynamicHeaderSteps(c);
    PowThree();
    FieldOfWord(n - 4, 4, ahead);
    FieldOfWord(hdist - 1, 5, LowWord(n - 4, 4) + ahead);
    FieldOfWord(hlit - 257, 5, LowWord(hdist - 1, 5) + (LowWord(n - 4, 4) + ahead));
    RunStep(c);
  }

  lemma CodesStart(c: Conf, lit: seq<nat>, dist: seq<nat>)
    requires c.mode.Lengths? && |c.mode.got| == c.mode.hlit + c.mode.hdist
    requires c.mode.got[..c.mode.hlit] == lit && c.mode.got[c.mode.hlit..] == dist && Usable(lit, dist)
    ensures Run(c) == Run(c.(mode := Codes(lit, dist)))
  {
    hide Step, Run, Fits, Budget;
    LengthsEnd(c);
    RunStep(c);
  }

  lemma TransmittedRuns(c: Conf, code: seq<nat>, n: nat, ahead: seq<bool>)
    requires c.mode.CodeLengths? && c.mode.pre == [] && c.mode.hclen == n <= 19 && |code| == 19 && Fits(code)
    requires (forall s :: 0 <= s < 19 ==> code[s] < 8) && RestIsZero(code, n)
    requires c.rest == PreBits(Transmitted(code, n)) + ahead
    ensures Run(c) == Run(Conf(Lengths(c.mode.hlit, c.mode.hdist, code, []), c.final, ahead, c.out))
  {
    hide Step, Run, Fits, PreBits, Scatter, OrderAt, RestIsZero;
    var pre := Transmitted(code, n);
    ScatterTransmitted(code, n);
    assert [] + pre == pre;
    PreRuns(c, pre, ahead);
  }

  /** Telling the codes of a dynamic block. */
  lemma CodesRun(c: Conf, h: Header, ahead: seq<bool>)
    requires c.mode == DynamicHeader && Told(h) && CodesOk(h) && c.rest == HeaderBits(h) + ahead
    ensures Run(c) == Run(c.(mode := Codes(LitOf(h), DistOf(h)), rest := ahead))
  {
    hide Step, Run, Fits, LowWord, Pow2, PreBits, LengthsBits, LengthsFit, AllLengths, Usable, Transmitted, RestIsZero;
    var a, b := PreBits(Transmitted(h.code, h.n)), LengthsBits(h.code, h.hlit + h.hdist, [], h.lengths);
    DynamicHeaderRuns(c, h.hlit, h.hdist, h.n, a + (b + ahead));
    TransmittedRuns(Conf(CodeLengths(h.hlit, h.hdist, h.n, []), c.final, a + (b + ahead), c.out), h.code, h.n, b + ahead);
    LengthsRun(Conf(Lengths(h.hlit, h.hdist, h.code, []), c.final, b + ahead, c.out), h.lengths, ahead);
    var got := AllLengths(h.code, h.hlit + h.hdist, [], h.lengths);
    CodesStart(Conf(Lengths(h.hlit, h.hdist, h.code, got), c.final, ahead, c.out), got[..h.hlit], got[h.hlit..]);
  }

  lemma DynamicBlockRuns(c: Conf, b: Block, ahead: seq<bool>)
    requires c.mode == DynamicHeader && b.DynamicBlock? && BlockOk(c.out, b) && c.rest == BodyBits(c.out, b) + ahead
    ensures Run(c) == Run(Conf(Boundary, c.final, ahead, BlockOut(c.out, b)))
  {
    hide Step, Run, Fits, Budget, HeaderBits, BlockBits, Expand, Fitting, LitOf, DistOf, LengthsFit;
    var lit, dist := LitOf(b.header), DistOf(b.header);
    var bits := BlockBits(lit, dist, b.tokens, c.out);
    Associate(HeaderBits(b.header), bits, ahead);
    CodesRun(c, b.header, bits + ahead);
    BlockRuns(Conf(Codes(lit, dist), c.final, bits + ahead, c.out), b.tokens, ahead);
  }

  lemma BodyRuns(c: Conf, last: bool, b: Block, ahead: seq<bool>)
    requires c.mode == Boundary && !c.final && BlockOk(c.out, b) && (b.StoredBlock? ==> |ahead| % 8 == 0)
    requires c.rest == [last] + (LowWord(Kind(b), 2) + (BodyBits(c.out, b) + ahead))
    ensures Run(c) == Run(Conf(Boundary, last, ahead, BlockOut(c.out, b)))
  {
    hide Step, Run, CodesOk, StoredBits, HeaderBits, BlockBits, Expand, Fitting, LowWord, LitOf, DistOf;
    hide StaticLengths, StaticDistances;
    var body := BodyBits(c.out, b) + ahead;
    BlockHeaderRuns(c, last, b, body);
    match b
    case StoredBlock(pad, bytes) => StoredBlockRuns(Conf(StoredHeader, last, body, c.out), pad, bytes, ahead);
    case StaticBlock(tokens) =>
      StaticEnds();
      StaticBlockRuns(Conf(StaticHeader, last, body, c.out), tokens, ahead);
    case DynamicBlock(_, _) => DynamicBlockRuns(Conf(DynamicHeader, last, body, c.out), b, ahead);
  }

  lemma {:induction false} BlocksRun(c: Conf, blocks: seq<Block>, tail: seq<bool>)
    requires c.mode == Boundary && (c.final <==> blocks == []) && BlocksOk(c.out, blocks) && Aligned(c.out, blocks, tail)
    requires c.rest == StreamBits(c.out, blocks, tail)
    ensures Run(c) == Decoded(Finished, AllOut(c.out, blocks), tail)
    decreases |blocks|
  {
    hide Step, Run, BlockOk, BlockOut, BodyBits, Kind, LowWord;
    if blocks == [] {
      BoundarySteps(c);
      RunStep(c);
    } else {
      var out := BlockOut(c.out, blocks[0]);
      var ahead := StreamBits(out, blocks[1..], tail);
      BodyRuns(c, |blocks| == 1, blocks[0], ahead);
      BlocksRun(Conf(Boundary, |blocks| == 1, ahead, out), blocks[1..], tail);
    }
  }

  /** A stream of any blocks decodes to what they stand for, and what follows the last block is left. */
  lemma RoundTrip(stream: seq<Byte>, blocks: seq<Block>, tail: seq<bool>)
    requires blocks != [] && BlocksOk([], blocks) && Aligned([], blocks, tail)
    requires LowBitsOf(stream) == StreamBits([], blocks, tail)
    ensures Decode(stream) == Decoded(Finished, AllOut([], blocks), tail)
  {
    hide Step, Run, BlocksOk, Aligned, StreamBits, AllOut;
    BlocksRun(Conf(Boundary, false, LowBitsOf(stream), []), blocks, tail);
  }
}
