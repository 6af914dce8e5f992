/** The decoder accepts nothing but streams that can be written: whenever decoding a stream finishes, the stream was
    written from blocks. */
module DeflateParse {
  import opened Bits
  import opened LowBits
  import opened CanonicalCode
  import opened DeflateCode
  import opened InflateSetup
  import opened Deflate
  import opened DeflateRules
  import opened DeflateSteps
  import opened DeflateEncoding
  import opened DeflateBlocks
  import opened History

  /** Decoding goes on to its proper end. */
  ghost predicate Finishes(c: Conf) {
    Run(c).end == Finished
  }

  lemma NoHalt(c: Conf)
    requires Finishes(c)
    ensures Step(c).Halt? ==> Step(c).end == Finished
    ensures Step(c).Go? ==> Finishes(Step(c).conf) && Run(c) == Run(Step(c).conf)
  {
    hide Step;
    RunStep(c);
  }

  /** A symbol that was read stands at the front. */
  lemma SymbolStands(lens: seq<nat>, rest: seq<bool>) returns (ahead: seq<bool>)
    requires Read(lens, rest).Symbol?
    ensures var s := Read(lens, rest).s;
            Coded(lens, s) && rest == WordOf(lens, s) + ahead && |WordOf(lens, s)| >= 1
  {
    hide WordOf;
    var s := Read(lens, rest).s;
    ahead := rest[|WordOf(lens, s)|..];
  }

  /** Extra bits stand for a number, and are its bits. */
  lemma BitsOfField(ahead: seq<bool>, n: nat)
    requires n <= |ahead|
    ensures LowValue(ahead[..n]) < Pow2(n) && ahead == LowWord(LowValue(ahead[..n]), n) + ahead[n..]
  {
    hide LowValue, LowWord, Pow2;
    LowValueBound(ahead[..n]);
    LowWordOfValue(ahead[..n]);
    assert ahead == ahead[..n] + ahead[n..];
  }

  // ---------------------------------------------------------------- matches

  /** A distance that is accepted, with what follows it. */
  lemma DistanceParses(c: Conf) returns (back: nat, ahead: seq<bool>)
    requires c.mode.Distance? && Fits(c.mode.dist) && |c.mode.dist| <= 32 && Finishes(c)
    ensures ProperBack(c.mode.dist, back) && back <= |c.out|
    ensures c.rest == FieldBits(c.mode.dist, DistField(back)) + ahead
  {
    hide Step, Run, Fits, WordOf, LowWord, LowValue, Pow2, DistBits, DistBase, DistField;
    NoHalt(c);
    if !Read(c.mode.dist, c.rest).Symbol? {
      DistanceUnread(c);
    }
    var word := SymbolStands(c.mode.dist, c.rest);
    var t := Read(c.mode.dist, c.rest).s;
    DistanceSymbol(c, t, WordOf(c.mode.dist, t), word);
    var k := DistBits(t);
    var e := LowValue(word[..k]);
    BitsOfField(word, k);
    BackBound(t, word[..k]);
    SymbolHasDistance(t, e);
    back, ahead := DistBase(t) + e, word[k..];
    Associate(WordOf(c.mode.dist, t), LowWord(e, k), ahead);
  }

  /** A length symbol that is accepted: the length and the form it was written in. */
  lemma LengthParses(c: Conf, s: nat, word: seq<bool>) returns (f: Field, ahead: seq<bool>)
    requires c.mode.Codes? && Fits(c.mode.lit) && Finishes(c) && 257 <= s <= 285 && Coded(c.mode.lit, s)
    requires c.rest == WordOf(c.mode.lit, s) + word
    ensures f.symbol == s && c.rest == FieldBits(c.mode.lit, f) + ahead
    ensures var length := LengthBase(s) + f.extra;
            && 3 <= length <= LONGEST && (f == LengthField(length) || (f == SpareField() && length == LONGEST))
            && Step(c) == Go(Conf(Distance(c.mode.lit, c.mode.dist, length), c.final, ahead, c.out))
  {
    hide Step, Run, Fits, WordOf, LowWord, LowValue, Pow2, LengthBits, LengthBase, LengthField;
    NoHalt(c);
    CodesSymbol(c, s, WordOf(c.mode.lit, s), word);
    var k := LengthBits(s);
    var e := LowValue(word[..k]);
    BitsOfField(word, k);
    SymbolHasLength(s, e);
    SpareIsLongest();
    f, ahead := Field(s, k, e), word[k..];
    Associate(WordOf(c.mode.lit, s), LowWord(e, k), ahead);
  }

  /** A match that is accepted. */
  lemma MatchParses(c: Conf, s: nat, word: seq<bool>) returns (k: Token, ahead: seq<bool>)
    requires c.mode.Codes? && Fits(c.mode.lit) && Fits(c.mode.dist) && |c.mode.dist| <= 32 && Finishes(c)
    requires 257 <= s <= 285 && Coded(c.mode.lit, s) && c.rest == WordOf(c.mode.lit, s) + word
    ensures Proper(c.mode.lit, c.mode.dist, k) && InHistory(c.out, k)
    ensures c.rest == TokenBits(c.mode.lit, c.mode.dist, k) + ahead && |ahead| < |c.rest|
  {
    hide Step, Run, Fits, WordOf, LengthBase, LengthField, DistField;
    var lit, dist := c.mode.lit, c.mode.dist;
    var f, far := LengthParses(c, s, word);
    var length := LengthBase(s) + f.extra;
    NoHalt(c);
    var d := Conf(Distance(lit, dist, length), c.final, far, c.out);
    var back;
    back, ahead := DistanceParses(d);
    k := if f == LengthField(length) then Match(length, back) else SpareMatch(back);
    Associate(FieldBits(lit, f), FieldBits(dist, DistField(back)), ahead);
    assert |WordOf(lit, s)| == lit[s] >= 1;
  }

  /** The symbols of a block, up to its end. */
  lemma {:induction false} TokensParse(c: Conf) returns (tokens: seq<Token>, ahead: seq<bool>)
    requires c.mode.Codes? && Fits(c.mode.lit) && Fits(c.mode.dist) && |c.mode.dist| <= 32 && Finishes(c)
    ensures Fitting(c.mode.lit, c.mode.dist, tokens, c.out) && Coded(c.mode.lit, 256)
    ensures c.rest == BlockBits(c.mode.lit, c.mode.dist, tokens, c.out) + ahead && |ahead| < |c.rest|
    decreases |c.rest|
  {
    hide Step, Run, Fits, WordOf, TokenBits, Written, Proper, InHistory;
    var lit, dist := c.mode.lit, c.mode.dist;
    NoHalt(c);
    if !Read(lit, c.rest).Symbol? {
      CodesUnread(c);
    }
    var word := SymbolStands(lit, c.rest);
    var s := Read(lit, c.rest).s;
    CodesSymbol(c, s, WordOf(lit, s), word);
    if s == 256 {
      tokens, ahead := [], word;
    } else {
      var k, far := TokenParses(c, s, word);
      TokenRuns(c, k, far);
      var more;
      more, ahead := TokensParse(Conf(c.mode, c.final, far, Written(c.out, k)));
      tokens := [k] + more;
      assert tokens[1..] == more;
      Associate(TokenBits(lit, dist, k), BlockBits(lit, dist, more, Written(c.out, k)), ahead);
    }
  }

  lemma TokenParses(c: Conf, s: nat, word: seq<bool>) returns (k: Token, ahead: seq<bool>)
    requires c.mode.Codes? && Fits(c.mode.lit) && Fits(c.mode.dist) && |c.mode.dist| <= 32 && Finishes(c)
    requires s != 256 && Coded(c.mode.lit, s) && c.rest == WordOf(c.mode.lit, s) + word
    ensures Proper(c.mode.lit, c.mode.dist, k) && InHistory(c.out, k)
    ensures c.rest == TokenBits(c.mode.lit, c.mode.dist, k) + ahead && |ahead| < |c.rest|
  {
    hide Step, Run, Fits, WordOf, FieldBits, LengthField;
    if s < 256 {
      k, ahead := Token.Literal(s), word;
      assert |WordOf(c.mode.lit, s)| == c.mode.lit[s] >= 1;
    } else {
      NoHalt(c);
      CodesSymbol(c, s, WordOf(c.mode.lit, s), word);
      k, ahead := MatchParses(c, s, word);
    }
  }

  // ---------------------------------------------------------------- code lengths

  lemma LengthTokenParses(c: Conf) returns (k: LengthToken, ahead: seq<bool>)
    requires c.mode.Lengths? && Fits(c.mode.code) && |c.mode.code| == 19 && |c.mode.got| < c.mode.hlit + c.mode.hdist
    requires Finishes(c)
    ensures TokenFits(c.mode.code, c.mode.got, k) && |MoreLengths(c.mode.got, k)| <= c.mode.hlit + c.mode.hdist
    ensures |c.mode.got| < |MoreLengths(c.mode.got, k)|
    ensures c.rest == FieldBits(c.mode.code, LengthTokenField(k)) + ahead
  {
    hide Step, Run, Fits, WordOf, LowValue, Pow2, RepeatBits, RepeatBase;
    var code, got := c.mode.code, c.mode.got;
    NoHalt(c);
    if !Read(code, c.rest).Symbol? {
      LengthsUnread(c);
    }
    var word := SymbolStands(code, c.rest);
    var s := Read(code, c.rest).s;
    LengthsSymbol(c, s, WordOf(code, s), word);
    if s < 16 {
      k, ahead := Single(s), word;
      assert WordOf(code, s) + LowWord(0, 0) == WordOf(code, s);
    } else {
      hide LowWord;
      var e := LowValue(word[..RepeatBits(s)]);
      BitsOfField(word, RepeatBits(s));
      SymbolHasRepeat(s, e);
      var n := RepeatBase(s) + e;
      k, ahead := if s == 16 then CopyLast(n) else ZeroLengths(n), word[RepeatBits(s)..];
      Associate(WordOf(code, s), LowWord(e, RepeatBits(s)), ahead);
    }
  }

  /** The lengths of both codes, and the codes being started. */
  lemma {:induction false} LengthsParse(c: Conf) returns (ks: seq<LengthToken>, ahead: seq<bool>)
    requires c.mode.Lengths? && Fits(c.mode.code) && |c.mode.code| == 19 && |c.mode.got| <= c.mode.hlit + c.mode.hdist
    requires Finishes(c)
    ensures LengthsFit(c.mode.code, c.mode.hlit + c.mode.hdist, c.mode.got, ks)
    ensures c.rest == LengthsBits(c.mode.code, c.mode.hlit + c.mode.hdist, c.mode.got, ks) + ahead
    decreases c.mode.hlit + c.mode.hdist - |c.mode.got|
  {
    hide Step, Run, Fits, FieldBits, LengthTokenField, MoreLengths, ProperLength;
    var code, total := c.mode.code, c.mode.hlit + c.mode.hdist;
    if |c.mode.got| == total {
      ks, ahead := [], c.rest;
      assert [] + c.rest == c.rest;
    } else {
      var k, far := LengthTokenParses(c);
      LengthRunsOnce(c, k, far);
      var got := MoreLengths(c.mode.got, k);
      var more;
      more, ahead := LengthsParse(Conf(c.mode.(got := got), c.final, far, c.out));
      ks := [k] + more;
      assert ks[1..] == more;
      Associate(FieldBits(code, LengthTokenField(k)), LengthsBits(code, total, got, more), ahead);
    }
  }

  /** When all lengths are told, their codes must be usable. */
  lemma CodesAreUsable(c: Conf)
    requires c.mode.Lengths? && |c.mode.got| == c.mode.hlit + c.mode.hdist && Finishes(c)
    ensures var lit, dist := c.mode.got[..c.mode.hlit], c.mode.got[c.mode.hlit..];
            && Fits(lit) && Fits(dist) && |dist| <= 32 && Budget(lit, dist)
            && Finishes(c.(mode := Codes(lit, dist)))
  {
    hide Step, Run, Fits, Budget;
    LengthsEnd(c);
    NoHalt(c);
  }

  lemma {:induction false} PreParse(c: Conf) returns (pre: seq<nat>, ahead: seq<bool>)
    requires c.mode.CodeLengths? && |c.mode.pre| <= c.mode.hclen <= 19 && Finishes(c)
    ensures |c.mode.pre| + |pre| == c.mode.hclen && c.rest == PreBits(pre) + ahead
    ensures forall i :: 0 <= i < |pre| ==> pre[i] < 8
    ensures Fits(Scatter(c.mode.pre + pre))
    decreases c.mode.hclen - |c.mode.pre|
  {
    hide Step, Run, Fits, LowWord, LowValue, Pow2, Scatter;
    NoHalt(c);
    CodeLengthsSteps(c);
    if |c.mode.pre| == c.mode.hclen {
      pre, ahead := [], c.rest;
      assert c.mode.pre + [] == c.mode.pre && [] + c.rest == c.rest;
    } else {
      var v := LowValue(c.rest[..3]);
      BitsOfField(c.rest, 3);
      PowThree();
      var more;
      more, ahead := PreParse(Step(c).conf);
      pre := [v] + more;
      assert pre[1..] == more;
      assert c.mode.pre + pre == (c.mode.pre + [v]) + more;
      Associate(LowWord(v, 3), PreBits(more), ahead);
    }
  }

  /** Code lengths as they were transmitted can be transmitted. */
  lemma TransmittedScatter(pre: seq<nat>)
    requires |pre| <= 19 && forall i :: 0 <= i < |pre| ==> pre[i] < 8
    ensures Transmitted(Scatter(pre), |pre|) == pre && RestIsZero(Scatter(pre), |pre|)
    ensures forall s :: 0 <= s < 19 ==> Scatter(pre)[s] < 8
  {
    hide Scatter, OrderAt, PlaceOf;
    forall j | 0 <= j < 19 ensures Scatter(pre)[OrderAt(j)] == if j < |pre| then pre[j] else 0 {
      ScatterAt(pre, j);
    }
    forall s | 0 <= s < 19 ensures Scatter(pre)[s] < 8 {
      PlaceIsInverse(s);
      assert Scatter(pre)[OrderAt(PlaceOf(s))] < 8;
    }
  }

  // ---------------------------------------------------------------- blocks

  /** The header of a dynamic block, and the codes it tells. */
  lemma HeaderParses(c: Conf) returns (h: Header, ahead: seq<bool>)
    requires c.mode == DynamicHeader && Finishes(c)
    ensures Told(h) && 257 <= h.hlit <= 288 && 1 <= h.hdist <= 32 && |h.code| == 19 && 4 <= h.n <= 19
    ensures (forall s :: 0 <= s < 19 ==> h.code[s] < 8) && RestIsZero(h.code, h.n) && Fits(h.code)
    ensures Fits(LitOf(h)) && Fits(DistOf(h)) && Budget(LitOf(h), DistOf(h))
    ensures c.rest == HeaderBits(h) + ahead && Finishes(c.(mode := Codes(LitOf(h), DistOf(h)), rest := ahead))
  {
    hide Step, Run, Fits, LowWord, Pow2, PreBits, LengthsBits, LengthsFit, AllLengths, Transmitted, RestIsZero, Scatter, Budget;
    var hlit, hdist, n, far := NumbersParse(c);
    var d := Conf(CodeLengths(hlit, hdist, n, []), c.final, far, c.out);
    var pre, near := PreParse(d);
    TransmittedScatter(pre);
    assert [] + pre == pre;
    var code := Scatter(pre);
    TransmittedRuns(d, code, n, near);
    var e := Conf(Lengths(hlit, hdist, code, []), c.final, near, c.out);
    var ks;
    ks, ahead := LengthsParse(e);
    h := Header(hlit, hdist, code, n, ks);
    LengthsRun(e, ks, ahead);
    CodesAreUsable(Conf(Lengths(hlit, hdist, code, AllLengths(code, hlit + hdist, [], ks)), c.final, ahead, c.out));
    HeaderIs(h, far, ahead, c.rest);
  }

  lemma HeaderIs(h: Header, far: seq<bool>, ahead: seq<bool>, rest: seq<bool>)
    requires Told(h) && 257 <= h.hlit && 1 <= h.hdist && |h.code| == 19 && 4 <= h.n <= 19
    requires far == PreBits(Transmitted(h.code, h.n)) + (LengthsBits(h.code, h.hlit + h.hdist, [], h.lengths) + ahead)
    requires rest == LowWord(h.hlit - 257, 5) + (LowWord(h.hdist - 1, 5) + (LowWord(h.n - 4, 4) + far))
    ensures rest == HeaderBits(h) + ahead
  {
    hide LowWord, PreBits, LengthsBits, Transmitted, Told;
  }

  /** The three numbers at the start of a dynamic block. */
  lemma NumbersParse(c: Conf) returns (hlit: nat, hdist: nat, n: nat, ahead: seq<bool>)
    requires c.mode == DynamicHeader && Finishes(c)
    ensures 257 <= hlit <= 288 && 1 <= hdist <= 32 && 4 <= n <= 19
    ensures c.rest == LowWord(hlit - 257, 5) + (LowWord(hdist - 1, 5) + (LowWord(n - 4, 4) + ahead))
    ensures Finishes(Conf(CodeLengths(hlit, hdist, n, []), c.final, ahead, c.out))
  {
    hide Step, Run, LowWord, LowValue, Pow2;
    NoHalt(c);
    DynamicHeaderSteps(c);
    PowThree();
    var a, b := c.rest[5..], c.rest[5..][5..];
    BitsOfField(c.rest, 5);
    BitsOfField(a, 5);
    BitsOfField(b, 4);
    hlit, hdist, n, ahead := LowValue(c.rest[..5]) + 257, LowValue(a[..5]) + 1, LowValue(b[..4]) + 4, b[4..];
  }

  lemma {:induction false} BytesParse(c: Conf) returns (bytes: seq<Byte>, ahead: seq<bool>)
    requires c.mode.Stored? && Finishes(c)
    ensures |bytes| == c.mode.left && c.rest == LowBitsOf(bytes) + ahead
    decreases c.mode.left
  {
    hide Step, Run, LowWord, LowValue, Pow2;
    NoHalt(c);
    StoredSteps(c);
    if c.mode.left == 0 {
      bytes, ahead := [], c.rest;
      assert [] + c.rest == c.rest;
    } else {
      BitsOfField(c.rest, 8);
      var more;
      more, ahead := BytesParse(Step(c).conf);
      bytes := [LowValue(c.rest[..8])] + more;
      assert bytes[1..] == more;
      Associate(LowWord(bytes[0], 8), LowBitsOf(more), ahead);
    }
  }

  lemma StoredParses(c: Conf) returns (pad: seq<bool>, bytes: seq<Byte>, ahead: seq<bool>)
    requires c.mode == StoredHeader && Finishes(c)
    ensures |pad| < 8 && |bytes| < 0x10000 && |ahead| % 8 == 0 && c.rest == StoredBits(pad, bytes) + ahead
  {
    hide Step, Run, LowWord, LowBitsOf, LowValue, Pow2;
    NoHalt(c);
    StoredHeaderSteps(c);
    PowSixteen();
    var k := |c.rest| % 8;
    pad := c.rest[..k];
    var a := c.rest[k..];
    BitsOfField(a, 16);
    BitsOfField(a[16..], 16);
    var far := a[16..][16..];
    var d := Conf(Stored(LowValue(a[..16])), c.final, far, c.out);
    bytes, ahead := BytesParse(d);
    Regrouped(pad, LowWord(|bytes|, 16), LowWord(0xFFFF - |bytes|, 16), LowBitsOf(bytes), ahead);
    assert c.rest == pad + a;
    WholeBytes(|c.rest|, k, |bytes|, |ahead|);
  }

  lemma WholeBytes(rest: nat, k: nat, n: nat, ahead: nat)
    requires k == rest % 8 && rest == k + 32 + 8 * n + ahead
    ensures ahead % 8 == 0
  {
  }

  lemma HeaderBit(rest: seq<bool>)
    requires |rest| >= 3
    ensures rest == [rest[0]] + rest[1..] && (LowValue(rest[..1]) != 0 <==> rest[0])
  {
    hide LowValue;
    FirstBit(rest);
  }

  /** One block that is accepted. */
  lemma BlockParses(c: Conf) returns (last: bool, b: Block, ahead: seq<bool>)
    requires c.mode == Boundary && !c.final && Finishes(c)
    ensures BlockOk(c.out, b) && (b.StoredBlock? ==> |ahead| % 8 == 0)
    ensures c.rest == [last] + (LowWord(Kind(b), 2) + (BodyBits(c.out, b) + ahead)) && |ahead| < |c.rest|
  {
    hide Step, Run, LowWord, LowValue, Pow2, BlockOk, BodyBits;
    NoHalt(c);
    BoundarySteps(c);
    HeaderBit(c.rest);
    BitsOfField(c.rest[1..], 2);
    last := c.rest[0];
    var kind, body := LowValue(c.rest[1..][..2]), c.rest[1..][2..];
    if kind == 0 {
      b, ahead := StoredBlockParses(Conf(StoredHeader, last, body, c.out));
    } else if kind == 1 {
      b, ahead := StaticBlockParses(Conf(StaticHeader, last, body, c.out));
    } else {
      b, ahead := DynamicBlockParses(Conf(DynamicHeader, last, body, c.out));
    }
    assert body == BodyBits(c.out, b) + ahead;
  }

  lemma StoredBlockParses(c: Conf) returns (b: Block, ahead: seq<bool>)
    requires c.mode == StoredHeader && Finishes(c)
    ensures Kind(b) == 0 && b.StoredBlock? && BlockOk(c.out, b) && |ahead| % 8 == 0 && c.rest == BodyBits(c.out, b) + ahead
  {
    hide Run, StoredBits;
    var pad, bytes;
    pad, bytes, ahead := StoredParses(c);
    b := StoredBlock(pad, bytes);
  }

  lemma StaticBlockParses(c: Conf) returns (b: Block, ahead: seq<bool>)
    requires c.mode == StaticHeader && Finishes(c)
    ensures Kind(b) == 1 && BlockOk(c.out, b) && c.rest == BodyBits(c.out, b) + ahead
  {
    hide Step, Run, Fits, StaticLengths, StaticDistances, BlockBits, Fitting, Coded;
    NoHalt(c);
    StaticSteps(c);
    StaticCodesFit();
    var tokens;
    tokens, ahead := TokensParse(c.(mode := Codes(StaticLengths(), StaticDistances())));
    b := StaticBlock(tokens);
  }

  lemma DynamicBlockParses(c: Conf) returns (b: Block, ahead: seq<bool>)
    requires c.mode == DynamicHeader && Finishes(c)
    ensures Kind(b) == 2 && b.DynamicBlock? && BlockOk(c.out, b) && c.rest == BodyBits(c.out, b) + ahead
  {
    hide Step, Run, Fits, Budget, BlockBits, HeaderBits, Fitting, Coded, LitOf, DistOf, Told, RestIsZero;
    var h, far := HeaderParses(c);
    var tokens;
    tokens, ahead := TokensParse(c.(mode := Codes(LitOf(h), DistOf(h)), rest := far));
    b := DynamicBlock(h, tokens);
    Associate(HeaderBits(h), BlockBits(LitOf(h), DistOf(h), tokens, c.out), ahead);
  }

  /** All blocks of a stream that is accepted. */
  lemma {:induction false} BlocksParse(c: Conf) returns (blocks: seq<Block>, tail: seq<bool>)
    requires c.mode == Boundary && !c.final && Finishes(c)
    ensures blocks != [] && BlocksOk(c.out, blocks) && Aligned(c.out, blocks, tail)
    ensures c.rest == StreamBits(c.out, blocks, tail)
    decreases |c.rest|
  {
    hide Step, Run, BlockOk, BlockOut, BodyBits, Kind, LowWord;
    var last, b, ahead := BlockParses(c);
    BodyRuns(c, last, b, ahead);
    var out := BlockOut(c.out, b);
    if last {
      blocks, tail := [b], ahead;
    } else {
      var more;
      more, tail := BlocksParse(Conf(Boundary, false, ahead, out));
      blocks := [b] + more;
      assert blocks[1..] == more;
    }
  }

  /** The stream was written from the blocks, with `tail` behind them. */
  ghost predicate WrittenFrom(stream: seq<Byte>, blocks: seq<Block>, tail: seq<bool>) {
    blocks != [] && BlocksOk([], blocks) && Aligned([], blocks, tail) && LowBitsOf(stream) == StreamBits([], blocks, tail)
  }

  /** Decoding finishes exactly for the streams that are written from blocks, and with what the blocks stand for. */
  lemma AcceptedIffWritten(stream: seq<Byte>)
    ensures Decode(stream).end == Finished <==> exists blocks, tail :: WrittenFrom(stream, blocks, tail)
    ensures forall blocks, tail :: WrittenFrom(stream, blocks, tail) ==> Decode(stream) == Decoded(Finished, AllOut([], blocks), tail)
  {
    hide Step, Run, BlocksOk, Aligned, StreamBits, AllOut, LowBitsOf;
    if Decode(stream).end == Finished {
      var blocks, tail := BlocksParse(Conf(Boundary, false, LowBitsOf(stream), []));
      assert WrittenFrom(stream, blocks, tail);
    }
    forall blocks, tail | WrittenFrom(stream, blocks, tail)
      ensures Decode(stream) == Decoded(Finished, AllOut([], blocks), tail)
    {
      RoundTrip(stream, blocks, tail);
    }
  }
}
