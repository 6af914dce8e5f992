/** Decoding undoes encoding: what a Deflate block says is what the decoder writes. */
module DeflateEncoding {
  import opened Bits
  import opened LowBits
  import opened CanonicalCode
  import opened DeflateCode
  import opened InflateSetup
  import opened Deflate
  import opened DeflateRules
  import opened DeflateSteps
  import opened History

  /** A literal byte, or a match: how many bytes to copy and how far back they are. The longest match has a second form,
      which no encoder should use and every decoder takes. */
  datatype Token = Literal(b: Byte) | Match(length: nat, back: nat) | SpareMatch(back: nat)

  const LONGEST: nat := 258

  /** Distances above 32768 must not be used either, and are taken up to 49152. */
  predicate Proper(lit: seq<nat>, dist: seq<nat>, k: Token) {
    match k
    case Literal(b) => Coded(lit, b)
    case Match(length, back) =>
      3 <= length <= LONGEST && Coded(lit, LengthField(length).symbol) && ProperBack(dist, back)
    case SpareMatch(back) => Coded(lit, SpareField().symbol) && ProperBack(dist, back)
  }

  predicate ProperBack(dist: seq<nat>, back: nat) {
    1 <= back <= 49152 && Coded(dist, DistField(back).symbol)
  }

  /** The form of the longest match that follows from the rule for shorter ones. */
  function SpareField(): Field { Field(284, 5, 31) }

  /** A code word, most significant bit first, and extra bits, least significant bit first. */
  function FieldBits(code: seq<nat>, f: Field): seq<bool>
    requires f.symbol < |code|
  {
    WordOf(code, f.symbol) + LowWord(f.extra, f.width)
  }

  /** The bits of a token in the order in which they are read. */
  function TokenBits(lit: seq<nat>, dist: seq<nat>, k: Token): seq<bool>
    requires Proper(lit, dist, k)
  {
    match k
    case Literal(b) => WordOf(lit, b)
    case Match(length, back) => FieldBits(lit, LengthField(length)) + FieldBits(dist, DistField(back))
    case SpareMatch(back) => FieldBits(lit, SpareField()) + FieldBits(dist, DistField(back))
  }

  predicate InHistory(out: seq<Byte>, k: Token) {
    match k
    case Literal(b) => true
    case Match(_, back) => 1 <= back <= |out|
    case SpareMatch(back) => 1 <= back <= |out|
  }

  /** What a token adds to the output; a match must not reach back before its start. */
  function Written(out: seq<Byte>, k: Token): (r: seq<Byte>)
    requires InHistory(out, k)
    ensures out <= r
  {
    match k
    case Literal(b) => out + [b]
    case Match(length, back) => Copied(out, back, length)
    case SpareMatch(back) => Copied(out, back, LONGEST)
  }

  predicate Fitting(lit: seq<nat>, dist: seq<nat>, tokens: seq<Token>, out: seq<Byte>) {
    tokens != [] ==>
      && Proper(lit, dist, tokens[0]) && InHistory(out, tokens[0])
      && Fitting(lit, dist, tokens[1..], Written(out, tokens[0]))
  }

  function Expand(lit: seq<nat>, dist: seq<nat>, tokens: seq<Token>, out: seq<Byte>): seq<Byte>
    requires Fitting(lit, dist, tokens, out)
  {
    if tokens == [] then out else Expand(lit, dist, tokens[1..], Written(out, tokens[0]))
  }

  /** The bits of a block's symbols, with the end-of-block symbol at the end. */
  function BlockBits(lit: seq<nat>, dist: seq<nat>, tokens: seq<Token>, out: seq<Byte>): seq<bool>
    requires Fitting(lit, dist, tokens, out) && Coded(lit, 256)
  {
    if tokens == [] then WordOf(lit, 256)
    else TokenBits(lit, dist, tokens[0]) + BlockBits(lit, dist, tokens[1..], Written(out, tokens[0]))
  }

  // ---------------------------------------------------------------- decoding a token

  lemma FieldOfWord(e: nat, n: nat, ahead: seq<bool>)
    requires e < Pow2(n)
    ensures LowValue((LowWord(e, n) + ahead)[..n]) == e && (LowWord(e, n) + ahead)[n..] == ahead
  {
    hide LowWord, Pow2, LowValue;
    LowValueOfWord(e, n);
    assert (LowWord(e, n) + ahead)[..n] == LowWord(e, n);
  }

  lemma LiteralRuns(c: Conf, b: Byte, ahead: seq<bool>)
    requires c.mode.Codes? && Fits(c.mode.lit) && Coded(c.mode.lit, b) && c.rest == WordOf(c.mode.lit, b) + ahead
    ensures Run(c) == Run(Conf(c.mode, c.final, ahead, c.out + [b]))
  {
    hide Step, Run, Fits, WordOf;
    CodesSymbol(c, b, WordOf(c.mode.lit, b), ahead);
    RunStep(c);
  }

  lemma EndRuns(c: Conf, ahead: seq<bool>)
    requires c.mode.Codes? && Fits(c.mode.lit) && Coded(c.mode.lit, 256) && c.rest == WordOf(c.mode.lit, 256) + ahead
    ensures Run(c) == Run(Conf(Boundary, c.final, ahead, c.out))
  {
    hide Step, Run, Fits, WordOf;
    CodesSymbol(c, 256, WordOf(c.mode.lit, 256), ahead);
    RunStep(c);
  }

  /** A length symbol with its extra bits. */
  lemma FieldRuns(c: Conf, f: Field, length: nat, ahead: seq<bool>)
    requires c.mode.Codes? && Fits(c.mode.lit) && 257 <= f.symbol <= 285 && Coded(c.mode.lit, f.symbol)
    requires f.width == LengthBits(f.symbol) && f.extra < Pow2(f.width) && LengthBase(f.symbol) + f.extra == length
    requires c.rest == FieldBits(c.mode.lit, f) + ahead
    ensures Run(c) == Run(Conf(Distance(c.mode.lit, c.mode.dist, length), c.final, ahead, c.out))
  {
    hide Step, Run, Fits, WordOf, LowWord, Pow2, LowValue, LengthBits, LengthBase;
    Associate(WordOf(c.mode.lit, f.symbol), LowWord(f.extra, f.width), ahead);
    CodesSymbol(c, f.symbol, WordOf(c.mode.lit, f.symbol), LowWord(f.extra, f.width) + ahead);
    FieldOfWord(f.extra, f.width, ahead);
    RunStep(c);
  }

  lemma LengthRuns(c: Conf, length: nat, ahead: seq<bool>)
    requires c.mode.Codes? && Fits(c.mode.lit) && 3 <= length <= LONGEST && Coded(c.mode.lit, LengthField(length).symbol)
    requires c.rest == FieldBits(c.mode.lit, LengthField(length)) + ahead
    ensures Run(c) == Run(Conf(Distance(c.mode.lit, c.mode.dist, length), c.final, ahead, c.out))
  {
    hide Step, Run, Fits, FieldBits, Pow2, LengthBits, LengthBase, LengthField;
    LengthHasSymbol(length);
    FieldRuns(c, LengthField(length), length, ahead);
  }

  lemma SpareRuns(c: Conf, ahead: seq<bool>)
    requires c.mode.Codes? && Fits(c.mode.lit) && Coded(c.mode.lit, SpareField().symbol)
    requires c.rest == FieldBits(c.mode.lit, SpareField()) + ahead
    ensures Run(c) == Run(Conf(Distance(c.mode.lit, c.mode.dist, LONGEST), c.final, ahead, c.out))
  {
    SpareIsLongest();
    hide Step, Run, Fits, FieldBits, Pow2, LengthBits, LengthBase;
    FieldRuns(c, SpareField(), LONGEST, ahead);
  }

  lemma SpareIsLongest()
    ensures LengthBits(284) == 5 && LengthBase(284) + 31 == LONGEST && 31 < Pow2(5)
  {
  }

  lemma DistanceRuns(c: Conf, back: nat, ahead: seq<bool>)
    requires c.mode.Distance? && Fits(c.mode.dist) && ProperBack(c.mode.dist, back) && back <= |c.out|
    requires c.rest == FieldBits(c.mode.dist, DistField(back)) + ahead
    ensures Run(c) == Run(Conf(Repeat(c.mode.lit, c.mode.dist, c.mode.length, back), c.final, ahead, c.out))
  {
    hide Step, Run, Fits, WordOf, LowWord, Pow2, LowValue, DistBits, DistBase, DistField;
    var g := DistField(back);
    DistHasSymbol(back);
    Associate(WordOf(c.mode.dist, g.symbol), LowWord(g.extra, g.width), ahead);
    DistanceSymbol(c, g.symbol, WordOf(c.mode.dist, g.symbol), LowWord(g.extra, g.width) + ahead);
    FieldOfWord(g.extra, g.width, ahead);
    RunStep(c);
  }

  lemma {:induction false} RepeatRuns(c: Conf, out: seq<Byte>, n: nat)
    requires c.mode.Repeat? && 1 <= c.mode.back <= |out| && c.out == Copied(out, c.mode.back, n)
    ensures Run(c) == Run(Conf(Codes(c.mode.lit, c.mode.dist), c.final, c.rest,
                               Copied(out, c.mode.back, n + c.mode.length)))
    decreases c.mode.length
  {
    hide Step, Run, Copied;
    RepeatSteps(c);
    RunStep(c);
    if c.mode.length > 0 {
      CopiedNext(out, c.mode.back, n);
      RepeatRuns(Step(c).conf, out, n + 1);
    }
  }

  /** From the length on, a match is copied. */
  lemma BackRuns(c: Conf, back: nat, ahead: seq<bool>)
    requires c.mode.Distance? && Fits(c.mode.dist) && ProperBack(c.mode.dist, back) && back <= |c.out|
    requires c.rest == FieldBits(c.mode.dist, DistField(back)) + ahead
    ensures Run(c) == Run(Conf(Codes(c.mode.lit, c.mode.dist), c.final, ahead, Copied(c.out, back, c.mode.length)))
  {
    hide Step, Run, Fits, FieldBits, DistField, Copied;
    DistanceRuns(c, back, ahead);
    CopiedNone(c.out, back);
    RepeatRuns(Conf(Repeat(c.mode.lit, c.mode.dist, c.mode.length, back), c.final, ahead, c.out), c.out, 0);
  }

  lemma TokenRuns(c: Conf, k: Token, ahead: seq<bool>)
    requires c.mode.Codes? && Fits(c.mode.lit) && Fits(c.mode.dist) && Proper(c.mode.lit, c.mode.dist, k) && InHistory(c.out, k)
    requires c.rest == TokenBits(c.mode.lit, c.mode.dist, k) + ahead
    ensures Run(c) == Run(Conf(c.mode, c.final, ahead, Written(c.out, k)))
  {
    hide Step, Run, Fits, WordOf, FieldBits, LengthField, DistField, Copied;
    var lit, dist := c.mode.lit, c.mode.dist;
    match k
    case Literal(b) => LiteralRuns(c, b, ahead);
    case Match(length, back) =>
      var far := FieldBits(dist, DistField(back)) + ahead;
      Associate(FieldBits(lit, LengthField(length)), FieldBits(dist, DistField(back)), ahead);
      LengthRuns(c, length, far);
      BackRuns(Conf(Distance(lit, dist, length), c.final, far, c.out), back, ahead);
    case SpareMatch(back) =>
      var far := FieldBits(dist, DistField(back)) + ahead;
      Associate(FieldBits(lit, SpareField()), FieldBits(dist, DistField(back)), ahead);
      SpareRuns(c, far);
      BackRuns(Conf(Distance(lit, dist, LONGEST), c.final, far, c.out), back, ahead);
  }

  /** A block's symbols decode to what they stand for, with any complete or incomplete prefix code. */
  lemma {:induction false} BlockRuns(c: Conf, tokens: seq<Token>, ahead: seq<bool>)
    requires c.mode.Codes? && Fits(c.mode.lit) && Fits(c.mode.dist) && Coded(c.mode.lit, 256)
    requires Fitting(c.mode.lit, c.mode.dist, tokens, c.out)
    requires c.rest == BlockBits(c.mode.lit, c.mode.dist, tokens, c.out) + ahead
    ensures Run(c) == Run(Conf(Boundary, c.final, ahead, Expand(c.mode.lit, c.mode.dist, tokens, c.out)))
    decreases |tokens|
  {
    hide Step, Run, Fits, WordOf, TokenBits, Written, LengthField, DistField;
    var lit, dist := c.mode.lit, c.mode.dist;
    if tokens == [] {
      EndRuns(c, ahead);
    } else {
      var k, out := tokens[0], Written(c.out, tokens[0]);
      var more := BlockBits(lit, dist, tokens[1..], out);
      Associate(TokenBits(lit, dist, k), more, ahead);
      TokenRuns(c, k, more + ahead);
      BlockRuns(Conf(c.mode, c.final, more + ahead, out), tokens[1..], ahead);
    }
  }

  /** The bytes of a stored block are copied. */
  lemma {:induction false} StoredRuns(c: Conf, bytes: seq<Byte>, ahead: seq<bool>)
    requires c.mode == Stored(|bytes|) && c.rest == LowBitsOf(bytes) + ahead
    ensures Run(c) == Run(Conf(Boundary, c.final, ahead, c.out + bytes))
    decreases |bytes|
  {
    hide Step, Run, LowWord, LowValue, Pow2;
    StoredSteps(c);
    RunStep(c);
    if bytes == [] {
      assert c.out + bytes == c.out && c.rest == ahead;
    } else {
      Associate(LowWord(bytes[0], 8), LowBitsOf(bytes[1..]), ahead);
      Pow2Eight();
      FieldOfWord(bytes[0], 8, LowBitsOf(bytes[1..]) + ahead);
      StoredRuns(Step(c).conf, bytes[1..], ahead);
      assert c.out + [bytes[0]] + bytes[1..] == c.out + bytes;
    }
  }
}
