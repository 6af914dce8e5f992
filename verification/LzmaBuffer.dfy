/** The LZMA decoder for input that comes in pieces: what is left of a piece waits in a small buffer. */
module LzmaBuffer {
  import opened Options
  import opened Bits
  import opened LowBits
  import opened History
  import opened LzmaSymbol
  import opened LzmaRange
  import opened LzmaBudget
  import opened LzmaLookAhead
  import opened LzmaDec
  import opened LzmaStream
  import opened LzmaOutput
  import opened LzmaLocal

  const REQUIRED_INPUT_MAX: nat := 20
  const NEED_INIT: nat := MATCH_SPEC_LEN_START + 2

  datatype SRes = Ok | DataError | Fail

  datatype LzmaStatus = NotSpecified | FinishedWithMark | NotFinished | NeedsMoreInput | MaybeFinishedWithoutMark

  /** The state of the decoder between calls: `z` is the state of the stream after the last symbol, whose match may not
      have been copied completely; `past` is what has been written. */
  datatype Progress = Progress(stream: seq<Byte>, z: Lz, past: seq<Byte>, k: nat, taken: nat)

  /** The state has been reached by decoding whole symbols from the start of the stream. */
  ghost predicate FromStart(p: Props, g: Progress) {
    && PropsOk(p) && Begin(p, g.stream).Some? && Symbols(p, Begin(p, g.stream).value, g.stream, g.k) == Some(g.z)
    && g.z.regs.state < 12 && g.z.rc.at <= |g.stream|
  }

  class Decoder {
    const d: LzmaDec
    const dicSize: nat
    const tempBuf: array<Byte>
    var tempBufSize: nat
    var remainLen: nat
    ghost var g: Progress

    function P(): Props {
      Props(d.lc, d.lp, d.pb, dicSize)
    }

    ghost predicate Shaped()
      reads this`tempBufSize, this`g
    {
      && tempBuf.Length == REQUIRED_INPUT_MAX && d.dic != tempBuf && tempBufSize <= REQUIRED_INPUT_MAX
      && tempBufSize <= g.taken <= |g.stream|
      && PropsOk(P()) && d.probs.Length == LITERAL + LIT_SIZE * Pow2(d.lc + d.lp)
    }

    /** The bytes in the buffer are those before the next ones of the stream. */
    ghost predicate Buffered()
      reads this`tempBufSize, this`g, tempBuf
    {
      Shaped() && tempBuf[..tempBufSize] == g.stream[g.taken - tempBufSize..g.taken]
    }

    /** The header has not been read completely. */
    ghost predicate Starting()
      reads this`tempBufSize, this`remainLen, this`g, d, d.dic
    {
      && remainLen == NEED_INIT && g.taken == tempBufSize < RC_INIT_SIZE && g.past == []
      && d.processedPos == 0 && d.checkDicSize == 0 && Ring(d.dic[..], d.dicPos, []) && Fits(P(), d.dic.Length, d.dicPos, [])
      && (g.taken > 0 ==> |g.stream| > 0 && g.stream[0] == 0)
    }

    /** The state of the stream, as seen from the buffer that was used last. */
    ghost function Here(): Lz
      reads this`g, d`at
    {
      g.z.(rc := g.z.rc.(at := d.at))
    }

    ghost predicate Standing()
      reads this`remainLen, this`g, d, d.dic, d.probs
    {
      && remainLen < MATCH_SPEC_LEN_START && FromStart(P(), g)
      && Tracks(d, P(), Here(), g.past, remainLen) && (d.checkDicSize == 0 ==> |g.past| < dicSize)
    }

    /** The bytes in the buffer do not make up a symbol before the last one of them. */
    ghost predicate Needed()
      reads this`tempBufSize, this`g
    {
      && g.taken == g.z.rc.at + tempBufSize <= |g.stream|
      && (tempBufSize > 0 ==> PropsOk(P()) && g.z.regs.state < 12 && Found(P(), g.z, g.stream[..g.taken - 1]) == None)
    }

    ghost predicate OnTheWay()
      reads this`tempBufSize, this`remainLen, this`g, d, d.dic, d.probs
    {
      Standing() && Needed()
    }

    /** The dictionary holds the end of what has been written. */
    ghost predicate Shows()
      reads this`g, d, d.dic
    {
      Ring(d.dic[..], d.dicPos, g.past)
    }

    lemma StandingShows()
      requires Standing()
      ensures Shows()
    {
      hide Sound, Pending, FromStart, Ring;
    }

    /** The end mark has been decoded. */
    ghost predicate AtMark()
      reads this`remainLen, this`g, d, d.dic
    {
      && remainLen == MATCH_SPEC_LEN_START && FromStart(P(), g) && g.past == g.z.past && Shows()
      && var a := Symbol1(P(), g.z, g.stream); a.Mark? && a.rc.code == d.code && a.rc.at == g.taken
    }

    ghost predicate Marked()
      reads this`tempBufSize, this`remainLen, this`g, d, d.dic
    {
      AtMark() && tempBufSize == 0
    }

    ghost predicate Valid()
      reads this, d, d.dic, d.probs, tempBuf
    {
      Buffered() && (Starting() || OnTheWay() || Marked())
    }

    constructor (lc: nat, lp: nat, pb: nat, dicSize: nat, dic: array<Byte>, ghost stream: seq<Byte>)
      requires PropsOk(Props(lc, lp, pb, dicSize)) && dic.Length > 0
      ensures Valid() && Starting() && g == Progress(stream, g.z, [], 0, 0)
      ensures fresh(d) && fresh(d.probs) && fresh(tempBuf) && d.dic == dic
    {
      hide Pow2, Valid, Starting;
      d := new LzmaDec(lc, lp, pb, dic);
      this.dicSize := dicSize;
      tempBuf := new Byte[REQUIRED_INPUT_MAX](_ => 0);
      tempBufSize, remainLen := 0, NEED_INIT;
      g := Progress(stream, Lz([], FirstRegs(), [], Rc(0, 0, 0)), [], 0, 0);
      new;
      Begun();
    }

    lemma Begun()
      requires PropsOk(P()) && d.dic.Length > 0 && d.dic != tempBuf && tempBuf.Length == REQUIRED_INPUT_MAX
      requires d.probs.Length == LITERAL + LIT_SIZE * Pow2(d.lc + d.lp)
      requires d.dicPos == 0 && d.processedPos == 0 && d.checkDicSize == 0
      requires tempBufSize == 0 && remainLen == NEED_INIT && g.past == [] && g.taken == 0
      ensures Valid() && Starting()
    {
      hide Pow2, OnTheWay, Marked;
      assert tempBuf[..tempBufSize] == [];
    }

    /** Lets the decoder start at the beginning of a buffer. */
    method Rewind()
      requires Standing()
      modifies d`at
      ensures Standing() && d.at == 0 && Here() == Zero(g.z)
    {
      hide Sound, Ring, FromStart, Copied;
      SoundAnywhere(P(), Here(), 0);
      d.at := 0;
    }

    /** Decodes symbols from a buffer, only one if `bufLimit` is zero. */
    method Advance(dicLimit: nat, bufLimit: nat, buf: seq<Byte>) returns (res: Ending, processed: nat)
      requires Standing() && remainLen == 0 && d.at == 0 && d.dicPos <= dicLimit <= d.dic.Length
      requires g.z.rc.at + |buf| <= |g.stream| && buf == g.stream[g.z.rc.at..g.z.rc.at + |buf|]
      requires PropsOk(P()) && g.z.regs.state < 12 && Found(P(), Zero(g.z), buf).Some?
      requires d.dicPos < dicLimit || ClassOf(Found(P(), Zero(g.z), buf).value.symbol) == DummyMatch
      requires bufLimit == 0 || bufLimit + 20 <= |buf|
      modifies d, d.dic, d.probs, this`remainLen, this`g
      ensures g.stream == old(g.stream) && g.taken == old(g.taken) && processed <= |buf| && old(g.past) <= g.past
      ensures d.dicPos == old(d.dicPos) + (|g.past| - |old(g.past)|) <= dicLimit
      ensures FromStart(P(), g) && Shows()
      ensures res == Fine ==> Standing() && g.z.rc.at == old(g.z.rc.at) + processed
      ensures res == Fine && old(d.dicPos) < dicLimit ==> |g.past| > |old(g.past)|
      ensures res == Fine && old(d.dicPos) == dicLimit ==> remainLen > 0
      ensures res != Fine ==> g.past == g.z.past
      ensures res == Marker ==> remainLen == MATCH_SPEC_LEN_START && Symbol1(P(), g.z, g.stream).Mark?
                                && Symbol1(P(), g.z, g.stream).rc == Moved(d.Place(), old(g.z.rc.at)) && d.at == processed
      ensures res == Broken ==> remainLen == ERROR_DATA && Symbol1(P(), g.z, g.stream) == Bad
      ensures bufLimit == 0 ==> processed == Found(P(), Zero(old(g.z)), buf).value.rc.at
    {
      hide Tracks, Sound, Ring, Copied, FromStart, Symbols, Symbol1, Found;
      ghost var a, z0 := g.z.rc.at, Zero(g.z);
      TrackedPast(d, P(), Here(), g.past);
      var remain; ghost var k, z, now;
      res, remain, k, z, now := DecodeReal2(d, dicLimit, bufLimit, buf, dicSize, P(), z0);
      processed := d.at;
      if res == Fine { TrackedPlace(d, P(), z, now, remain); }
      SymbolsFurther(P(), g, buf, k, now);
      Symbol1Local(P(), z, g.stream, a, buf);
      g := Progress(g.stream, MovedLz(z, a), now, g.k + k, g.taken);
      remainLen := if res == Broken then ERROR_DATA else remain;
    }

    // -------------------------------------------------------------- the header

    /** Starts the range decoder with the code in the buffer, and the model with even probabilities. */
    method StartCode() returns (res: SRes)
      requires Buffered() && remainLen == NEED_INIT && g.taken == tempBufSize == RC_INIT_SIZE && g.past == []
      requires g.stream[0] == 0 && d.processedPos == 0 && d.checkDicSize == 0
      requires Ring(d.dic[..], d.dicPos, []) && Fits(P(), d.dic.Length, d.dicPos, [])
      modifies this`tempBufSize, this`remainLen, this`g, d, d.probs
      ensures d.dicPos == old(d.dicPos) && g.stream == old(g.stream) && g.taken == old(g.taken) && g.past == []
      ensures res == Ok ==> Buffered() && remainLen == 0 && tempBufSize == 0 && OnTheWay()
      ensures res != Ok ==> res == DataError && Begin(P(), g.stream) == None
    {
      hide Pow2, Ring, Sound, Symbols, Found, Fits, FirstCode, OnTheWay, Begin;
      BeginIs(P(), g.stream);
      var a: nat, b: nat, c: nat, e: nat := tempBuf[1], tempBuf[2], tempBuf[3], tempBuf[4];
      d.code := a * 0x100_0000 + b * 0x1_0000 + c * 0x100 + e;
      HeaderCode(tempBuf[..tempBufSize], g.stream);
      if d.checkDicSize == 0 && d.processedPos == 0 && d.code >= BAD_REP_CODE {
        return DataError;
      }
      tempBufSize := 0;
      SetRegisters();
      remainLen := 0;
      g := Progress(g.stream, Begin(P(), g.stream).value, [], 0, g.taken);
      Installed();
      res := Ok;
    }

    lemma Installed()
      requires Buffered() && remainLen == 0 && tempBufSize == 0 && g.taken == RC_INIT_SIZE && Begin(P(), g.stream).Some?
      requires g == Progress(g.stream, Begin(P(), g.stream).value, [], 0, g.taken)
      requires d.Place() == g.z.rc && d.probs[..] == g.z.probs && d.Registers() == g.z.regs && d.checkDicSize == 0
      requires Ring(d.dic[..], d.dicPos, []) && Fits(P(), d.dic.Length, d.dicPos, [])
      ensures OnTheWay()
    {
      hide Pow2, Ring, Sound, Symbols, Found, Fits, FirstCode;
      BeginIsSound(P(), g.stream);
      NoSymbols(P(), g.z, g.stream);
    }

    method SetRegisters()
      modifies d`range, d`at, d`rep0, d`rep1, d`rep2, d`rep3, d`state, d.probs
      ensures d.Place() == Rc(FULL_RANGE, d.code, RC_INIT_SIZE) && d.probs[..] == FirstProbs(d.probs.Length)
      ensures d.Registers() == FirstRegs().(pos := d.processedPos)
    {
      d.range, d.at := FULL_RANGE, RC_INIT_SIZE;
      EvenProbs();
      d.rep0, d.rep1, d.rep2, d.rep3, d.state := 1, 1, 1, 1, 0;
    }

    method EvenProbs()
      modifies d.probs
      ensures d.probs[..] == FirstProbs(d.probs.Length)
    {
      for i := 0 to d.probs.Length
        invariant forall j :: 0 <= j < i ==> d.probs[j] == MODEL / 2
      {
        d.probs[i] := MODEL / 2;
      }
    }

    method CollectHeader(src: seq<Byte>) returns (used: nat)
      requires Buffered() && g.taken == tempBufSize < RC_INIT_SIZE
      requires g.taken + |src| <= |g.stream| && src == g.stream[g.taken..g.taken + |src|]
      modifies this`tempBufSize, this`g, tempBuf
      ensures Buffered() && g == old(g).(taken := old(g).taken + used) && used <= |src|
      ensures g.taken == tempBufSize <= RC_INIT_SIZE && (tempBufSize < RC_INIT_SIZE ==> used == |src|)
    {
      used := Append(tempBufSize, src, RC_INIT_SIZE, g.stream, 0);
      tempBufSize := tempBufSize + used;
      g := g.(taken := g.taken + used);
    }

    /** Puts bytes of the input behind the first `n` ones of the buffer, up to a limit. */
    method Append(n: nat, src: seq<Byte>, limit: nat, ghost stream: seq<Byte>, ghost from: nat) returns (k: nat)
      requires n <= limit <= tempBuf.Length && from + n + |src| <= |stream|
      requires tempBuf[..n] == stream[from..from + n] && src == stream[from + n..from + n + |src|]
      modifies tempBuf
      ensures k <= |src| && n + k <= limit && (n + k < limit ==> k == |src|)
      ensures tempBuf[..n + k] == stream[from..from + n + k]
    {
      k := 0;
      while k < |src| && n + k < limit
        invariant k <= |src| && n + k <= limit && tempBuf[..n + k] == stream[from..from + n + k]
      {
        NextByteOf(stream, from, n + k, src, k);
        PutByte(n + k, src[k]);
        k := k + 1;
      }
    }

    /** Puts a byte behind the first `n` ones of the buffer. */
    method PutByte(n: nat, b: Byte)
      requires n < tempBuf.Length
      modifies tempBuf
      ensures tempBuf[..n + 1] == old(tempBuf[..n]) + [b]
    {
      tempBuf[n] := b;
    }

    /** Collects the first five bytes, which contain the first code. */
    method ReadHeader(src: seq<Byte>) returns (res: SRes, used: nat)
      requires Buffered() && Starting() && g.taken + |src| <= |g.stream| && src == g.stream[g.taken..g.taken + |src|]
      modifies this`tempBufSize, this`remainLen, this`g, tempBuf, d, d.probs
      ensures used <= |src| && g.stream == old(g.stream) && g.taken == old(g.taken) + used && g.past == []
      ensures d.dicPos == old(d.dicPos)
      ensures res == Ok ==> Buffered() && if remainLen == NEED_INIT then Starting() && used == |src|
                                          else remainLen == 0 && tempBufSize == 0 && OnTheWay()
      ensures Shows()
      ensures res != Ok ==> res == DataError && |g.stream| > 0 && PropsOk(P()) && (g.stream[0] != 0 || |g.stream| >= RC_INIT_SIZE)
                            && Begin(P(), g.stream) == None
    {
      hide Pow2, Ring;
      used := CollectHeader(src);
      if tempBufSize != 0 && tempBuf[0] != 0 {
        return DataError, used;
      }
      res := Ok;
      if tempBufSize >= RC_INIT_SIZE {
        res := StartCode();
      }
    }

    // -------------------------------------------------------------- looking ahead

    /** Looks ahead in a buffer. */
    method Peek(buf: seq<Byte>) returns (dummy: Dummy, next: nat)
      requires Standing() && remainLen == 0 && d.at == 0 && PropsOk(P()) && g.z.regs.state < 12
      ensures dummy == InputEof <==> Found(P(), Zero(g.z), buf) == None
      ensures dummy != InputEof ==> dummy == ClassOf(Found(P(), Zero(g.z), buf).value.symbol)
                                    && next == Found(P(), Zero(g.z), buf).value.rc.at
    {
      hide Tracks, FromStart, WetRun;
      assert Here() == Zero(g.z);
      TrackedPast(d, P(), Here(), g.past);
      SameRun(d, P(), Here(), g.past, buf);
      dummy, next := d.TryDummy(buf);
    }

    /** What looking ahead in a buffer says about the stream. */
    lemma Ahead(buf: seq<Byte>)
      requires Standing() && PropsOk(P()) && g.z.regs.state < 12
      requires g.z.rc.at + |buf| <= |g.stream| && buf == g.stream[g.z.rc.at..g.z.rc.at + |buf|]
      ensures Found(P(), Zero(g.z), buf) == None <==> Found(P(), g.z, g.stream[..g.z.rc.at + |buf|]) == None
      ensures Found(P(), Zero(g.z), buf).Some? ==>
                Found(P(), Zero(g.z), buf).value.rc.at <= |buf| && Found(P(), Zero(g.z), buf).value.rc.at <= REQUIRED_INPUT_MAX
      ensures |buf| >= REQUIRED_INPUT_MAX ==> Found(P(), Zero(g.z), buf).Some?
    {
      hide Tracks, FromStart, WetRun, Found, Sound;
      SymbolLocal(P(), Zero(g.z), g.stream, g.z.rc.at, buf);
      assert MovedLz(Zero(g.z), g.z.rc.at) == g.z;
      SoundOf(d, P(), Here(), g.past, remainLen);
      SoundAnywhere(P(), Here(), 0);
      AtMostTwenty(P(), Zero(g.z), buf);
    }

    // -------------------------------------------------------------- one turn of the main loop

    /** What a turn leaves behind. */
    ghost predicate Left(turn: Turn, dicLimit: nat, all: bool)
      reads this, d, d.dic, d.probs, tempBuf
    {
      && FromStart(P(), g) && g.past <= g.z.past
      && match turn
         case GoOn => Buffered() && tempBufSize == 0 && (OnTheWay() || Marked())
         case Stop(Ok, NeedsMoreInput) =>
           Buffered() && OnTheWay() && remainLen == 0 && all && Found(P(), g.z, g.stream[..g.taken]) == None
         case Stop(DataError, NotFinished) => Buffered() && OnTheWay() && remainLen == 0 && d.dicPos == dicLimit
         case Stop(DataError, NotSpecified) => Symbol1(P(), g.z, g.stream) == Bad && g.past == g.z.past
         case _ => false
    }

    /** The states in which a symbol can be decoded, with `src` next in the stream after the buffer. */
    ghost predicate Going(dicLimit: nat, src: seq<Byte>, checkEnd: bool)
      reads this, d, d.dic, d.probs, tempBuf
    {
      && Buffered() && OnTheWay() && remainLen == 0 && d.dicPos <= dicLimit <= d.dic.Length && checkEnd == (d.dicPos == dicLimit)
      && g.taken + |src| <= |g.stream| && src == g.stream[g.taken..g.taken + |src|]
    }

    /** Keeps the first bytes of the input for later. */
    method Keep(src: seq<Byte>, n: nat)
      requires n <= |src| && n <= REQUIRED_INPUT_MAX && tempBuf.Length == REQUIRED_INPUT_MAX
      modifies tempBuf, this`tempBufSize
      ensures tempBufSize == n && tempBuf[..n] == src[..n]
    {
      tempBufSize := n;
      for i := 0 to n
        invariant tempBuf[..i] == src[..i]
        modifies tempBuf
      {
        tempBuf[i] := src[i];
      }
    }

    /** Counts the first `taken` bytes of the stream as taken. */
    ghost method Take(taken: nat)
      requires Standing()
      modifies this`g
      ensures Standing() && g == old(g).(taken := taken)
    {
      hide Tracks, FromStart, Found, Pow2, PropsOk;
      TakenFree(P(), g, taken);
      g := g.(taken := taken);
    }

    /** Keeps all input, which does not make up a symbol. */
    method KeepAll(src: seq<Byte>)
      requires Buffered() && OnTheWay() && remainLen == 0 && tempBufSize == 0 && |src| <= REQUIRED_INPUT_MAX
      requires g.taken + |src| <= |g.stream| && src == g.stream[g.taken..g.taken + |src|]
      requires PropsOk(P()) && g.z.regs.state < 12 && Found(P(), g.z, g.stream[..g.taken + |src|]) == None
      modifies tempBuf, this`tempBufSize, this`g
      ensures Buffered() && OnTheWay() && g == old(g).(taken := old(g).taken + |src|)
    {
      hide Standing, Found, Pow2, PropsOk;
      if src != [] { FoundLess(P(), g.z, g.stream, g.taken + |src| - 1, g.taken + |src|); }
      Keep(src, |src|);
      Take(g.taken + |src|);
      assert src[..|src|] == src;
    }

    /** Keeps exactly the bytes of a symbol. */
    method KeepSymbol(src: seq<Byte>, n: nat)
      requires Buffered() && OnTheWay() && remainLen == 0 && tempBufSize == 0 && n <= |src| && n <= REQUIRED_INPUT_MAX
      requires g.taken + |src| <= |g.stream| && src == g.stream[g.taken..g.taken + |src|]
      requires PropsOk(P()) && g.z.regs.state < 12 && Found(P(), Zero(g.z), src).Some? && n == Found(P(), Zero(g.z), src).value.rc.at
      modifies tempBuf, this`tempBufSize, this`g
      ensures Buffered() && OnTheWay() && g == old(g).(taken := old(g).taken + n)
    {
      hide Standing, Found, Pow2, Zero, PropsOk;
      if n > 0 { Shortest(P(), g.z, g.stream, src); }
      Shorten(src, n, g.stream, g.taken);
      Keep(src, n);
      Take(g.taken + n);
    }

    /** Decodes from a buffer, and compares with what looking ahead had said. */
    method Consume(dicLimit: nat, bufLimit: nat, buf: seq<Byte>, dummyProcessed: int) returns (turn: Turn, processed: nat)
      requires Standing() && remainLen == 0 && d.at == 0 && d.dicPos <= dicLimit <= d.dic.Length
      requires g.z.rc.at + |buf| <= |g.stream| && buf == g.stream[g.z.rc.at..g.z.rc.at + |buf|]
      requires PropsOk(P()) && g.z.regs.state < 12 && Found(P(), Zero(g.z), buf).Some?
      requires d.dicPos < dicLimit || ClassOf(Found(P(), Zero(g.z), buf).value.symbol) == DummyMatch
      requires bufLimit == 0 || bufLimit + 20 <= |buf|
      requires dummyProcessed < 0 || (bufLimit == 0 && dummyProcessed == Found(P(), Zero(g.z), buf).value.rc.at)
      modifies d, d.dic, d.probs, this`remainLen, this`g
      ensures g.stream == old(g.stream) && g.taken == old(g.z.rc.at) + processed && processed <= |buf| && old(g.past) <= g.past
      ensures d.dicPos == old(d.dicPos) + (|g.past| - |old(g.past)|) <= dicLimit
      ensures turn == GoOn ==> remainLen >= MATCH_SPEC_LEN_START || |g.past| > |old(g.past)|
                               || (old(d.dicPos) == dicLimit && remainLen > 0)
      ensures FromStart(P(), g) && g.past <= g.z.past && Shows()
      ensures turn == GoOn || (turn == Stop(DataError, NotSpecified) && Symbol1(P(), g.z, g.stream) == Bad && g.past == g.z.past)
      ensures turn == GoOn ==> (Standing() && g.taken == g.z.rc.at <= |g.stream|) || AtMark()
      ensures bufLimit == 0 ==> processed == Found(P(), Zero(old(g.z)), buf).value.rc.at
    {
      hide Tracks, FromStart, Found, Symbol1, Sound;
      var res;
      res, processed := Advance(dicLimit, bufLimit, buf);
      ghost var before := g;
      g := g.(taken := old(g.z.rc.at) + processed);
      TakenFree(P(), before, g.taken);
      if res == Fine { StandingPast(); }
      if (dummyProcessed < 0 && processed > |buf|) || (dummyProcessed >= 0 && dummyProcessed != processed) {
        return Stop(Fail, NotSpecified), processed;
      }
      turn := if res == Broken then Stop(DataError, NotSpecified) else GoOn;
    }

    lemma StandingPast()
      requires Standing()
      ensures g.past <= g.z.past && PropsOk(P()) && g.z.regs.state < 12 && g.z.rc.at <= |g.stream| && FromStart(P(), g)
    {
      hide Symbols, Begin;
      PendingPrefix(d, P(), Here(), g.past, remainLen);
    }

    /** Decodes from the input itself. With little input, or at the end of the output, only one symbol, and only after
        looking ahead. */
    method FromSource(dicLimit: nat, src: seq<Byte>, checkEnd: bool) returns (turn: Turn, used: nat)
      requires Going(dicLimit, src, checkEnd) && tempBufSize == 0
      modifies this`tempBufSize, this`remainLen, this`g, tempBuf, d, d.dic, d.probs
      ensures used <= |src| && g.stream == old(g.stream) && g.taken == old(g.taken) + used && old(g.past) <= g.past
      ensures d.dicPos == old(d.dicPos) + (|g.past| - |old(g.past)|) <= dicLimit && Left(turn, dicLimit, used == |src|)
      ensures turn == GoOn ==> remainLen >= MATCH_SPEC_LEN_START || |g.past| > |old(g.past)| || (checkEnd && remainLen > 0)
      ensures (turn == Stop(DataError, NotFinished) ==> checkEnd) && Shows()
    {
      hide Tracks, FromStart, Found, Symbol1, Sound, Left, Ring;
      StandingPast();
      StandingShows();
      Rewind();
      Ahead(src);
      var dummyProcessed: int, bufLimit, done := -1, 0, false;
      if |src| < REQUIRED_INPUT_MAX || checkEnd {
        done, dummyProcessed, turn, used := PeekSource(src, checkEnd, dicLimit);
      } else {
        bufLimit := |src| - REQUIRED_INPUT_MAX;
      }
      if !done {
        turn, used := Consume(dicLimit, bufLimit, src, dummyProcessed);
        ConsumedLeft(turn, dicLimit, used == |src|);
      }
    }

    /** What is left after decoding from the input. */
    lemma ConsumedLeft(turn: Turn, dicLimit: nat, all: bool)
      requires FromStart(P(), g) && g.past <= g.z.past && tempBufSize == 0
      requires turn == GoOn ==> (Standing() && g.taken == g.z.rc.at <= |g.stream|) || AtMark()
      requires turn == GoOn || (turn == Stop(DataError, NotSpecified) && Symbol1(P(), g.z, g.stream) == Bad && g.past == g.z.past)
      requires tempBuf.Length == REQUIRED_INPUT_MAX && d.dic != tempBuf && g.taken <= |g.stream|
      requires d.probs.Length == LITERAL + LIT_SIZE * Pow2(d.lc + d.lp)
      ensures Left(turn, dicLimit, all)
    {
      hide Tracks, Found, Symbol1, Sound, Pow2, Symbols, Begin;
    }

    /** Looks ahead in the input; if no symbol can be decoded, the turn is over. */
    method PeekSource(src: seq<Byte>, checkEnd: bool, ghost dicLimit: nat)
      returns (done: bool, dummyProcessed: int, turn: Turn, used: nat)
      requires Buffered() && OnTheWay() && remainLen == 0 && tempBufSize == 0 && d.at == 0
      requires g.taken + |src| <= |g.stream| && src == g.stream[g.taken..g.taken + |src|]
      requires PropsOk(P()) && g.z.regs.state < 12 && (checkEnd ==> d.dicPos == dicLimit)
      requires |src| < REQUIRED_INPUT_MAX || checkEnd
      modifies tempBuf, this`tempBufSize, this`g
      ensures done ==> used <= |src| && g == old(g).(taken := old(g).taken + used) && Left(turn, dicLimit, used == |src|)
      ensures done ==> turn.Stop? && (turn == Stop(DataError, NotFinished) ==> checkEnd)
      ensures !done ==> g == old(g) && tempBufSize == 0 && Found(P(), Zero(g.z), src).Some?
                        && dummyProcessed == Found(P(), Zero(g.z), src).value.rc.at
                        && (checkEnd ==> ClassOf(Found(P(), Zero(g.z), src).value.symbol) == DummyMatch)
    {
      hide Tracks, FromStart, Found, Symbol1, Sound, Pow2;
      Ahead(src);
      done, dummyProcessed, turn, used := true, -1, Stop(Fail, NotSpecified), 0;
      var dummy, next := Peek(src);
      if dummy == InputEof {
        if |src| >= REQUIRED_INPUT_MAX {
          return;
        }
        KeepAll(src);
        turn, used := Stop(Ok, NeedsMoreInput), |src|;
        StandingPast();
        return;
      }
      dummyProcessed := next;
      if dummyProcessed > REQUIRED_INPUT_MAX {
        return;
      }
      if checkEnd && dummy != DummyMatch {
        KeepSymbol(src, next);
        turn, used := Stop(DataError, NotFinished), next;
        StandingPast();
        return;
      }
      done := false;
    }

    /** Where the bytes at hand are in the stream. */
    lemma AtHand(src: seq<Byte>)
      requires Buffered() && Needed() && g.taken + |src| <= |g.stream| && src == g.stream[g.taken..g.taken + |src|]
      ensures g.z.rc.at + tempBufSize + |src| <= |g.stream| && tempBufSize <= tempBuf.Length == REQUIRED_INPUT_MAX
      ensures tempBuf[..tempBufSize] == g.stream[g.z.rc.at..g.z.rc.at + tempBufSize]
      ensures src == g.stream[g.z.rc.at + tempBufSize..g.z.rc.at + tempBufSize + |src|]
    {
      hide Found;
    }

    /** A symbol that does not fit into what had been kept uses all of that. */
    lemma UsesKept(buf: seq<Byte>)
      requires Shaped() && Needed() && PropsOk(P()) && g.z.regs.state < 12
      requires g.z.rc.at + |buf| <= |g.stream| && buf == g.stream[g.z.rc.at..g.z.rc.at + |buf|]
      requires Found(P(), Zero(g.z), buf).Some?
      ensures Found(P(), Zero(g.z), buf).value.rc.at >= tempBufSize
    {
      hide WetRun;
      if tempBufSize > 0 {
        NotShorter(P(), g.z, g.stream, buf, tempBufSize - 1);
      }
    }

    /** Keeps the input that went into the buffer, without a symbol being complete. */
    method Grow(rem: nat, ahead: nat)
      requires OnTheWay() && remainLen == 0 && tempBuf.Length == REQUIRED_INPUT_MAX && d.dic != tempBuf
      requires d.probs.Length == LITERAL + LIT_SIZE * Pow2(d.lc + d.lp)
      requires rem == tempBufSize + ahead <= REQUIRED_INPUT_MAX && g.taken + ahead <= |g.stream|
      requires tempBuf[..rem] == g.stream[g.z.rc.at..g.z.rc.at + rem]
      requires PropsOk(P()) && g.z.regs.state < 12 && Found(P(), g.z, g.stream[..g.z.rc.at + rem]) == None
      modifies this`tempBufSize, this`g
      ensures Buffered() && OnTheWay() && g == old(g).(taken := old(g).taken + ahead)
    {
      hide Standing, Found, Pow2, PropsOk;
      if rem > 0 { FoundLess(P(), g.z, g.stream, g.z.rc.at + rem - 1, g.z.rc.at + rem); }
      tempBufSize := rem;
      Take(g.taken + ahead);
    }

    /** Keeps exactly the bytes of a symbol. */
    method GrowSymbol(buf: seq<Byte>, n: nat)
      requires OnTheWay() && remainLen == 0 && tempBuf.Length == REQUIRED_INPUT_MAX && d.dic != tempBuf
      requires d.probs.Length == LITERAL + LIT_SIZE * Pow2(d.lc + d.lp)
      requires 0 < n <= |buf| <= REQUIRED_INPUT_MAX && tempBuf[..|buf|] == buf && g.z.rc.at + |buf| <= |g.stream|
      requires buf == g.stream[g.z.rc.at..g.z.rc.at + |buf|]
      requires PropsOk(P()) && g.z.regs.state < 12 && Found(P(), Zero(g.z), buf).Some? && n == Found(P(), Zero(g.z), buf).value.rc.at
      modifies this`tempBufSize, this`g
      ensures Buffered() && OnTheWay() && g == old(g).(taken := old(g.z.rc.at) + n)
    {
      hide Standing, Found, Pow2, Zero, PropsOk;
      Shortest(P(), g.z, g.stream, buf);
      Shorten(buf, n, g.stream, g.z.rc.at);
      assert tempBuf[..n] == buf[..n];
      tempBufSize := n;
      Take(g.z.rc.at + n);
    }

    /** Decodes one symbol, which uses all bytes that had been kept. */
    method ConsumeBuffer(dicLimit: nat, buf: seq<Byte>, dummyProcessed: int) returns (turn: Turn, used: nat)
      requires Shaped() && OnTheWay() && remainLen == 0 && d.at == 0 && d.dicPos <= dicLimit <= d.dic.Length
      requires g.z.rc.at + |buf| <= |g.stream| && buf == g.stream[g.z.rc.at..g.z.rc.at + |buf|]
      requires PropsOk(P()) && g.z.regs.state < 12 && Found(P(), Zero(g.z), buf).Some?
      requires d.dicPos < dicLimit || ClassOf(Found(P(), Zero(g.z), buf).value.symbol) == DummyMatch
      requires dummyProcessed < 0 || dummyProcessed == Found(P(), Zero(g.z), buf).value.rc.at
      requires tempBufSize <= Found(P(), Zero(g.z), buf).value.rc.at
      modifies d, d.dic, d.probs, this`tempBufSize, this`remainLen, this`g
      ensures g.stream == old(g.stream) && g.taken == old(g.taken) + used && old(tempBufSize) + used <= |buf| && old(g.past) <= g.past
      ensures d.dicPos == old(d.dicPos) + (|g.past| - |old(g.past)|) <= dicLimit && Left(turn, dicLimit, false)
      ensures turn == GoOn ==> remainLen >= MATCH_SPEC_LEN_START || |g.past| > |old(g.past)|
                               || (old(d.dicPos) == dicLimit && remainLen > 0)
      ensures (turn == GoOn || turn == Stop(DataError, NotSpecified)) && Shows()
    {
      hide Tracks, FromStart, Found, Symbol1, Sound, Pow2;
      var processed;
      turn, processed := Consume(dicLimit, 0, buf, dummyProcessed);
      used := processed - tempBufSize;
      tempBufSize := 0;
      if turn == GoOn && remainLen < MATCH_SPEC_LEN_START { StandingPast(); }
    }

    /** Puts input behind the bytes in the buffer, up to its size. */
    method FillUp(src: seq<Byte>) returns (ahead: nat)
      requires Buffered() && OnTheWay() && g.taken + |src| <= |g.stream| && src == g.stream[g.taken..g.taken + |src|]
      modifies tempBuf, d`at
      ensures Shaped() && OnTheWay() && d.at == 0 && Here() == Zero(g.z) && PropsOk(P()) && g.z.regs.state < 12
      ensures ahead <= |src| && tempBufSize + ahead <= REQUIRED_INPUT_MAX
      ensures tempBufSize + ahead < REQUIRED_INPUT_MAX ==> ahead == |src|
      ensures g.z.rc.at + tempBufSize + ahead <= |g.stream|
      ensures tempBuf[..tempBufSize + ahead] == g.stream[g.z.rc.at..g.z.rc.at + tempBufSize + ahead]
    {
      hide Tracks, FromStart, Found, Sound, Pow2, Zero;
      StandingPast();
      AtHand(src);
      ahead := Append(tempBufSize, src, REQUIRED_INPUT_MAX, g.stream, g.z.rc.at);
      Rewind();
    }

    /** Decodes one symbol from the buffer, filled up with input. */
    method FromBuffer(dicLimit: nat, src: seq<Byte>, checkEnd: bool) returns (turn: Turn, used: nat)
      requires Going(dicLimit, src, checkEnd) && tempBufSize > 0
      modifies this`tempBufSize, this`remainLen, this`g, tempBuf, d, d.dic, d.probs
      ensures used <= |src| && g.stream == old(g.stream) && g.taken == old(g.taken) + used && old(g.past) <= g.past
      ensures d.dicPos == old(d.dicPos) + (|g.past| - |old(g.past)|) <= dicLimit && Left(turn, dicLimit, used == |src|)
      ensures turn == GoOn ==> remainLen >= MATCH_SPEC_LEN_START || |g.past| > |old(g.past)| || (checkEnd && remainLen > 0)
      ensures (turn == Stop(DataError, NotFinished) ==> checkEnd) && Shows()
    {
      hide Tracks, FromStart, Found, Symbol1, Sound, Left, Pow2, PropsOk, Zero, ClassOf, Ring;
      StandingShows();
      var ahead := FillUp(src);
      var rem := tempBufSize + ahead;
      var buf := tempBuf[..rem];
      Ahead(buf);
      var dummyProcessed: int, done := -1, false;
      if rem < REQUIRED_INPUT_MAX || checkEnd {
        done, dummyProcessed, turn, used := PeekBuffer(buf, ahead, checkEnd, dicLimit, |src|);
      }
      if !done {
        UsesKept(buf);
        turn, used := ConsumeBuffer(dicLimit, buf, dummyProcessed);
        LeftAny(turn, dicLimit, used == |src|);
      }
    }

    lemma LeftAny(turn: Turn, dicLimit: nat, all: bool)
      requires Left(turn, dicLimit, false)
      ensures Left(turn, dicLimit, all)
    {
      hide Tracks, FromStart, Found, Symbol1, Sound, Buffered, OnTheWay, Marked;
    }

    /** Looks ahead in the buffer; if no symbol can be decoded, the turn is over. */
    method PeekBuffer(buf: seq<Byte>, ahead: nat, checkEnd: bool, ghost dicLimit: nat, ghost total: nat)
      returns (done: bool, dummyProcessed: int, turn: Turn, used: nat)
      requires Shaped() && OnTheWay() && remainLen == 0 && tempBufSize > 0 && d.at == 0
      requires |buf| == tempBufSize + ahead <= REQUIRED_INPUT_MAX && g.taken + ahead <= |g.stream| && tempBuf[..|buf|] == buf
      requires buf == g.stream[g.z.rc.at..g.z.rc.at + |buf|] && PropsOk(P()) && g.z.regs.state < 12
      requires (checkEnd ==> d.dicPos == dicLimit) && (|buf| < REQUIRED_INPUT_MAX ==> ahead == total)
      modifies this`tempBufSize, this`g
      ensures done ==> used <= ahead && g == old(g).(taken := old(g).taken + used) && Left(turn, dicLimit, used == total)
      ensures done ==> turn.Stop? && (turn == Stop(DataError, NotFinished) ==> checkEnd)
      ensures !done ==> g == old(g) && tempBufSize == old(tempBufSize) && Found(P(), Zero(g.z), buf).Some?
                        && dummyProcessed == Found(P(), Zero(g.z), buf).value.rc.at
                        && (checkEnd ==> ClassOf(Found(P(), Zero(g.z), buf).value.symbol) == DummyMatch)
    {
      hide Tracks, FromStart, Found, Symbol1, Sound, Pow2;
      Ahead(buf);
      done, dummyProcessed, turn, used := true, -1, Stop(Fail, NotSpecified), 0;
      var dummy, next := Peek(buf);
      if dummy == InputEof {
        if |buf| >= REQUIRED_INPUT_MAX {
          return;
        }
        Grow(|buf|, ahead);
        turn, used := Stop(Ok, NeedsMoreInput), ahead;
        StandingPast();
        return;
      }
      UsesKept(buf);
      dummyProcessed := next;
      if dummyProcessed < tempBufSize {
        return;
      }
      if checkEnd && dummy != DummyMatch {
        used := next - tempBufSize;
        GrowSymbol(buf, next);
        turn := Stop(DataError, NotFinished);
        StandingPast();
        return;
      }
      done := false;
    }

    // -------------------------------------------------------------- calls

    /** Goes on with a match that was interrupted. */
    method Flush(dicLimit: nat)
      requires Buffered() && OnTheWay() && d.dicPos <= dicLimit <= d.dic.Length
      modifies this`remainLen, this`g, d.dic, d`dicPos, d`processedPos, d`checkDicSize
      ensures Buffered() && OnTheWay() && remainLen <= old(remainLen) && g == old(g).(past := g.past) && old(g.past) <= g.past
      ensures d.dicPos == old(d.dicPos) + (|g.past| - |old(g.past)|) <= dicLimit && (remainLen > 0 ==> d.dicPos == dicLimit)
      ensures remainLen != old(remainLen) ==> d.dicPos > old(d.dicPos)
      ensures d.code == old(d.code)
    {
      hide Tracks, Found, Sound, Symbols, Begin, Pow2;
      ghost var now;
      remainLen, now := WriteRem(d, dicLimit, remainLen, dicSize, P(), Here(), g.past);
      g := g.(past := now);
    }

    /** What the stream is when it cannot be decoded any further: it has no proper start, its next symbol reaches back
        too far, or its code is not zero at the end mark. */
    ghost predicate Defective()
      reads this`g
    {
      || (|g.stream| > 0 && PropsOk(P()) && Begin(P(), g.stream) == None)
      || (FromStart(P(), g) && g.past == g.z.past &&
          (Symbol1(P(), g.z, g.stream) == Bad || (Symbol1(P(), g.z, g.stream).Mark? && Symbol1(P(), g.z, g.stream).rc.code != 0)))
    }

    /** The meaning of the results of a call. */
    ghost predicate Means(res: SRes, status: LzmaStatus, dicLimit: nat, finishEnd: bool, all: bool)
      reads this, d, d.dic, d.probs, tempBuf
    {
      match status
      case FinishedWithMark => res == Ok && Buffered() && Marked() && d.code == 0
      case MaybeFinishedWithoutMark =>
        res == Ok && Buffered() && OnTheWay() && remainLen == 0 && d.dicPos == dicLimit && d.code == 0
      case NotFinished => res == (if finishEnd then DataError else Ok) && Buffered() && OnTheWay() && d.dicPos == dicLimit
      case NeedsMoreInput =>
        res == Ok && all && Buffered() && (Starting() || (OnTheWay() && remainLen == 0
                                                          && Found(P(), g.z, g.stream[..g.taken]) == None))
      case NotSpecified => res == DataError && Defective()
    }

    function Rank(): nat
      reads this`remainLen
    {
      if remainLen >= MATCH_SPEC_LEN_START then 0 else if remainLen > 0 then 1 else 2
    }

    /** A turn of the main loop. */
    method TakeTurn(dicLimit: nat, src: seq<Byte>, finishEnd: bool) returns (turn: Turn, used: nat)
      requires Buffered() && (OnTheWay() || Marked()) && d.dicPos <= dicLimit <= d.dic.Length
      requires g.taken + |src| <= |g.stream| && src == g.stream[g.taken..g.taken + |src|]
      modifies this`tempBufSize, this`remainLen, this`g, tempBuf, d, d.dic, d.probs
      ensures used <= |src| && g.stream == old(g.stream) && g.taken == old(g.taken) + used && old(g.past) <= g.past
      ensures d.dicPos == old(d.dicPos) + (|g.past| - |old(g.past)|) <= dicLimit
      ensures turn == GoOn ==> Buffered() && (OnTheWay() || Marked())
      ensures turn == GoOn ==> d.dicPos > old(d.dicPos) || Rank() < old(Rank())
      ensures Shows() && (turn.Stop? ==> Means(turn.res, turn.status, dicLimit, finishEnd, used == |src|))
    {
      hide Tracks, Found, Sound, FromStart, Symbol1, Pow2, Begin;
      used := 0;
      if remainLen == MATCH_SPEC_LEN_START {
        return if d.code != 0 then Stop(DataError, NotSpecified) else Stop(Ok, FinishedWithMark), 0;
      }
      Flush(dicLimit);
      StandingShows();
      var checkEndMarkNow := false;
      if d.dicPos >= dicLimit {
        if remainLen == 0 && d.code == 0 {
          return Stop(Ok, MaybeFinishedWithoutMark), 0;
        }
        if !finishEnd {
          return Stop(Ok, NotFinished), 0;
        }
        if remainLen != 0 {
          return Stop(DataError, NotFinished), 0;
        }
        checkEndMarkNow := true;
      }
      turn, used := DecodeSome(dicLimit, src, checkEndMarkNow, finishEnd);
    }

    /** From the buffer if there is something in it, and else from the input. */
    method DecodeSome(dicLimit: nat, src: seq<Byte>, checkEnd: bool, ghost finishEnd: bool) returns (turn: Turn, used: nat)
      requires Going(dicLimit, src, checkEnd) && (checkEnd ==> finishEnd)
      modifies this`tempBufSize, this`remainLen, this`g, tempBuf, d, d.dic, d.probs
      ensures used <= |src| && g.stream == old(g.stream) && g.taken == old(g.taken) + used && old(g.past) <= g.past
      ensures d.dicPos == old(d.dicPos) + (|g.past| - |old(g.past)|) <= dicLimit
      ensures turn == GoOn ==> Buffered() && (OnTheWay() || Marked())
      ensures turn == GoOn ==> d.dicPos > old(d.dicPos) || Rank() < 2
      ensures Shows() && (turn.Stop? ==> Means(turn.res, turn.status, dicLimit, finishEnd, used == |src|))
    {
      hide Tracks, Found, Sound, FromStart, Symbol1, Pow2, Begin, Buffered, OnTheWay, Marked, Going, Means;
      if tempBufSize == 0 {
        turn, used := FromSource(dicLimit, src, checkEnd);
      } else {
        turn, used := FromBuffer(dicLimit, src, checkEnd);
      }
      if turn.Stop? {
        LeftMeans(turn, dicLimit, checkEnd, finishEnd, used == |src|);
      }
    }

    lemma LeftMeans(turn: Turn, dicLimit: nat, checkEnd: bool, finishEnd: bool, all: bool)
      requires Left(turn, dicLimit, all) && turn.Stop? && (turn == Stop(DataError, NotFinished) ==> checkEnd)
      requires checkEnd ==> finishEnd
      ensures Means(turn.res, turn.status, dicLimit, finishEnd, all)
    {
      hide Tracks, Found, Sound, FromStart, Symbol1, Pow2, Begin, Buffered, OnTheWay, Marked;
    }

    /** Decodes the next part of the stream into the dictionary, up to a limit. */
    method DecodeToDic(dicLimit: nat, src: seq<Byte>, finishEnd: bool) returns (res: SRes, status: LzmaStatus, used: nat)
      requires Valid() && d.dicPos <= dicLimit <= d.dic.Length
      requires g.taken + |src| <= |g.stream| && src == g.stream[g.taken..g.taken + |src|]
      modifies this`tempBufSize, this`remainLen, this`g, tempBuf, d, d.dic, d.probs
      ensures used <= |src| && g.stream == old(g.stream) && g.taken == old(g.taken) + used && old(g.past) <= g.past
      ensures d.dicPos == old(d.dicPos) + (|g.past| - |old(g.past)|) <= dicLimit
      ensures res != Fail && Means(res, status, dicLimit, finishEnd, used == |src|) && Shows()
    {
      hide Tracks, Found, Sound, FromStart, Symbol1, Pow2, Begin, Ring, Buffered, OnTheWay, Marked;
      res, used := Ok, 0;
      if remainLen > MATCH_SPEC_LEN_START {
        OnlyStarting();
        res, used := ReadHeader(src);
        if res != Ok {
          return res, NotSpecified, used;
        }
        if remainLen == NEED_INIT {
          return Ok, NeedsMoreInput, used;
        }
      } else {
        NotStarting();
        ShownBefore();
      }
      var turn := GoOn;
      while turn == GoOn
        invariant used <= |src| && g.stream == old(g.stream) && g.taken == old(g.taken) + used && old(g.past) <= g.past
        invariant d.dicPos == old(d.dicPos) + (|g.past| - |old(g.past)|) <= dicLimit
        invariant Shows() && (turn == GoOn ==> Buffered() && (OnTheWay() || Marked()))
        invariant turn.Stop? ==> Means(turn.res, turn.status, dicLimit, finishEnd, used == |src|)
        decreases turn == GoOn, dicLimit - d.dicPos, Rank()
      {
        var n;
        turn, n := TakeTurn(dicLimit, src[used..], finishEnd);
        used := used + n;
      }
      return turn.res, turn.status, used;
    }

    lemma OnlyStarting()
      requires Valid() && remainLen > MATCH_SPEC_LEN_START
      ensures Buffered() && Starting()
    {
    }

    lemma OnlyMarked()
      requires Valid() && remainLen == MATCH_SPEC_LEN_START
      ensures Buffered() && Marked()
    {
    }

    lemma OnlyOnTheWay()
      requires Valid() && remainLen < MATCH_SPEC_LEN_START
      ensures Buffered() && OnTheWay()
    {
    }

    lemma ShownBefore()
      requires OnTheWay() || Marked()
      ensures Shows()
    {
      hide Tracks, Ring, FromStart, Symbol1;
      if OnTheWay() { StandingShows(); }
    }

    lemma NotStarting()
      requires Valid() && remainLen <= MATCH_SPEC_LEN_START
      ensures Buffered() && (OnTheWay() || Marked())
    {
    }

  }

  lemma BeginIs(p: Props, stream: seq<Byte>)
    requires |stream| >= RC_INIT_SIZE && stream[0] == 0
    ensures Begin(p, stream) == if FirstCode(stream) >= BAD_REP_CODE then None
                                else Some(Lz([], FirstRegs(), FirstProbs(LITERAL + LIT_SIZE * Pow2(p.lc + p.lp)),
                                             Rc(FULL_RANGE, FirstCode(stream), RC_INIT_SIZE)))
  {
  }

  lemma HeaderCode(header: seq<Byte>, stream: seq<Byte>)
    requires |header| == RC_INIT_SIZE <= |stream| && header == stream[..RC_INIT_SIZE]
    ensures var a: nat, b: nat, c: nat, e: nat := header[1], header[2], header[3], header[4];
            FirstCode(stream) == a * 0x100_0000 + b * 0x1_0000 + c * 0x100 + e
  {
  }

  /** A turn of the main loop of the decoder. */
  datatype Turn = GoOn | Stop(res: SRes, status: LzmaStatus)

  lemma AtMostTwenty(p: Props, z: Lz, buf: seq<Byte>)
    requires Sound(p, z) && PropsOk(p) && z.regs.state < 12 && z.rc.at == 0
    ensures Found(p, z, buf).Some? ==> Found(p, z, buf).value.rc.at <= |buf| && Found(p, z, buf).value.rc.at <= REQUIRED_INPUT_MAX
    ensures |buf| >= REQUIRED_INPUT_MAX ==> Found(p, z, buf).Some?
  {
    hide WetRun, Bounded, Opening, Pow2;
    if |buf| >= REQUIRED_INPUT_MAX { EnoughInput(ContextOf(p, z), z.probs, z.rc, buf); }
    if Found(p, z, buf).Some? { WetSound(ContextOf(p, z), z.probs, z.rc, buf); }
  }

  /** How much has been taken from the stream does not matter for where a state comes from. */
  lemma TakenFree(p: Props, g: Progress, taken: nat)
    requires FromStart(p, g)
    ensures FromStart(p, g.(taken := taken))
  {
  }

  lemma FoundLess(p: Props, z: Lz, stream: seq<Byte>, m: nat, n: nat)
    requires PropsOk(p) && z.regs.state < 12 && m <= n <= |stream| && Found(p, z, stream[..n]) == None
    ensures Found(p, z, stream[..m]) == None
  {
    hide WetRun;
    assert stream[..m] <= stream[..n];
    WetMore(ContextOf(p, z), z.probs, AtIsMatch, z.rc, stream[..m], stream[..n]);
  }

  lemma NotShorter(p: Props, z: Lz, stream: seq<Byte>, buf: seq<Byte>, q: nat)
    requires PropsOk(p) && z.regs.state < 12 && z.rc.at + |buf| <= |stream| && buf == stream[z.rc.at..z.rc.at + |buf|]
    requires Found(p, Zero(z), buf).Some? && z.rc.at + q <= |stream| && Found(p, z, stream[..z.rc.at + q]) == None
    ensures Found(p, Zero(z), buf).value.rc.at > q
  {
    hide WetRun;
    SymbolLocal(p, Zero(z), stream, z.rc.at, buf);
    assert MovedLz(Zero(z), z.rc.at) == z;
    if Found(p, Zero(z), buf).value.rc.at <= q {
      WetExact(ContextOf(p, z), z.probs, AtIsMatch, z.rc, stream, z.rc.at + q);
    }
  }

  /** With one byte less, a symbol would be cut off. */
  lemma Shortest(p: Props, z: Lz, stream: seq<Byte>, buf: seq<Byte>)
    requires PropsOk(p) && z.regs.state < 12 && z.rc.at + |buf| <= |stream| && buf == stream[z.rc.at..z.rc.at + |buf|]
    requires Found(p, Zero(z), buf).Some? && 0 < Found(p, Zero(z), buf).value.rc.at <= |buf|
    ensures Found(p, z, stream[..z.rc.at + Found(p, Zero(z), buf).value.rc.at - 1]) == None
  {
    hide WetRun, DryRun;
    SymbolLocal(p, Zero(z), stream, z.rc.at, buf);
    assert MovedLz(Zero(z), z.rc.at) == z;
    var n := z.rc.at + Found(p, Zero(z), buf).value.rc.at;
    var short := stream[..n - 1];
    if Found(p, z, short).Some? {
      WetMore(ContextOf(p, z), z.probs, AtIsMatch, z.rc, short, stream);
      RunsAgree(ContextOf(p, z), z.probs, z.probs, AtIsMatch, z.rc, short);
      MoreInput(ContextOf(p, z), z.probs, AtIsMatch, z.rc, short, []);
    }
  }

  /** The next byte of the input is the next byte of the stream. */
  lemma NextByteOf(stream: seq<Byte>, from: nat, n: nat, src: seq<Byte>, i: nat)
    requires i < |src| && i <= n && from + n - i + |src| <= |stream| && src == stream[from + n - i..from + n - i + |src|]
    ensures stream[from..from + n + 1] == stream[from..from + n] + [src[i]]
  {
  }

  lemma Shorten(buf: seq<Byte>, n: nat, stream: seq<Byte>, from: nat)
    requires n <= |buf| && from + |buf| <= |stream| && buf == stream[from..from + |buf|]
    ensures buf[..n] == stream[from..from + n]
  {
  }

  function Zero(z: Lz): Lz {
    z.(rc := z.rc.(at := 0))
  }

  lemma SoundAnywhere(p: Props, z: Lz, at: nat)
    requires Sound(p, z)
    ensures Sound(p, z.(rc := z.rc.(at := at)))
  {
  }

  lemma BeginState(p: Props, stream: seq<Byte>)
    requires Begin(p, stream).Some?
    ensures Begin(p, stream).value.regs.state < 12 && Begin(p, stream).value.rc.at == RC_INIT_SIZE <= |stream|
    ensures Begin(p, stream).value.past == []
  {
  }

  lemma TrackedPast(d: LzmaDec, p: Props, z: Lz, past: seq<Byte>)
    requires Tracks(d, p, z, past, 0)
    ensures z.past == past && d.Place() == z.rc
  {
    hide Ring, Sound;
  }

  lemma TrackedPlace(d: LzmaDec, p: Props, z: Lz, past: seq<Byte>, rem: nat)
    requires Tracks(d, p, z, past, rem)
    ensures d.at == z.rc.at
  {
    hide Ring, Sound, Pending;
  }

  /** A run in a buffer continues the run in the stream. */
  lemma SymbolsFurther(p: Props, g: Progress, buf: seq<Byte>, k: nat, past: seq<Byte>)
    requires FromStart(p, g) && PropsOk(p) && g.z.regs.state < 12
    requires g.z.rc.at + |buf| <= |g.stream| && buf == g.stream[g.z.rc.at..g.z.rc.at + |buf|]
    requires Symbols(p, Zero(g.z), buf, k).Some?
    ensures var z := Symbols(p, Zero(g.z), buf, k).value; var y := MovedLz(z, g.z.rc.at);
            FromStart(p, Progress(g.stream, y, past, g.k + k, g.taken))
  {
    hide Symbol1, Symbols, Begin, Sound;
    BeginIsSound(p, g.stream);
    BeginState(p, g.stream);
    var z0 := Begin(p, g.stream).value;
    SymbolsLocal(p, Zero(g.z), g.stream, g.z.rc.at, buf, k);
    SymbolsAdd(p, z0, g.stream, g.k, k);
    RunGrows(p, z0, g.stream, g.k + k);
  }

  // ---------------------------------------------------------------- cuts do not matter

  /** Of two states of the same stream, the one after more symbols continues the other. */
  lemma Continues(p: Props, a: Progress, b: Progress)
    requires FromStart(p, a) && FromStart(p, b) && a.stream == b.stream && a.k <= b.k
    ensures a.z.past <= b.z.past
    ensures Symbol1(p, a.z, a.stream).Mark? ==> a.k == b.k
  {
    hide Symbol1, Begin, Sound;
    BeginIsSound(p, a.stream);
    BeginState(p, a.stream);
    var z0 := Begin(p, a.stream).value;
    RunGrows(p, z0, a.stream, a.k);
    SymbolsAdd(p, z0, a.stream, a.k, b.k - a.k);
    RunGrows(p, a.z, a.stream, b.k - a.k);
    if a.k < b.k {
      SymbolsAdd(p, z0, a.stream, a.k, 1);
      SymbolsShorter(p, z0, a.stream, a.k + 1, b.k);
      NextIsNoMark(p, a.z, a.stream);
    }
  }

  lemma {:induction false} SymbolsShorter(p: Props, z: Lz, data: seq<Byte>, k: nat, m: nat)
    requires PropsOk(p) && z.regs.state < 12 && k <= m && Symbols(p, z, data, m).Some?
    ensures Symbols(p, z, data, k).Some?
    decreases m
  {
    hide Symbol1;
    if k < m {
      SymbolsShorter(p, z, data, k, m - 1);
    }
  }

  lemma NextIsNoMark(p: Props, z: Lz, data: seq<Byte>)
    requires PropsOk(p) && z.regs.state < 12 && Symbols(p, z, data, 1).Some?
    ensures Symbol1(p, z, data).Next?
  {
    hide Symbol1;
    assert Symbols(p, z, data, 0) == Some(z);
  }

  lemma Comparable(a: seq<Byte>, b: seq<Byte>, c: seq<Byte>)
    requires a <= c && b <= c
    ensures a <= b || b <= a
  {
    if |a| <= |b| { assert a == c[..|a|] == b[..|a|]; } else { assert b == c[..|b|] == a[..|b|]; }
  }

  lemma ValidPast(a: Decoder)
    requires a.Valid()
    ensures a.g.past == [] || (FromStart(a.P(), a.g) && a.g.past <= a.g.z.past)
    ensures a.Marked() ==> FromStart(a.P(), a.g) && a.g.past == a.g.z.past && Symbol1(a.P(), a.g.z, a.g.stream).Mark?
  {
    hide Tracks, Symbol1, Sound, Begin, Symbols;
    if a.OnTheWay() { a.StandingPast(); }
  }

  /** However one stream is cut into pieces of input and output for two decoders, the output of one of them continues
      that of the other; and nothing comes after the end mark. */
  lemma CutsDoNotMatter(a: Decoder, b: Decoder)
    requires a.Valid() && b.Valid() && a.P() == b.P() && a.g.stream == b.g.stream
    ensures a.g.past <= b.g.past || b.g.past <= a.g.past
    ensures a.Marked() ==> b.g.past <= a.g.past
  {
    hide Symbol1, FromStart;
    ValidPast(a);
    ValidPast(b);
    if FromStart(a.P(), a.g) && FromStart(b.P(), b.g) && a.g.past <= a.g.z.past && b.g.past <= b.g.z.past {
      if a.g.k <= b.g.k {
        Continues(a.P(), a.g, b.g);
        Comparable(a.g.past, b.g.past, b.g.z.past);
        if a.Marked() { Continues(a.P(), b.g, a.g); }
      } else {
        Continues(a.P(), b.g, a.g);
        Comparable(a.g.past, b.g.past, a.g.z.past);
      }
    }
  }
}
