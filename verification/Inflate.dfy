/** The resumable Deflate decoder: called with any pieces of input and output it decodes the whole stream. */
module Inflate {
  import opened Bits
  import opened LowBits
  import opened CanonicalCode
  import opened InflateTree
  import opened InflateCapacity
  import opened InflateSetup
  import opened DeflateCode
  import opened Deflate
  import opened DeflateSteps
  import opened InflateInput
  import opened InflateWindow
  import opened InflateLookup

  datatype Stage =
    | NextBlock | CopyInit | CopyData | StaticInit | DynamicInit | Pretree | Trees
    | Code | CodeValue | DistanceCode | DistanceValue | RepeatCopy

  /** Whether decoding goes on, or the call returns. */
  datatype Progress = Continue | Return(status: Status)

  const CLENS: nat := 320

  ghost predicate Holds(tree: Tree, lens: seq<nat>)
    reads tree
  {
    TreeFor(tree.nodes, tree.pairs, tree.codes, lens)
  }

  /** Every match that starts with some distance symbol now can be read from `available` bits. */
  ghost predicate Affordable(dist: seq<nat>, available: nat)
    requires |dist| <= 32
  {
    forall t: nat :: Coded(dist, t) ==> dist[t] + DistBits(t) <= available
  }

  lemma BudgetLeaves(lit: seq<nat>, dist: seq<nat>, s: nat, available: nat)
    requires |dist| <= 32 && Budget(lit, dist) && Coded(lit, s) && 257 <= s <= 285
    requires available + lit[s] >= 48
    ensures available >= 28 + LengthBits(s) && Affordable(dist, available - LengthBits(s))
  {
  }

  class Inflate {
    var step: Stage
    var value: int
    var length: nat
    var dist: nat
    var treeIdx: nat
    var hlit: nat
    var hdist: nat
    var hclen: nat
    var idx: nat
    const clens: array<nat>
    var isFinalBlock: bool
    const treeLengths: Tree
    const treeDists: Tree
    const reader: Reader
    const out: Output
    ghost var conf: Conf        // where the whole-stream decoder stands
    ghost var held: seq<bool>   // bits that were read, but do not yet make up a step of that decoder

    /** Both trees are ready for the symbols of a block. */
    ghost predicate Ready(lit: seq<nat>, dist: seq<nat>)
      reads treeLengths, treeDists
    {
      && Holds(treeLengths, lit) && Holds(treeDists, dist)
      && |lit| <= 288 && |dist| <= 32 && Budget(lit, dist)
    }

    ghost predicate Idle()
      reads this`held, this`treeIdx
    {
      held == [] && treeIdx == 0
    }

    ghost predicate PretreeOk()
      reads this`conf, this`hlit, this`hdist, this`hclen, this`idx, this`held, this`treeIdx, clens
      requires clens.Length == CLENS
    {
      && Idle() && conf.mode.CodeLengths? && conf.mode == CodeLengths(hlit, hdist, hclen, conf.mode.pre)
      && |conf.mode.pre| == idx <= hclen <= 19 && 257 <= hlit <= 288 && 1 <= hdist <= 32
      && clens[..19] == Scatter(conf.mode.pre) && forall i :: 0 <= i < CLENS ==> clens[i] < 8
    }

    /** The lengths read so far. */
    ghost predicate LengthsOk()
      reads this`conf, this`hlit, this`hdist, this`idx, clens
      requires clens.Length == CLENS
    {
      && conf.mode.Lengths? && conf.mode == Lengths(hlit, hdist, conf.mode.code, conf.mode.got)
      && |conf.mode.got| == idx <= hlit + hdist && 257 <= hlit <= 288 && 1 <= hdist <= 32 && |conf.mode.code| == 19
      && clens[..idx] == conf.mode.got && forall i :: 0 <= i < CLENS ==> clens[i] < MAX_BITS
    }

    ghost predicate TreesOk()
      reads this`conf, this`hlit, this`hdist, this`idx, this`value, this`held, this`treeIdx, clens, treeLengths
      requires clens.Length == CLENS
    {
      && LengthsOk() && idx < hlit + hdist
      && Holds(treeLengths, conf.mode.code) && SymbolOk(treeLengths, conf.mode.code)
    }

    /** A symbol is being read, or has been read. */
    ghost predicate SymbolOk(tree: Tree, lens: seq<nat>)
      reads this`value, this`held, this`treeIdx, tree
    {
      if value == -1 then InTree(tree.pairs, held, treeIdx)
      else value >= 0 && Coded(lens, value) && held == WordOf(lens, value) && treeIdx == 0
    }

    ghost predicate CodeOk()
      reads this`conf, this`value, this`held, this`treeIdx, treeLengths, treeDists
    {
      conf.mode.Codes? && Ready(conf.mode.lit, conf.mode.dist) && SymbolOk(treeLengths, conf.mode.lit)
    }

    ghost predicate DistanceOk()
      reads this`conf, this`value, this`held, this`treeIdx, this`length, treeLengths, treeDists
    {
      && conf.mode.Distance? && conf.mode.length == length && Ready(conf.mode.lit, conf.mode.dist)
      && SymbolOk(treeDists, conf.mode.dist)
    }

    ghost predicate RepeatOk()
      reads this`conf, this`held, this`treeIdx, this`length, this`dist, treeLengths, treeDists
    {
      && Idle() && conf.mode.Repeat? && Ready(conf.mode.lit, conf.mode.dist)
      && conf.mode.length == length && conf.mode.back == dist && 1 <= dist <= |conf.out| && dist <= WINDOW
    }

    /** What the current stage knows about the whole-stream decoder. */
    ghost predicate StageOk()
      reads this, clens, treeLengths, treeDists
      requires clens.Length == CLENS
    {
      match step
      case NextBlock => Idle() && conf.mode == Boundary
      case CopyInit => Idle() && conf.mode == StoredHeader
      case CopyData => Idle() && conf.mode == Stored(length)
      case StaticInit => Idle() && conf.mode == StaticHeader
      case DynamicInit => Idle() && conf.mode == DynamicHeader
      case Pretree => PretreeOk()
      case Trees => TreesOk()
      case Code => CodeOk() && value == -1
      case CodeValue => CodeOk() && value >= 0
      case DistanceCode => DistanceOk() && value == -1
      case DistanceValue => DistanceOk() && value >= 0
      case RepeatCopy => RepeatOk()
    }

    /** The parts agree with the whole-stream decoder about the stream and the output, which is a stream for which the
        decoder's fast path is made. */
    ghost predicate Valid()
      reads this, reader, out, out.window, clens, treeLengths, treeDists
    {
      && InStream() && out.Valid() && conf.out == out.history
      && treeLengths != treeDists && clens.Length == CLENS && Run(conf).end != Outside
      && StageOk()
    }

    /** Without `notFast`, the bits for a whole match are available. */
    ghost predicate FastOk(notFast: bool)
      reads this, reader
    {
      notFast ||
      match step
      case Code => reader.available + |held| >= 48
      case CodeValue => reader.available + |held| >= 48
      case DistanceCode =>
        && conf.mode.Distance? && |conf.mode.dist| <= 32
        && reader.available + |held| >= 28 && Affordable(conf.mode.dist, reader.available + |held|)
      case DistanceValue =>
        conf.mode.Distance? && |conf.mode.dist| <= 32 && Affordable(conf.mode.dist, reader.available + |held|)
      case _ => true
    }

    /** Why a call returned early: the output buffer is full, or all input is used up and no step is possible. */
    ghost predicate Blocked()
      reads this`conf, reader, out
    {
      Waiting() || (out.room == 0 && Emits(conf))
    }

    /** What a stage achieves. */
    ghost predicate After(res: Progress, notFast: bool)
      reads this, reader, out, out.window, clens, treeLengths, treeDists
    {
      match res
      case Continue => Valid() && FastOk(notFast)
      case Return(NotDone) => Valid() && Blocked()
      case Return(Error) => Step(conf) == Halt(Corrupt) && out.Valid() && conf.out == out.history
      case Return(Eos) => Valid() && Step(conf) == Halt(Finished)
    }

    /** Within a symbol the whole-stream decoder does not move, but the stage does. */
    function StageRank(): nat
      reads this`step
    {
      if step == Code || step == DistanceCode then 1 else 0
    }

    constructor (ghost stream: seq<Byte>)
      ensures Aligned() && step == NextBlock && conf == Conf(Boundary, false, LowBitsOf(stream), [])
      ensures out.Valid() && out.history == [] && treeLengths != treeDists && clens.Length == CLENS
      ensures fresh(clens) && fresh(treeLengths) && fresh(treeDists) && fresh(reader) && fresh(out) && fresh(out.window)
      ensures reader.unread == stream
    {
      hide LowBitsOf, LowWord, TreeFor, Reader.Valid, Output.Valid, Tree.Valid, Pow2;
      step, value, length, dist, treeIdx := NextBlock, 0, 0, 0, 0;
      hlit, hdist, hclen, idx, isFinalBlock := 0, 0, 0, 0, false;
      clens := new nat[CLENS](_ => 0);
      treeLengths := new Tree();
      treeDists := new Tree();
      reader := new Reader(stream);
      out := new Output();
      conf, held := Conf(Boundary, false, LowBitsOf(stream), []), [];
    }

    /** All input is used up, and without more of it no step is possible. */
    ghost predicate Waiting()
      reads this`conf, reader
    {
      reader.at == |reader.data| && (reader.later == [] ==> Stuck(conf))
    }

    // -------------------------------------------------------------- block headers

    /** The bits ahead are what is left of the stream, and its output is known. */
    ghost predicate Aligned()
      reads this`held, this`treeIdx, this`conf, this`isFinalBlock, reader
    {
      reader.Valid() && Idle() && conf.rest == reader.ahead && conf.final == isFinalBlock
    }

    method ReadBlockHeader() returns (res: Progress)
      requires Aligned() && conf.mode == Boundary
      modifies this`step, this`isFinalBlock, this`conf
      modifies reader`bits, reader`available, reader`at, reader`unread, reader`ahead
      ensures res == Continue ==>
                && Aligned() && Step(old(conf)) == Go(conf) && conf.out == old(conf.out)
                && (step == CopyInit || step == StaticInit || step == DynamicInit)
                && conf.mode == (if step == CopyInit then StoredHeader else if step == StaticInit then StaticHeader else DynamicHeader)
      ensures res != Continue ==> conf == old(conf)
      ensures res == Return(NotDone) ==> Aligned() && step == old(step) && Waiting()
      ensures res == Return(Error) ==> Step(conf) == Halt(Corrupt)
      ensures res == Return(Eos) ==> Aligned() && step == old(step) && Step(conf) == Halt(Finished)
    {
      hide Step, LowValue, LowWord, Pow2, LowBitsOf, Reader.Valid;
      BoundarySteps(conf);
      if isFinalBlock {
        return Return(Eos);
      }
      var ok := reader.Ensure(3);
      reader.NothingElse();
      if !ok {
        return Return(NotDone);
      }
      var final := reader.Take(1);
      var kind := reader.Take(2);
      isFinalBlock := final != 0;
      if kind == 0 {
        step := CopyInit;
      } else if kind == 1 {
        step := StaticInit;
      } else if kind == 2 {
        step := DynamicInit;
      } else {
        return Return(Error);
      }
      conf := Step(conf).conf;
      return Continue;
    }

    /** The length of a stored block and its complement. */
    method ReadStoredHeader() returns (res: Progress)
      requires Aligned() && conf.mode == StoredHeader
      modifies this`step, this`length, this`conf
      modifies reader`bits, reader`available, reader`at, reader`unread, reader`ahead
      ensures res == Continue ==>
                && Aligned() && Step(old(conf)) == Go(conf) && conf.out == old(conf.out)
                && step == CopyData && conf.mode == Stored(length)
      ensures res != Continue ==> conf == old(conf) && res != Return(Eos)
      ensures res == Return(NotDone) ==> Aligned() && step == old(step) && Waiting()
      ensures res == Return(Error) ==> Step(conf) == Halt(Corrupt)
    {
      hide Step, LowValue, LowWord, Pow2, LowBitsOf, Reader.Valid;
      StoredHeaderSteps(conf);
      var ok := reader.Ensure(32);
      reader.NothingElse();
      if !ok {
        return Return(NotDone);
      }
      var skipped := reader.Take(reader.available % 8);
      length := reader.Take(16);
      var complement := reader.Take(16);
      if length + complement != 0xFFFF {
        return Return(Error);
      }
      step := CopyData;
      conf := Step(conf).conf;
      return Continue;
    }

    /** Copies the bytes of a stored block. */
    method CopyStored() returns (res: Progress)
      requires Aligned() && out.Valid() && conf.out == out.history && conf.mode == Stored(length)
      modifies this`step, this`length, this`conf
      modifies reader`bits, reader`available, reader`at, reader`unread, reader`ahead
      modifies out`produced, out`room, out`offset, out`history, out.window
      ensures Aligned() && out.Valid() && conf.out == out.history
      ensures res == Continue ==> Reaches(old(conf), conf) && step == NextBlock && conf.mode == Boundary
      ensures res != Continue ==> res == Return(NotDone) && step == old(step) && conf.mode == Stored(length)
      ensures res == Return(NotDone) ==>
                (conf == old(conf) || Reaches(old(conf), conf)) && (Waiting() || (out.room == 0 && Emits(conf)))
    {
      hide Step, LowValue, LowWord, Pow2, LowBitsOf, Reader.Valid, Output.Valid, Reaches;
      while length > 0
        invariant Aligned() && out.Valid() && conf.out == out.history && conf.mode == Stored(length)
        invariant step == old(step) && (conf == old(conf) || Reaches(old(conf), conf))
        decreases length
      {
        StoredSteps(conf);
        var ok := reader.Ensure(8);
        reader.NothingElse();
        if !ok || out.room == 0 {
          return Return(NotDone);
        }
        var b := reader.Take(8);
        out.Put(b);
        length := length - 1;
        Advance();
      }
      StoredSteps(conf);
      Advance();
      step := NextBlock;
      return Continue;
    }

    /** The whole-stream decoder takes a step. */
    ghost method Advance()
      requires Step(conf).Go?
      modifies this`conf
      ensures Step(old(conf)) == Go(conf) && Reaches(old(conf), conf)
      ensures forall c :: (c == old(conf) || Reaches(c, old(conf))) ==> Reaches(c, conf)
    {
      StepReaches(conf);
      ghost var b := conf;
      conf := Step(conf).conf;
      forall c | c == b || Reaches(c, b) ensures Reaches(c, conf) {
      }
    }

    // -------------------------------------------------------------- symbols

    /** The bits that were read and those ahead are what is left of the stream. */
    ghost predicate InStream()
      reads this`held, this`conf, this`isFinalBlock, reader
    {
      reader.Valid() && conf.rest == held + reader.ahead && conf.final == isFinalBlock
    }

    /** The code word of a symbol has been read; it is still part of what is left. */
    ghost predicate SymbolRead(lens: seq<nat>)
      reads this`value, this`held, this`treeIdx
    {
      value >= 0 && Coded(lens, value) && held == WordOf(lens, value) && treeIdx == 0
    }

    /** Prefetches the bits of a whole match, if the input has them, and starts a symbol. */
    method BeginSymbol() returns (notFast: bool)
      requires Aligned()
      modifies this`step, this`value
      modifies reader`bits, reader`available, reader`at, reader`unread
      ensures Aligned() && step == Code && value == -1 && (notFast || reader.available >= 48)
    {
      hide LowWord, Pow2, LowBitsOf, Reader.Valid;
      var ok := reader.Ensure(48);
      notFast := !ok;
      value := -1;
      step := Code;
    }

    /** Reads a symbol of the code with the lengths `lens`, from the position that an earlier call may have left. */
    method ReadSymbol(tree: Tree, ghost lens: seq<nat>, notFast: bool) returns (res: Status)
      requires InStream() && Holds(tree, lens) && value == -1 && InTree(tree.pairs, held, treeIdx)
      requires notFast || reader.available + |held| >= MAX_LENGTH
      modifies this`value, this`treeIdx, this`held
      modifies reader`bits, reader`available, reader`at, reader`unread, reader`ahead
      ensures InStream()
      ensures res == Eos ==> SymbolRead(lens)
      ensures !notFast ==> res != NotDone && (res == Eos ==> reader.available + |held| == old(reader.available + |held|))
      ensures res == NotDone ==> value == -1 && InTree(tree.pairs, held, treeIdx) && reader.at == |reader.data|
      ensures res == NotDone && reader.later == [] ==> !Read(lens, conf.rest).Symbol?
      ensures res == Error ==> Read(lens, conf.rest) == Invalid
    {
      hide LowWord, Pow2, LowBitsOf, Reader.Valid, TreeFor, NoSymbol, WordOf, Hopeless, Coded, InTree, Read;
      res, value, treeIdx, held := GetValue(reader, tree, lens, notFast, treeIdx, held);
      if res == NotDone {
        reader.NothingElse();
        NoSymbolToRead(lens, held + LowWord(reader.bits, reader.available));
      } else if res == Error {
        ReadNothing(lens, conf.rest);
      }
    }

    /** Reads a literal or length symbol. */
    method ReadCode(notFast: bool) returns (res: Progress)
      requires InStream() && conf.mode.Codes? && Holds(treeLengths, conf.mode.lit)
      requires value == -1 && InTree(treeLengths.pairs, held, treeIdx)
      requires notFast || reader.available + |held| >= 48
      modifies this`step, this`value, this`treeIdx, this`held
      modifies reader`bits, reader`available, reader`at, reader`unread, reader`ahead
      ensures InStream()
      ensures res == Continue ==> step == CodeValue && SymbolRead(conf.mode.lit) && (notFast || reader.available + |held| >= 48)
      ensures res != Continue ==> res != Return(Eos)
      ensures res == Return(NotDone) ==> step == Code && value == -1 && InTree(treeLengths.pairs, held, treeIdx) && Waiting()
      ensures res == Return(Error) ==> Step(conf) == Halt(Corrupt)
    {
      hide Step, Holds, Read, InTree, SymbolRead, InStream;
      var got := ReadSymbol(treeLengths, conf.mode.lit, notFast);
      if got != Eos {
        step := Code;
        ghost var read := Read(conf.mode.lit, conf.rest);
        if !read.Symbol? {
          CodesUnread(conf);
        }
        return Return(got);
      }
      step := CodeValue;
      return Continue;
    }

    /** Reads a distance symbol. */
    method ReadDistanceCode(notFast: bool) returns (res: Progress)
      requires InStream() && conf.mode.Distance? && Holds(treeDists, conf.mode.dist)
      requires value == -1 && InTree(treeDists.pairs, held, treeIdx)
      requires notFast || reader.available + |held| >= 28
      modifies this`step, this`value, this`treeIdx, this`held
      modifies reader`bits, reader`available, reader`at, reader`unread, reader`ahead
      ensures InStream()
      ensures res == Continue ==>
                && step == DistanceValue && SymbolRead(conf.mode.dist)
                && (notFast || reader.available + |held| == old(reader.available + |held|))
      ensures res != Continue ==> res != Return(Eos)
      ensures res == Return(NotDone) ==>
                step == DistanceCode && value == -1 && InTree(treeDists.pairs, held, treeIdx) && Waiting()
      ensures res == Return(Error) ==> Step(conf) == Halt(Corrupt)
    {
      hide Step, Holds, Read, InTree, SymbolRead, InStream;
      var got := ReadSymbol(treeDists, conf.mode.dist, notFast);
      if got != Eos {
        step := DistanceCode;
        ghost var read := Read(conf.mode.dist, conf.rest);
        if !read.Symbol? {
          DistanceUnread(conf);
        }
        return Return(got);
      }
      step := DistanceValue;
      return Continue;
    }

    lemma AfterSymbol()
      ensures (held + reader.ahead)[|held|..] == reader.ahead && [] + reader.ahead == reader.ahead
    {
    }

    /** Writes a literal, and goes on to the next symbol. */
    method EmitLiteral() returns (res: Progress, notFast: bool)
      requires InStream() && out.Valid() && conf.out == out.history
      requires conf.mode.Codes? && Fits(conf.mode.lit) && SymbolRead(conf.mode.lit) && value < 256
      modifies this`step, this`value, this`held, this`conf
      modifies reader`bits, reader`available, reader`at, reader`unread
      modifies out`produced, out`room, out`offset, out`history, out.window
      ensures out.Valid() && conf.out == out.history && conf.mode == old(conf.mode)
      ensures res == Continue ==>
                && Aligned() && Reaches(old(conf), conf) && step == Code && value == -1
                && (notFast || reader.available >= 48)
      ensures res != Continue ==>
                && res == Return(NotDone) && step == CodeValue && InStream() && SymbolRead(conf.mode.lit)
                && conf == old(conf) && out.room == 0 && Emits(conf)
    {
      hide Step, Reaches, Reader.Valid, Output.Valid, WordOf, Fits, Coded;
      CodesSymbol(conf, value, held, reader.ahead);
      if out.room == 0 {
        step := CodeValue;
        return Return(NotDone), true;
      }
      out.Put(value as Byte);
      AfterSymbol();
      held := [];
      Advance();
      notFast := BeginSymbol();
      return Continue, notFast;
    }

    method EndBlock()
      requires InStream() && conf.mode.Codes? && Fits(conf.mode.lit) && SymbolRead(conf.mode.lit) && value == 256
      modifies this`step, this`held, this`conf
      ensures Aligned() && Reaches(old(conf), conf) && conf.out == old(conf.out)
      ensures step == NextBlock && conf.mode == Boundary
    {
      hide Step, Reaches, Reader.Valid, WordOf, Fits, Coded;
      CodesSymbol(conf, value, held, reader.ahead);
      AfterSymbol();
      held := [];
      step := NextBlock;
      Advance();
    }

    /** Reads the extra bits of a length symbol. */
    method StartMatch(notFast: bool) returns (res: Progress)
      requires InStream() && conf.mode.Codes? && Fits(conf.mode.lit) && SymbolRead(conf.mode.lit) && value > 256
      requires |conf.mode.dist| <= 32 && Budget(conf.mode.lit, conf.mode.dist)
      requires notFast || reader.available + |held| >= 48
      modifies this`step, this`value, this`held, this`conf, this`length
      modifies reader`bits, reader`available, reader`at, reader`unread, reader`ahead
      ensures res == Continue ==>
                && Aligned() && Reaches(old(conf), conf) && step == DistanceCode && value == -1 && conf.out == old(conf.out)
                && conf.mode == Distance(old(conf.mode.lit), old(conf.mode.dist), length)
                && (notFast || (reader.available >= 28 && Affordable(conf.mode.dist, reader.available)))
      ensures res != Continue ==> res != Return(Eos) && conf == old(conf) && held == old(held) && value == old(value)
      ensures res == Return(NotDone) ==> step == CodeValue && InStream() && SymbolRead(conf.mode.lit) && Waiting()
      ensures res == Return(Error) ==> Step(conf) == Halt(Corrupt)
    {
      hide Step, Reaches, Reader.Valid, WordOf, Fits, Coded, Budget, Affordable, LowValue, LowWord, Pow2, LowBitsOf;
      CodesSymbol(conf, value, held, reader.ahead);
      if value > 285 {
        return Return(Error);
      }
      if notFast {
        var ok := reader.Ensure(LengthBits(value));
        if !ok {
          reader.NothingElse();
          step := CodeValue;
          return Return(NotDone);
        }
      } else {
        BudgetLeaves(conf.mode.lit, conf.mode.dist, value, reader.available);
      }
      SetLength();
      return Continue;
    }

    /** The extra bits of the length symbol are at hand. */
    method SetLength()
      requires InStream() && conf.mode.Codes? && Fits(conf.mode.lit) && SymbolRead(conf.mode.lit) && 256 < value <= 285
      requires reader.available >= LengthBits(value)
      modifies this`step, this`value, this`held, this`conf, this`length
      modifies reader`bits, reader`available, reader`at, reader`unread, reader`ahead
      ensures Aligned() && Reaches(old(conf), conf) && step == DistanceCode && value == -1 && conf.out == old(conf.out)
      ensures conf.mode == Distance(old(conf.mode.lit), old(conf.mode.dist), length)
      ensures reader.available == old(reader.available) - LengthBits(old(value))
    {
      hide Step, Reaches, Reader.Valid, WordOf, Fits, Coded, LowValue, LowWord, Pow2, LowBitsOf;
      CodesSymbol(conf, value, held, reader.ahead);
      var extra := reader.Take(LengthBits(value));
      length := LengthBase(value) + extra;
      value := -1;
      held := [];
      Advance();
      step := DistanceCode;
    }

    /** Reads the extra bits of a distance symbol, and checks that the distance lies within the output. */
    method StartCopy(notFast: bool) returns (res: Progress)
      requires InStream() && conf.out == out.history && out.Valid()
      requires conf.mode.Distance? && conf.mode.length == length
      requires Fits(conf.mode.dist) && |conf.mode.dist| <= 32 && SymbolRead(conf.mode.dist)
      requires notFast || Affordable(conf.mode.dist, reader.available + |held|)
      modifies this`step, this`dist, this`held, this`conf
      modifies reader`bits, reader`available, reader`at, reader`unread, reader`ahead
      ensures res == Continue ==>
                && Aligned() && Reaches(old(conf), conf) && step == RepeatCopy && conf.out == old(conf.out)
                && conf.mode == Repeat(old(conf.mode.lit), old(conf.mode.dist), length, dist)
                && 1 <= dist <= |conf.out| && dist <= WINDOW
      ensures res != Continue ==> res != Return(Eos) && conf == old(conf) && held == old(held)
      ensures res == Return(NotDone) ==> step == DistanceValue && InStream() && SymbolRead(conf.mode.dist) && Waiting()
      ensures res == Return(Error) ==> Step(conf) == Halt(Corrupt)
    {
      hide Step, Reaches, Reader.Valid, WordOf, Fits, LowValue, LowWord, Pow2, LowBitsOf;
      DistanceSymbol(conf, value, held, reader.ahead);
      if notFast {
        var ok := reader.Ensure(DistBits(value));
        if !ok {
          reader.NothingElse();
          step := DistanceValue;
          return Return(NotDone);
        }
      }
      res := SetDistance();
    }

    /** The extra bits of the distance symbol are at hand. */
    method SetDistance() returns (res: Progress)
      requires InStream() && conf.out == out.history && out.Valid()
      requires conf.mode.Distance? && conf.mode.length == length && value >= 0
      requires Fits(conf.mode.dist) && |conf.mode.dist| <= 32 && SymbolRead(conf.mode.dist)
      requires reader.available >= DistBits(value)
      modifies this`step, this`dist, this`held, this`conf
      modifies reader`bits, reader`available, reader`at, reader`unread, reader`ahead
      ensures res == Continue ==>
                && Aligned() && Reaches(old(conf), conf) && step == RepeatCopy && conf.out == old(conf.out)
                && conf.mode == Repeat(old(conf.mode.lit), old(conf.mode.dist), length, dist)
                && 1 <= dist <= |conf.out| && dist <= WINDOW
      ensures res != Continue ==> res == Return(Error) && conf == old(conf) && held == old(held) && Step(conf) == Halt(Corrupt)
    {
      hide Step, Reaches, Reader.Valid, WordOf, Fits, LowValue, LowWord, Pow2, LowBitsOf;
      DistanceSymbol(conf, value, held, reader.ahead);
      ghost var ahead := reader.ahead;
      var extra := reader.Take(DistBits(value));
      BackBound(value, ahead[..DistBits(value)]);
      dist := DistBase(value) + extra;
      if dist > out.offset || value > 30 {
        return Return(Error);
      }
      held := [];
      Advance();
      step := RepeatCopy;
      return Continue;
    }

    /** Copies a match byte by byte from the window, which the copy itself extends. */
    method CopyMatch() returns (res: Progress, notFast: bool)
      requires Aligned() && out.Valid() && conf.out == out.history
      requires conf.mode.Repeat? && conf.mode.length == length && conf.mode.back == dist
      requires 1 <= dist <= |conf.out| && dist <= WINDOW
      modifies this`step, this`value, this`length, this`conf
      modifies reader`bits, reader`available, reader`at, reader`unread
      modifies out`produced, out`room, out`offset, out`history, out.window
      ensures Aligned() && out.Valid() && conf.out == out.history
      ensures res == Continue ==>
                && Reaches(old(conf), conf) && conf.mode == Codes(old(conf.mode.lit), old(conf.mode.dist))
                && step == Code && value == -1 && (notFast || reader.available >= 48)
      ensures res != Continue ==>
                && res == Return(NotDone) && step == old(step) && (conf == old(conf) || Reaches(old(conf), conf))
                && conf.mode == Repeat(old(conf.mode.lit), old(conf.mode.dist), length, dist)
                && dist <= |conf.out| && out.room == 0 && Emits(conf)
    {
      hide Step, Reaches, Reader.Valid, Output.Valid, LowValue, LowWord, Pow2, LowBitsOf;
      out.LengthKnown();
      while length > 0
        invariant Aligned() && out.Valid() && conf.out == out.history && |conf.out| == out.offset
        invariant conf.mode == Repeat(old(conf.mode.lit), old(conf.mode.dist), length, dist) && dist <= |conf.out|
        invariant step == old(step) && (conf == old(conf) || Reaches(old(conf), conf))
        decreases length
      {
        RepeatSteps(conf);
        if out.room == 0 {
          return Return(NotDone), true;
        }
        var b := out.Look(dist);
        out.Put(b);
        out.LengthKnown();
        length := length - 1;
        Advance();
      }
      RepeatSteps(conf);
      Advance();
      notFast := BeginSymbol();
      return Continue, notFast;
    }

    // -------------------------------------------------------------- codes

    /** Starts a block with the fixed codes. */
    method StartStatic() returns (notFast: bool)
      requires Aligned() && conf.mode == StaticHeader && treeLengths != treeDists
      modifies this`step, this`value, this`conf, treeLengths, treeDists
      modifies reader`bits, reader`available, reader`at, reader`unread
      ensures Aligned() && Reaches(old(conf), conf) && conf.out == old(conf.out)
      ensures conf.mode == Codes(StaticLengths(), StaticDistances()) && Ready(conf.mode.lit, conf.mode.dist)
      ensures step == Code && value == -1 && (notFast || reader.available >= 48)
    {
      hide Step, Reaches, Reader.Valid, CodesFor, Fits, TreeOk, NoStray, Budget;
      SetupStaticTrees(treeLengths, treeDists);
      StaticCodesFit();
      StaticBudget();
      StaticSteps(conf);
      Advance();
      notFast := BeginSymbol();
    }

    /** Sets all code lengths to zero. */
    method ClearLengths()
      requires clens.Length == CLENS
      modifies clens, this`idx
      ensures idx == 0 && forall i :: 0 <= i < CLENS ==> clens[i] == 0
    {
      for i := 0 to CLENS
        invariant forall j :: 0 <= j < i ==> clens[j] == 0
      {
        clens[i] := 0;
      }
      idx := 0;
    }

    /** The numbers of code lengths that a block with its own codes transmits. */
    method ReadDynamicHeader() returns (res: Progress)
      requires Aligned() && conf.mode == DynamicHeader && clens.Length == CLENS
      modifies this`step, this`conf, this`hlit, this`hdist, this`hclen, this`idx, clens
      modifies reader`bits, reader`available, reader`at, reader`unread, reader`ahead
      ensures Aligned() && conf.out == old(conf.out)
      ensures res == Continue ==> Reaches(old(conf), conf) && step == Pretree && PretreeOk()
      ensures res != Continue ==> res == Return(NotDone) && conf == old(conf) && step == old(step) && Waiting()
    {
      hide Step, Reaches, Reader.Valid, LowValue, LowWord, Pow2, LowBitsOf;
      var ok := reader.Ensure(14);
      if !ok {
        DynamicHeaderSteps(conf);
        reader.NothingElse();
        return Return(NotDone);
      }
      ReadCounts();
      ClearLengths();
      step := Pretree;
      return Continue;
    }

    method ReadCounts()
      requires Aligned() && conf.mode == DynamicHeader && reader.available >= 14
      modifies this`conf, this`hlit, this`hdist, this`hclen
      modifies reader`bits, reader`available, reader`ahead
      ensures Aligned() && conf.out == old(conf.out) && Reaches(old(conf), conf)
      ensures conf.mode == CodeLengths(hlit, hdist, hclen, [])
      ensures 257 <= hlit <= 288 && 1 <= hdist <= 32 && hclen <= 19
    {
      hide Step, Reaches, Reader.Valid, LowValue, LowWord, Pow2, LowBitsOf;
      DynamicHeaderSteps(conf);
      SmallPowers();
      var v := reader.Take(5);
      var w := reader.Take(5);
      var x := reader.Take(4);
      hlit, hdist, hclen := v + 257, w + 1, x + 4;
      Advance();
    }

    /** The lengths of the code in which the code lengths are written. */
    method ReadCodeLengths() returns (res: Progress)
      requires Aligned() && clens.Length == CLENS && PretreeOk()
      modifies this`step, this`conf, this`idx, this`value, clens, treeLengths
      modifies reader`bits, reader`available, reader`at, reader`unread, reader`ahead
      ensures conf.out == old(conf.out)
      ensures res == Continue ==> Aligned() && Reaches(old(conf), conf) && step == Trees && TreesOk() && value == -1
      ensures res != Continue ==> res != Return(Eos) && (conf == old(conf) || Reaches(old(conf), conf))
      ensures res == Return(NotDone) ==> Aligned() && step == old(step) && PretreeOk() && Waiting()
      ensures res == Return(Error) ==> Step(conf) == Halt(Corrupt)
    {
      hide Step, Reaches, Reader.Valid, PretreeOk, TreesOk, Waiting, Aligned;
      PretreeInRange();
      while idx < hclen
        invariant Aligned() && PretreeOk() && conf.out == old(conf.out) && idx <= hclen
        invariant step == old(step) && (conf == old(conf) || Reaches(old(conf), conf))
        decreases hclen - idx
      {
        var read := ReadCodeLength();
        if !read {
          return Return(NotDone);
        }
      }
      res := BuildLengthCode();
    }

    lemma PretreeInRange()
      requires clens.Length == CLENS && PretreeOk()
      ensures idx <= hclen && Idle()
    {
    }

    method ReadCodeLength() returns (ok: bool)
      requires Aligned() && clens.Length == CLENS && PretreeOk() && idx < hclen
      modifies this`conf, this`idx, clens
      modifies reader`bits, reader`available, reader`at, reader`unread, reader`ahead
      ensures Aligned() && PretreeOk() && conf.out == old(conf.out)
      ensures ok ==> idx == old(idx) + 1
      ensures ok ==> forall c :: (c == old(conf) || Reaches(c, old(conf))) ==> Reaches(c, conf)
      ensures !ok ==> conf == old(conf) && Waiting()
    {
      hide Step, Reaches, Reader.Valid, LowValue, LowWord, Pow2, LowBitsOf, Scatter, OrderOf, Waiting;
      CodeLengthsSteps(conf);
      ok := reader.Ensure(3);
      if !ok {
        CodeLengthsWait();
        return;
      }
      SmallPowers();
      var v := reader.Take(3);
      ScatterWrite(clens[..], conf.mode.pre, v);
      clens[OrderOf(idx)] := v;
      idx := idx + 1;
      Advance();
    }

    lemma CodeLengthsWait()
      requires Aligned() && clens.Length == CLENS && PretreeOk() && idx < hclen
      requires reader.at == |reader.data| && reader.available < 3
      ensures Waiting()
    {
      hide Step, Reader.Valid, LowWord, LowBitsOf;
      CodeLengthsSteps(conf);
      reader.NothingElse();
    }

    method BuildLengthCode() returns (res: Progress)
      requires Aligned() && clens.Length == CLENS && PretreeOk() && idx == hclen
      modifies this`step, this`conf, this`idx, this`value, clens, treeLengths
      ensures res == Continue ==>
                && Aligned() && step == Trees && conf.out == old(conf.out) && TreesOk() && value == -1
                && forall c :: (c == old(conf) || Reaches(c, old(conf))) ==> Reaches(c, conf)
      ensures res != Continue ==> res == Return(Error) && conf == old(conf) && Step(conf) == Halt(Corrupt)
    {
      hide Step, Reaches, Reader.Valid, Scatter, Fits, CodesFor, TreeOk, NoStray;
      CodeLengthsSteps(conf);
      var built := SetupDynamicTree(treeLengths, clens, 0, 19, Scatter(conf.mode.pre));
      if !built {
        return Return(Error);
      }
      ClearLengths();
      value := -1;
      step := Trees;
      Advance();
      return Continue;
    }

    /** Stores `n` copies of a length. */
    method FillLengths(v: nat, n: nat)
      requires clens.Length == CLENS && idx + n <= CLENS && v < MAX_BITS
      requires forall i :: 0 <= i < CLENS ==> clens[i] < MAX_BITS
      modifies clens, this`idx
      ensures idx == old(idx) + n && clens[..idx] == old(clens[..idx]) + seq(n, _ => v)
      ensures forall i :: 0 <= i < CLENS ==> clens[i] < MAX_BITS
    {
      for j := 0 to n
        invariant idx == old(idx) + j
        invariant forall i :: 0 <= i < CLENS ==>
                    clens[i] == (if old(idx) <= i < idx then v else old(clens[i])) < MAX_BITS
      {
        clens[idx] := v;
        idx := idx + 1;
      }
    }

    /** The length to be repeated, and how often. */
    method ReadRepeat() returns (res: Progress, n: nat, v: nat)
      requires InStream() && clens.Length == CLENS && LengthsOk() && idx < hlit + hdist
      requires Fits(conf.mode.code) && SymbolRead(conf.mode.code) && value >= 16
      modifies reader`bits, reader`available, reader`at, reader`unread, reader`ahead
      ensures reader.Valid()
      ensures res == Continue ==>
                && 0 < n && idx + n <= hlit + hdist && v < MAX_BITS
                && Step(conf) == Go(Conf(conf.mode.(got := conf.mode.got + seq(n, _ => v)), conf.final, reader.ahead, conf.out))
      ensures res != Continue ==> res != Return(Eos)
      ensures res == Return(NotDone) ==> InStream() && Waiting()
      ensures res == Return(Error) ==> Step(conf) == Halt(Corrupt)
    {
      hide Step, Reader.Valid, WordOf, Fits, Coded, LowValue, LowWord, Pow2, LowBitsOf;
      LengthsSymbol(conf, value, held, reader.ahead);
      n, v := 0, 0;
      if value == 16 {
        if idx == 0 {
          return Return(Error), n, v;
        }
        v := clens[idx - 1];
      }
      var ok := reader.Ensure(RepeatBits(value));
      if !ok {
        reader.NothingElse();
        return Return(NotDone), n, v;
      }
      n := reader.Take(RepeatBits(value));
      n := n + RepeatBase(value);
      return if idx + n > hlit + hdist then Return(Error) else Continue, n, v;
    }

    /** Stores the lengths that the symbol just read stands for. */
    method StoreLengths(n: nat, v: nat)
      requires reader.Valid() && conf.final == isFinalBlock && treeIdx == 0
      requires clens.Length == CLENS && LengthsOk() && 0 < n && idx + n <= hlit + hdist && v < MAX_BITS
      requires Step(conf) == Go(Conf(conf.mode.(got := conf.mode.got + seq(n, _ => v)), conf.final, reader.ahead, conf.out))
      modifies this`conf, this`idx, this`value, this`held, clens
      ensures Aligned() && LengthsOk() && value == -1 && idx > old(idx)
      ensures conf.out == old(conf.out) && conf.mode.code == old(conf.mode.code)
      ensures forall c :: (c == old(conf) || Reaches(c, old(conf))) ==> Reaches(c, conf)
    {
      hide Step, Reaches, Reader.Valid;
      FillLengths(v, n);
      value := -1;
      held := [];
      Advance();
    }

    method UseLength() returns (res: Progress)
      requires InStream() && clens.Length == CLENS && LengthsOk() && idx < hlit + hdist
      requires Fits(conf.mode.code) && SymbolRead(conf.mode.code)
      modifies this`conf, this`idx, this`value, this`held, clens
      modifies reader`bits, reader`available, reader`at, reader`unread, reader`ahead
      ensures conf.out == old(conf.out)
      ensures res == Continue ==>
                && Aligned() && LengthsOk() && value == -1 && idx > old(idx) && conf.mode.code == old(conf.mode.code)
                && forall c :: (c == old(conf) || Reaches(c, old(conf))) ==> Reaches(c, conf)
      ensures res != Continue ==> res != Return(Eos) && conf == old(conf) && idx == old(idx)
      ensures res == Return(NotDone) ==> InStream() && LengthsOk() && SymbolRead(conf.mode.code) && Waiting()
      ensures res == Return(Error) ==> Step(conf) == Halt(Corrupt)
    {
      hide Step, Reaches, Reader.Valid, WordOf, Fits, Coded, Waiting;
      res := Continue;
      var n, v := 1, 0;
      if value < 16 {
        LengthsSymbol(conf, value, held, reader.ahead);
        OneCopy(value);
        v := value;
      } else {
        res, n, v := ReadRepeat();
      }
      if res == Continue {
        StoreLengths(n, v);
      }
    }

    /** Reads the code lengths of a block, and builds its trees. */
    method ReadLengths() returns (res: Progress, notFast: bool)
      requires InStream() && clens.Length == CLENS && TreesOk() && treeLengths != treeDists && Run(conf).end != Outside
      modifies this`step, this`conf, this`idx, this`value, this`held, this`treeIdx, clens, treeLengths, treeDists
      modifies reader`bits, reader`available, reader`at, reader`unread, reader`ahead
      ensures conf.out == old(conf.out)
      ensures res == Continue ==>
                && Aligned() && Reaches(old(conf), conf) && conf.mode.Codes? && Ready(conf.mode.lit, conf.mode.dist)
                && step == Code && value == -1 && (notFast || reader.available >= 48)
      ensures res != Continue ==> res != Return(Eos) && (conf == old(conf) || Reaches(old(conf), conf))
      ensures res == Return(NotDone) ==> InStream() && step == old(step) && TreesOk() && Waiting()
      ensures res == Return(Error) ==> Step(conf) == Halt(Corrupt)
    {
      hide Step, Reaches, Reader.Valid, LengthsOk, Holds, WordOf, Coded, InTree, Run;
      LengthsInRange();
      while idx < hlit + hdist
        invariant InStream() && LengthsOk() && conf.mode.Lengths? && Holds(treeLengths, conf.mode.code) && SymbolOk(treeLengths, conf.mode.code)
        invariant conf.out == old(conf.out) && step == old(step) && (conf == old(conf) || Reaches(old(conf), conf))
        invariant idx <= hlit + hdist && (idx == hlit + hdist ==> Aligned())
        invariant Run(conf) == Run(old(conf))
        decreases hlit + hdist - idx
      {
        res := ReadLength();
        if res != Continue {
          return res, true;
        }
        ReachesSame(old(conf), conf);
        LengthsInRange();
      }
      res, notFast := FinishLengths();
    }

    lemma LengthsInRange()
      requires clens.Length == CLENS && LengthsOk()
      ensures idx <= hlit + hdist && conf.mode.Lengths?
    {
    }

    /** One symbol of the code lengths. */
    method ReadLength() returns (res: Progress)
      requires InStream() && clens.Length == CLENS && TreesOk()
      modifies this`conf, this`idx, this`value, this`held, this`treeIdx, clens
      modifies reader`bits, reader`available, reader`at, reader`unread, reader`ahead
      ensures conf.out == old(conf.out) && (conf == old(conf) || Reaches(old(conf), conf))
      ensures res == Continue ==>
                && Aligned() && LengthsOk() && Holds(treeLengths, conf.mode.code) && value == -1 && idx > old(idx)
                && SymbolOk(treeLengths, conf.mode.code)
                && forall c :: (c == old(conf) || Reaches(c, old(conf))) ==> Reaches(c, conf)
      ensures res != Continue ==> res != Return(Eos) && conf == old(conf)
      ensures res == Return(NotDone) ==> InStream() && TreesOk() && Waiting()
      ensures res == Return(Error) ==> Step(conf) == Halt(Corrupt)
    {
      hide Step, Reaches, Reader.Valid, LengthsOk, Holds, WordOf, Coded, Read;
      LengthsMode();
      HoldsFits(treeLengths, conf.mode.code);
      if value == -1 {
        var got := ReadSymbol(treeLengths, conf.mode.code, true);
        if got != Eos {
          if !Read(conf.mode.code, conf.rest).Symbol? {
            LengthsUnread(conf);
          }
          return Return(got);
        }
      }
      res := UseLength();
    }

    lemma LengthsMode()
      requires clens.Length == CLENS && LengthsOk()
      ensures conf.mode.Lengths? && |conf.mode.got| == idx && hlit == conf.mode.hlit && hdist == conf.mode.hdist
    {
    }

    /** Builds both trees of a block. */
    method FinishLengths() returns (res: Progress, notFast: bool)
      requires Aligned() && clens.Length == CLENS && LengthsOk() && idx == hlit + hdist && treeLengths != treeDists
      requires Run(conf).end != Outside
      modifies this`step, this`conf, this`value, treeLengths, treeDists
      modifies reader`bits, reader`available, reader`at, reader`unread
      ensures conf.out == old(conf.out)
      ensures res == Continue ==>
                && Aligned() && conf.mode.Codes? && Ready(conf.mode.lit, conf.mode.dist)
                && step == Code && value == -1 && (notFast || reader.available >= 48)
                && forall c :: (c == old(conf) || Reaches(c, old(conf))) ==> Reaches(c, conf)
      ensures res != Continue ==> res == Return(Error) && conf == old(conf) && Step(conf) == Halt(Corrupt)
    {
      hide Step, Reaches, Reader.Valid, Fits, CodesFor, TreeOk, NoStray, Run, Budget;
      notFast := true;
      ghost var lit, dst := conf.mode.got[..hlit], conf.mode.got[hlit..];
      LengthsEnd(conf);
      RunStep(conf);
      var built := SetupDynamicTree(treeLengths, clens, 0, hlit, lit);
      if !built {
        return Return(Error), notFast;
      }
      built := SetupDynamicTree(treeDists, clens, hlit, hdist, dst);
      if !built {
        return Return(Error), notFast;
      }
      Advance();
      notFast := BeginSymbol();
      return Continue, notFast;
    }

    // -------------------------------------------------------------- the whole machine

    method HeaderStage() returns (res: Progress, notFast: bool)
      requires Valid() && (step == NextBlock || step == CopyInit || step == CopyData || step == StaticInit || step == DynamicInit)
      modifies this`step, this`value, this`length, this`hlit, this`hdist, this`hclen, this`idx, this`isFinalBlock, this`conf
      modifies clens, treeLengths, treeDists
      modifies reader`bits, reader`available, reader`at, reader`unread, reader`ahead
      modifies out`produced, out`room, out`offset, out`history, out.window
      ensures After(res, notFast)
      ensures res == Continue ==> Reaches(old(conf), conf)
      ensures conf == old(conf) || Reaches(old(conf), conf)
    {
      hide Step, Reaches, Reader.Valid, Output.Valid, Ready, LengthsOk, PretreeOk, Stuck, Emits, Run;
      StepReaches(conf);
      notFast := true;
      if step == NextBlock {
        res := ReadBlockHeader();
      } else if step == CopyInit {
        res := ReadStoredHeader();
      } else if step == CopyData {
        res := CopyStored();
      } else if step == StaticInit {
        notFast := StartStatic();
        res := Continue;
      } else {
        res := ReadDynamicHeader();
      }
      ReachesSame(old(conf), conf);
    }

    method LengthStage() returns (res: Progress, notFast: bool)
      requires Valid() && (step == Pretree || step == Trees)
      modifies this`step, this`value, this`idx, this`held, this`treeIdx, this`conf
      modifies clens, treeLengths, treeDists
      modifies reader`bits, reader`available, reader`at, reader`unread, reader`ahead
      ensures After(res, notFast)
      ensures res == Continue ==> Reaches(old(conf), conf)
      ensures conf == old(conf) || Reaches(old(conf), conf)
    {
      hide Step, Reaches, Reader.Valid, Output.Valid, Ready, PretreeOk, TreesOk, Waiting, Emits, Run;
      if step == Pretree {
        PretreeInRange();
        notFast := true;
        res := ReadCodeLengths();
      } else {
        res, notFast := ReadLengths();
      }
      ReachesSame(old(conf), conf);
    }

    method CodeStage(fast: bool) returns (res: Progress, notFast: bool)
      requires Valid() && (step == Code || step == CodeValue) && FastOk(!fast)
      modifies this`step, this`value, this`length, this`held, this`treeIdx, this`conf
      modifies reader`bits, reader`available, reader`at, reader`unread, reader`ahead
      modifies out`produced, out`room, out`offset, out`history, out.window
      ensures After(res, notFast)
      ensures res == Continue ==> Reaches(old(conf), conf) || (conf == old(conf) && StageRank() < old(StageRank()))
      ensures conf == old(conf) || Reaches(old(conf), conf)
    {
      hide Step, Reaches, Reader.Valid, Output.Valid, Holds, Budget, Affordable, Fits, Coded, WordOf, Stuck, Emits, Run;
      HoldsFits(treeLengths, conf.mode.lit);
      notFast := !fast;
      if step == Code {
        res := ReadCode(notFast);
      } else if value < 256 {
        res, notFast := EmitLiteral();
      } else if value == 256 {
        EndBlock();
        res := Continue;
      } else {
        res := StartMatch(notFast);
      }
      ReachesSame(old(conf), conf);
    }

    method CopyStage(fast: bool) returns (res: Progress, notFast: bool)
      requires Valid() && (step == DistanceCode || step == DistanceValue || step == RepeatCopy) && FastOk(!fast)
      modifies this`step, this`value, this`length, this`dist, this`held, this`treeIdx, this`conf
      modifies reader`bits, reader`available, reader`at, reader`unread, reader`ahead
      modifies out`produced, out`room, out`offset, out`history, out.window
      ensures After(res, notFast)
      ensures res == Continue ==> Reaches(old(conf), conf) || (conf == old(conf) && StageRank() < old(StageRank()))
      ensures conf == old(conf) || Reaches(old(conf), conf)
    {
      hide Step, Reaches, Reader.Valid, Output.Valid, Holds, Budget, Affordable, Fits, Coded, WordOf, Stuck, Emits, Run, After;
      if step == RepeatCopy {
        res, notFast := RepeatStage(fast);
      } else {
        res, notFast := DistanceStage(fast);
      }
    }

    method DistanceStage(fast: bool) returns (res: Progress, notFast: bool)
      requires Valid() && (step == DistanceCode || step == DistanceValue) && FastOk(!fast)
      modifies this`step, this`value, this`dist, this`held, this`treeIdx, this`conf
      modifies reader`bits, reader`available, reader`at, reader`unread, reader`ahead
      ensures After(res, notFast)
      ensures res == Continue ==> Reaches(old(conf), conf) || (conf == old(conf) && StageRank() < old(StageRank()))
      ensures conf == old(conf) || Reaches(old(conf), conf)
    {
      hide Step, Reaches, Reader.Valid, Output.Valid, Holds, Budget, Affordable, Fits, Coded, WordOf, Stuck, Emits, Run;
      HoldsFits(treeDists, conf.mode.dist);
      notFast := !fast;
      if step == DistanceCode {
        res := ReadDistanceCode(notFast);
      } else {
        res := StartCopy(notFast);
      }
      ReachesSame(old(conf), conf);
    }

    method RepeatStage(fast: bool) returns (res: Progress, notFast: bool)
      requires Valid() && step == RepeatCopy && FastOk(!fast)
      modifies this`step, this`value, this`length, this`held, this`treeIdx, this`conf
      modifies reader`bits, reader`available, reader`at, reader`unread, reader`ahead
      modifies out`produced, out`room, out`offset, out`history, out.window
      ensures After(res, notFast)
      ensures res == Continue ==> Reaches(old(conf), conf)
      ensures conf == old(conf) || Reaches(old(conf), conf)
    {
      hide Step, Reaches, Reader.Valid, Output.Valid, Holds, Budget, Affordable, Fits, Coded, WordOf, Stuck, Emits, Run;
      HoldsFits(treeDists, conf.mode.dist);
      res, notFast := CopyMatch();
      ReachesSame(old(conf), conf);
    }

    method Stage(fast: bool) returns (res: Progress, notFast: bool)
      requires Valid() && FastOk(!fast)
      modifies this`step, this`value, this`length, this`dist, this`hlit, this`hdist, this`hclen, this`idx
      modifies this`isFinalBlock, this`held, this`treeIdx, this`conf, clens, treeLengths, treeDists
      modifies reader`bits, reader`available, reader`at, reader`unread, reader`ahead
      modifies out`produced, out`room, out`offset, out`history, out.window
      ensures After(res, notFast)
      ensures res == Continue ==> Reaches(old(conf), conf) || (conf == old(conf) && StageRank() < old(StageRank()))
      ensures conf == old(conf) || Reaches(old(conf), conf)
    {
      hide Valid, FastOk, After, Reaches, StageRank;
      match step
      case Pretree | Trees => res, notFast := LengthStage();
      case Code | CodeValue => res, notFast := CodeStage(fast);
      case DistanceCode | DistanceValue | RepeatCopy => res, notFast := CopyStage(fast);
      case NextBlock | CopyInit | CopyData | StaticInit | DynamicInit => res, notFast := HeaderStage();
    }

    method Attach(input: seq<Byte>, ghost later: seq<Byte>, capacity: nat)
      requires Valid() && reader.unread == input + later
      modifies reader`data, reader`at, reader`later, out`room, out`produced, out`before, out`capacity
      ensures After(Continue, true)
      ensures reader.data == input && reader.later == later && out.capacity == capacity && out.before == out.history
    {
      hide StageOk, Run, Step, Output.Valid, Reader.Valid;
      reader.Attach(input, later);
      out.Attach(capacity);
    }

    /** Goes through the stages until the call is over. */
    method Decode() returns (res: Status)
      requires After(Continue, true)
      modifies this`step, this`value, this`length, this`dist, this`hlit, this`hdist, this`hclen, this`idx
      modifies this`isFinalBlock, this`held, this`treeIdx, this`conf, clens, treeLengths, treeDists
      modifies reader`bits, reader`available, reader`at, reader`unread, reader`ahead
      modifies out`produced, out`room, out`offset, out`history, out.window
      ensures After(Return(res), true) && (conf == old(conf) || Reaches(old(conf), conf))
    {
      hide Valid, FastOk, Blocked, Reaches, StageRank, Run, Step, Rank;
      var progress, notFast := Continue, true;
      while progress == Continue
        invariant After(progress, notFast) && (conf == old(conf) || Reaches(old(conf), conf))
        decreases progress == Continue, |conf.rest|, Rank(conf.mode), StageRank()
      {
        ghost var before := conf;
        progress, notFast := Stage(!notFast);
        ReachesOn(old(conf), before, conf);
      }
      res := progress.status;
    }

    /** Decodes as much of `input` as fits into `capacity` bytes of output; `later` is the rest of the stream. */
    method Process(input: seq<Byte>, ghost later: seq<Byte>, capacity: nat)
      returns (res: Status, output: seq<Byte>, used: nat)
      requires Valid() && reader.unread == input + later
      modifies this`step, this`value, this`length, this`dist, this`hlit, this`hdist, this`hclen, this`idx
      modifies this`isFinalBlock, this`held, this`treeIdx, this`conf, clens, treeLengths, treeDists
      modifies reader, out, out.window
      ensures Run(conf) == Run(old(conf)) && out.history == old(out.history) + output && |output| <= capacity
      ensures res != Error ==> Valid() && used <= |input| && reader.unread == input[used..] + later
      ensures res == Eos ==> Run(conf).end == Finished && Run(conf).out == out.history
      ensures res == Error ==> Run(conf).end == Corrupt && Run(conf).out == out.history
      ensures res == NotDone ==>
                || (|output| == capacity && Emits(conf))
                || (used == |input| && (later == [] ==> Stuck(conf)))
    {
      hide StageOk, Run, Step, Stuck, Emits;
      Attach(input, later, capacity);
      res := Decode();
      ReachesSame(old(conf), conf);
      RunStep(conf);
      output, used := out.produced, reader.at;
    }
  }

  lemma HoldsFits(tree: Tree, lens: seq<nat>)
    requires Holds(tree, lens)
    ensures Fits(lens)
  {
  }

  lemma OneCopy(v: nat)
    ensures seq(1, _ => v) == [v]
  {
  }

  lemma SmallPowers()
    ensures Pow2(2) == 4 && Pow2(3) == 8 && Pow2(4) == 16 && Pow2(5) == 32 && Pow2(7) == 128
  {
    assert Pow2(5) == 32;
    assert Pow2(7) == 4 * Pow2(5);
  }

  lemma ScatterWrite(clens: seq<nat>, pre: seq<nat>, v: nat)
    requires |clens| == CLENS && |pre| < 19 && clens[..19] == Scatter(pre)
    ensures clens[OrderOf(|pre|) := v][..19] == Scatter(pre + [v])
  {
    ScatterNext(pre, v);
  }
}
