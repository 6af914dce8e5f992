/** The dictionary of the LZMA decoder: copying matches into it, up to a limit and on from there. */
module LzmaOutput {
  import opened Options
  import opened LowBits
  import opened History
  import opened Modular
  import opened Bits
  import opened LzmaSymbol
  import opened LzmaRange
  import opened LzmaBudget
  import opened LzmaLookAhead
  import opened LzmaDec
  import opened LzmaStream

  /** The dictionary is a ring that holds the end of what has been written; `pos` is where writing goes on. */
  ghost predicate Ring(dic: seq<Byte>, pos: nat, past: seq<Byte>) {
    && 0 < |dic| && pos <= |dic| && pos % |dic| == |past| % |dic|
    && forall j :: 0 <= j < |past| && |past| - |dic| <= j ==> dic[j % |dic|] == past[j]
  }

  /** Where the byte `back` before the writing position is. */
  function Source(pos: nat, back: nat, size: nat): int {
    pos - back + if pos < back then size else 0
  }

  lemma RingRead(dic: seq<Byte>, pos: nat, past: seq<Byte>, back: nat)
    requires Ring(dic, pos, past) && 1 <= back <= |past| && back <= |dic|
    ensures 0 <= Source(pos, back, |dic|) < |dic| && Source(pos, back, |dic|) == (|past| - back) % |dic|
    ensures dic[Source(pos, back, |dic|)] == past[|past| - back]
  {
    PlaceBack(pos, |past|, back, |dic|);
  }

  lemma PlaceBack(pos: nat, total: nat, back: nat, size: nat)
    requires 0 < size && pos <= size && pos % size == total % size && 1 <= back <= total && back <= size
    ensures 0 <= Source(pos, back, size) < size && Source(pos, back, size) == (total - back) % size
  {
    SameBack(pos, total, back, size);
    if pos < back {
      AddMultiple(pos - back, 1, size);
    }
    var i: nat := Source(pos, back, size);
    Remainder(i, size, 0, i);
  }

  /** Going back the same distance from places with the same remainder. */
  lemma SameBack(a: nat, b: nat, back: nat, size: nat)
    requires size > 0 && a % size == b % size
    ensures (a - back) % size == (b - back) % size
  {
    var p, q := a / size, b / size;
    assert a == p * size + a % size && b == q * size + b % size;
    AddMultiple(a - back, q - p, size);
    Distribute(q, p, size);
  }

  lemma Distribute(q: int, p: int, size: nat)
    ensures (q - p) * size == q * size - p * size
  {
  }

  lemma RingWrite(dic: seq<Byte>, pos: nat, past: seq<Byte>, b: Byte)
    requires Ring(dic, pos, past) && pos < |dic|
    ensures Ring(dic[pos := b], pos + 1, past + [b])
  {
    var size := |dic|;
    Remainder(pos, size, 0, pos);
    NextPlace(pos, |past|, size);
    var w := dic[pos := b];
    forall j | 0 <= j < |past| + 1 && |past| + 1 - size <= j ensures w[j % size] == (past + [b])[j] {
      if j % size == pos {
        SameRemainder(j, |past|, size);
      }
    }
  }

  lemma NextPlace(a: nat, b: nat, size: nat)
    requires size > 0 && a % size == b % size
    ensures (a + 1) % size == (b + 1) % size
  {
    assert a == a / size * size + a % size && b == b / size * size + b % size;
    AddMultiple(a % size + 1, a / size, size);
    AddMultiple(b % size + 1, b / size, size);
  }

  /** The next place of a reading position that goes round the ring. */
  lemma NextSource(i: nat, a: nat, size: nat)
    requires size > 0 && i < size && i == a % size
    ensures (a + 1) % size == if i + 1 == size then 0 else i + 1
  {
    Remainder(i, size, 0, i);
    NextPlace(i, a, size);
    if i + 1 == size { Remainder(i + 1, size, 1, 0); } else { Remainder(i + 1, size, 0, i + 1); }
  }

  /** Copying one byte of a match, from the place `i`; the next place follows it in the ring. */
  lemma CopyStep(dic: seq<Byte>, pos: nat, past: seq<Byte>, back: nat, n: nat, i: nat)
    requires 1 <= back <= |past| && back <= |dic| && pos < |dic| && i < |dic|
    requires Ring(dic, pos, Copied(past, back, n)) && i == (|past| + n - back) % |dic|
    ensures Ring(dic[pos := dic[i]], pos + 1, Copied(past, back, n + 1))
    ensures (|past| + n + 1 - back) % |dic| == if i + 1 == |dic| then 0 else i + 1
  {
    hide Ring, Source, Copied;
    var now := Copied(past, back, n);
    RingRead(dic, pos, now, back);
    RingWrite(dic, pos, now, dic[i]);
    CopiedNext(past, back, n);
    NextSource(i, |past| + n - back, |dic|);
  }

  /** The place of the first byte. */
  lemma CopyBegins(dic: seq<Byte>, pos: nat, past: seq<Byte>, back: nat)
    requires Ring(dic, pos, past) && 1 <= back <= |past| && back <= |dic|
    ensures 0 <= Source(pos, back, |dic|) < |dic| && Source(pos, back, |dic|) == (|past| + 0 - back) % |dic|
    ensures Ring(dic, pos, Copied(past, back, 0))
  {
    hide Ring, Source, Copied;
    RingRead(dic, pos, past, back);
    CopiedNone(past, back);
  }

  /** Copying in one piece, where the source does not go over the end of the dictionary. */
  method CopyStraight(d: LzmaDec, pos: nat, curLen: nat, ghost past: seq<Byte>)
    requires Ring(d.dic[..], d.dicPos, past) && 1 <= d.rep0 <= |past| && d.rep0 <= d.dic.Length
    requires pos == Source(d.dicPos, d.rep0, d.dic.Length) && 0 < curLen && d.dicPos + curLen <= d.dic.Length
    requires pos + curLen <= d.dic.Length
    modifies d.dic, d`dicPos
    ensures d.dicPos == old(d.dicPos) + curLen && Ring(d.dic[..], d.dicPos, Copied(past, d.rep0, curLen))
  {
    hide Ring, Source, Copied;
    CopyBegins(d.dic[..], d.dicPos, past, d.rep0);
    ghost var first, n := d.dicPos, 0;
    var dest: nat := d.dicPos;
    var lim: nat := dest + curLen;
    var src := pos - dest;
    d.dicPos := d.dicPos + curLen;
    while dest != lim
      invariant 0 <= n <= curLen && dest == first + n && d.dicPos == lim
      invariant Ring(d.dic[..], dest, Copied(past, d.rep0, n))
      invariant n < curLen ==> pos + n == (|past| + n - d.rep0) % d.dic.Length
      decreases curLen - n
    {
      CopyStep(d.dic[..], dest, past, d.rep0, n, pos + n);
      d.dic[dest] := d.dic[dest + src];
      dest, n := dest + 1, n + 1;
    }
  }

  /** Copying byte by byte, with a source that goes round. */
  method CopyAround(d: LzmaDec, start: nat, curLen: nat, ghost past: seq<Byte>)
    requires Ring(d.dic[..], d.dicPos, past) && 1 <= d.rep0 <= |past| && d.rep0 <= d.dic.Length
    requires start == Source(d.dicPos, d.rep0, d.dic.Length) && 0 < curLen && d.dicPos + curLen <= d.dic.Length
    modifies d.dic, d`dicPos
    ensures d.dicPos == old(d.dicPos) + curLen && Ring(d.dic[..], d.dicPos, Copied(past, d.rep0, curLen))
  {
    hide Ring, Source, Copied;
    CopyBegins(d.dic[..], d.dicPos, past, d.rep0);
    ghost var n := 0;
    var left, pos := curLen, start;
    while left != 0
      invariant 0 <= left == curLen - n && 0 <= n && d.dicPos == old(d.dicPos) + n
      invariant Ring(d.dic[..], d.dicPos, Copied(past, d.rep0, n))
      invariant pos < d.dic.Length && pos == (|past| + n - d.rep0) % d.dic.Length
      decreases left
    {
      CopyStep(d.dic[..], d.dicPos, past, d.rep0, n, pos);
      d.dic[d.dicPos] := d.dic[pos];
      d.dicPos := d.dicPos + 1;
      pos := pos + 1;
      if pos == d.dic.Length {
        pos := 0;
      }
      left, n := left - 1, n + 1;
    }
  }

  // ---------------------------------------------------------------- the decoder and the stream

  /** What is still to be copied of the last match. */
  ghost predicate Pending(p: Props, z: Lz, past: seq<Byte>, rem: nat) {
    if rem == 0 then z.past == past
    else 1 <= z.regs.rep0 <= |past| && z.regs.rep0 <= Far(p, past) && z.past == Copied(past, z.regs.rep0, rem)
  }

  /** The dictionary is large enough, or output has not gone round it. */
  ghost predicate Fits(p: Props, size: nat, pos: nat, past: seq<Byte>) {
    p.dicSize <= size || pos == |past|
  }

  /** The mark of a full dictionary; it may lag behind within a call. */
  predicate Checked(p: Props, check: nat, past: seq<Byte>) {
    if check == 0 then |past| <= p.dicSize else check == p.dicSize <= |past|
  }

  /** The decoder has written `past`, and is in the state `z` but for `rem` bytes of the last match. */
  ghost predicate Tracks(d: LzmaDec, p: Props, z: Lz, past: seq<Byte>, rem: nat)
    reads d, d.dic, d.probs
  {
    && d.lc == p.lc && d.lp == p.lp && d.pb == p.pb && Sound(p, z)
    && Ring(d.dic[..], d.dicPos, past) && Fits(p, d.dic.Length, d.dicPos, past)
    && d.probs[..] == z.probs && d.Place() == z.rc && d.Registers() == z.regs.(pos := |past| % WORD)
    && Checked(p, d.checkDicSize, past) && Pending(p, z, past, rem)
  }

  lemma FarFits(p: Props, size: nat, pos: nat, past: seq<Byte>)
    requires Fits(p, size, pos, past) && pos <= size
    ensures Far(p, past) <= size
  {
  }

  lemma ReachIsFar(d: LzmaDec, p: Props, z: Lz, past: seq<Byte>, rem: nat)
    requires Tracks(d, p, z, past, rem)
    ensures d.Reach() == Far(p, past)
    ensures d.processedPos == 0 && d.checkDicSize == 0 <==> past == []
  {
    hide Pow2, Bounded, Ring;
  }

  lemma TrackedIsValid(d: LzmaDec, p: Props, z: Lz, past: seq<Byte>)
    requires Tracks(d, p, z, past, 0)
    ensures d.Valid() && d.code < WORD
  {
    hide Bounded, Opening, Copied;
    FarFits(p, d.dic.Length, d.dicPos, past);
    ReachIsFar(d, p, z, past, 0);
    assert |d.probs[..]| == d.probs.Length;
  }

  /** What the decoder looks at is what the stream says. */
  lemma TrackedContext(d: LzmaDec, p: Props, z: Lz, past: seq<Byte>)
    requires Tracks(d, p, z, past, 0) && d.Valid()
    ensures Alike(ContextOf(p, z), d.Context())
  {
    hide Bounded, Copied, Pow2, Source;
    ReachIsFar(d, p, z, past, 0);
    if past != [] {
      RingRead(d.dic[..], d.dicPos, past, 1);
      FarFits(p, d.dic.Length, d.dicPos, past);
      RingRead(d.dic[..], d.dicPos, past, d.rep0);
      SourceIs(d.dicPos, d.rep0, d.dic.Length);
      SourceIs(d.dicPos, 1, d.dic.Length);
    }
  }

  lemma SourceIs(pos: nat, back: nat, size: nat)
    ensures Source(pos, back, size) == pos - back + if pos < back then size else 0
  {
  }

  // ---------------------------------------------------------------- one symbol

  /** A repeated match does not come first, and never reaches back too far. */
  lemma RepIsGood(p: Props, z: Lz, data: seq<Byte>)
    requires Sound(p, z) && WetRun(ContextOf(p, z), z.probs, AtIsMatch, z.rc, data).Some?
    ensures var s := WetRun(ContextOf(p, z), z.probs, AtIsMatch, z.rc, data).value.symbol;
            s.ShortRep? || s.OldMatch? ==> z.past != [] && 1 <= Applied(z.regs, s).rep0 <= Far(p, z.past)
  {
    hide Bounded, Pow2, Copied, WetRun;
    if z.past == [] {
      assert |z.probs| == NumProbs(ContextOf(p, z));
      FirstSymbol(ContextOf(p, z), z.probs, z.rc, data);
    }
  }

  /** The run of the decoder itself is that of the stream. */
  lemma SameRun(d: LzmaDec, p: Props, z: Lz, past: seq<Byte>, data: seq<Byte>)
    requires Tracks(d, p, z, past, 0)
    ensures d.Valid() && d.code < WORD
    ensures WetRun(d.Context(), d.probs[..], AtIsMatch, d.Place(), data)
            == WetRun(ContextOf(p, z), z.probs, AtIsMatch, z.rc, data)
  {
    hide WetRun, Ring, Bounded, Sound;
    TrackedIsValid(d, p, z, past);
    TrackedContext(d, p, z, past);
    TrackedProper(d, p, z, past);
    AlikeRuns(ContextOf(p, z), d.Context(), z.probs, AtIsMatch, z.rc, data);
  }

  lemma TrackedProper(d: LzmaDec, p: Props, z: Lz, past: seq<Byte>)
    requires Tracks(d, p, z, past, 0)
    ensures Proper(ContextOf(p, z)) && PropsOk(p) && z.regs.state < 12 && d.Registers() == z.regs
  {
  }

  /** There is room for one more byte, or none is needed yet. */
  predicate HasRoom(p: Props, z: Lz, data: seq<Byte>, pos: nat, size: nat, check: nat)
    requires PropsOk(p) && z.regs.state < 12 && Found(p, z, data).Some?
  {
    ClassOf(Found(p, z, data).value.symbol) == DummyMatch || (pos < size && (check == 0 ==> |z.past| < p.dicSize))
  }

  /** What a symbol writes at once. */
  function AtOnce(z: Lz, s: Symbol): seq<Byte> {
    match s
    case Literal(b) => z.past + [b]
    case ShortRep => z.past + [ByteBack(z.past, z.regs.rep0)]
    case _ => z.past
  }

  /** How the stream goes on, in terms of what is written at once and what is still to be copied. */
  lemma NextIs(p: Props, z: Lz, data: seq<Byte>)
    requires Sound(p, z) && Found(p, z, data).Some?
    ensures var w := Found(p, z, data).value; var len := LengthOf(w.symbol, Far(p, z.past)); var a := Symbol1(p, z, data);
            && (a.Next? <==> len < MATCH_SPEC_LEN_START) && (a.Mark? <==> len == MATCH_SPEC_LEN_START) && !a.Starved?
            && (a.Mark? ==> a == Mark(w.rc, w.probs) && w.symbol.NewMatch? && w.symbol.distance == END_MARK)
            && (len > MATCH_SPEC_LEN_START ==> len >= ERROR_DATA && a.Bad?)
  {
    hide WetRun, Pow2, Bounded, Copied, Opening;
    RepIsGood(p, z, data);
    MatchIsShort(ContextOf(p, z), z.probs, AtIsMatch, z.rc, data);
  }

  lemma NextPending(p: Props, z: Lz, data: seq<Byte>)
    requires Sound(p, z) && Found(p, z, data).Some? && Symbol1(p, z, data).Next?
    ensures var w := Found(p, z, data).value; var len := LengthOf(w.symbol, Far(p, z.past)); var y := Symbol1(p, z, data).z;
            && Sound(p, y) && Pending(p, y, AtOnce(z, w.symbol), len)
            && Applied(z.regs, w.symbol) == y.regs.(pos := |AtOnce(z, w.symbol)| % WORD) && y.probs == w.probs && y.rc == w.rc
  {
    hide WetRun, Bounded, Copied, Opening, Pow2, Sound, Pending, Apply;
    SoundPosition(p, z);
    SymbolKeepsSound(p, z, data);
    RepIsGood(p, z, data);
    AppliedPending(p, z, Found(p, z, data).value);
    AppliedRegs(p, z, Found(p, z, data).value);
  }

  lemma SoundPosition(p: Props, z: Lz)
    requires Sound(p, z)
    ensures z.regs.pos == |z.past| % WORD && z.regs.state < 12 && PropsOk(p)
  {
  }

  lemma AppliedPending(p: Props, z: Lz, w: Wet)
    requires Apply(p, z, w).Next?
    requires w.symbol.ShortRep? || w.symbol.OldMatch? ==> z.past != [] && 1 <= Applied(z.regs, w.symbol).rep0 <= Far(p, z.past)
    ensures Pending(p, Apply(p, z, w).z, AtOnce(z, w.symbol), LengthOf(w.symbol, Far(p, z.past)))
  {
    hide Copied;
  }

  lemma AppliedRegs(p: Props, z: Lz, w: Wet)
    requires Apply(p, z, w).Next? && z.regs.pos == |z.past| % WORD
    ensures var y := Apply(p, z, w).z;
            Applied(z.regs, w.symbol) == y.regs.(pos := |AtOnce(z, w.symbol)| % WORD) && y.probs == w.probs && y.rc == w.rc
  {
    hide Copied;
    WordSum(|z.past|, 1);
  }

  /** Decodes a symbol: on success the stream is one symbol further, and `len` bytes of it are still to be copied. */
  method DecodeOne(d: LzmaDec, data: seq<Byte>, ghost p: Props, ghost z: Lz)
    returns (len: nat, ghost now: seq<Byte>)
    requires Tracks(d, p, z, z.past, 0) && PropsOk(p) && z.regs.state < 12 && Found(p, z, data).Some?
    requires HasRoom(p, z, data, d.dicPos, d.dic.Length, d.checkDicSize)
    modifies d`ctx, d`st, d`goal, d`range, d`code, d`at, d`state, d`dicPos, d`processedPos
    modifies d`rep0, d`rep1, d`rep2, d`rep3, d.probs, d.dic
    ensures len == LengthOf(Found(p, z, data).value.symbol, Far(p, z.past))
    ensures now == AtOnce(z, Found(p, z, data).value.symbol) && d.dicPos == old(d.dicPos) + (|now| - |z.past|)
    ensures Symbol1(p, z, data).Next? ==> Tracks(d, p, Symbol1(p, z, data).z, now, len)
    ensures Ring(d.dic[..], d.dicPos, now) && d.Place() == Found(p, z, data).value.rc
  {
    hide WetRun, Pow2, Bounded, Opening, Copied, Applied, LengthOf, Pending, Sound, Ring;
    ghost var w := Found(p, z, data).value;
    SameRun(d, p, z, z.past, data);
    ReachIsFar(d, p, z, z.past, 0);
    ghost var dic0, pos0 := d.dic[..], d.dicPos;
    ShortRepByte(d, p, z, data);
    TrackedProper(d, p, z, z.past);
    len := d.DecodeSymbol(data, w);
    now := AtOnce(z, w.symbol);
    if |now| > |z.past| {
      RingWrite(dic0, pos0, z.past, now[|z.past|]);
    }
    NextIs(p, z, data);
    if Symbol1(p, z, data).Next? {
      NextPending(p, z, data);
    }
  }

  lemma ShortRepByte(d: LzmaDec, p: Props, z: Lz, data: seq<Byte>)
    requires Tracks(d, p, z, z.past, 0) && PropsOk(p) && z.regs.state < 12 && Found(p, z, data).Some? && d.Valid()
    ensures Found(p, z, data).value.symbol.ShortRep? ==> d.MatchByte() == ByteBack(z.past, z.regs.rep0)
  {
    hide WetRun, Pow2, Bounded, Opening, Copied, Pending, Ring;
    if Found(p, z, data).value.symbol.ShortRep? {
      RepIsGood(p, z, data);
      FarFits(p, d.dic.Length, d.dicPos, z.past);
      RingKnown(d.dic[..], d.dicPos, z.past);
      RingRead(d.dic[..], d.dicPos, z.past, d.rep0);
    }
  }

  lemma RingKnown(dic: seq<Byte>, pos: nat, past: seq<Byte>)
    requires Ring(dic, pos, past)
    ensures 0 < |dic| && pos <= |dic|
  {
  }

  // ---------------------------------------------------------------- matches

  /** `n` more bytes of a match have been copied. */
  lemma PendingLess(p: Props, z: Lz, past: seq<Byte>, rem: nat, n: nat)
    requires Pending(p, z, past, rem) && 0 < n <= rem
    ensures 1 <= z.regs.rep0 <= |past| && Pending(p, z, Copied(past, z.regs.rep0, n), rem - n)
  {
    hide Copied;
    CopiedNone(Copied(past, z.regs.rep0, n), z.regs.rep0);
    CopiedInParts(past, z.regs.rep0, n, rem - n);
  }

  /** The limit does not lie beyond the point where the dictionary is full for the first time. */
  predicate LimitOk(p: Props, check: nat, written: nat, pos: nat, limit: nat, size: nat) {
    pos <= limit <= size && (check == 0 ==> written + (limit - pos) <= p.dicSize)
  }

  lemma TrackedMatch(d: LzmaDec, p: Props, z: Lz, past: seq<Byte>, rem: nat)
    requires Tracks(d, p, z, past, rem) && rem > 0
    ensures d.rep0 == z.regs.rep0 && 1 <= d.rep0 <= |past| && d.rep0 <= d.dic.Length
    ensures d.dicPos <= d.dic.Length && d.processedPos == |past| % WORD
    ensures d.checkDicSize == 0 ==> d.processedPos == |past| <= p.dicSize
  {
    hide Sound, Copied;
    TrackedProps(d, p, z, past, rem);
    FarFits(p, d.dic.Length, d.dicPos, past);
  }

  lemma TrackedProps(d: LzmaDec, p: Props, z: Lz, past: seq<Byte>, rem: nat)
    requires Tracks(d, p, z, past, rem)
    ensures PropsOk(p) && d.dicPos <= d.dic.Length && z.regs.state < 12
  {
  }

  /** Copies a match into the dictionary, up to the limit. */
  method CopyMatch(d: LzmaDec, limit: nat, len: nat, ghost p: Props, ghost z: Lz, ghost past: seq<Byte>)
    returns (left: nat, ghost now: seq<Byte>)
    requires Tracks(d, p, z, past, len) && len > 0 && d.dicPos < limit
    requires LimitOk(p, d.checkDicSize, |past|, d.dicPos, limit, d.dic.Length)
    modifies d.dic, d`dicPos, d`processedPos
    ensures Tracks(d, p, z, now, left) && left < len && past <= now && |now| == |past| + (len - left)
    ensures d.dicPos == old(d.dicPos) + (len - left) <= limit && (left > 0 ==> d.dicPos == limit)
  {
    hide Ring, Sound, Pending, Copied;
    TrackedMatch(d, p, z, past, len);
    var rem := limit - d.dicPos;
    var curLen := if rem < len then rem else len;
    PendingLess(p, z, past, len, curLen);
    now := Copied(past, d.rep0, curLen);
    WordSum(|past|, curLen);
    d.processedPos := (d.processedPos + curLen) % WORD;
    left := len - curLen;
    CopyEither(d, curLen, past);
  }

  lemma WordSum(a: nat, b: nat)
    ensures (a % WORD + b) % WORD == (a + b) % WORD
  {
  }

  method CopyEither(d: LzmaDec, curLen: nat, ghost past: seq<Byte>)
    requires Ring(d.dic[..], d.dicPos, past) && 1 <= d.rep0 <= |past| && d.rep0 <= d.dic.Length
    requires 0 < curLen && d.dicPos + curLen <= d.dic.Length
    modifies d.dic, d`dicPos
    ensures d.dicPos == old(d.dicPos) + curLen && Ring(d.dic[..], d.dicPos, Copied(past, d.rep0, curLen))
  {
    hide Ring, Copied;
    RingRead(d.dic[..], d.dicPos, past, d.rep0);
    var pos := d.dicPos - d.rep0 + if d.dicPos < d.rep0 then d.dic.Length else 0;
    if curLen <= d.dic.Length - pos {
      CopyStraight(d, pos, curLen, past);
    } else {
      CopyAround(d, pos, curLen, past);
    }
  }

  /** Goes on with a match that was interrupted. */
  method WriteRem(d: LzmaDec, limit: nat, remainLen: nat, dicSize: nat, ghost p: Props, ghost z: Lz, ghost past: seq<Byte>)
    returns (left: nat, ghost now: seq<Byte>)
    requires Tracks(d, p, z, past, remainLen) && d.dicPos <= limit <= d.dic.Length && dicSize == p.dicSize
    modifies d.dic, d`dicPos, d`processedPos, d`checkDicSize
    ensures Tracks(d, p, z, now, left) && left <= remainLen && past <= now && |now| == |past| + (remainLen - left)
    ensures d.dicPos == old(d.dicPos) + (remainLen - left) <= limit && (left > 0 ==> d.dicPos == limit)
    ensures (old(d.checkDicSize) == 0 ==> |past| < p.dicSize) ==> (d.checkDicSize == 0 ==> |now| < p.dicSize)
  {
    hide Ring, Sound, Pending, Copied;
    left, now := remainLen, past;
    if remainLen == 0 || limit == d.dicPos {
      return;
    }
    TrackedMatch(d, p, z, past, remainLen);
    var len := if limit - d.dicPos < remainLen then limit - d.dicPos else remainLen;
    PendingLess(p, z, past, remainLen, len);
    now := Copied(past, d.rep0, len);
    if d.checkDicSize == 0 && dicSize - d.processedPos <= len {
      d.checkDicSize := dicSize;
    }
    WordSum(|past|, len);
    d.processedPos := (d.processedPos + len) % WORD;
    left := remainLen - len;
    CopyRem(d, len, past);
  }

  /** The loop of that: every byte is looked up anew. */
  method CopyRem(d: LzmaDec, len: nat, ghost past: seq<Byte>)
    requires Ring(d.dic[..], d.dicPos, past) && 1 <= d.rep0 <= |past| && d.rep0 <= d.dic.Length
    requires d.dicPos + len <= d.dic.Length
    modifies d.dic, d`dicPos
    ensures d.dicPos == old(d.dicPos) + len && Ring(d.dic[..], d.dicPos, Copied(past, d.rep0, len))
  {
    hide Ring, Copied;
    CopyBegins(d.dic[..], d.dicPos, past, d.rep0);
    for i := 0 to len
      invariant d.dicPos == old(d.dicPos) + i && Ring(d.dic[..], d.dicPos, Copied(past, d.rep0, i))
    {
      RingRead(d.dic[..], d.dicPos, Copied(past, d.rep0, i), d.rep0);
      CopyStep(d.dic[..], d.dicPos, past, d.rep0, i, Source(d.dicPos, d.rep0, d.dic.Length));
      d.dic[d.dicPos] := d.dic[d.dicPos - d.rep0 + if d.dicPos < d.rep0 then d.dic.Length else 0];
      d.dicPos := d.dicPos + 1;
    }
  }

  // ---------------------------------------------------------------- the main loop

  datatype Ending = Fine | Marker | Broken

  /** A symbol that starts with twenty bytes at hand is not cut off. */
  lemma NotCutOff(p: Props, z: Lz, data: seq<Byte>)
    requires Sound(p, z) && z.rc.at + 20 <= |data|
    ensures PropsOk(p) && z.regs.state < 12 && Found(p, z, data).Some?
  {
    hide WetRun, Bounded, Opening, Pow2;
    EnoughInput(ContextOf(p, z), z.probs, z.rc, data);
  }

  lemma StillSound(p: Props, z: Lz, data: seq<Byte>)
    requires Sound(p, z) && z.rc.at <= |data| && PropsOk(p) && z.regs.state < 12 && Found(p, z, data).Some?
    ensures Symbol1(p, z, data).Next? ==> z.rc.at <= Symbol1(p, z, data).z.rc.at <= |data| && Symbol1(p, z, data).z.regs.state < 12
    ensures z.rc.at <= Found(p, z, data).value.rc.at <= |data|
  {
    hide WetRun, Bounded, Opening, Pow2, Apply;
    SymbolKeepsSound(p, z, data);
    WetSound(ContextOf(p, z), z.probs, z.rc, data);
  }

  lemma OneMore(p: Props, z0: Lz, z: Lz, data: seq<Byte>, k: nat)
    requires PropsOk(p) && z0.regs.state < 12 && z.regs.state < 12 && Symbols(p, z0, data, k) == Some(z)
    requires Symbol1(p, z, data).Next? && Symbol1(p, z, data).z.regs.state < 12
    ensures Symbols(p, z0, data, k + 1) == Some(Symbol1(p, z, data).z)
  {
    hide Symbol1;
  }

  /** One turn of the main loop: a symbol, and as much of its match as the limit allows. */
  method DecodeTurn(d: LzmaDec, limit: nat, data: seq<Byte>, ghost p: Props, ghost z: Lz)
    returns (len: nat, ghost now: seq<Byte>)
    requires Tracks(d, p, z, z.past, 0) && PropsOk(p) && z.regs.state < 12 && Found(p, z, data).Some?
    requires LimitOk(p, d.checkDicSize, |z.past|, d.dicPos, limit, d.dic.Length)
    requires d.dicPos < limit || ClassOf(Found(p, z, data).value.symbol) == DummyMatch
    modifies d`ctx, d`st, d`goal, d`range, d`code, d`at, d`state, d`dicPos, d`processedPos
    modifies d`rep0, d`rep1, d`rep2, d`rep3, d.probs, d.dic
    ensures z.past <= now && d.dicPos == old(d.dicPos) + (|now| - |z.past|) <= limit
    ensures match Symbol1(p, z, data)
            case Next(y) => len < MATCH_SPEC_LEN_START && Tracks(d, p, y, now, len) && (len > 0 ==> d.dicPos == limit)
            case Mark(rc, _) => len == MATCH_SPEC_LEN_START && now == z.past && d.Place() == rc
            case Bad => len >= ERROR_DATA && now == z.past
            case Starved => false
    ensures d.Place() == Found(p, z, data).value.rc && Ring(d.dic[..], d.dicPos, now)
    ensures old(d.dicPos) < limit && Symbol1(p, z, data).Next? ==> |now| > |z.past|
    ensures old(d.dicPos) == limit && Symbol1(p, z, data).Next? ==> len > 0
  {
    hide WetRun, Bounded, Opening, Pow2, Apply, Sound, Pending, Ring, LengthOf, Copied;
    SoundOf(d, p, z, z.past, 0);
    NextIs(p, z, data);
    BadWritesNothing(p, z, data);
    len, now := DecodeOne(d, data, p, z);
    if 0 < len < MATCH_SPEC_LEN_START && d.dicPos < limit {
      len, now := CopyMatch(d, limit, len, p, Symbol1(p, z, data).z, now);
    }
  }

  lemma SoundOf(d: LzmaDec, p: Props, z: Lz, past: seq<Byte>, rem: nat)
    requires Tracks(d, p, z, past, rem)
    ensures Sound(p, z)
  {
  }

  lemma BadWritesNothing(p: Props, z: Lz, data: seq<Byte>)
    requires Sound(p, z) && PropsOk(p) && z.regs.state < 12 && Found(p, z, data).Some?
    ensures z.past <= AtOnce(z, Found(p, z, data).value.symbol)
    ensures !Symbol1(p, z, data).Next? ==> AtOnce(z, Found(p, z, data).value.symbol) == z.past
    ensures LengthOf(Found(p, z, data).value.symbol, Far(p, z.past)) > 0 ==> AtOnce(z, Found(p, z, data).value.symbol) == z.past
    ensures LengthOf(Found(p, z, data).value.symbol, Far(p, z.past)) == 0 ==>
              |AtOnce(z, Found(p, z, data).value.symbol)| == |z.past| + 1
    ensures ClassOf(Found(p, z, data).value.symbol) == DummyMatch ==> LengthOf(Found(p, z, data).value.symbol, Far(p, z.past)) > 0
  {
    hide WetRun, Bounded, Opening, Pow2, Copied;
    RepIsGood(p, z, data);
  }

  /** Decodes symbols until the limit of the output or that of the input is reached; at least one. */
  method DecodeReal(d: LzmaDec, limit: nat, bufLimit: nat, data: seq<Byte>, ghost p: Props, ghost z0: Lz)
    returns (res: Ending, remain: nat, ghost k: nat, ghost z: Lz, ghost now: seq<Byte>)
    requires Tracks(d, p, z0, z0.past, 0) && PropsOk(p) && z0.regs.state < 12 && Found(p, z0, data).Some?
    requires LimitOk(p, d.checkDicSize, |z0.past|, d.dicPos, limit, d.dic.Length)
    requires d.dicPos < limit || ClassOf(Found(p, z0, data).value.symbol) == DummyMatch
    requires z0.rc.at <= |data| && (bufLimit <= z0.rc.at || bufLimit + 20 <= |data|)
    modifies d`ctx, d`st, d`goal, d`range, d`code, d`at, d`state, d`dicPos, d`processedPos
    modifies d`rep0, d`rep1, d`rep2, d`rep3, d.probs, d.dic
    ensures Symbols(p, z0, data, k) == Some(z) && z.regs.state < 12 && z0.past <= now <= z.past
    ensures d.dicPos == old(d.dicPos) + (|now| - |z0.past|) <= limit && Ring(d.dic[..], d.dicPos, now)
    ensures res == Fine ==> k > 0 && Tracks(d, p, z, now, remain) && remain < MATCH_SPEC_LEN_START
    ensures res == Fine ==> (remain > 0 ==> d.dicPos == limit) && (d.dicPos == limit || d.at >= bufLimit)
    ensures res == Fine ==> z0.rc.at <= z.rc.at && (old(d.dicPos) < limit ==> |now| > |z0.past|)
    ensures res == Fine && old(d.dicPos) == limit ==> remain > 0
    ensures res == Marker ==> Symbol1(p, z, data).Mark? && Symbol1(p, z, data).rc == d.Place() && now == z.past
    ensures res == Marker ==> remain == MATCH_SPEC_LEN_START
    ensures res == Broken ==> Symbol1(p, z, data) == Bad && now == z.past
    ensures z0.rc.at <= d.at <= |data|
    ensures bufLimit <= z0.rc.at ==> d.at == Found(p, z0, data).value.rc.at
  {
    hide WetRun, Bounded, Opening, Pow2, Apply, Sound, Pending, Ring, Symbol1, Found, Symbols;
    NoSymbols(p, z0, data);
    k, z, now, remain := 0, z0, z0.past, 0;
    while true
      invariant Tracks(d, p, z, z.past, 0) && now == z.past && z0.past <= now && z.regs.state < 12 && Found(p, z, data).Some?
      invariant Symbols(p, z0, data, k) == Some(z) && d.dicPos == old(d.dicPos) + (|now| - |z0.past|)
      invariant LimitOk(p, d.checkDicSize, |z.past|, d.dicPos, limit, d.dic.Length)
      invariant d.dicPos < limit || ClassOf(Found(p, z, data).value.symbol) == DummyMatch
      invariant z0.rc.at <= z.rc.at <= |data| && (bufLimit <= z.rc.at || bufLimit + 20 <= |data|)
      invariant k > 0 ==> z.rc.at < bufLimit && |now| > |z0.past|
      invariant k == 0 ==> z == z0
      decreases limit - d.dicPos
    {
      SoundOf(d, p, z, z.past, 0);
      StillSound(p, z, data);
      ghost var a := Symbol1(p, z, data);
      remain, now := DecodeTurn(d, limit, data, p, z);
      if remain >= MATCH_SPEC_LEN_START {
        res := if remain == MATCH_SPEC_LEN_START then Marker else Broken;
        return;
      }
      OneMore(p, z0, z, data, k);
      k, z := k + 1, a.z;
      PendingPrefix(d, p, z, now, remain);
      if d.dicPos >= limit || d.at >= bufLimit {
        return Fine, remain, k, z, now;
      }
      SoundOf(d, p, z, now, remain);
      NotCutOff(p, z, data);
    }
  }

  lemma NoSymbols(p: Props, z: Lz, data: seq<Byte>)
    requires PropsOk(p) && z.regs.state < 12
    ensures Symbols(p, z, data, 0) == Some(z)
  {
  }

  lemma PendingPrefix(d: LzmaDec, p: Props, z: Lz, past: seq<Byte>, rem: nat)
    requires Tracks(d, p, z, past, rem)
    ensures past <= z.past && (rem == 0 ==> past == z.past) && d.at == z.rc.at
  {
    hide Sound, Ring;
  }

  /** The same with a limit that keeps apart the symbols before and after the dictionary is full for the first time. */
  method DecodeReal2(d: LzmaDec, limit: nat, bufLimit: nat, data: seq<Byte>, dicSize: nat, ghost p: Props, ghost z0: Lz)
    returns (res: Ending, remain: nat, ghost k: nat, ghost z: Lz, ghost now: seq<Byte>)
    requires Tracks(d, p, z0, z0.past, 0) && PropsOk(p) && z0.regs.state < 12 && Found(p, z0, data).Some?
    requires d.dicPos <= limit <= d.dic.Length && dicSize == p.dicSize && (d.checkDicSize == 0 ==> |z0.past| < dicSize)
    requires d.dicPos < limit || ClassOf(Found(p, z0, data).value.symbol) == DummyMatch
    requires z0.rc.at <= |data| && (bufLimit <= z0.rc.at || bufLimit + 20 <= |data|)
    modifies d`ctx, d`st, d`goal, d`range, d`code, d`at, d`state, d`dicPos, d`processedPos
    modifies d`rep0, d`rep1, d`rep2, d`rep3, d.probs, d.dic, d`checkDicSize
    ensures Symbols(p, z0, data, k) == Some(z) && z.regs.state < 12 && z0.past <= now <= z.past
    ensures d.dicPos == old(d.dicPos) + (|now| - |z0.past|) <= limit && Ring(d.dic[..], d.dicPos, now)
    ensures res == Fine ==> k > 0 && Tracks(d, p, z, now, remain) && remain < MATCH_SPEC_LEN_START
    ensures res == Fine ==> d.checkDicSize == 0 ==> |now| < p.dicSize
    ensures res == Fine ==> z0.rc.at <= z.rc.at && (old(d.dicPos) < limit ==> |now| > |z0.past|)
    ensures res == Fine && old(d.dicPos) == limit ==> remain > 0
    ensures res == Marker ==> Symbol1(p, z, data).Mark? && Symbol1(p, z, data).rc == d.Place() && now == z.past
    ensures res == Marker ==> remain == MATCH_SPEC_LEN_START
    ensures res == Broken ==> Symbol1(p, z, data) == Bad && now == z.past
    ensures z0.rc.at <= d.at <= |data|
    ensures bufLimit <= z0.rc.at ==> d.at == Found(p, z0, data).value.rc.at
  {
    hide WetRun, Bounded, Opening, Pow2, Apply, Pending, Ring, Symbol1, Found, Symbols, Sound;
    TrackedPosition(d, p, z0, z0.past, 0);
    var stop := limit;
    if d.checkDicSize == 0 {
      var rem := dicSize - d.processedPos;
      if limit - d.dicPos > rem {
        stop := d.dicPos + rem;
      }
    }
    res, remain, k, z, now := DecodeReal(d, stop, bufLimit, data, p, z0);
    if res == Fine {
      TrackedPosition(d, p, z, now, remain);
    }
    if d.checkDicSize == 0 && d.processedPos >= dicSize {
      d.checkDicSize := dicSize;
    }
  }

  lemma TrackedPosition(d: LzmaDec, p: Props, z: Lz, past: seq<Byte>, rem: nat)
    requires Tracks(d, p, z, past, rem)
    ensures d.checkDicSize == 0 ==> d.processedPos == |past| <= p.dicSize < WORD
    ensures d.checkDicSize != 0 ==> d.checkDicSize == p.dicSize <= |past|
  {
    hide Ring, Pending, Bounded, Opening, Pow2;
  }
}
