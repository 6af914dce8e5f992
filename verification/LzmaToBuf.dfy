/** Decoding into a buffer of the caller: the dictionary starts anew when it is full. */
module LzmaToBuf {
  import opened Bits
  import opened LowBits
  import opened LzmaStream
  import opened LzmaOutput
  import opened LzmaDec
  import opened LzmaBuffer

  /** A full dictionary and an empty one are at the same place of the ring. */
  lemma RingWraps(dic: seq<Byte>, past: seq<Byte>)
    requires Ring(dic, |dic|, past)
    ensures Ring(dic, 0, past)
  {
  }

  method WrapStarting(m: Decoder)
    requires m.Starting() && m.dicSize <= m.d.dic.Length && m.d.dicPos == m.d.dic.Length
    modifies m.d`dicPos
    ensures m.Starting() && m.d.dicPos == 0 && m.Shows()
  {
    hide Ring;
    RingWraps(m.d.dic[..], []);
    m.d.dicPos := 0;
  }

  method WrapStanding(m: Decoder)
    requires m.Standing() && m.dicSize <= m.d.dic.Length && m.d.dicPos == m.d.dic.Length
    modifies m.d`dicPos
    ensures m.Standing() && m.d.dicPos == 0 && m.Shows()
  {
    hide Ring, Sound, Pending, FromStart;
    RingWraps(m.d.dic[..], m.g.past);
    m.d.dicPos := 0;
  }

  method WrapMarked(m: Decoder)
    requires m.AtMark() && m.d.dicPos == m.d.dic.Length
    modifies m.d`dicPos
    ensures m.AtMark() && m.d.dicPos == 0 && m.Shows()
  {
    hide Ring, FromStart, Symbol1;
    RingWraps(m.d.dic[..], m.g.past);
    m.d.dicPos := 0;
  }

  /** Starting the dictionary anew keeps the decoder valid, with the same output so far, if the distances that the
      stream may use fit into the dictionary. */
  method Wrap(m: Decoder)
    requires m.Valid() && m.dicSize <= m.d.dic.Length && m.d.dicPos == m.d.dic.Length
    modifies m.d`dicPos
    ensures m.Valid() && m.d.dicPos == 0 && m.Shows()
  {
    hide Decoder.Starting, Decoder.Standing, Decoder.AtMark, Decoder.Needed, Decoder.Shows;
    if m.remainLen > MATCH_SPEC_LEN_START {
      m.OnlyStarting();
      WrapStarting(m);
    } else if m.remainLen == MATCH_SPEC_LEN_START {
      m.OnlyMarked();
      WrapMarked(m);
    } else {
      m.OnlyOnTheWay();
      WrapStanding(m);
    }
  }

  lemma OneBack(dic: seq<Byte>, pos: nat, past: seq<Byte>, back: nat)
    requires Ring(dic, pos, past) && 1 <= back <= pos && back <= |past|
    ensures dic[pos - back] == past[|past| - back]
  {
    hide Ring;
    assert pos <= |dic| by { RingSize(dic, pos, past); }
    RingRead(dic, pos, past, back);
  }

  lemma RingSize(dic: seq<Byte>, pos: nat, past: seq<Byte>)
    requires Ring(dic, pos, past)
    ensures 0 < |dic| && pos <= |dic|
  {
  }

  /** The end of the output lies in the dictionary before the writing position. */
  lemma RingTail(dic: seq<Byte>, pos: nat, past: seq<Byte>, n: nat)
    requires Ring(dic, pos, past) && n <= pos <= |dic| && n <= |past|
    ensures dic[pos - n..pos] == past[|past| - n..]
  {
    hide Ring;
    var a, b := dic[pos - n..pos], past[|past| - n..];
    forall i | 0 <= i < n ensures a[i] == b[i] {
      OneBack(dic, pos, past, n - i);
    }
  }

  /** What a call has left can go on, unless it was an error. */
  lemma OkIsValid(m: Decoder, status: LzmaStatus, dicLimit: nat, finishEnd: bool, all: bool)
    requires m.Means(Ok, status, dicLimit, finishEnd, all)
    ensures m.Valid()
  {
    hide Decoder.Starting, Decoder.Standing, Decoder.AtMark, Decoder.Needed, Found;
  }

  /** Copies `n` bytes from the dictionary. */
  method CopyOut(dest: array<Byte>, at: nat, dic: array<Byte>, from: nat, n: nat)
    requires dest != dic && at + n <= dest.Length && from + n <= dic.Length
    modifies dest
    ensures dest[..at + n] == old(dest[..at]) + dic[from..from + n] && dest[at + n..] == old(dest[at + n..])
  {
    for i := 0 to n
      invariant dest[..at] == old(dest[..at]) && dest[at..at + i] == dic[from..from + i]
      invariant dest[at + n..] == old(dest[at + n..])
    {
      dest[at + i] := dic[from + i];
    }
    assert dest[..at + n] == dest[..at] + dest[at..at + n];
  }

  /** What a call means does not depend on the mode of finishing when it stops before its limit, and else only on where
      the limit is. */
  lemma MeansAlso(m: Decoder, res: SRes, status: LzmaStatus, dicLimit: nat, finish: bool, finishEnd: bool, all: bool)
    requires m.Means(res, status, dicLimit, finish, all) && (finish == finishEnd || (!finish && m.d.dicPos != dicLimit))
    ensures m.Means(res, status, m.d.dicPos, finishEnd, all)
    ensures status.NotFinished? || status.MaybeFinishedWithoutMark? ==> m.d.dicPos == dicLimit
  {
    hide Decoder.Starting, Decoder.Standing, Decoder.AtMark, Decoder.Needed, Decoder.Defective, Found;
  }

  lemma MeansError(m: Decoder, status: LzmaStatus, dicLimit: nat, finishEnd: bool, all: bool)
    requires m.Means(DataError, status, dicLimit, false, all)
    ensures status == NotSpecified && m.Means(DataError, status, m.d.dicPos, finishEnd, all)
  {
    hide Decoder.Starting, Decoder.Standing, Decoder.AtMark, Decoder.Needed, Decoder.Defective, Found;
  }

  lemma ValidSize(m: Decoder)
    requires m.Valid()
    ensures m.d.dicPos <= m.d.dic.Length && m.d.dic.Length > 0
  {
    hide Decoder.Standing, Decoder.AtMark, Decoder.Needed, Ring;
    if m.remainLen > MATCH_SPEC_LEN_START {
      m.OnlyStarting();
      RingSize(m.d.dic[..], m.d.dicPos, []);
    } else {
      m.NotStarting();
      m.ShownBefore();
      RingSize(m.d.dic[..], m.d.dicPos, m.g.past);
    }
  }

  /** One turn: up to the end of the dictionary, or of the buffer. */
  method DecodePart(m: Decoder, dest: array<Byte>, at: nat, outSize: nat, src: seq<Byte>, from: nat, finishEnd: bool,
                    ghost start: nat)
    returns (res: SRes, status: LzmaStatus, n: nat, used: nat)
    requires m.Valid() && m.dicSize <= m.d.dic.Length && at <= outSize <= dest.Length
    requires dest != m.d.dic && dest != m.tempBuf && from <= |src|
    requires m.g.taken == start + from && start + |src| <= |m.g.stream| && src == m.g.stream[start..start + |src|]
    modifies m`tempBufSize, m`remainLen, m`g, m.tempBuf, m.d, m.d.dic, m.d.probs, dest
    ensures from <= used <= |src| && m.g.stream == old(m.g.stream) && m.g.taken == start + used
    ensures at + n <= outSize && dest[..at] == old(dest[..at]) && dest[outSize..] == old(dest[outSize..])
    ensures m.g.past == old(m.g.past) + dest[at..at + n]
    ensures res != Fail && (res == Ok ==> m.Valid())
    ensures res != Ok || n == 0 || at + n == outSize ==>
              && m.Means(res, status, m.d.dicPos, finishEnd, used == |src|)
              && (status.NotFinished? || status.MaybeFinishedWithoutMark? ==> at + n == outSize)
  {
    hide Decoder.Valid, Decoder.Means, Decoder.Shows, Ring, Found;
    ValidSize(m);
    if m.d.dicPos == m.d.dic.Length {
      Wrap(m);
    }
    var pos := m.d.dicPos;
    var limit, finish := pos + (outSize - at), finishEnd;
    if outSize - at > m.d.dic.Length - pos {
      limit, finish := m.d.dic.Length, false;
    }
    var taken;
    ghost var before := m.g.past;
    res, status, taken := m.DecodeToDic(limit, src[from..], finish);
    used := from + taken;
    n := m.d.dicPos - pos;
    CopyNew(m, dest, at, pos, n, before);
    if res == Ok {
      OkIsValid(m, status, limit, finish, taken == |src[from..]|);
    }
    if res != Ok && !finish {
      MeansError(m, status, limit, finishEnd, taken == |src[from..]|);
    } else if finish == finishEnd || m.d.dicPos != limit {
      MeansAlso(m, res, status, limit, finish, finishEnd, taken == |src[from..]|);
    }
  }

  /** Copies what has been written since `before`. */
  method CopyNew(m: Decoder, dest: array<Byte>, at: nat, pos: nat, n: nat, ghost before: seq<Byte>)
    requires m.Shows() && m.d.dicPos == pos + n <= m.d.dic.Length && before <= m.g.past && |m.g.past| == |before| + n
    requires dest != m.d.dic && at + n <= dest.Length
    modifies dest
    ensures dest[..at] == old(dest[..at]) && dest[at + n..] == old(dest[at + n..])
    ensures m.g.past == before + dest[at..at + n]
  {
    hide Ring;
    RingTail(m.d.dic[..], m.d.dicPos, m.g.past, n);
    CopyOut(dest, at, m.d.dic, pos, n);
    assert dest[at..at + n] == dest[..at + n][at..];
    assert m.g.past == before + m.g.past[|before|..];
  }

  /** Decodes the next part of the stream into a buffer, and starts the dictionary anew as often as it is full. */
  method DecodeToBuf(m: Decoder, dest: array<Byte>, outSize: nat, src: seq<Byte>, finishEnd: bool)
    returns (res: SRes, status: LzmaStatus, used: nat, written: nat)
    requires m.Valid() && m.dicSize <= m.d.dic.Length && outSize <= dest.Length
    requires dest != m.d.dic && dest != m.tempBuf
    requires m.g.taken + |src| <= |m.g.stream| && src == m.g.stream[m.g.taken..m.g.taken + |src|]
    modifies m`tempBufSize, m`remainLen, m`g, m.tempBuf, m.d, m.d.dic, m.d.probs, dest
    ensures used <= |src| && m.g.stream == old(m.g.stream) && m.g.taken == old(m.g.taken) + used
    ensures written <= outSize && m.g.past == old(m.g.past) + dest[..written] && dest[outSize..] == old(dest[outSize..])
    ensures res != Fail && m.Means(res, status, m.d.dicPos, finishEnd, used == |src|)
    ensures status.NotFinished? || status.MaybeFinishedWithoutMark? ==> written == outSize
  {
    hide Decoder.Valid, Decoder.Means, Decoder.Shows, Ring;
    used, written := 0, 0;
    while true
      invariant used <= |src| && m.g.stream == old(m.g.stream) && m.g.taken == old(m.g.taken) + used
      invariant written <= outSize && m.g.past == old(m.g.past) + dest[..written] && dest[outSize..] == old(dest[outSize..])
      invariant m.Valid()
      decreases outSize - written
    {
      var n;
      res, status, n, used := DecodePart(m, dest, written, outSize, src, used, finishEnd, old(m.g.taken));
      written := written + n;
      if res != Ok || n == 0 || written == outSize {
        return;
      }
    }
  }
}
