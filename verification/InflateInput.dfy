/** Inflate's bit reservoir over the input of the current call. */
module InflateInput {
  import opened Bits
  import opened LowBits

  class Reader {
    var data: seq<Byte>
    var at: nat
    var bits: nat
    var available: nat
    ghost var later: seq<Byte>   // what later calls will supply
    ghost var unread: seq<Byte>  // the stream from data[at] on, including that
    ghost var ahead: seq<bool>   // all bits of the stream from here on

    ghost predicate Valid()
      reads this
    {
      && at <= |data| && unread == data[at..] + later && bits < Pow2(available) && available <= 56
      && ahead == LowWord(bits, available) + LowBitsOf(unread)
    }

    constructor (ghost stream: seq<Byte>)
      ensures Valid() && available == 0 && unread == stream && ahead == LowBitsOf(stream) && data == []
    {
      data, at, bits, available := [], 0, 0, 0;
      later, unread, ahead := stream, stream, LowBitsOf(stream);
      new;
      assert Pow2(0) == 1;
    }

    /** Supplies the next part of the stream. */
    method Attach(input: seq<Byte>, ghost more: seq<Byte>)
      requires Valid() && unread == input + more
      modifies this`data, this`at, this`later
      ensures Valid() && data == input && at == 0 && later == more
    {
      hide LowWord, LowBitsOf, Pow2;
      data, at, later := input, 0, more;
    }

    /** Once all input has been read, the bits at hand are all there are, unless later calls supply more. */
    lemma NothingElse()
      requires Valid()
      ensures LowWord(bits, available) <= ahead && |ahead| == available + 8 * |unread| && |ahead| % 8 == available % 8
      ensures at == |data| && later == [] ==> ahead == LowWord(bits, available) && |ahead| == available
    {
      hide LowWord, Pow2;
    }

    /** Makes at least `n` bits available, if the input has them. */
    method Ensure(n: nat) returns (ok: bool)
      requires Valid() && n <= 49
      modifies this`bits, this`available, this`at, this`unread
      ensures Valid() && ok == (available >= n) && available >= old(available)
      ensures !ok ==> at == |data|
      ensures LowWord(old(bits), old(available)) <= LowWord(bits, available)
    {
      hide LowWord, LowBitsOf, Pow2;
      while available < n
        invariant Valid() && available >= old(available)
        invariant LowWord(old(bits), old(available)) <= LowWord(bits, available)
        decreases n + 8 - available
      {
        if at == |data| {
          return false;
        }
        FirstUnread(data, at, later);
        LoadByte(bits, available, unread);
        bits := bits + data[at] * Pow2(available);
        at := at + 1;
        available := available + 8;
        unread := unread[1..];
      }
      return true;
    }

    /** Removes `n` bits, which are available. */
    method Take(n: nat) returns (v: nat)
      requires Valid() && n <= available
      modifies this`bits, this`available, this`ahead
      ensures Valid() && available == old(available) - n
      ensures n <= |old(ahead)| && ahead == old(ahead)[n..]
      ensures v == LowValue(old(ahead)[..n]) && v < Pow2(n)
    {
      hide LowWord, LowBitsOf, Pow2, LowValue;
      TakeBits(bits, available, n, LowBitsOf(unread));
      v := bits % Pow2(n);
      bits := bits / Pow2(n);
      available := available - n;
      ahead := ahead[n..];
    }

    /** Returns the whole bytes in the reservoir, and keeps the bits before them. */
    method Flush() returns (bytes: seq<Byte>)
      requires Valid()
      modifies this`available
      ensures available == old(available) % 8 && |bytes| == old(available) / 8
      ensures ahead == LowWord(old(bits), available) + LowBitsOf(bytes + unread)
    {
      hide LowWord, LowBitsOf, Pow2, LowValue;
      var keep := available % 8;
      bytes := [];
      Pow2Eight();
      while |bytes| < available / 8
        invariant |bytes| <= available / 8 && available == old(available)
        invariant LowWord(bits, keep + 8 * |bytes|) == LowWord(bits, keep) + LowBitsOf(bytes)
      {
        var count := |bytes|;
        NextByte(bits, keep, count, bytes);
        bytes := bytes + [bits / Pow2(count * 8 + keep) % 256];
      }
      LowBitsConcat(bytes, unread);
      Associate(LowWord(bits, keep), LowBitsOf(bytes), LowBitsOf(unread));
      available := keep;
    }
  }

  lemma FirstUnread(data: seq<Byte>, at: nat, later: seq<Byte>)
    requires at < |data|
    ensures var unread := data[at..] + later;
            unread != [] && unread[0] == data[at] && unread[1..] == data[at + 1..] + later
  {
  }

  /** Putting the next byte above the available bits keeps the stream. */
  lemma LoadByte(bits: nat, available: nat, unread: seq<Byte>)
    requires bits < Pow2(available) && unread != []
    ensures var b := unread[0] * Pow2(available);
            && LowWord(bits + b, available + 8) == LowWord(bits, available) + LowWord(unread[0], 8)
            && LowWord(bits + b, available + 8) + LowBitsOf(unread[1..]) == LowWord(bits, available) + LowBitsOf(unread)
            && bits + b < Pow2(available + 8)
  {
    hide LowWord, Pow2;
    LowWordAppend(bits, unread[0], available, 8);
    Associate(LowWord(bits, available), LowWord(unread[0], 8), LowBitsOf(unread[1..]));
    Pow2Add(8, available);
    Pow2Eight();
    ByteFits(bits, unread[0], Pow2(available));
  }

  lemma ByteFits(bits: nat, b: nat, p: nat)
    requires bits < p && b < 256
    ensures bits + b * p < 256 * p
  {
    assert (b + 1) * p <= 256 * p;
    assert (b + 1) * p == b * p + p;
  }

  lemma TakeBits(bits: nat, available: nat, n: nat, more: seq<bool>)
    requires bits < Pow2(available) && n <= available
    ensures var ahead := LowWord(bits, available) + more;
            && ahead[n..] == LowWord(bits / Pow2(n), available - n) + more
            && bits % Pow2(n) == LowValue(ahead[..n]) && bits % Pow2(n) < Pow2(n)
            && bits / Pow2(n) < Pow2(available - n)
  {
    hide LowWord, Pow2, LowValue;
    LowWordSplit(bits, n, available - n);
    assert n + (available - n) == available;
    LowValueOfWord(bits % Pow2(n), n);
    assert (LowWord(bits, available) + more)[..n] == LowWord(bits, available)[..n];
    assert (LowWord(bits, available) + more)[n..] == LowWord(bits, available)[n..] + more;
    Pow2Add(available - n, n);
    QuotientBound(bits, Pow2(available - n), Pow2(n));
  }

  lemma NextByte(bits: nat, keep: nat, count: nat, bytes: seq<Byte>)
    requires LowWord(bits, keep + 8 * count) == LowWord(bits, keep) + LowBitsOf(bytes)
    ensures var b := bits / Pow2(count * 8 + keep) % 256;
            LowWord(bits, keep + 8 * (count + 1)) == LowWord(bits, keep) + LowBitsOf(bytes + [b])
  {
    hide LowWord, Pow2, LowBitsOf;
    var n := keep + 8 * count;
    var q := bits / Pow2(n);
    var b: Byte := q % 256;
    Pow2Eight();
    LowWordSplit(bits, n, 8);
    LowWordSplit(bits, n, 0);
    LowWordOfRemainder(bits, n);
    LowWordOfRemainder(q, 8);
    assert LowWord(bits, n + 8) == LowWord(bits, n + 8)[..n] + LowWord(bits, n + 8)[n..];
    LowBitsConcat(bytes, [b]);
    OneByte(b);
    Associate(LowWord(bits, keep), LowBitsOf(bytes), LowWord(b, 8));
  }

  lemma OneByte(b: Byte)
    ensures LowBitsOf([b]) == LowWord(b, 8)
  {
    hide LowWord;
    assert LowBitsOf([b]) == LowWord(b, 8) + LowBitsOf([]);
  }

  lemma LowWordOfRemainder(c: nat, n: nat)
    ensures LowWord(c, n) == LowWord(c % Pow2(n), n)
  {
    hide LowWord, Pow2;
    LowWordSplit(c, n, 0);
    assert LowWord(c, n)[..n] == LowWord(c, n);
  }
}
