/** Byte buffers as words and halfwords, in either byte order. */
module MachineWords {
  import opened LowBits
  import opened BranchFilters

  function WordAt(b: seq<Byte>, at: nat, big: bool): Word
    requires at + 4 <= |b|
  {
    if big then Joined(b[at], b[at + 1], b[at + 2], b[at + 3]) else Joined(b[at + 3], b[at + 2], b[at + 1], b[at])
  }

  /** Four bytes, the most significant one first. */
  function Joined(p: Byte, q: Byte, r: Byte, s: Byte): Word { p * 0x100_0000 + q * 0x1_0000 + r * 0x100 + s }

  /** The whole words of a buffer; up to three bytes at the end are not part of them. */
  function WordsIn(b: seq<Byte>, big: bool): (w: seq<Word>)
    ensures |w| == |b| / 4 && forall i :: 0 <= i < |b| / 4 ==> w[i] == WordAt(b, 4 * i, big)
  {
    seq(|b| / 4, i requires 0 <= i < |b| / 4 => WordAt(b, 4 * i, big))
  }

  lemma JoinedInjective(p: Byte, q: Byte, r: Byte, s: Byte, p': Byte, q': Byte, r': Byte, s': Byte)
    requires Joined(p, q, r, s) == Joined(p', q', r', s')
    ensures p == p' && q == q' && r == r' && s == s'
  {
  }

  lemma Split(v: Word) returns (p: Byte, q: Byte, r: Byte, s: Byte)
    ensures p == v / 0x100_0000 && q == v / 0x1_0000 % 0x100 && r == v / 0x100 % 0x100 && s == v % 0x100
    ensures Joined(p, q, r, s) == v
  {
    p, q, r, s := v / 0x100_0000, v / 0x1_0000 % 0x100, v / 0x100 % 0x100, v % 0x100;
    var x, y := v / 0x1_0000, v / 0x100;
    assert x == p * 0x100 + q && y == x * 0x100 + r && v == y * 0x100 + s;
  }

  /** Words and the bytes behind them make up the buffer. */
  lemma WordsDecide(a: seq<Byte>, b: seq<Byte>, big: bool)
    requires |a| == |b| && WordsIn(a, big) == WordsIn(b, big) && a[|a| / 4 * 4..] == b[|b| / 4 * 4..]
    ensures a == b
  {
    hide Joined, WordsIn;
    forall k | 0 <= k < |a| ensures a[k] == b[k] {
      if k < |a| / 4 * 4 {
        SameWord(a, b, k / 4, big);
        assert k == k / 4 * 4 + k % 4;
      } else {
        assert a[k] == a[|a| / 4 * 4..][k - |a| / 4 * 4];
      }
    }
  }

  lemma SameWord(a: seq<Byte>, b: seq<Byte>, i: nat, big: bool)
    requires |a| == |b| && WordsIn(a, big) == WordsIn(b, big) && i < |a| / 4
    ensures 4 * i + 4 <= |a| && a[4 * i] == b[4 * i] && a[4 * i + 1] == b[4 * i + 1]
    ensures a[4 * i + 2] == b[4 * i + 2] && a[4 * i + 3] == b[4 * i + 3]
  {
    hide Joined;
    var k := 4 * i;
    assert WordAt(a, k, big) == WordsIn(a, big)[i] && WordAt(b, k, big) == WordsIn(b, big)[i];
    if big {
      JoinedInjective(a[k], a[k + 1], a[k + 2], a[k + 3], b[k], b[k + 1], b[k + 2], b[k + 3]);
    } else {
      JoinedInjective(a[k + 3], a[k + 2], a[k + 1], a[k], b[k + 3], b[k + 2], b[k + 1], b[k]);
    }
  }

  method GetWord(data: array<Byte>, i: nat, big: bool) returns (v: Word)
    requires i < data.Length / 4
    ensures v == WordsIn(data[..], big)[i]
  {
    hide Joined;
    var k := 4 * i;
    v := if big then Joined(data[k], data[k + 1], data[k + 2], data[k + 3])
         else Joined(data[k + 3], data[k + 2], data[k + 1], data[k]);
  }

  method SetWord(data: array<Byte>, i: nat, big: bool, v: Word)
    requires i < data.Length / 4
    modifies data
    ensures WordsIn(data[..], big) == old(WordsIn(data[..], big))[i := v]
    ensures data[data.Length / 4 * 4..] == old(data[data.Length / 4 * 4..])
  {
    hide Joined;
    ghost var before := data[..];
    ghost var p, q, r, s := Split(v);
    var k := 4 * i;
    if big {
      data[k], data[k + 1], data[k + 2], data[k + 3] := v / 0x100_0000, v / 0x1_0000 % 0x100, v / 0x100 % 0x100, v % 0x100;
    } else {
      data[k + 3], data[k + 2], data[k + 1], data[k] := v / 0x100_0000, v / 0x1_0000 % 0x100, v / 0x100 % 0x100, v % 0x100;
    }
    OneWordSet(before, data[..], i, big, v);
  }

  lemma OneWordSet(a: seq<Byte>, b: seq<Byte>, i: nat, big: bool, v: Word)
    requires |a| == |b| && i < |a| / 4 && WordAt(b, 4 * i, big) == v
    requires forall k :: 0 <= k < |a| && !(4 * i <= k < 4 * i + 4) ==> b[k] == a[k]
    ensures WordsIn(b, big) == WordsIn(a, big)[i := v] && b[|b| / 4 * 4..] == a[|a| / 4 * 4..]
  {
    hide Joined;
    forall j | 0 <= j < |a| / 4 ensures WordsIn(b, big)[j] == WordsIn(a, big)[i := v][j] {
      if j != i {
        assert WordAt(b, 4 * j, big) == WordAt(a, 4 * j, big);
      }
    }
  }

  // ---------------------------------------------------------------- halfwords

  function HalfAt(b: seq<Byte>, at: nat): Half
    requires at + 2 <= |b|
  {
    HalfOf(b[at], b[at + 1])
  }

  function HalfOf(low: nat, high: nat): Half
    requires low < 0x100 && high < 0x100
  {
    low + high * 0x100
  }

  /** The whole halfwords of a buffer, least significant byte first. */
  function HalvesIn(b: seq<Byte>): (h: seq<Half>)
    ensures |h| == |b| / 2 && forall i :: 0 <= i < |b| / 2 ==> h[i] == HalfAt(b, 2 * i)
  {
    seq(|b| / 2, i requires 0 <= i < |b| / 2 => HalfAt(b, 2 * i))
  }

  lemma HalvesDecide(a: seq<Byte>, b: seq<Byte>)
    requires |a| == |b| && HalvesIn(a) == HalvesIn(b) && a[|a| / 2 * 2..] == b[|b| / 2 * 2..]
    ensures a == b
  {
    hide HalvesIn;
    forall k | 0 <= k < |a| ensures a[k] == b[k] {
      if k < |a| / 2 * 2 {
        SameHalf(a, b, k / 2);
        assert k == k / 2 * 2 + k % 2;
      } else {
        assert a[k] == a[|a| / 2 * 2..][k - |a| / 2 * 2];
      }
    }
  }

  lemma SameHalf(a: seq<Byte>, b: seq<Byte>, i: nat)
    requires |a| == |b| && HalvesIn(a) == HalvesIn(b) && i < |a| / 2
    ensures 2 * i + 2 <= |a| && a[2 * i] == b[2 * i] && a[2 * i + 1] == b[2 * i + 1]
  {
    assert HalfAt(a, 2 * i) == HalvesIn(a)[i] && HalfAt(b, 2 * i) == HalvesIn(b)[i];
  }

  method SetHalf(data: array<Byte>, i: nat, v: Half)
    requires i < data.Length / 2
    modifies data
    ensures HalvesIn(data[..]) == old(HalvesIn(data[..]))[i := v]
    ensures data[data.Length / 2 * 2..] == old(data[data.Length / 2 * 2..])
  {
    ghost var before := data[..];
    data[2 * i], data[2 * i + 1] := v % 0x100, v / 0x100;
    OneHalfSet(before, data[..], i, v);
  }

  lemma OneHalfSet(a: seq<Byte>, b: seq<Byte>, i: nat, v: Half)
    requires |a| == |b| && i < |a| / 2 && HalfAt(b, 2 * i) == v
    requires forall k :: 0 <= k < |a| && !(2 * i <= k < 2 * i + 2) ==> b[k] == a[k]
    ensures HalvesIn(b) == HalvesIn(a)[i := v] && b[|b| / 2 * 2..] == a[|a| / 2 * 2..]
  {
    forall j | 0 <= j < |a| / 2 ensures HalvesIn(b)[j] == HalvesIn(a)[i := v][j] {
      if j != i {
        assert HalfAt(b, 2 * j) == HalfAt(a, 2 * j);
      }
    }
  }
}
