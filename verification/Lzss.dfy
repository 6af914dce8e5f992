/** RAR's sliding window: a ring buffer that stands for the end of everything that was ever written. */
module Lzss {
  import opened LowBits
  import opened History
  import opened Modular

  function Blank(n: nat): (r: seq<Byte>)
    ensures |r| == n && forall i :: 0 <= i < n ==> r[i] == 0
  {
    seq(n, _ => 0)
  }

  /** The ring holds the end of `past`. */
  ghost predicate Rings(window: seq<Byte>, past: seq<Byte>) {
    && 0 < |window| <= |past|
    && forall j :: |past| - |window| <= j < |past| ==> window[j % |window|] == past[j]
  }

  /** The distance that an offset means in a window of the given size. */
  function Distance(offset: int, size: nat): (r: nat)
    requires size > 0
    ensures 1 <= r <= size
  {
    (offset - 1) % size + 1
  }

  /** Offsets within the window mean what they say. */
  lemma DistanceWithin(offset: int, size: nat)
    requires 1 <= offset <= size
    ensures Distance(offset, size) == offset
  {
    Remainder(offset - 1, size, 0, offset - 1);
  }

  // ---------------------------------------------------------------- places in the ring

  /** Where a match reads: `offset` back, wherever the window starts. */
  lemma ReadPlace(position: nat, i: nat, offset: int, size: nat)
    requires size > 0
    ensures (position % size + i - offset) % size == (position + i - Distance(offset, size)) % size
    ensures (position % size + i) % size == (position + i) % size
  {
    var d, q, r, k := Distance(offset, size), position / size, position % size, (offset - 1) / size;
    assert offset - 1 == k * size + (d - 1);
    assert position == q * size + r;
    hide Distance;
    SamePlace(position, i, offset, size, d, q, r, k);
    AddMultiple(r + i, q, size);
  }

  lemma SamePlace(position: nat, i: nat, offset: int, size: nat, d: int, q: int, r: int, k: int)
    requires size > 0 && position == q * size + r && offset - 1 == k * size + (d - 1)
    ensures (r + i - offset) % size == (position + i - d) % size
  {
    SumOfProducts(q, k, size);
    AddMultiple(r + i - offset, q + k, size);
  }

  lemma SumOfProducts(a: int, b: int, m: nat)
    ensures (a + b) * m == a * m + b * m
  {
  }

  /** Writing the next byte over the oldest one keeps the ring. */
  lemma WriteKeepsRing(window: seq<Byte>, past: seq<Byte>, b: Byte)
    requires Rings(window, past)
    ensures Rings(window[|past| % |window| := b], past + [b])
  {
    var size := |window|;
    var w := window[|past| % size := b];
    forall j | |past| + 1 - size <= j < |past| + 1 ensures w[j % size] == (past + [b])[j] {
      if j % size == |past| % size {
        SameRemainder(j, |past|, size);
      }
    }
  }

  /** One byte of a match. */
  lemma MatchStep(window: seq<Byte>, before: seq<Byte>, position: nat, offset: int, i: nat)
    requires |before| == |window| + position && |window| > 0
    requires Rings(window, Copied(before, Distance(offset, |window|), i))
    ensures var size := |window|;
            Rings(window[(position % size + i) % size := window[(position % size + i - offset) % size]],
                  Copied(before, Distance(offset, size), i + 1))
  {
    hide Rings, Copied, Distance;
    var size, back := |window|, Distance(offset, |window|);
    var past := Copied(before, back, i);
    ReadPlace(position, i, offset, size);
    ReadRing(window, past, position + i, back);
    WriteKeepsRing(window, past, window[(position % size + i - offset) % size]);
    PastPlace(position + i, size);
    CopiedNext(before, back, i);
  }

  class Lzss {
    const window: array<Byte>
    const mask: nat
    var position: nat
    ghost var past: seq<Byte>  // blanks for a whole window, then everything written

    ghost predicate Valid()
      reads this, window
    {
      window.Length == mask + 1 && |past| == mask + 1 + position && Rings(window[..], past)
    }

    /** The window's size is a power of two, which lets the mask stand for a remainder. */
    constructor (size: nat)
      requires size > 0
      ensures Valid() && fresh(window) && window.Length == size && position == 0 && past == Blank(size)
    {
      window := new Byte[size](_ => 0);
      mask := size - 1;
      position := 0;
      past := Blank(size);
      new;
      assert window[..] == Blank(size);
    }

    /** The place of a position in the window, also of one before the start. */
    function Offset(pos: int): nat {
      pos % (mask + 1)
    }

    /** The first position after `pos` that has the place zero. */
    function NextEdgeAfter(pos: nat): (r: nat)
      ensures pos < r <= pos + mask + 1 && Offset(r) == 0
    {
      EdgeFacts(pos, mask + 1);
      pos + (mask + 1) - Offset(pos + (mask + 1))
    }

    method EmitLiteral(b: Byte)
      requires Valid()
      modifies this`position, this`past, window
      ensures Valid() && past == old(past) + [b] && position == old(position) + 1
    {
      hide Rings;
      WriteKeepsRing(window[..], past, b);
      PastPlace(position, mask + 1);
      window[Offset(position)] := b;
      position := position + 1;
      past := past + [b];
    }

    /** Repeats `length` bytes from `offset` back. Offsets beyond the window count modulo its size. */
    method EmitMatch(offset: int, length: nat)
      requires Valid()
      modifies this`position, this`past, window
      ensures Valid() && past == Copied(old(past), Distance(offset, mask + 1), length)
      ensures 1 <= offset <= mask + 1 ==> past == Copied(old(past), offset, length)
      ensures position == old(position) + length
    {
      hide Rings, Copied, Distance;
      if 1 <= offset <= mask + 1 { DistanceWithin(offset, mask + 1); }
      var windowOffs := Offset(position);
      ghost var before, back := past, Distance(offset, mask + 1);
      CopiedNone(before, back);
      for i := 0 to length
        invariant window.Length == mask + 1 && Rings(window[..], Copied(before, back, i))
        modifies window
      {
        MatchStep(window[..], before, position, offset, i);
        window[Offset(windowOffs + i)] := window[Offset(windowOffs + i - offset)];
      }
      position := position + length;
      past := Copied(before, back, length);
    }

    /** A block copy out of the window. */
    method CopyPart(buffer: array<Byte>, at: nat, from: nat, n: nat)
      requires buffer != window && at + n <= buffer.Length && from + n <= window.Length
      modifies buffer
      ensures buffer[at..at + n] == window[from..from + n]
      ensures buffer[..at] == old(buffer[..at]) && buffer[at + n..] == old(buffer[at + n..])
    {
      forall i | at <= i < at + n {
        buffer[i] := window[from + (i - at)];
      }
    }

    /** Copies the bytes from position `start` on, if they are still in the window, in two parts where it wraps. */
    method CopyBytes(buffer: array<Byte>, at: nat, start: int, length: nat)
      requires Valid() && buffer != window && at + length <= buffer.Length
      requires position - (mask + 1) <= start && start + length <= position
      modifies buffer
      ensures buffer[at..at + length] == past[mask + 1 + start..mask + 1 + start + length]
      ensures buffer[..at] == old(buffer[..at]) && buffer[at + length..] == old(buffer[at + length..])
    {
      hide Rings;
      var windowOffs := Offset(start);
      var firstPart := mask + 1 - windowOffs;
      ghost var j := mask + 1 + start;
      RingKnown();
      PastPlace(start, mask + 1);
      if length <= firstPart {
        SliceOfRing(window[..], past, j, windowOffs, length);
        CopyPart(buffer, at, windowOffs, length);
      } else {
        CopyWrapped(buffer, at, windowOffs, firstPart, length, j);
      }
    }

    lemma RingKnown()
      requires Valid()
      ensures window.Length == mask + 1 && |past| == mask + 1 + position && Rings(window[..], past)
    {
    }

    /** A request that wraps around the window. */
    method CopyWrapped(buffer: array<Byte>, at: nat, windowOffs: nat, firstPart: nat, length: nat, ghost j: nat)
      requires Rings(window[..], past) && window.Length == mask + 1 && buffer != window && at + length <= buffer.Length
      requires windowOffs == j % (mask + 1) && firstPart == mask + 1 - windowOffs < length <= mask + 1
      requires |past| <= j + mask + 1 && j + length <= |past|
      modifies buffer
      ensures buffer[at..at + length] == past[j..j + length]
      ensures buffer[..at] == old(buffer[..at]) && buffer[at + length..] == old(buffer[at + length..])
    {
      hide Rings;
      SliceOfRing(window[..], past, j, windowOffs, firstPart);
      NextLap(j, mask + 1);
      SliceOfRing(window[..], past, j + firstPart, 0, length - firstPart);
      CopyPart(buffer, at, windowOffs, firstPart);
      ghost var half := buffer[..];
      CopyPart(buffer, at + firstPart, 0, length - firstPart);
      assert buffer[at..at + firstPart] == half[at..at + firstPart] by {
        Prefixed(buffer[..], half, at, firstPart);
      }
      Joined(buffer[..], past, at, j, firstPart, length);
      assert buffer[..at] == buffer[..at + firstPart][..at];
    }
  }

  lemma Prefixed(a: seq<Byte>, b: seq<Byte>, at: nat, n: nat)
    requires at + n <= |a| && at + n <= |b| && a[..at + n] == b[..at + n]
    ensures a[at..at + n] == b[at..at + n]
  {
    assert a[at..at + n] == a[..at + n][at..];
    assert b[at..at + n] == b[..at + n][at..];
  }

  lemma OneOfRing(window: seq<Byte>, past: seq<Byte>, j: nat, o: nat, i: nat)
    requires Rings(window, past) && |past| <= j + |window| && j + i < |past| && o == j % |window| && o + i < |window|
    ensures window[o + i] == past[j + i]
  {
    var size := |window|;
    assert j == j / size * size + o;
    Remainder(j + i, size, j / size, o + i);
  }

  /** Bytes of the past that do not wrap lie next to each other in the window. */
  lemma {:induction false} SliceOfRing(window: seq<Byte>, past: seq<Byte>, j: nat, o: nat, n: nat)
    requires Rings(window, past) && |past| <= j + |window| && j + n <= |past| && o == j % |window| && o + n <= |window|
    ensures window[o..o + n] == past[j..j + n]
    decreases n
  {
    hide Rings;
    if n > 0 {
      SliceOfRing(window, past, j, o, n - 1);
      OneOfRing(window, past, j, o, n - 1);
      assert window[o..o + n] == window[o..o + n - 1] + [window[o + n - 1]];
      assert past[j..j + n] == past[j..j + n - 1] + [past[j + n - 1]];
    }
  }

  lemma NextLap(j: nat, size: nat)
    requires size > 0
    ensures (j + (size - j % size)) % size == 0
  {
    assert j == j / size * size + j % size;
    AddMultiple(0, j / size + 1, size);
    assert (j / size + 1) * size == j / size * size + size;
  }

  lemma Joined(b: seq<Byte>, past: seq<Byte>, at: nat, j: nat, n: nat, length: nat)
    requires at + length <= |b| && j + length <= |past| && n <= length
    requires b[at..at + n] == past[j..j + n] && b[at + n..at + length] == past[j + n..j + length]
    ensures b[at..at + length] == past[j..j + length]
  {
    assert b[at..at + length] == b[at..at + n] + b[at + n..at + length];
    assert past[j..j + length] == past[j..j + n] + past[j + n..j + length];
  }

  lemma PastPlace(position: int, size: nat)
    requires size > 0
    ensures (size + position) % size == position % size
  {
    AddMultiple(position, 1, size);
  }

  lemma EdgeFacts(pos: nat, size: nat)
    requires size > 0
    ensures 0 <= (pos + size) % size < size && (pos + size - (pos + size) % size) % size == 0
  {
    var x := pos + size;
    assert x - x % size == x / size * size;
    AddMultiple(0, x / size, size);
  }

  /** Reading `back` before the end. */
  lemma ReadRing(window: seq<Byte>, past: seq<Byte>, end: nat, back: nat)
    requires Rings(window, past) && 1 <= back <= |window| && |past| == |window| + end
    ensures window[(end - back) % |window|] == past[|past| - back]
  {
    PastPlace(end - back, |window|);
  }
}
