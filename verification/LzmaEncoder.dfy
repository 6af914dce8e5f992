/** The range encoder, as arithmetic on intervals: every decision narrows the interval of the numbers that a stream may
    stand for, and any number in the last interval decodes to the decisions. */
module LzmaEncoder {
  import opened Options
  import opened Modular
  import opened Bits
  import opened LowBits
  import opened LzmaSymbol
  import opened LzmaRange
  import opened LzmaDecisions
  import opened LzmaWalk

  /** The chance of a zero in units of 1/2048: at first a half, and moved by every bit decided under the name by a part in
      32 of what is left towards that bit. */
  function Chance(h: seq<Decision>, n: Name): (p: nat)
    ensures 31 <= p <= 2017
  {
    if h == [] then 1024
    else
      var p, d := Chance(h[..|h| - 1], n), h[|h| - 1];
      if d.name != n then p else if d.bit then p - p / 32 else p + (2048 - p) / 32
  }

  function Pow256(n: nat): (r: nat)
    ensures r > 0
  {
    if n == 0 then 1 else 256 * Pow256(n - 1)
  }

  /** The numbers from `low` on, `range` of them, after `bytes` more bytes. */
  datatype Interval = Interval(low: nat, range: nat, bytes: nat)

  /** The range gets a byte longer when it has become short. */
  function Long(range: nat): nat { if range < 0x100_0000 then 256 * range else range }

  function Gain(range: nat): nat { if range < 0x100_0000 then 1 else 0 }

  /** The share of zero, and the range that a bit leaves. */
  function Share(h: seq<Decision>, range: nat, n: Name): nat {
    if n.Even? then range / 2 else range / 2048 * Chance(h, n)
  }

  function Left(h: seq<Decision>, range: nat, d: Decision): nat {
    if d.name.Even? || !d.bit then Share(h, range, d.name)
    else if Share(h, range, d.name) <= range then range - Share(h, range, d.name) else 0
  }

  /** Zero takes the lower part of the range and one the upper part. */
  function Narrowed(h: seq<Decision>, range: nat, ds: seq<Decision>): Interval
    decreases |ds|
  {
    if ds == [] then Interval(0, Long(range), Gain(range))
    else
      var d, r := ds[0], Long(range);
      var more := Narrowed(h + [d], Left(h, r, d), ds[1..]);
      Interval((if d.bit then Share(h, r, d.name) else 0) * Pow256(more.bytes) + more.low, more.range, Gain(range) + more.bytes)
  }

  /** The number that the bytes from `at` on make of a code. */
  function Ahead(code: nat, data: seq<Byte>, at: nat, n: nat): nat
    requires at + n <= |data|
    decreases n
  {
    if n == 0 then code else Ahead(256 * code + data[at], data, at + 1, n - 1)
  }

  // ---------------------------------------------------------------- intervals lie in each other

  predicate InRange(range: nat) { 0x1_0000 <= range < 0x1_0000_0000 }

  lemma ShareFits(h: seq<Decision>, range: nat, n: Name)
    requires 0x100_0000 <= range < 0x1_0000_0000
    ensures 0x1_0000 <= Share(h, range, n) && Share(h, range, n) + 0x1_0000 <= range
    ensures n.Even? ==> 2 * Share(h, range, n) <= range
  {
    if !n.Even? {
      var q, p := range / 2048, Chance(h, n);
      Factor(31, p, q);
      Factor(p, 2017, q);
    }
  }

  lemma LeftFits(h: seq<Decision>, range: nat, d: Decision)
    requires 0x100_0000 <= range < 0x1_0000_0000
    ensures InRange(Left(h, range, d))
    ensures (if d.bit then Share(h, range, d.name) else 0) + Left(h, range, d) <= range
  {
    hide Share;
    ShareFits(h, range, d.name);
  }

  lemma Longer(range: nat)
    requires InRange(range)
    ensures 0x100_0000 <= Long(range) < 0x1_0000_0000 && Long(range) == range * Pow256(Gain(range))
  {
    assert Pow256(1) == 256;
  }

  lemma {:induction false} Pow256Add(a: nat, b: nat)
    ensures Pow256(a + b) == Pow256(a) * Pow256(b)
    decreases a
  {
    if a > 0 {
      Pow256Add(a - 1, b);
      assert 256 * (Pow256(a - 1) * Pow256(b)) == Pow256(a) * Pow256(b);
    }
  }

  /** Decisions stay within the range they start from, and leave one that is long. */
  lemma {:induction false} NarrowedFits(h: seq<Decision>, range: nat, ds: seq<Decision>)
    requires InRange(range)
    ensures var i := Narrowed(h, range, ds);
            0x100_0000 <= i.range < 0x1_0000_0000 && i.low + i.range <= range * Pow256(i.bytes)
    decreases |ds|
  {
    hide InRange, Long, Gain, Share, Left;
    Longer(range);
    if ds != [] {
      var r := Long(range);
      LeftFits(h, r, ds[0]);
      NarrowedFits(h + [ds[0]], Left(h, r, ds[0]), ds[1..]);
      var more := Narrowed(h + [ds[0]], Left(h, r, ds[0]), ds[1..]);
      var off := if ds[0].bit then Share(h, r, ds[0].name) else 0;
      Pow256Add(Gain(range), more.bytes);
      Within(off, Left(h, r, ds[0]), r, Pow256(more.bytes), more.low + more.range);
      assert r * Pow256(more.bytes) == range * Pow256(Gain(range) + more.bytes) by {
        Product(range, Pow256(Gain(range)), Pow256(more.bytes));
      }
    }
  }

  lemma Within(off: nat, left: nat, r: nat, p: nat, x: nat)
    requires off + left <= r && x <= left * p
    ensures off * p + x <= r * p
  {
    Factor(off + left, r, p);
    assert (off + left) * p == off * p + left * p;
  }

  lemma Product(a: nat, b: nat, c: nat)
    ensures a * b * c == a * (b * c)
  {
  }

  // ---------------------------------------------------------------- the code

  lemma {:induction false} AheadIs(code: nat, data: seq<Byte>, at: nat, n: nat)
    requires at + n <= |data|
    ensures code * Pow256(n) <= Ahead(code, data, at, n) < (code + 1) * Pow256(n)
    decreases n
  {
    if n > 0 {
      AheadIs(256 * code + data[at], data, at + 1, n - 1);
      hide Ahead, Pow256;
      AheadOne(code, data, at, n);
      OneDigit(code, data[at], Pow256(n - 1));
    }
  }

  lemma AheadOne(code: nat, data: seq<Byte>, at: nat, n: nat)
    requires n > 0 && at + n <= |data|
    ensures Ahead(code, data, at, n) == Ahead(256 * code + data[at], data, at + 1, n - 1) && Pow256(n) == 256 * Pow256(n - 1)
  {
  }

  lemma OneDigit(code: nat, b: Byte, p: nat)
    ensures code * (256 * p) <= (256 * code + b) * p
    ensures (256 * code + b + 1) * p <= (code + 1) * (256 * p)
  {
    Regroup(code, 256, p);
    Regroup(code + 1, 256, p);
    Factor(256 * code, 256 * code + b, p);
    Factor(256 * code + b + 1, 256 * (code + 1), p);
  }

  lemma Regroup(a: nat, b: nat, p: nat)
    ensures a * (b * p) == b * a * p
  {
  }

  lemma {:induction false} AheadLess(code: nat, less: nat, data: seq<Byte>, at: nat, n: nat)
    requires at + n <= |data| && less <= code
    ensures Ahead(code - less, data, at, n) == Ahead(code, data, at, n) - less * Pow256(n)
    decreases n
  {
    if n > 0 {
      AheadLess(256 * code + data[at], 256 * less, data, at + 1, n - 1);
      hide Ahead, Pow256;
      AheadOne(code, data, at, n);
      AheadOne(code - less, data, at, n);
      Regroup(less, 256, Pow256(n - 1));
      assert 256 * (code - less) + data[at] == 256 * code + data[at] - 256 * less;
    }
  }

  /** A code whose number lies in a part of the range lies in the part. */
  lemma CodeInPart(code: nat, data: seq<Byte>, at: nat, n: nat, off: nat, left: nat, low: nat, range: nat)
    requires at + n <= |data| && off * Pow256(n) + low <= Ahead(code, data, at, n) < off * Pow256(n) + low + range
    requires low + range <= left * Pow256(n)
    ensures off <= code < off + left
    ensures low <= Ahead(code - off, data, at, n) < low + range
  {
    var p := Pow256(n);
    AheadIs(code, data, at, n);
    LessFactor(off, code + 1, p);
    assert (off + left) * p == off * p + left * p;
    LessFactor(code, off + left, p);
    AheadLess(code, off, data, at, n);
  }

  // ---------------------------------------------------------------- decoding decisions

  /** The decoder's probabilities are the chances after the decisions so far. */
  ghost predicate Agrees(h: seq<Decision>, probs: Probs) {
    forall n: Name :: Named(n) && Place(n) < |probs| ==> probs[Place(n)] == Chance(h, n)
  }

  lemma ChanceMoves(h: seq<Decision>, d: Decision, n: Name)
    ensures Chance(h + [d], n) == if d.name == n then Adapted(Chance(h, n), d.bit) else Chance(h, n)
  {
    assert (h + [d])[..|h|] == h;
  }

  lemma AgreesOn(c: Ctx, st: Sym, h: seq<Decision>, probs: Probs, d: Decision)
    requires Asks(c, st, d.name) && |probs| == NumProbs(c) && Agrees(h, probs)
    ensures Agrees(h + [d], Learned(c, probs, st, d.bit))
  {
    hide Sane, SlotOf, Place, Named, Chance, Adapted, NumProbs;
    forall n: Name | Named(n) && Place(n) < |probs|
      ensures Learned(c, probs, st, d.bit)[Place(n)] == Chance(h + [d], n)
    {
      ChanceMoves(h, d, n);
      NameOfPlace(n);
      if d.name.Even? {
        EvenIsNone(n);
      } else {
        NameOfPlace(d.name);
      }
    }
  }

  lemma EvenIsNone(n: Name)
    requires Named(n)
    ensures !n.Even?
  {
  }

  /** The decoder normalizes as the encoder does. */
  lemma NormalizeIsLong(rc: Rc, data: seq<Byte>)
    requires InRange(rc.range) && rc.code < rc.range && rc.at + Gain(rc.range) <= |data|
    ensures var n := Normalize(rc, data);
            && n.Some? && n.value.range == Long(rc.range) && n.value.at == rc.at + Gain(rc.range)
            && forall k: nat {:trigger Ahead(n.value.code, data, n.value.at, k)} :: n.value.at + k <= |data| ==>
                 Ahead(n.value.code, data, n.value.at, k) == Ahead(rc.code, data, rc.at, Gain(rc.range) + k)
  {
  }

  /** A code in the part of a bit is taken for this bit. */
  lemma BitIsTaken(c: Ctx, st: Sym, h: seq<Decision>, probs: Probs, rc: Rc, d: Decision)
    requires Asks(c, st, d.name) && |probs| == NumProbs(c) && Agrees(h, probs)
    requires 0x100_0000 <= rc.range < 0x1_0000_0000
    requires var off := if d.bit then Share(h, rc.range, d.name) else 0;
             off <= rc.code < off + Left(h, rc.range, d)
    ensures OneBit(c, probs, st, rc) ==
            (Rc(Left(h, rc.range, d), rc.code - if d.bit then Share(h, rc.range, d.name) else 0, rc.at), d.bit)
  {
    hide Sane, SlotOf, Place, Named, Chance, NumProbs;
    if !d.name.Even? {
      SlotInRange(c, st);
    }
  }

  /** The number in front of the decoder lies in the interval. */
  predicate Hits(i: Interval, rc: Rc, data: seq<Byte>) {
    rc.at + i.bytes <= |data| && i.low <= Ahead(rc.code, data, rc.at, i.bytes) < i.low + i.range
  }

  /** What the decoder has left when it has taken the interval. */
  function Rest(i: Interval, rc: Rc, data: seq<Byte>): Rc
    requires Hits(i, rc, data)
  {
    Rc(i.range, Ahead(rc.code, data, rc.at, i.bytes) - i.low, rc.at + i.bytes)
  }

  lemma HitsNormalized(h: seq<Decision>, ds: seq<Decision>, rc: Rc, data: seq<Byte>)
    requires InRange(rc.range) && Hits(Narrowed(h, rc.range, ds), rc, data)
    ensures var n := Normalize(rc, data);
            && n.Some? && n.value.range == Long(rc.range) && 0x100_0000 <= n.value.range < 0x1_0000_0000
            && n.value.at == rc.at + Gain(rc.range)
            && forall k: nat {:trigger Ahead(n.value.code, data, n.value.at, k)} :: n.value.at + k <= |data| ==>
                 Ahead(n.value.code, data, n.value.at, k) == Ahead(rc.code, data, rc.at, Gain(rc.range) + k)
  {
    hide Share, Left, Long, Gain, Normalize, Ahead, InRange;
    var i := Narrowed(h, rc.range, ds);
    NarrowedFits(h, rc.range, ds);
    CodeInPart(rc.code, data, rc.at, i.bytes, 0, rc.range, i.low, i.range);
    GainFits(h, rc.range, ds);
    Longer(rc.range);
    NormalizeIsLong(rc, data);
  }

  lemma HitsNothing(h: seq<Decision>, rc: Rc, data: seq<Byte>)
    requires InRange(rc.range) && Hits(Narrowed(h, rc.range, []), rc, data)
    ensures Normalize(rc, data) == Some(Rest(Narrowed(h, rc.range, []), rc, data))
  {
    HitsNormalized(h, [], rc, data);
    hide Long, Gain, Normalize;
    var n := Normalize(rc, data).value;
    assert Ahead(n.code, data, n.at, 0) == n.code;
  }

  /** After one decision, the number lies in the interval of the others. */
  lemma HitsOn(h: seq<Decision>, ds: seq<Decision>, rc: Rc, data: seq<Byte>)
    requires InRange(rc.range) && ds != [] && Hits(Narrowed(h, rc.range, ds), rc, data)
    ensures Normalize(rc, data).Some?
    ensures var n, d := Normalize(rc, data).value, ds[0];
            var off, left := if d.bit then Share(h, n.range, d.name) else 0, Left(h, n.range, d);
            && 0x100_0000 <= n.range < 0x1_0000_0000 && InRange(left) && off <= n.code < off + left
            && var more, r := Narrowed(h + [d], left, ds[1..]), Rc(left, n.code - off, n.at);
               Hits(more, r, data) && Rest(more, r, data) == Rest(Narrowed(h, rc.range, ds), rc, data)
  {
    hide Share, Left, Long, Gain, Normalize, Ahead, InRange;
    HitsNormalized(h, ds, rc, data);
    var n, d := Normalize(rc, data).value, ds[0];
    var off, left := if d.bit then Share(h, n.range, d.name) else 0, Left(h, n.range, d);
    LeftFits(h, n.range, d);
    var more := Narrowed(h + [d], left, ds[1..]);
    NarrowedFits(h + [d], left, ds[1..]);
    CodeInPart(n.code, data, n.at, more.bytes, off, left, more.low, more.range);
    AheadLess(n.code, off, data, n.at, more.bytes);
  }

  /** A number in the interval decodes to the decisions: the decoder ends with the symbol, and with what is left of the
      number in the range that is left. */
  lemma {:induction false} DecisionsDecode(c: Ctx, st: Sym, h: seq<Decision>, ds: seq<Decision>, s: Symbol,
                                           probs: Probs, rc: Rc, data: seq<Byte>)
    requires Proper(c) && Sane(st) && Walks(c, st, ds, s) && |probs| == NumProbs(c) && Agrees(h, probs) && InRange(rc.range)
    requires Hits(Narrowed(h, rc.range, ds), rc, data)
    ensures var w := WetRun(c, probs, st, rc, data);
            && w.Some? && w.value.symbol == s && |w.value.probs| == |probs| && Agrees(h + ds, w.value.probs)
            && w.value.rc == Rest(Narrowed(h, rc.range, ds), rc, data)
    decreases |ds|
  {
    hide Sane, SlotOf, Asks, Walks, Agrees, Share, Left, After, Learned, OneBit, Normalize, Ahead, Narrowed, Rest, Hits;
    hide InRange, NumProbs, Height;
    if ds == [] {
      HitsNothing(h, rc, data);
      NothingDecided(c, st, s);
      assert h + ds == h;
    } else {
      HitsOn(h, ds, rc, data);
      var d, n := ds[0], Normalize(rc, data).value;
      OneDecided(c, st, ds, s);
      BitIsTaken(c, st, h, probs, n, d);
      AgreesOn(c, st, h, probs, d);
      AfterIsSane(c, st, d.bit);
      var r := Rc(Left(h, n.range, d), n.code - if d.bit then Share(h, n.range, d.name) else 0, n.at);
      DecisionsDecode(c, After(c, st, d.bit), h + [d], ds[1..], s, Learned(c, probs, st, d.bit), r, data);
      assert h + [d] + ds[1..] == h + ds;
      WetStep(c, probs, st, rc, data);
    }
  }

  lemma GainFits(h: seq<Decision>, range: nat, ds: seq<Decision>)
    ensures Gain(range) <= Narrowed(h, range, ds).bytes
  {
  }

  lemma NothingDecided(c: Ctx, st: Sym, s: Symbol)
    requires Walks(c, st, [], s)
    ensures st == Done(s)
  {
  }

  lemma OneDecided(c: Ctx, st: Sym, ds: seq<Decision>, s: Symbol)
    requires Walks(c, st, ds, s) && ds != []
    ensures Asks(c, st, ds[0].name) && !st.Done? && Sane(st) && Walks(c, After(c, st, ds[0].bit), ds[1..], s)
  {
    hide After, Sane, SlotOf, Place, Named;
  }
}
