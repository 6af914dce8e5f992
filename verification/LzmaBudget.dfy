/** LZMA_REQUIRED_INPUT_MAX: decoding one symbol from a normalized range takes at most 20 bytes of input. */
module LzmaBudget {
  import opened Options
  import opened Bits
  import opened LowBits
  import opened LzmaSymbol
  import opened LzmaRange

  // Each adaptive bit leaves at least 124/8193 of the range, each bit without probability GUARD/HALF of it.
  const GUARD: nat := 0xFF_FFFF
  const HALF: nat := 0x200_0000

  function Pow(b: nat, n: nat): (r: nat)
    ensures b > 0 ==> r > 0
  {
    if n == 0 then 1 else b * Pow(b, n - 1)
  }

  lemma Assoc(x: nat, y: nat, z: nat)
    ensures x * (y * z) == (x * y) * z
  {
  }

  lemma {:induction false} PowAdd(b: nat, m: nat, n: nat)
    ensures Pow(b, m + n) == Pow(b, m) * Pow(b, n)
    decreases m
  {
    if m > 0 {
      PowAdd(b, m - 1, n);
      Assoc(b, Pow(b, m - 1), Pow(b, n));
    }
  }

  // ---------------------------------------------------------------- one bit

  lemma DecideKeeps(rc: Rc, p: nat)
    requires rc.range >= TOP && 31 <= p <= 2017
    ensures Decide(rc, p).0.range * 8193 >= rc.range * 124
    ensures Decide(rc, p).0.range >= 0x1_0000
  {
    var q := rc.range / MODEL;
    assert q >= 8192 && 2048 * q <= rc.range <= 2048 * q + 2047;
    Between(q, p);
  }

  lemma Between(q: nat, p: nat)
    requires 31 <= p <= 2017
    ensures 31 * q <= q * p <= 2017 * q
  {
  }

  lemma HalveKeeps(rc: Rc)
    requires rc.range >= TOP
    ensures Halve(rc).0.range * HALF >= rc.range * GUARD && Halve(rc).0.range >= 0x1_0000
  {
  }

  // ---------------------------------------------------------------- the budget

  /** `v` more bytes suffice for `a` adaptive bits and `d` others from the range `r` on. */
  ghost predicate Ample(r: nat, v: nat, a: nat, d: nat) {
    r * Pow(256, v) * (Pow(124, a) * Pow(GUARD, d)) >= TOP * (Pow(8193, a) * Pow(HALF, d))
  }

  lemma Below(x: nat, y: nat, small: nat, big: nat)
    requires 0 < small <= big && x < y
    ensures x * small < y * big
  {
    assert x * small <= x * big;
    assert (x + 1) * big <= y * big;
    assert (x + 1) * big == x * big + big;
  }

  lemma Cancel(x: nat, y: nat, small: nat, big: nat)
    requires 0 < small <= big && x * small >= y * big
    ensures x >= y
  {
    if x < y {
      Below(x, y, small, big);
    }
  }

  lemma Rearrange(x: nat, y: nat, z: nat, k: nat)
    ensures x * ((k * y) * z) == (x * (y * z)) * k && x * (y * (k * z)) == (x * (y * z)) * k
  {
    assert (k * y) * z == (y * z) * k;
    assert y * (k * z) == (y * z) * k;
    assert x * ((y * z) * k) == (x * (y * z)) * k;
  }

  lemma OneAdaptiveLess(r: nat, v: nat, a: nat, d: nat)
    requires a > 0 && Ample(r, v, a, d)
    ensures Ample(r, v, a - 1, d)
  {
    Rearrange(r * Pow(256, v), Pow(124, a - 1), Pow(GUARD, d), 124);
    Rearrange(TOP, Pow(8193, a - 1), Pow(HALF, d), 8193);
    Cancel(r * Pow(256, v) * (Pow(124, a - 1) * Pow(GUARD, d)), TOP * (Pow(8193, a - 1) * Pow(HALF, d)), 124, 8193);
  }

  lemma OneOtherLess(r: nat, v: nat, a: nat, d: nat)
    requires d > 0 && Ample(r, v, a, d)
    ensures Ample(r, v, a, d - 1)
  {
    Rearrange(r * Pow(256, v), Pow(124, a), Pow(GUARD, d - 1), GUARD);
    Rearrange(TOP, Pow(8193, a), Pow(HALF, d - 1), HALF);
    Cancel(r * Pow(256, v) * (Pow(124, a) * Pow(GUARD, d - 1)), TOP * (Pow(8193, a) * Pow(HALF, d - 1)), GUARD, HALF);
  }

  lemma {:induction false} Fewer(r: nat, v: nat, a: nat, d: nat, b: nat, e: nat)
    requires Ample(r, v, a, d) && b <= a && e <= d
    ensures Ample(r, v, b, e)
    decreases a + d
  {
    hide Ample;
    if b < a {
      OneAdaptiveLess(r, v, a, d);
      Fewer(r, v, a - 1, d, b, e);
    } else if e < d {
      OneOtherLess(r, v, a, d);
      Fewer(r, v, a, d - 1, b, e);
    }
  }

  /** What a bit takes from the range is what the budget allows for it. */
  lemma Spend(r: nat, s: nat, v: nat, a: nat, d: nat, small: nat, big: nat, x: nat, y: nat)
    requires 0 < small && 0 < big && s * big >= r * small
    requires (r * v * x) * small >= (TOP * y) * big
    ensures s * v * x >= TOP * y
  {
    assert (s * v * x) * big == (s * big) * (v * x);
    assert (r * v * x) * small == (r * small) * (v * x);
    assert (s * big) * (v * x) >= (r * small) * (v * x);
    Cancel(s * v * x, TOP * y, big, big);
  }

  lemma SpendAdaptive(r: nat, s: nat, v: nat, a: nat, d: nat)
    requires a > 0 && Ample(r, v, a, d) && s * 8193 >= r * 124
    ensures Ample(s, v, a - 1, d)
  {
    Rearrange(r * Pow(256, v), Pow(124, a - 1), Pow(GUARD, d), 124);
    Rearrange(TOP, Pow(8193, a - 1), Pow(HALF, d), 8193);
    Spend(r, s, Pow(256, v), a, d, 124, 8193, Pow(124, a - 1) * Pow(GUARD, d), Pow(8193, a - 1) * Pow(HALF, d));
  }

  lemma SpendOther(r: nat, s: nat, v: nat, a: nat, d: nat)
    requires d > 0 && Ample(r, v, a, d) && s * HALF >= r * GUARD
    ensures Ample(s, v, a, d - 1)
  {
    Rearrange(r * Pow(256, v), Pow(124, a), Pow(GUARD, d - 1), GUARD);
    Rearrange(TOP, Pow(8193, a), Pow(HALF, d - 1), HALF);
    Spend(r, s, Pow(256, v), a, d, GUARD, HALF, Pow(124, a) * Pow(GUARD, d - 1), Pow(8193, a) * Pow(HALF, d - 1));
  }

  /** A small range with an ample budget has a byte left, and loading it keeps the budget ample. */
  lemma SpendByte(r: nat, v: nat, a: nat, d: nat)
    requires Ample(r, v, a, d) && r < TOP
    ensures v > 0 && Ample(r * 256, v - 1, a, d)
  {
    if v == 0 {
      Fewer(r, v, a, d, 0, 0);
      assert false;
    }
    assert r * (256 * Pow(256, v - 1)) == (r * 256) * Pow(256, v - 1);
  }

  /** The 26 bits without probability allow for a fifth adaptive bit instead. */
  lemma Trade(r: nat, v: nat)
    requires Ample(r, v, 4, 26)
    ensures Ample(r, v, 5, 0)
  {
    hide Pow;
    Fewer(r, v, 4, 26, 4, 7);
    ConstantsForTrade();
    var x := r * Pow(256, v);
    Assoc(x, Pow(124, 4), Pow(GUARD, 7));
    Assoc(TOP, Pow(8193, 4), Pow(HALF, 7));
    TradeNumbers(x * Pow(124, 4), TOP * Pow(8193, 4), Pow(GUARD, 7), Pow(HALF, 7));
    FifthPowers();
    Swapped(x, 124, Pow(124, 4));
    Swapped(TOP, 8193, Pow(8193, 4));
  }

  lemma Swapped(x: nat, k: nat, y: nat)
    ensures x * (k * y) == k * (x * y)
  {
  }

  lemma FifthPowers()
    ensures Pow(124, 5) == 124 * Pow(124, 4) && Pow(8193, 5) == 8193 * Pow(8193, 4)
    ensures Pow(GUARD, 0) == 1 && Pow(HALF, 0) == 1
  {
  }

  lemma TradeNumbers(x: nat, y: nat, g: nat, h: nat)
    requires x * g >= y * h && 124 * h >= 8193 * g && g > 0
    ensures 124 * x >= 8193 * y
  {
    assert (124 * x) * g == 124 * (x * g);
    assert 124 * (y * h) == y * (124 * h);
    assert y * (124 * h) >= y * (8193 * g);
    assert y * (8193 * g) == (8193 * y) * g;
    Cancel(124 * x, 8193 * y, g, g);
  }

  lemma ConstantsForTrade()
    ensures 124 * Pow(HALF, 7) >= 8193 * Pow(GUARD, 7)
  {
    assert Pow(GUARD, 1) == 16777215 * Pow(GUARD, 0);
    PowAdd(GUARD, 1, 1);
    assert Pow(GUARD, 2) == 0xfffffe000001;
    assert Pow(GUARD, 3) == 0xfffffd000002ffffff;
    PowAdd(GUARD, 3, 3);
    assert Pow(GUARD, 6) == 0xfffffa00000effffec00000efffffa000001;
    assert Pow(GUARD, 7) == 0xfffff9000014ffffdd000022ffffeb000006ffffff;
    assert Pow(HALF, 1) == 33554432 * Pow(HALF, 0);
    PowAdd(HALF, 1, 1);
    assert Pow(HALF, 2) == 0x4000000000000;
    assert Pow(HALF, 3) == 0x8000000000000000000;
    PowAdd(HALF, 3, 3);
    assert Pow(HALF, 6) == 0x40000000000000000000000000000000000000;
    assert Pow(HALF, 7) == 0x80000000000000000000000000000000000000000000;
  }

  /** Twenty bytes are ample for a whole symbol: 22 adaptive bits and 26 others. */
  lemma TwentyBytes()
    ensures Ample(TOP, 20, 22, 26)
  {
    assert Pow(256, 1) == 256 * Pow(256, 0);
    PowAdd(256, 1, 1);
    assert Pow(256, 2) == 0x10000;
    PowAdd(256, 2, 2);
    assert Pow(256, 4) == 0x100000000;
    assert Pow(256, 5) == 0x10000000000;
    PowAdd(256, 5, 5);
    assert Pow(256, 10) == 0x100000000000000000000;
    PowAdd(256, 10, 10);
    assert Pow(256, 20) == 0x10000000000000000000000000000000000000000;
    assert Pow(124, 1) == 124 * Pow(124, 0);
    PowAdd(124, 1, 1);
    assert Pow(124, 2) == 0x3c10;
    PowAdd(124, 2, 2);
    assert Pow(124, 4) == 0xe178100;
    assert Pow(124, 5) == 0x6d3627c00;
    PowAdd(124, 5, 5);
    assert Pow(124, 10) == 0x2e97294e4b2c100000;
    assert Pow(124, 11) == 0x16913801ec6957c00000;
    PowAdd(124, 11, 11);
    assert Pow(124, 22) == 0x1fd4800d310c1dc310914a31994100000000000;
    assert Pow(GUARD, 1) == 16777215 * Pow(GUARD, 0);
    PowAdd(GUARD, 1, 1);
    assert Pow(GUARD, 2) == 0xfffffe000001;
    assert Pow(GUARD, 3) == 0xfffffd000002ffffff;
    PowAdd(GUARD, 3, 3);
    assert Pow(GUARD, 6) == 0xfffffa00000effffec00000efffffa000001;
    PowAdd(GUARD, 6, 6);
    assert Pow(GUARD, 12) == 0xfffff4000041ffff240001eefffce800039bfffce80001eeffff24000041fffff4000001;
    assert Pow(GUARD, 13) == 0xfffff300004dfffee20002cafffaf90006b3fff94c000506fffd3500011dffffb200000cffffff;
    PowAdd(GUARD, 13, 13);
    assert Pow(GUARD, 26) == 0xffffe6000144fff5d8003a65feff0c038355f5f67817d6a2d052ba510cf68a1bb0935d63614ca8935d638a1bb0510cf6d052ba17d6a2f5f678038355feff0c003a65fff5d8000144ffffe6000001;
    assert Pow(8193, 1) == 8193 * Pow(8193, 0);
    PowAdd(8193, 1, 1);
    assert Pow(8193, 2) == 0x4004001;
    PowAdd(8193, 2, 2);
    assert Pow(8193, 4) == 0x10020018008001;
    assert Pow(8193, 5) == 0x2005005002800a001;
    PowAdd(8193, 5, 5);
    assert Pow(8193, 10) == 0x401402d03c03481f80d203c00b4014001;
    assert Pow(8193, 11) == 0x802c06e0a50a5073839c14a05280dc016001;
    PowAdd(8193, 11, 11);
    assert Pow(8193, 22) == 0x402c0e73027258dce389d2b855aeb5e4c1f378cae6612ed1c8de0dbdc93302039c02c001;
    assert Pow(HALF, 1) == 33554432 * Pow(HALF, 0);
    PowAdd(HALF, 1, 1);
    assert Pow(HALF, 2) == 0x4000000000000;
    assert Pow(HALF, 3) == 0x8000000000000000000;
    PowAdd(HALF, 3, 3);
    assert Pow(HALF, 6) == 0x40000000000000000000000000000000000000;
    PowAdd(HALF, 6, 6);
    assert Pow(HALF, 12) == 0x1000000000000000000000000000000000000000000000000000000000000000000000000000;
    assert Pow(HALF, 13) == 0x2000000000000000000000000000000000000000000000000000000000000000000000000000000000;
    PowAdd(HALF, 13, 13);
    assert Pow(HALF, 26) == 0x4000000000000000000000000000000000000000000000000000000000000000000000000000000000000000000000000000000000000000000000000000000000000000000000000000000000000000000;
  }

  // ---------------------------------------------------------------- the budget of every state

  function Left8(i: nat): nat { if i < 2 then 3 else if i < 4 then 2 else 1 }

  function Left64(i: nat): nat {
    if i < 2 then 6 else if i < 4 then 5 else if i < 8 then 4 else if i < 16 then 3 else if i < 32 then 2 else 1
  }

  function Left256(i: nat): nat { if i < 64 then 2 + Left64(i) else if i < 128 then 2 else 1 }

  function DistanceCost(w: Which): nat { if w.New? then 10 else 0 }

  /** How many adaptive bits can still follow; a fifth bit of a special distance is paid for by other bits. */
  function Adaptive(st: Sym): nat
    requires Sane(st)
  {
    match st
    case AtIsMatch => 22
    case Lit(symbol, _, _) => Left256(symbol)
    case AtIsRep => 21
    case AtG0 => 13
    case AtLong => 11
    case AtG1 => 12
    case AtG2 => 11
    case Choice(w) => 10 + DistanceCost(w)
    case Choice2(w) => 9 + DistanceCost(w)
    case Low(w, i) => Left8(i) + DistanceCost(w)
    case Mid(w, i) => Left8(i) + DistanceCost(w)
    case High(w, i) => Left256(i) + DistanceCost(w)
    case Slot(_, i) => Left64(i) + 4
    case Special(_, _, _, _, left) => left
    case Raw(_, _, _) => 4
    case Aligned(_, _, _, _, left) => left
    case Done(_) => 0
  }

  /** How many bits without probability can still follow. */
  function Others(st: Sym): nat
    requires Sane(st)
  {
    match st
    case AtIsMatch | AtIsRep | Slot(_, _) => 26
    case Choice(w) => if w.New? then 26 else 0
    case Choice2(w) => if w.New? then 26 else 0
    case Low(w, _) => if w.New? then 26 else 0
    case Mid(w, _) => if w.New? then 26 else 0
    case High(w, _) => if w.New? then 26 else 0
    case Raw(_, _, left) => left
    case _ => 0
  }

  lemma HeaderCost(c: Ctx, st: Sym, b: bool)
    requires Sane(st) && (InHeader(st) || st.Lit? || st.Low? || st.Mid? || st.High?) && Sane(After(c, st, b))
    ensures Adaptive(After(c, st, b)) < Adaptive(st) && Others(After(c, st, b)) <= Others(st)
  {
    hide Pow2, MatchBit, SlotBase;
  }

  lemma TailCost(c: Ctx, st: Sym, b: bool)
    requires Sane(st) && !st.Done? && !InHeader(st) && !st.Lit? && !st.Low? && !st.Mid? && !st.High? && Sane(After(c, st, b))
    ensures var t := After(c, st, b);
            if st.Raw? then Adaptive(t) <= Adaptive(st) && Others(t) < Others(st)
            else (Adaptive(t) < Adaptive(st) && Others(t) <= Others(st))
                 || (Adaptive(st) == 5 && Others(st) == 26 && Adaptive(t) <= 5 && Others(t) == 0)
  {
    hide Pow2, MatchBit, SlotBase;
  }

  lemma BitLeaves(c: Ctx, probs: Probs, st: Sym, rc: Rc)
    requires Proper(c) && Bounded(probs) && Sane(st) && !st.Done? && rc.range >= TOP
    ensures var r := OneBit(c, probs, st, rc).0.range;
            r >= 0x1_0000 && if st.Raw? then r * HALF >= rc.range * GUARD else r * 8193 >= rc.range * 124
  {
    hide Decide, Halve, Bounded, SlotOf;
    if st.Raw? {
      HalveKeeps(rc);
    } else {
      ProbBounds(probs, SlotOf(c, st));
      DecideKeeps(rc, ProbAt(probs, SlotOf(c, st)));
    }
  }

  /** A bit is paid for from the budget of its state, and what remains is ample for the next state. */
  lemma BitIsPaid(c: Ctx, probs: Probs, st: Sym, rc: Rc, v: nat)
    requires Proper(c) && Bounded(probs) && Sane(st) && !st.Done? && rc.range >= TOP
    requires Ample(rc.range, v, Adaptive(st), Others(st))
    ensures var (r, b) := OneBit(c, probs, st, rc);
            && r.range >= 0x1_0000 && r.at == rc.at
            && Sane(After(c, st, b)) && Ample(r.range, v, Adaptive(After(c, st, b)), Others(After(c, st, b)))
  {
    hide Ample, After, OneBit, Sane, Adaptive, Others, Bounded;
    var (r, b) := OneBit(c, probs, st, rc);
    BitKeepsPlace(c, probs, st, rc);
    AfterIsSane(c, st, b);
    var t := After(c, st, b);
    if InHeader(st) || st.Lit? || st.Low? || st.Mid? || st.High? {
      HeaderCost(c, st, b);
    } else {
      TailCost(c, st, b);
    }
    BitLeaves(c, probs, st, rc);
    if st.Raw? {
      SpendOther(rc.range, r.range, v, Adaptive(st), Others(st));
      Fewer(r.range, v, Adaptive(st), Others(st) - 1, Adaptive(t), Others(t));
    } else {
      SpendAdaptive(rc.range, r.range, v, Adaptive(st), Others(st));
      if Adaptive(t) < Adaptive(st) && Others(t) <= Others(st) {
        Fewer(r.range, v, Adaptive(st) - 1, Others(st), Adaptive(t), Others(t));
      } else {
        Trade(r.range, v);
        Fewer(r.range, v, 5, 0, Adaptive(t), Others(t));
      }
    }
  }

  lemma ProbBounds(probs: Probs, i: nat)
    requires Bounded(probs)
    ensures 31 <= ProbAt(probs, i) <= 2017
  {
  }

  /** With an ample budget, decoding a symbol does not run out of input. */
  lemma {:induction false} NeverStarves(c: Ctx, probs: Probs, st: Sym, rc: Rc, data: seq<Byte>)
    requires Proper(c) && Bounded(probs) && Sane(st) && rc.range >= 0x1_0000 && rc.at <= |data|
    requires Ample(rc.range, |data| - rc.at, Adaptive(st), Others(st))
    ensures DryRun(c, probs, st, rc, data).Some?
    decreases Height(st)
  {
    hide Ample, After, SlotOf, Sane, OneBit, Height, Adaptive, Others, Bounded;
    if rc.range < TOP {
      SpendByte(rc.range, |data| - rc.at, Adaptive(st), Others(st));
    }
    var n := Normalize(rc, data).value;
    if !st.Done? {
      BitIsPaid(c, probs, st, n, |data| - n.at);
      var (r, b) := OneBit(c, probs, st, n);
      AfterIsSane(c, st, b);
      NeverStarves(c, probs, After(c, st, b), r, data);
    }
  }

  lemma {:induction false} EndsNormalized(c: Ctx, probs: Probs, st: Sym, rc: Rc, data: seq<Byte>)
    requires Proper(c) && Bounded(probs) && Sane(st) && rc.range >= 0x1_0000
    ensures DryRun(c, probs, st, rc, data).Some? ==> DryRun(c, probs, st, rc, data).value.rc.range >= TOP
    decreases Height(st)
  {
    hide After, OneBit, Sane, Height, Bounded;
    match Normalize(rc, data)
    case None =>
    case Some(n) =>
      if !st.Done? {
        var (r, b) := OneBit(c, probs, st, n);
        BitLeaves(c, probs, st, n);
        AfterIsSane(c, st, b);
        EndsNormalized(c, probs, After(c, st, b), r, data);
      }
  }

  lemma AmpleStart(r: nat)
    requires r >= TOP
    ensures Ample(r, 20, 22, 26)
  {
    hide Pow;
    TwentyBytes();
    Grow(r, Pow(256, 20), Pow(124, 22) * Pow(GUARD, 26));
  }

  lemma Grow(r: nat, v: nat, x: nat)
    requires r >= TOP
    ensures r * v * x >= TOP * v * x
  {
    assert r * v >= TOP * v;
    assert (r * v) * x >= (TOP * v) * x;
  }

  /** From a normalized range, a symbol needs at most twenty bytes, whatever the input and the bounded probabilities,
      and leaves a normalized range. */
  lemma AtMostTwentyBytes(c: Ctx, probs: Probs, rc: Rc, data: seq<Byte>)
    requires Proper(c) && Bounded(probs) && rc.range >= TOP && rc.at + 20 <= |data|
    ensures var r := DryRun(c, probs, AtIsMatch, rc, data);
            r.Some? && rc.at <= r.value.rc.at <= rc.at + 20 && r.value.rc.range >= TOP
  {
    hide Ample, DryRun, Bounded;
    var enough, more := data[..rc.at + 20], data[rc.at + 20..];
    assert data == enough + more;
    AmpleStart(rc.range);
    NeverStarves(c, probs, AtIsMatch, rc, enough);
    MoreInput(c, probs, AtIsMatch, rc, enough, more);
    EndsNormalized(c, probs, AtIsMatch, rc, data);
  }

  /** So with twenty bytes at hand the decoder never runs over the end of its input, and this goes on: range and
      probabilities stay within their bounds. */
  lemma EnoughInput(c: Ctx, probs: Probs, rc: Rc, data: seq<Byte>)
    requires Proper(c) && Bounded(probs) && rc.range >= TOP && rc.at + 20 <= |data|
    ensures var w := WetRun(c, probs, AtIsMatch, rc, data);
            && w.Some? && rc.at <= w.value.rc.at <= rc.at + 20 && w.value.rc.range >= TOP
            && Bounded(w.value.probs) && |w.value.probs| == |probs|
  {
    hide DryRun, WetRun, Bounded;
    AtMostTwentyBytes(c, probs, rc, data);
    RunsAgree(c, probs, probs, AtIsMatch, rc, data);
    WetKeepsBounds(c, probs, AtIsMatch, rc, data);
  }
}
