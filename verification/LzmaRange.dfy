/** The range decoder of LZMA, and one symbol decoded with and without adapting the probabilities. */
module LzmaRange {
  import opened Options
  import opened LowBits
  import opened LzmaSymbol

  const TOP: nat := 0x100_0000
  const WORD: nat := 0x1_0000_0000
  const MODEL: nat := 2048

  /** Range and code are 32-bit words; `at` is the position of the next input byte. */
  datatype Rc = Rc(range: nat, code: nat, at: nat)

  /** Loads a byte when the range has become small; None when there is no more input. */
  function Normalize(rc: Rc, data: seq<Byte>): Option<Rc> {
    if rc.range >= TOP then Some(rc)
    else if rc.at >= |data| then None
    else Some(Rc(rc.range * 256, (rc.code * 256 + data[rc.at]) % WORD, rc.at + 1))
  }

  function Bound(range: nat, p: nat): nat { range / MODEL * p }

  /** The bit a probability decides, and the range that is left. */
  function Decide(rc: Rc, p: nat): (Rc, bool) {
    var bound := Bound(rc.range, p);
    if rc.code < bound then (rc.(range := bound), false)
    else (Rc(if rc.range >= bound then rc.range - bound else 0, rc.code - bound, rc.at), true)
  }

  /** A bit without probability; the code is compared by the sign of a 32-bit difference. */
  function Halve(rc: Rc): (Rc, bool) {
    var r := rc.range / 2;
    var d := (rc.code - r) % WORD;
    if d >= WORD / 2 then (rc.(range := r), false) else (Rc(r, d, rc.at), true)
  }

  function Adapted(p: nat, b: bool): nat {
    if b then p - p / 32 else if p <= MODEL then p + (MODEL - p) / 32 else p
  }

  type Probs = seq<nat>

  predicate Bounded(probs: Probs) {
    forall i :: 0 <= i < |probs| ==> 31 <= probs[i] <= 2017
  }

  function ProbAt(probs: Probs, i: nat): nat { if i < |probs| then probs[i] else 1024 }

  /** The range decoder after one more bit, and that bit. */
  function OneBit(c: Ctx, probs: Probs, st: Sym, rc: Rc): (Rc, bool)
    requires Proper(c) && !st.Done? && Sane(st)
  {
    if st.Raw? then Halve(rc) else Decide(rc, ProbAt(probs, SlotOf(c, st)))
  }

  datatype Dry = Dry(rc: Rc, symbol: Symbol)

  /** A symbol decoded without changing the probabilities. */
  function DryRun(c: Ctx, probs: Probs, st: Sym, rc: Rc, data: seq<Byte>): Option<Dry>
    requires Proper(c) && Sane(st)
    decreases Height(st)
  {
    match Normalize(rc, data)
    case None => None
    case Some(n) =>
      if st.Done? then Some(Dry(n, st.s))
      else
        var (r, b) := OneBit(c, probs, st, n);
        AfterIsSane(c, st, b);
        DryRun(c, probs, After(c, st, b), r, data)
  }

  datatype Wet = Wet(rc: Rc, symbol: Symbol, probs: Probs)

  function Learned(c: Ctx, probs: Probs, st: Sym, b: bool): (r: Probs)
    requires Proper(c) && !st.Done? && Sane(st)
    ensures |r| == |probs|
  {
    if st.Raw? || SlotOf(c, st) >= |probs| then probs
    else probs[SlotOf(c, st) := Adapted(probs[SlotOf(c, st)], b)]
  }

  /** A symbol decoded with every probability adapted as it is used. */
  function WetRun(c: Ctx, probs: Probs, st: Sym, rc: Rc, data: seq<Byte>): Option<Wet>
    requires Proper(c) && Sane(st)
    decreases Height(st)
  {
    match Normalize(rc, data)
    case None => None
    case Some(n) =>
      if st.Done? then Some(Wet(n, st.s, probs))
      else
        var (r, b) := OneBit(c, probs, st, n);
        AfterIsSane(c, st, b);
        WetRun(c, Learned(c, probs, st, b), After(c, st, b), r, data)
  }

  // ---------------------------------------------------------------- the two runs agree

  ghost predicate SameAhead(c: Ctx, st: Sym, probs: Probs, now: Probs)
    requires Proper(c) && Sane(st)
  {
    |now| == |probs| && forall s: nat :: s < |probs| && Later(c, st, s) ==> now[s] == probs[s]
  }

  lemma StillSame(c: Ctx, st: Sym, b: bool, probs: Probs, now: Probs)
    requires Proper(c) && Sane(st) && !st.Done? && Sane(After(c, st, b)) && SameAhead(c, st, probs, now)
    ensures SameAhead(c, After(c, st, b), probs, Learned(c, now, st, b))
  {
    hide After, Later, SlotOf, Sane, Adapted;
    var next := Learned(c, now, st, b);
    forall s: nat | s < |probs| && Later(c, After(c, st, b), s) ensures next[s] == probs[s] {
      LaterShrinks(c, st, b, s);
    }
  }

  lemma SameBit(c: Ctx, st: Sym, probs: Probs, now: Probs, rc: Rc)
    requires Proper(c) && Sane(st) && !st.Done? && SameAhead(c, st, probs, now)
    ensures OneBit(c, now, st, rc) == OneBit(c, probs, st, rc)
  {
    hide After, Later, SlotOf, Sane, Decide, Halve;
    if !st.Raw? {
      SlotIsLater(c, st);
    }
  }

  /** Decoding ahead without adapting the probabilities sees the same bits, and uses the same input, as decoding
      does: no probability that has been adapted is used again in the same symbol. */
  lemma {:induction false} RunsAgree(c: Ctx, probs: Probs, now: Probs, st: Sym, rc: Rc, data: seq<Byte>)
    requires Proper(c) && Sane(st) && SameAhead(c, st, probs, now)
    ensures DryRun(c, probs, st, rc, data).Some? <==> WetRun(c, now, st, rc, data).Some?
    ensures DryRun(c, probs, st, rc, data).Some? ==>
              var d, w := DryRun(c, probs, st, rc, data).value, WetRun(c, now, st, rc, data).value;
              d.rc == w.rc && d.symbol == w.symbol
    decreases Height(st)
  {
    hide After, Later, SlotOf, Sane, OneBit, SameAhead, Learned, Height;
    match Normalize(rc, data)
    case None =>
    case Some(n) =>
      if !st.Done? {
        var (r, b) := OneBit(c, probs, st, n);
        SameBit(c, st, probs, now, n);
        AfterIsSane(c, st, b);
        StillSame(c, st, b, probs, now);
        RunsAgree(c, probs, Learned(c, now, st, b), After(c, st, b), r, data);
      }
  }

  /** The real decoder keeps the probabilities bounded. */
  lemma {:induction false} WetKeepsBounds(c: Ctx, probs: Probs, st: Sym, rc: Rc, data: seq<Byte>)
    requires Proper(c) && Sane(st) && Bounded(probs)
    ensures WetRun(c, probs, st, rc, data).Some? ==>
              var w := WetRun(c, probs, st, rc, data).value;
              Bounded(w.probs) && |w.probs| == |probs|
    decreases Height(st)
  {
    hide After, SlotOf, Sane, OneBit, Height;
    match Normalize(rc, data)
    case None =>
    case Some(n) =>
      if !st.Done? {
        var (r, b) := OneBit(c, probs, st, n);
        AfterIsSane(c, st, b);
        WetKeepsBounds(c, Learned(c, probs, st, b), After(c, st, b), r, data);
      }
  }

  /** More input does not change what has been decoded. */
  lemma {:induction false} MoreInput(c: Ctx, probs: Probs, st: Sym, rc: Rc, data: seq<Byte>, more: seq<Byte>)
    requires Proper(c) && Sane(st)
    ensures DryRun(c, probs, st, rc, data).Some? ==>
              && DryRun(c, probs, st, rc, data + more) == DryRun(c, probs, st, rc, data)
              && (rc.at <= |data| ==> rc.at <= DryRun(c, probs, st, rc, data).value.rc.at <= |data|)
    decreases Height(st)
  {
    hide After, SlotOf, Sane, OneBit, Height;
    match Normalize(rc, data)
    case None =>
    case Some(n) =>
      assert Normalize(rc, data + more) == Some(n);
      if !st.Done? {
        var (r, b) := OneBit(c, probs, st, n);
        BitKeepsPlace(c, probs, st, n);
        AfterIsSane(c, st, b);
        MoreInput(c, probs, After(c, st, b), r, data, more);
      }
  }

  lemma BitKeepsPlace(c: Ctx, probs: Probs, st: Sym, rc: Rc)
    requires Proper(c) && !st.Done? && Sane(st)
    ensures OneBit(c, probs, st, rc).0.at == rc.at
  {
    hide SlotOf, Sane;
  }

  lemma WetStep(c: Ctx, probs: Probs, st: Sym, rc: Rc, data: seq<Byte>)
    requires Proper(c) && Sane(st) && !st.Done?
    ensures Normalize(rc, data) == None ==> WetRun(c, probs, st, rc, data) == None
    ensures Normalize(rc, data).Some? ==>
              var (r, b) := OneBit(c, probs, st, Normalize(rc, data).value);
              && Sane(After(c, st, b))
              && WetRun(c, probs, st, rc, data) == WetRun(c, Learned(c, probs, st, b), After(c, st, b), r, data)
  {
    hide After, SlotOf, Sane, Height, OneBit, Normalize, Learned;
    if Normalize(rc, data).Some? {
      var (r, b) := OneBit(c, probs, st, Normalize(rc, data).value);
      AfterIsSane(c, st, b);
    }
  }

  lemma DryStep(c: Ctx, probs: Probs, st: Sym, rc: Rc, data: seq<Byte>)
    requires Proper(c) && Sane(st) && !st.Done?
    ensures Normalize(rc, data) == None ==> DryRun(c, probs, st, rc, data) == None
    ensures Normalize(rc, data).Some? ==>
              var (r, b) := OneBit(c, probs, st, Normalize(rc, data).value);
              Sane(After(c, st, b)) && DryRun(c, probs, st, rc, data) == DryRun(c, probs, After(c, st, b), r, data)
  {
    hide After, SlotOf, Sane, Height, OneBit, Normalize;
    if Normalize(rc, data).Some? {
      var (r, b) := OneBit(c, probs, st, Normalize(rc, data).value);
      AfterIsSane(c, st, b);
    }
  }
}
