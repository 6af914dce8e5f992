/** A decoder for whole Deflate streams (RFC 1951), as a machine that reads one element of the stream per step. */
module Deflate {
  import opened Bits
  import opened LowBits
  import opened CanonicalCode
  import opened DeflateCode
  import opened InflateSetup

  // ---------------------------------------------------------------- tables of sections 3.2.5 and 3.2.7

  const LENGTH_BITS: seq<nat> :=
    [0, 0, 0, 0, 0, 0, 0, 0, 1, 1, 1, 1, 2, 2, 2, 2, 3, 3, 3, 3, 4, 4, 4, 4, 5, 5, 5, 5, 0]

  const LENGTH_BASE: seq<nat> :=
    [3, 4, 5, 6, 7, 8, 9, 10, 11, 13, 15, 17, 19, 23, 27, 31, 35, 43, 51, 59, 67, 83, 99, 115, 131, 163, 195, 227, 258]

  const DIST_BITS: seq<nat> :=
    [0, 0, 0, 0, 1, 1, 2, 2, 3, 3, 4, 4, 5, 5, 6, 6, 7, 7, 8, 8, 9, 9, 10, 10, 11, 11, 12, 12, 13, 13, 14, 14]

  const DIST_BASE: seq<nat> :=
    [1, 2, 3, 4, 5, 7, 9, 13, 17, 25, 33, 49, 65, 97, 129, 193, 257, 385, 513, 769, 1025, 1537, 2049, 3073,
     4097, 6145, 8193, 12289, 16385, 24577, 32769, 49153]

  const CODE_LENGTH_ORDER: seq<nat> := [16, 17, 18, 0, 8, 7, 9, 6, 10, 5, 11, 4, 12, 3, 13, 2, 14, 1, 15]

  function LengthBits(s: nat): (r: nat)
    requires 257 <= s <= 285
    ensures r <= 5 && (r == 5 <==> 281 <= s <= 284)
  {
    LENGTH_BITS[s - 257]
  }

  function LengthBase(s: nat): nat
    requires 257 <= s <= 285
  {
    LENGTH_BASE[s - 257]
  }

  function DistBits(t: nat): (r: nat)
    requires t < 32
    ensures r <= 14 && (r == 14 <==> t >= 30)
  {
    DIST_BITS[t]
  }

  function DistBase(t: nat): (r: nat)
    requires t < 32
    ensures 1 <= r <= 49153 && (t <= 30 ==> r <= 32769)
  {
    DIST_BASE[t]
  }

  function OrderOf(j: nat): (r: nat)
    requires j < 19
    ensures r < 19
  {
    CODE_LENGTH_ORDER[j]
  }

  /** The 19 code lengths of which `pre` are transmitted, in their peculiar order; the others are zero. */
  function Scatter(pre: seq<nat>): (r: seq<nat>)
    requires |pre| <= 19
    ensures |r| == 19
  {
    if pre == [] then seq(19, _ => 0) else Scatter(pre[..|pre| - 1])[OrderOf(|pre| - 1) := pre[|pre| - 1]]
  }

  /** How the code length symbols 16 to 18 repeat a length. */
  function RepeatBits(s: nat): nat { if s == 16 then 2 else if s == 17 then 3 else 7 }

  function RepeatBase(s: nat): nat { if s == 16 || s == 17 then 3 else 11 }

  // ---------------------------------------------------------------- the machine

  datatype Mode =
    | Boundary
    | StoredHeader
    | Stored(left: nat)
    | StaticHeader
    | DynamicHeader
    | CodeLengths(hlit: nat, hdist: nat, hclen: nat, pre: seq<nat>)
    | Lengths(hlit: nat, hdist: nat, code: seq<nat>, got: seq<nat>)
    | Codes(lit: seq<nat>, dist: seq<nat>)
    | Distance(lit: seq<nat>, dist: seq<nat>, length: nat)
    | Repeat(lit: seq<nat>, dist: seq<nat>, length: nat, back: nat)

  /** `rest` is what is left of the stream, `out` all output so far. */
  datatype Conf = Conf(mode: Mode, final: bool, rest: seq<bool>, out: seq<Byte>)

  /** How decoding ends. `Outside` are streams whose codes could need more than 48 bits for one match. */
  datatype Ending = Finished | Corrupt | Starved | Outside

  datatype Outcome = Go(conf: Conf) | Halt(end: Ending)

  function Skip(c: Conf, n: nat, mode: Mode): Conf
    requires n <= |c.rest|
  {
    Conf(mode, c.final, c.rest[n..], c.out)
  }

  function Field(rest: seq<bool>, from: nat, n: nat): nat
    requires from + n <= |rest|
  {
    LowValue(rest[from..from + n])
  }

  function StepBoundary(c: Conf): Outcome {
    if c.final then Halt(Finished)
    else if |c.rest| < 3 then Halt(Starved)
    else
      var kind := Field(c.rest, 1, 2);
      if kind >= 3 then Halt(Corrupt)
      else Go(Conf(if kind == 0 then StoredHeader else if kind == 1 then StaticHeader else DynamicHeader,
                   c.rest[0], c.rest[3..], c.out))
  }

  /** Stored blocks start at a byte boundary of the stream, which is a whole number of bytes. */
  function StepStoredHeader(c: Conf): Outcome {
    if |c.rest| < 32 then Halt(Starved)
    else
      var skip := |c.rest| % 8;
      if Field(c.rest, skip, 16) + Field(c.rest, skip + 16, 16) != 0xFFFF then Halt(Corrupt)
      else Go(Skip(c, skip + 32, Stored(Field(c.rest, skip, 16))))
  }

  function StepStored(c: Conf): Outcome
    requires c.mode.Stored?
  {
    if c.mode.left == 0 then Go(c.(mode := Boundary))
    else if |c.rest| < 8 then Halt(Starved)
    else
      LowValueBound(c.rest[..8]);
      Pow2Eight();
      Go(Conf(Stored(c.mode.left - 1), c.final, c.rest[8..], c.out + [LowValue(c.rest[..8])]))
  }

  function StepDynamicHeader(c: Conf): Outcome {
    if |c.rest| < 14 then Halt(Starved)
    else Go(Skip(c, 14, CodeLengths(Field(c.rest, 0, 5) + 257, Field(c.rest, 5, 5) + 1, Field(c.rest, 10, 4) + 4, [])))
  }

  ghost function StepCodeLengths(c: Conf): Outcome
    requires c.mode.CodeLengths?
  {
    var m := c.mode;
    if |m.pre| < m.hclen then
      if |c.rest| < 3 then Halt(Starved)
      else Go(Skip(c, 3, m.(pre := m.pre + [Field(c.rest, 0, 3)])))
    else if |m.pre| > 19 || !Fits(Scatter(m.pre)) then Halt(Corrupt)
    else Go(c.(mode := Lengths(m.hlit, m.hdist, Scatter(m.pre), [])))
  }

  ghost function StepLengths(c: Conf): Outcome
    requires c.mode.Lengths?
  {
    var m := c.mode;
    var total := m.hlit + m.hdist;
    if |m.got| >= total then StartCodes(c, m.got[..m.hlit], m.got[m.hlit..])
    else
      match Read(m.code, c.rest)
      case Incomplete => Halt(Starved)
      case Invalid => Halt(Corrupt)
      case Symbol(s) =>
        var l := m.code[s];
        if s < 16 then Go(Skip(c, l, m.(got := m.got + [s])))
        else if s == 16 && m.got == [] then Halt(Corrupt)
        else if |c.rest| < l + RepeatBits(s) then Halt(Starved)
        else
          var n := Field(c.rest, l, RepeatBits(s)) + RepeatBase(s);
          var v := if s == 16 then m.got[|m.got| - 1] else 0;
          if |m.got| + n > total then Halt(Corrupt)
          else Go(Skip(c, l + RepeatBits(s), m.(got := m.got + seq(n, _ => v))))
  }

  ghost function StartCodes(c: Conf, lit: seq<nat>, dist: seq<nat>): Outcome {
    if !Fits(lit) || !Fits(dist) then Halt(Corrupt)
    else if |dist| > 32 || !Budget(lit, dist) then Halt(Outside)
    else Go(c.(mode := Codes(lit, dist)))
  }

  /** No match needs more than 48 bits. */
  ghost predicate Budget(lit: seq<nat>, dist: seq<nat>)
    requires |dist| <= 32
  {
    forall s: nat, t: nat :: 257 <= s <= 285 && Coded(lit, s) && Coded(dist, t) ==>
                               lit[s] + LengthBits(s) + dist[t] + DistBits(t) <= 48
  }

  ghost function StepCodes(c: Conf): Outcome
    requires c.mode.Codes?
  {
    var m := c.mode;
    match Read(m.lit, c.rest)
    case Incomplete => Halt(Starved)
    case Invalid => Halt(Corrupt)
    case Symbol(s) =>
      var l := m.lit[s];
      if s < 256 then Go(Conf(m, c.final, c.rest[l..], c.out + [s]))
      else if s == 256 then Go(Skip(c, l, Boundary))
      else if s > 285 then Halt(Corrupt)
      else if |c.rest| < l + LengthBits(s) then Halt(Starved)
      else Go(Skip(c, l + LengthBits(s), Distance(m.lit, m.dist, LengthBase(s) + Field(c.rest, l, LengthBits(s)))))
  }

  ghost function StepDistance(c: Conf): Outcome
    requires c.mode.Distance?
  {
    var m := c.mode;
    match Read(m.dist, c.rest)
    case Incomplete => Halt(Starved)
    case Invalid => Halt(Corrupt)
    case Symbol(t) =>
      var l := m.dist[t];
      if t >= 32 then Halt(Corrupt)
      else if |c.rest| < l + DistBits(t) then Halt(Starved)
      else
        var back := DistBase(t) + Field(c.rest, l, DistBits(t));
        if back > |c.out| || t > 30 then Halt(Corrupt)
        else Go(Skip(c, l + DistBits(t), Repeat(m.lit, m.dist, m.length, back)))
  }

  /** Copies one byte of the history, which the copy itself extends. */
  function StepRepeat(c: Conf): Outcome
    requires c.mode.Repeat?
  {
    var m := c.mode;
    if m.length == 0 then Go(c.(mode := Codes(m.lit, m.dist)))
    else if m.back == 0 || m.back > |c.out| then Halt(Corrupt)
    else Go(Conf(m.(length := m.length - 1), c.final, c.rest, c.out + [c.out[|c.out| - m.back]]))
  }

  function Rank(m: Mode): nat {
    match m
    case CodeLengths(_, _, _, _) => 3
    case Lengths(_, _, _, _) => 2
    case Repeat(_, _, length, _) => 2 + length
    case Codes(_, _) => 1
    case StaticHeader => 2
    case Stored(_) => 1
    case _ => 0
  }

  ghost function Step(c: Conf): (r: Outcome)
    ensures r.Go? ==> |r.conf.rest| < |c.rest| || (|r.conf.rest| == |c.rest| && Rank(r.conf.mode) < Rank(c.mode))
  {
    match c.mode
    case Boundary => StepBoundary(c)
    case StoredHeader => StepStoredHeader(c)
    case Stored(_) => StepStored(c)
    case StaticHeader => Go(c.(mode := Codes(StaticLengths(), StaticDistances())))
    case DynamicHeader => StepDynamicHeader(c)
    case CodeLengths(_, _, _, _) => StepCodeLengths(c)
    case Lengths(_, _, _, _) => StepLengths(c)
    case Codes(_, _) => StepCodes(c)
    case Distance(_, _, _) => StepDistance(c)
    case Repeat(_, _, _, _) => StepRepeat(c)
  }

  /** What decoding amounts to: how it ends, all output, and the bits that remain. */
  datatype Decoded = Decoded(end: Ending, out: seq<Byte>, rest: seq<bool>)

  ghost function Run(c: Conf): Decoded
    decreases |c.rest|, Rank(c.mode)
  {
    match Step(c)
    case Halt(end) => Decoded(end, c.out, c.rest)
    case Go(d) => Run(d)
  }

  ghost function Decode(stream: seq<Byte>): Decoded {
    Run(Conf(Boundary, false, LowBitsOf(stream), []))
  }

  lemma RunStep(c: Conf)
    ensures Step(c).Go? ==> Run(c) == Run(Step(c).conf)
    ensures Step(c).Halt? ==> Run(c) == Decoded(Step(c).end, c.out, c.rest)
  {
    hide Step;
  }

  // ---------------------------------------------------------------- the budget of the fast path

  /** A match can need more than 48 bits only where a length symbol with five extra bits and one of the distance
      symbols 30 and 31, which valid streams do not use, both have code words of 15 bits. */
  lemma BudgetIff(lit: seq<nat>, dist: seq<nat>)
    requires |lit| <= 288 && |dist| <= 32
    ensures Budget(lit, dist) <==>
            !(exists s: nat, t: nat :: 281 <= s <= 284 && s < |lit| && 30 <= t < |dist| && lit[s] == 15 && dist[t] == 15)
  {
    if s: nat, t: nat :| 281 <= s <= 284 && s < |lit| && 30 <= t < |dist| && lit[s] == 15 && dist[t] == 15 {
      assert Coded(lit, s) && Coded(dist, t);
      assert lit[s] + LengthBits(s) + dist[t] + DistBits(t) == 49;
    }
  }

  lemma StaticBudget()
    ensures Budget(StaticLengths(), StaticDistances())
  {
  }

  function AllFifteen(n: nat): (r: seq<nat>)
    ensures |r| == n && forall i :: 0 <= i < n ==> r[i] == 15
  {
    seq(n, _ => 15)
  }

  /** Codes that are accepted can exceed the budget: all words may have 15 bits. */
  lemma BudgetExceeded()
    ensures var lit, dist := AllFifteen(286), AllFifteen(32);
            Fits(lit) && Fits(dist) && Coded(lit, 256) && !Budget(lit, dist)
  {
    hide Fits, Budget;
    var lit, dist := AllFifteen(286), AllFifteen(32);
    FifteenFits(286);
    FifteenFits(32);
    BudgetIff(lit, dist);
    assert lit[281] == 15 && dist[30] == 15;
  }

  lemma FifteenFits(n: nat)
    requires n <= 286
    ensures Fits(AllFifteen(n))
  {
    var lens := AllFifteen(n);
    forall s | 0 <= s < n ensures CodeOf(lens, s) < Pow2(lens[s]) {
      NoShorter(lens, 15);
      CountAtMost(lens, 15, s);
      assert Pow2(15) == 32768 by { Pow2Eight(); Pow2Add(8, 7); }
    }
  }

  lemma {:induction false} NoShorter(lens: seq<nat>, l: nat)
    requires l <= 15 && forall i :: 0 <= i < |lens| ==> lens[i] == 15
    ensures FirstCode(lens, l) == 0
  {
    if l > 1 {
      NoShorter(lens, l - 1);
      NoneOfLength(lens, l - 1, |lens|);
    }
  }

  lemma {:induction false} NoneOfLength(lens: seq<nat>, l: nat, n: nat)
    requires n <= |lens| && forall i :: 0 <= i < n ==> lens[i] != l
    ensures Count(lens, l, n) == 0
  {
    if n > 0 {
      NoneOfLength(lens, l, n - 1);
    }
  }

  lemma {:induction false} CountAtMost(lens: seq<nat>, l: nat, n: nat)
    requires n <= |lens|
    ensures Count(lens, l, n) <= n
  {
    if n > 0 {
      CountAtMost(lens, l, n - 1);
    }
  }
}
