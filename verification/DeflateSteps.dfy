/** The steps of the whole-stream decoder, in terms of the bits a bit reader delivers one field after the other. */
module DeflateSteps {
  import opened Bits
  import opened LowBits
  import opened CanonicalCode
  import opened DeflateCode
  import opened InflateSetup
  import opened Deflate

  /** A decoder that has no more input can only wait or give up. */
  ghost predicate Stuck(c: Conf) {
    Step(c) == Halt(Starved) || Step(c) == Halt(Corrupt)
  }

  /** The next step produces a byte of output. */
  ghost predicate Emits(c: Conf) {
    Step(c).Go? && |Step(c).conf.out| == |c.out| + 1
  }

  /** `d` is reached from `c`, and so decodes to the same. */
  ghost predicate Reaches(c: Conf, d: Conf) {
    && Run(c) == Run(d)
    && (|d.rest| < |c.rest| || (|d.rest| == |c.rest| && Rank(d.mode) < Rank(c.mode)))
  }

  lemma StepReaches(c: Conf)
    ensures Step(c).Go? ==> Reaches(c, Step(c).conf)
  {
    hide Step, Rank;
    RunStep(c);
  }

  lemma ReachesSame(c: Conf, d: Conf)
    ensures Reaches(c, d) ==> Run(c) == Run(d)
  {
  }

  lemma ReachesOn(b: Conf, c: Conf, d: Conf)
    requires b == c || Reaches(b, c)
    ensures d == c || Reaches(c, d) ==> d == b || Reaches(b, d)
    ensures Reaches(c, d) ==> |d.rest| < |c.rest| || (|d.rest| == |c.rest| && Rank(d.mode) < Rank(c.mode))
  {
  }

  lemma FieldIsPart(rest: seq<bool>, a: nat, n: nat)
    requires a + n <= |rest|
    ensures rest[a..][..n] == rest[a..a + n] && rest[a..][n..] == rest[a + n..]
    ensures Field(rest, a, n) == LowValue(rest[a..][..n])
  {
  }

  lemma FirstBit(rest: seq<bool>)
    requires |rest| >= 1
    ensures LowValue(rest[..1]) != 0 <==> rest[0]
  {
    assert rest[..1][1..] == [];
  }

  lemma HeldPrefix(held: seq<bool>, ahead: seq<bool>)
    ensures (held + ahead)[|held|..] == ahead && held <= held + ahead
    ensures forall n: nat :: n <= |ahead| ==> (held + ahead)[|held| + n..] == ahead[n..]
    ensures forall n: nat :: n <= |ahead| ==> Field(held + ahead, |held|, n) == LowValue(ahead[..n])
  {
    forall n: nat | n <= |ahead|
      ensures (held + ahead)[|held| + n..] == ahead[n..] && Field(held + ahead, |held|, n) == LowValue(ahead[..n])
    {
      assert (held + ahead)[|held|..|held| + n] == ahead[..n];
    }
  }

  // ---------------------------------------------------------------- block headers

  lemma BoundarySteps(c: Conf)
    requires c.mode == Boundary
    ensures c.final ==> Step(c) == Halt(Finished)
    ensures !c.final && |c.rest| < 3 ==> Step(c) == Halt(Starved)
    ensures !c.final && |c.rest| >= 3 ==>
              var kind := LowValue(c.rest[1..][..2]);
              Step(c) == if kind >= 3 then Halt(Corrupt)
                         else Go(Conf(if kind == 0 then StoredHeader else if kind == 1 then StaticHeader else DynamicHeader,
                                      LowValue(c.rest[..1]) != 0, c.rest[1..][2..], c.out))
  {
    hide LowValue;
    if |c.rest| >= 3 {
      FieldIsPart(c.rest, 1, 2);
      FirstBit(c.rest);
    }
  }

  lemma StoredHeaderSteps(c: Conf)
    requires c.mode == StoredHeader
    ensures |c.rest| < 32 ==> Step(c) == Halt(Starved)
    ensures |c.rest| >= 32 ==>
              var a := c.rest[|c.rest| % 8..];
              && |a| >= 32
              && Step(c) == if LowValue(a[..16]) + LowValue(a[16..][..16]) != 0xFFFF then Halt(Corrupt)
                            else Go(Conf(Stored(LowValue(a[..16])), c.final, a[16..][16..], c.out))
  {
    hide LowValue;
    if |c.rest| >= 32 {
      var k := |c.rest| % 8;
      FieldIsPart(c.rest, k, 16);
      FieldIsPart(c.rest, k + 16, 16);
      assert c.rest[k..][16..] == c.rest[k + 16..];
    }
  }

  lemma StoredSteps(c: Conf)
    requires c.mode.Stored?
    ensures c.mode.left == 0 ==> Step(c) == Go(c.(mode := Boundary))
    ensures c.mode.left > 0 && |c.rest| < 8 ==> Step(c) == Halt(Starved)
    ensures c.mode.left > 0 && |c.rest| >= 8 ==>
              && LowValue(c.rest[..8]) < 256
              && Step(c) == Go(Conf(Stored(c.mode.left - 1), c.final, c.rest[8..], c.out + [LowValue(c.rest[..8])]))
  {
    hide LowValue, Pow2;
    if |c.rest| >= 8 {
      LowValueBound(c.rest[..8]);
      Pow2Eight();
    }
  }

  lemma StaticSteps(c: Conf)
    requires c.mode == StaticHeader
    ensures Step(c) == Go(c.(mode := Codes(StaticLengths(), StaticDistances())))
  {
  }

  lemma DynamicHeaderSteps(c: Conf)
    requires c.mode == DynamicHeader
    ensures |c.rest| < 14 ==> Step(c) == Halt(Starved)
    ensures |c.rest| >= 14 ==>
              var a, b := c.rest[5..], c.rest[5..][5..];
              Step(c) == Go(Conf(CodeLengths(LowValue(c.rest[..5]) + 257, LowValue(a[..5]) + 1, LowValue(b[..4]) + 4, []),
                                 c.final, b[4..], c.out))
  {
    hide LowValue;
    if |c.rest| >= 14 {
      FieldIsPart(c.rest, 0, 5);
      FieldIsPart(c.rest, 5, 5);
      FieldIsPart(c.rest, 10, 4);
      assert c.rest[0..] == c.rest;
    }
  }

  // ---------------------------------------------------------------- code lengths

  lemma CodeLengthsSteps(c: Conf)
    requires c.mode.CodeLengths? && |c.mode.pre| <= c.mode.hclen <= 19
    ensures |c.mode.pre| < c.mode.hclen && |c.rest| < 3 ==> Step(c) == Halt(Starved)
    ensures |c.mode.pre| < c.mode.hclen && |c.rest| >= 3 ==>
              Step(c) == Go(Conf(c.mode.(pre := c.mode.pre + [LowValue(c.rest[..3])]), c.final, c.rest[3..], c.out))
    ensures |c.mode.pre| == c.mode.hclen ==>
              Step(c) == if Fits(Scatter(c.mode.pre))
                         then Go(c.(mode := Lengths(c.mode.hlit, c.mode.hdist, Scatter(c.mode.pre), [])))
                         else Halt(Corrupt)
  {
    hide LowValue, Fits, Scatter;
    if |c.rest| >= 3 {
      FieldIsPart(c.rest, 0, 3);
      assert c.rest[0..] == c.rest;
    }
  }

  lemma ScatterNext(pre: seq<nat>, v: nat)
    requires |pre| < 19
    ensures Scatter(pre + [v]) == Scatter(pre)[OrderOf(|pre|) := v]
  {
    assert (pre + [v])[..|pre|] == pre;
  }

  lemma LengthsEnd(c: Conf)
    requires c.mode.Lengths? && |c.mode.got| == c.mode.hlit + c.mode.hdist
    ensures Step(c) == StartCodes(c, c.mode.got[..c.mode.hlit], c.mode.got[c.mode.hlit..])
  {
    hide StartCodes;
  }

  lemma LengthsUnread(c: Conf)
    requires c.mode.Lengths? && |c.mode.got| < c.mode.hlit + c.mode.hdist && !Read(c.mode.code, c.rest).Symbol?
    ensures Step(c) == Halt(if Read(c.mode.code, c.rest) == Invalid then Corrupt else Starved)
  {
    hide Read, StartCodes;
  }

  /** The symbol `s`, whose word is `held`, stands before the bits `ahead`. */
  lemma LengthsSymbol(c: Conf, s: nat, held: seq<bool>, ahead: seq<bool>)
    requires c.mode.Lengths? && |c.mode.got| < c.mode.hlit + c.mode.hdist && Fits(c.mode.code)
    requires Coded(c.mode.code, s) && held == WordOf(c.mode.code, s) && c.rest == held + ahead
    ensures s < 16 ==> Step(c) == Go(Conf(c.mode.(got := c.mode.got + [s]), c.final, ahead, c.out))
    ensures s == 16 && c.mode.got == [] ==> Step(c) == Halt(Corrupt)
    ensures s >= 16 && (s == 16 ==> c.mode.got != []) ==>
              var k, total := RepeatBits(s), c.mode.hlit + c.mode.hdist;
              && (|ahead| < k ==> Step(c) == Halt(Starved))
              && (|ahead| >= k ==>
                    var n := LowValue(ahead[..k]) + RepeatBase(s);
                    var v := if s == 16 then c.mode.got[|c.mode.got| - 1] else 0;
                    Step(c) == if |c.mode.got| + n > total then Halt(Corrupt)
                               else Go(Conf(c.mode.(got := c.mode.got + seq(n, _ => v)), c.final, ahead[k..], c.out)))
  {
    hide WordOf, Coded, Read, LowValue, StartCodes, Fits;
    ReadIs(c.mode.code, s, c.rest);
    HeldPrefix(held, ahead);
  }

  // ---------------------------------------------------------------- symbols

  lemma CodesUnread(c: Conf)
    requires c.mode.Codes? && !Read(c.mode.lit, c.rest).Symbol?
    ensures Step(c) == Halt(if Read(c.mode.lit, c.rest) == Invalid then Corrupt else Starved)
  {
    hide Read;
  }

  lemma CodesSymbol(c: Conf, s: nat, held: seq<bool>, ahead: seq<bool>)
    requires c.mode.Codes? && Fits(c.mode.lit) && Coded(c.mode.lit, s) && held == WordOf(c.mode.lit, s)
    requires c.rest == held + ahead
    ensures s < 256 ==> Step(c) == Go(Conf(c.mode, c.final, ahead, c.out + [s]))
    ensures s == 256 ==> Step(c) == Go(Conf(Boundary, c.final, ahead, c.out))
    ensures s > 285 ==> Step(c) == Halt(Corrupt)
    ensures 257 <= s <= 285 ==>
              var k := LengthBits(s);
              && (|ahead| < k ==> Step(c) == Halt(Starved))
              && (|ahead| >= k ==>
                    Step(c) == Go(Conf(Distance(c.mode.lit, c.mode.dist, LengthBase(s) + LowValue(ahead[..k])),
                                       c.final, ahead[k..], c.out)))
  {
    hide WordOf, Coded, Read, LowValue, LengthBits, LengthBase, Fits;
    ReadIs(c.mode.lit, s, c.rest);
    HeldPrefix(held, ahead);
  }

  lemma DistanceUnread(c: Conf)
    requires c.mode.Distance? && !Read(c.mode.dist, c.rest).Symbol?
    ensures Step(c) == Halt(if Read(c.mode.dist, c.rest) == Invalid then Corrupt else Starved)
  {
    hide Read;
  }

  lemma DistanceSymbol(c: Conf, t: nat, held: seq<bool>, ahead: seq<bool>)
    requires c.mode.Distance? && Fits(c.mode.dist) && Coded(c.mode.dist, t) && held == WordOf(c.mode.dist, t)
    requires c.rest == held + ahead && t < 32
    ensures var k := DistBits(t);
            && (|ahead| < k ==> Step(c) == Halt(Starved))
            && (|ahead| >= k ==>
                  var back := DistBase(t) + LowValue(ahead[..k]);
                  Step(c) == if back > |c.out| || t > 30 then Halt(Corrupt)
                             else Go(Conf(Repeat(c.mode.lit, c.mode.dist, c.mode.length, back), c.final, ahead[k..], c.out)))
  {
    hide WordOf, Coded, Read, LowValue, DistBits, DistBase, Fits;
    ReadIs(c.mode.dist, t, c.rest);
    HeldPrefix(held, ahead);
  }

  /** Distance symbol 30 of the fixed code is accepted like any other, and only symbol 31 is not. */
  lemma SymbolThirtyIsAccepted(c: Conf, t: nat, ahead: seq<bool>)
    requires c.mode.Distance? && c.mode.dist == StaticDistances() && 30 <= t <= 31 && |ahead| >= 14
    requires c.rest == WordOf(StaticDistances(), t) + ahead && |c.out| >= 65536
    ensures t == 30 ==> Step(c) == Go(Conf(Repeat(c.mode.lit, c.mode.dist, c.mode.length, 32769 + LowValue(ahead[..14])),
                                           c.final, ahead[14..], c.out))
    ensures t == 31 ==> Step(c) == Halt(Corrupt)
  {
    hide Step, Fits, WordOf, LowValue, Pow2;
    StaticCodesFit();
    assert Coded(StaticDistances(), t);
    DistanceSymbol(c, t, WordOf(StaticDistances(), t), ahead);
    LowValueBound(ahead[..14]);
    PowFourteen();
  }

  /** Distances the decoder accepts stay within the window. */
  lemma BackBound(t: nat, w: seq<bool>)
    requires t < 32 && |w| == DistBits(t)
    ensures 1 <= DistBase(t) + LowValue(w)
    ensures t <= 30 ==> DistBase(t) + LowValue(w) <= 49152
  {
    hide Pow2, LowValue;
    LowValueBound(w);
    Pow2Grows(|w|, 14);
    PowFourteen();
  }

  lemma PowFourteen()
    ensures Pow2(14) == 16384
  {
    assert Pow2(5) == 32;
    Pow2Add(5, 5);
    Pow2Add(10, 4);
  }

  lemma RepeatSteps(c: Conf)
    requires c.mode.Repeat? && 1 <= c.mode.back <= |c.out|
    ensures c.mode.length == 0 ==> Step(c) == Go(c.(mode := Codes(c.mode.lit, c.mode.dist)))
    ensures c.mode.length > 0 ==>
              Step(c) == Go(Conf(c.mode.(length := c.mode.length - 1), c.final, c.rest,
                                 c.out + [c.out[|c.out| - c.mode.back]]))
  {
  }
}
