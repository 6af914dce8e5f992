/** How section 3.2 of RFC 1951 writes lengths, distances and code lengths, told from the numbers themselves and
    without a table; the decoder's tables are proved against it. */
module DeflateRules {
  import opened Modular
  import opened Bits
  import opened Logarithm
  import opened CanonicalCode
  import opened Deflate
  import opened InflateSetup

  /** A symbol and the extra bits that follow it. */
  datatype Field = Field(symbol: nat, width: nat, extra: nat)

  /** The first eight lengths have a symbol each; from there every doubling of the range is cut into four equal parts.
      The longest match has a symbol of its own. */
  function LengthField(length: nat): Field
    requires 3 <= length <= 258
  {
    var x := length - 3;
    if length == 258 then Field(285, 0, 0)
    else if x < 8 then Field(257 + x, 0, 0)
    else
      var k := Log2(x) - 2;
      Field(257 + 4 * k + Div(x, Pow2(k)), k, Mod(x, Pow2(k)))
  }

  /** The first four distances have a symbol each; from there every doubling of the range is cut in half. */
  function DistField(back: nat): Field
    requires back >= 1
  {
    var x := back - 1;
    if x < 4 then Field(x, 0, 0)
    else
      var k := Log2(x) - 1;
      Field(2 * k + Div(x, Pow2(k)), k, Mod(x, Pow2(k)))
  }

  // ---------------------------------------------------------------- the tables of section 3.2.5

  /** The tables row by row, one row for each number of extra bits. */
  lemma LengthRows()
    ensures |LENGTH_BITS| == |LENGTH_BASE| == 29
    ensures LENGTH_BITS[8] == LENGTH_BITS[9] == LENGTH_BITS[10] == LENGTH_BITS[11] == 1
    ensures LENGTH_BASE[8] == 3 + 4 * 2 && LENGTH_BASE[9] == 3 + 5 * 2 && LENGTH_BASE[10] == 3 + 6 * 2 && LENGTH_BASE[11] == 3 + 7 * 2
    ensures LENGTH_BITS[12] == LENGTH_BITS[13] == LENGTH_BITS[14] == LENGTH_BITS[15] == 2
    ensures LENGTH_BASE[12] == 3 + 4 * 4 && LENGTH_BASE[13] == 3 + 5 * 4 && LENGTH_BASE[14] == 3 + 6 * 4 && LENGTH_BASE[15] == 3 + 7 * 4
    ensures LENGTH_BITS[16] == LENGTH_BITS[17] == LENGTH_BITS[18] == LENGTH_BITS[19] == 3
    ensures LENGTH_BASE[16] == 3 + 4 * 8 && LENGTH_BASE[17] == 3 + 5 * 8 && LENGTH_BASE[18] == 3 + 6 * 8 && LENGTH_BASE[19] == 3 + 7 * 8
    ensures LENGTH_BITS[20] == LENGTH_BITS[21] == LENGTH_BITS[22] == LENGTH_BITS[23] == 4
    ensures LENGTH_BASE[20] == 3 + 4 * 16 && LENGTH_BASE[21] == 3 + 5 * 16 && LENGTH_BASE[22] == 3 + 6 * 16 && LENGTH_BASE[23] == 3 + 7 * 16
    ensures LENGTH_BITS[24] == LENGTH_BITS[25] == LENGTH_BITS[26] == LENGTH_BITS[27] == 5
    ensures LENGTH_BASE[24] == 3 + 4 * 32 && LENGTH_BASE[25] == 3 + 5 * 32 && LENGTH_BASE[26] == 3 + 6 * 32 && LENGTH_BASE[27] == 3 + 7 * 32
  {
  }

  lemma DistRows()
    ensures |DIST_BITS| == |DIST_BASE| == 32
    ensures DIST_BITS[4] == DIST_BITS[5] == 1 && DIST_BASE[4] == 1 + 2 * 2 && DIST_BASE[5] == 1 + 3 * 2
    ensures DIST_BITS[6] == DIST_BITS[7] == 2 && DIST_BASE[6] == 1 + 2 * 4 && DIST_BASE[7] == 1 + 3 * 4
    ensures DIST_BITS[8] == DIST_BITS[9] == 3 && DIST_BASE[8] == 1 + 2 * 8 && DIST_BASE[9] == 1 + 3 * 8
    ensures DIST_BITS[10] == DIST_BITS[11] == 4 && DIST_BASE[10] == 1 + 2 * 16 && DIST_BASE[11] == 1 + 3 * 16
    ensures DIST_BITS[12] == DIST_BITS[13] == 5 && DIST_BASE[12] == 1 + 2 * 32 && DIST_BASE[13] == 1 + 3 * 32
    ensures DIST_BITS[14] == DIST_BITS[15] == 6 && DIST_BASE[14] == 1 + 2 * 64 && DIST_BASE[15] == 1 + 3 * 64
    ensures DIST_BITS[16] == DIST_BITS[17] == 7 && DIST_BASE[16] == 1 + 2 * 128 && DIST_BASE[17] == 1 + 3 * 128
    ensures DIST_BITS[18] == DIST_BITS[19] == 8 && DIST_BASE[18] == 1 + 2 * 256 && DIST_BASE[19] == 1 + 3 * 256
    ensures DIST_BITS[20] == DIST_BITS[21] == 9 && DIST_BASE[20] == 1 + 2 * 512 && DIST_BASE[21] == 1 + 3 * 512
    ensures DIST_BITS[22] == DIST_BITS[23] == 10 && DIST_BASE[22] == 1 + 2 * 1024 && DIST_BASE[23] == 1 + 3 * 1024
    ensures DIST_BITS[24] == DIST_BITS[25] == 11 && DIST_BASE[24] == 1 + 2 * 2048 && DIST_BASE[25] == 1 + 3 * 2048
    ensures DIST_BITS[26] == DIST_BITS[27] == 12 && DIST_BASE[26] == 1 + 2 * 4096 && DIST_BASE[27] == 1 + 3 * 4096
    ensures DIST_BITS[28] == DIST_BITS[29] == 13 && DIST_BASE[28] == 1 + 2 * 8192 && DIST_BASE[29] == 1 + 3 * 8192
    ensures DIST_BITS[30] == DIST_BITS[31] == 14 && DIST_BASE[30] == 1 + 2 * 16384 && DIST_BASE[31] == 1 + 3 * 16384
  {
  }

  lemma LengthTable(k: nat, q: nat)
    requires 1 <= k <= 5 && 4 <= q <= 7
    ensures LengthBits(257 + 4 * k + q) == k && LengthBase(257 + 4 * k + q) == 3 + q * Pow2(k)
  {
    hide LENGTH_BITS, LENGTH_BASE;
    SmallPowers();
    LengthRows();
    hide Pow2;
    if k == 1 {
    } else if k == 2 {
    } else if k == 3 {
    } else if k == 4 {
    }
  }

  lemma DistTable(k: nat, q: nat)
    requires 1 <= k <= 14 && 2 <= q <= 3
    ensures DistBits(2 * k + q) == k && DistBase(2 * k + q) == 1 + q * Pow2(k)
  {
    hide DIST_BITS, DIST_BASE;
    SmallPowers();
    DistRows();
    hide Pow2;
    if q == 2 {
    }
  }

  /** Every length has its symbol: the table's base and the extra bits give the length back. */
  lemma LengthHasSymbol(length: nat)
    requires 3 <= length <= 258
    ensures var f := LengthField(length);
            && 257 <= f.symbol <= 285 && f.width == LengthBits(f.symbol) && f.extra < Pow2(f.width)
            && LengthBase(f.symbol) + f.extra == length
  {
    hide Pow2, Log2, LengthBits, LengthBase, LengthField;
    if length <= 10 {
      SmallLengths(length + 254);
    } else if length == 258 {
      SmallLengths(285);
    } else {
      LengthHasPart(length);
    }
  }

  lemma LengthHasPart(length: nat)
    requires 11 <= length < 258
    ensures var f := LengthField(length);
            && 257 <= f.symbol <= 285 && f.width == LengthBits(f.symbol) && f.extra < Pow2(f.width)
            && LengthBase(f.symbol) + f.extra == length
  {
    SmallPowers();
    hide Log2, Pow2, LengthBits, LengthBase;
    var x := length - 3;
    Log2AtLeast(x, 3);
    Log2Below(x, 8);
    PartsOf(x, Log2(x) - 2, 2);
    LengthTable(Log2(x) - 2, x / Pow2(Log2(x) - 2));
  }

  /** And every symbol with its extra bits is what its length is written as, but for a second form of the longest. */
  lemma SymbolHasLength(s: nat, e: nat)
    requires 257 <= s <= 285 && e < Pow2(LengthBits(s))
    ensures 3 <= LengthBase(s) + e <= 258
    ensures LengthField(LengthBase(s) + e) == if s == 284 && e == 31 then Field(285, 0, 0) else Field(s, LengthBits(s), e)
  {
    hide Log2, Pow2, LengthBits, LengthBase, LengthField;
    SmallLengths(s);
    if 265 <= s < 285 {
      PartHasLength((s - 261) / 4, 4 + (s - 261) % 4, e);
    }
  }

  lemma SmallLengths(s: nat)
    requires 257 <= s <= 285
    ensures s < 265 ==> LengthBits(s) == 0 && LengthBase(s) == s - 254 && LengthField(s - 254) == Field(s, 0, 0)
    ensures s == 285 ==> LengthBits(s) == 0 && LengthBase(s) == 258 && LengthField(258) == Field(s, 0, 0)
    ensures Pow2(0) == 1
  {
  }

  lemma PartHasLength(k: nat, q: nat, e: nat)
    requires 1 <= k <= 5 && 4 <= q <= 7 && e < Pow2(LengthBits(257 + 4 * k + q))
    ensures var s := 257 + 4 * k + q;
            && s < 285 && LengthBits(s) == k && 11 <= LengthBase(s) + e <= 258
            && LengthField(LengthBase(s) + e) == if s == 284 && e == 31 then Field(285, 0, 0) else Field(s, k, e)
  {
    SmallPowers();
    hide Log2, Pow2, LengthBase, LengthBits;
    LengthTable(k, q);
    PartOf(q, e, k, 2);
    Factor(q, 7, Pow2(k));
    Factor(4, q, Pow2(k));
  }

  lemma SmallDistances(t: nat)
    requires t < 4
    ensures DistBits(t) == 0 && DistBase(t) == t + 1 && DistField(t + 1) == Field(t, 0, 0) && Pow2(0) == 1
  {
  }

  /** Every distance has its symbol; 32768, the largest a stream may use, has symbol 29. The decoder also takes symbol 30,
      which goes on with the rule up to 49152. */
  lemma DistHasSymbol(back: nat)
    requires 1 <= back <= 65536
    ensures var g := DistField(back);
            && g.symbol < 32 && (back <= 49152 ==> g.symbol < 31) && (back <= 32768 ==> g.symbol < 30)
            && g.width == DistBits(g.symbol) && g.extra < Pow2(g.width) && DistBase(g.symbol) + g.extra == back
  {
    if back <= 4 {
      hide Log2, Pow2, DistBits, DistBase, DistField;
      SmallDistances(back - 1);
    } else {
      SmallPowers();
      hide Log2, Pow2, DistBits, DistBase;
      var x := back - 1;
      PowSixteen();
      Log2AtLeast(x, 2);
      Log2Below(x, 16);
      if back <= 32768 {
        Log2Below(x, 15);
      }
      DistTable(14, 3);
      PartsOf(x, Log2(x) - 1, 1);
      DistTable(Log2(x) - 1, x / Pow2(Log2(x) - 1));
    }
  }

  /** And every symbol with its extra bits is what its distance is written as. */
  lemma SymbolHasDistance(t: nat, e: nat)
    requires t < 32 && e < Pow2(DistBits(t))
    ensures DistField(DistBase(t) + e) == Field(t, DistBits(t), e)
  {
    hide Log2, DistBits, DistBase, DistField;
    if t < 4 {
      SmallDistances(t);
    } else {
      PartHasDistance((t - 2) / 2, 2 + t % 2, e);
    }
  }

  lemma PartHasDistance(k: nat, q: nat, e: nat)
    requires 1 <= k <= 14 && 2 <= q <= 3 && e < Pow2(DistBits(2 * k + q))
    ensures DistField(DistBase(2 * k + q) + e) == Field(2 * k + q, DistBits(2 * k + q), e)
  {
    SmallPowers();
    hide Pow2, Log2, DistBits, DistBase;
    DistTable(k, q);
    PartOf(q, e, k, 1);
    Factor(2, q, Pow2(k));
    Pow2Grows(1, k);
  }

  lemma PowSixteen()
    ensures Pow2(16) == 65536
  {
    SmallPowers();
  }

  // ---------------------------------------------------------------- code lengths, section 3.2.7

  /** The symbol whose code length is transmitted at place `j`: the repeating symbols and zero come first, then the
      lengths outwards from eight, going up before going down. */
  function OrderAt(j: nat): (s: nat)
    requires j < 19
    ensures s < 19
  {
    if j < 3 then 16 + j else if j == 3 then 0 else if j % 2 == 0 then 8 + (j - 4) / 2 else 8 - (j - 3) / 2
  }

  /** The place of a symbol. */
  function PlaceOf(s: nat): (j: nat)
    requires s < 19
    ensures j < 19
  {
    if s >= 16 then s - 16 else if s == 0 then 3 else if s >= 8 then 4 + 2 * (s - 8) else 5 + 2 * (7 - s)
  }

  lemma OrderIsRule(j: nat)
    requires j < 19
    ensures OrderOf(j) == OrderAt(j) && PlaceOf(OrderAt(j)) == j
  {
  }

  lemma PlaceIsInverse(s: nat)
    requires s < 19
    ensures OrderAt(PlaceOf(s)) == s
  {
  }

  lemma {:induction false} ScatterAt(pre: seq<nat>, j: nat)
    requires |pre| <= 19 && j < 19
    ensures Scatter(pre)[OrderAt(j)] == if j < |pre| then pre[j] else 0
    decreases |pre|
  {
    hide OrderOf;
    OrderIsRule(j);
    if pre != [] {
      OrderIsRule(|pre| - 1);
      ScatterAt(pre[..|pre| - 1], j);
    }
  }

  /** The first `n` of the 19 code lengths, in the order of transmission; the others must be zero. */
  function Transmitted(code: seq<nat>, n: nat): (pre: seq<nat>)
    requires |code| == 19 && n <= 19
    ensures |pre| == n
  {
    seq(n, j requires 0 <= j < n => code[OrderAt(j)])
  }

  predicate RestIsZero(code: seq<nat>, n: nat)
    requires |code| == 19
  {
    forall j :: n <= j < 19 ==> code[OrderAt(j)] == 0
  }

  /** What is put in place from the transmitted lengths are the lengths. */
  lemma ScatterTransmitted(code: seq<nat>, n: nat)
    requires |code| == 19 && n <= 19 && RestIsZero(code, n)
    ensures Scatter(Transmitted(code, n)) == code
  {
    hide Scatter, OrderAt, PlaceOf;
    var pre := Transmitted(code, n);
    forall s | 0 <= s < 19 ensures Scatter(pre)[s] == code[s] {
      PlaceIsInverse(s);
      ScatterAt(pre, PlaceOf(s));
    }
  }

  /** How the code lengths are told: one by one, as copies of the last one, or as zeros. */
  datatype LengthToken = Single(length: nat) | CopyLast(n: nat) | ZeroLengths(n: nat)

  predicate ProperLength(k: LengthToken) {
    match k
    case Single(length) => length <= 15
    case CopyLast(n) => 3 <= n <= 6
    case ZeroLengths(n) => 3 <= n <= 138
  }

  function LengthTokenField(k: LengthToken): (f: Field)
    requires ProperLength(k)
    ensures f.symbol < 19
  {
    match k
    case Single(length) => Field(length, 0, 0)
    case CopyLast(n) => Field(16, 2, n - 3)
    case ZeroLengths(n) => if n <= 10 then Field(17, 3, n - 3) else Field(18, 7, n - 11)
  }

  /** Every number of repetitions has its symbol. */
  lemma RepeatHasSymbol(k: LengthToken)
    requires ProperLength(k) && !k.Single?
    ensures var f := LengthTokenField(k);
            && f.symbol >= 16 && (f.symbol == 16 <==> k.CopyLast?)
            && f.width == RepeatBits(f.symbol) && f.extra < Pow2(f.width) && RepeatBase(f.symbol) + f.extra == k.n
  {
    SmallPowers();
  }

  /** And every symbol with its extra bits stands for a repetition. */
  lemma SymbolHasRepeat(s: nat, e: nat)
    requires 16 <= s <= 18 && e < Pow2(RepeatBits(s))
    ensures var n := RepeatBase(s) + e;
            var k := if s == 16 then CopyLast(n) else ZeroLengths(n);
            ProperLength(k) && LengthTokenField(k) == Field(s, RepeatBits(s), e)
  {
    SmallPowers();
  }

  // ---------------------------------------------------------------- the fixed codes of section 3.2.6

  /** The code words of the fixed literal and length code, in four ranges. */
  function FixedWord(s: nat): seq<bool>
    requires s < 288
  {
    if s < 144 then Word(0x30 + s, 8)
    else if s < 256 then Word(0x190 + (s - 144), 9)
    else if s < 280 then Word(s - 256, 7)
    else Word(0xC0 + (s - 280), 8)
  }

  /** The canonical code of the decoder's fixed lengths has these words. */
  lemma FixedWords(s: nat)
    requires s < 288
    ensures WordOf(StaticLengths(), s) == FixedWord(s)
    ensures s < 32 ==> WordOf(StaticDistances(), s) == Word(s, 5)
  {
    hide CodeOf, Word;
    StaticCode(s);
    if s < 32 {
      StaticDistanceCode(s);
    }
  }
}
