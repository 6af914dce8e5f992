/** The checksum of gzip (section 8 of RFC 1952): one bit at a time, and eight bytes at a time with tables. */
module Crc32 {
  import opened Modular
  import opened Bits
  import opened LowBits
  import opened ExclusiveOr

  const POLY: nat := 0xEDB8_8320
  const ONES: nat := 0xFFFF_FFFF
  const WORD: nat := 0x1_0000_0000

  // ---------------------------------------------------------------- the register

  /** The register after a step with a zero bit of input. */
  function Shift1(c: nat): nat {
    if c % 2 == 1 then Xor(c / 2, POLY) else c / 2
  }

  function Shift(c: nat, n: nat): nat
    decreases n
  {
    if n == 0 then c else Shift(Shift1(c), n - 1)
  }

  /** The register after the bits `w`, one at a time. */
  function CrcOfBits(c: nat, w: seq<bool>): nat
    decreases |w|
  {
    if w == [] then c else CrcOfBits(Shift1(Xor(c, if w[0] then 1 else 0)), w[1..])
  }

  /** The checksum of a message that continues one with the checksum `crc`. */
  function Checksum(crc: nat, data: seq<Byte>): nat {
    Xor(CrcOfBits(Xor(crc, ONES), LowBitsOf(data)), ONES)
  }

  lemma {:induction false} CrcOfConcat(c: nat, v: seq<bool>, w: seq<bool>)
    ensures CrcOfBits(c, v + w) == CrcOfBits(CrcOfBits(c, v), w)
    decreases |v|
  {
    hide Xor;
    if v == [] {
      assert v + w == w;
    } else {
      assert (v + w)[1..] == v[1..] + w;
      CrcOfConcat(Shift1(Xor(c, if v[0] then 1 else 0)), v[1..], w);
    }
  }

  /** The checksum of a message can be computed piece by piece. */
  lemma ChecksumOfConcat(crc: nat, a: seq<Byte>, b: seq<Byte>)
    ensures Checksum(Checksum(crc, a), b) == Checksum(crc, a + b)
  {
    hide Xor, CrcOfBits, LowBitsOf;
    var r := CrcOfBits(Xor(crc, ONES), LowBitsOf(a));
    XorAssoc(r, ONES, ONES);
    XorSelf(ONES);
    XorZero(r);
    LowBitsConcat(a, b);
    CrcOfConcat(Xor(crc, ONES), LowBitsOf(a), LowBitsOf(b));
  }

  // ---------------------------------------------------------------- the register is linear

  lemma Shift1Linear(a: nat, b: nat)
    ensures Shift1(Xor(a, b)) == Xor(Shift1(a), Shift1(b))
  {
    hide Xor;
    XorParts(a, b);
    var x, y := a / 2, b / 2;
    if a % 2 == 1 && b % 2 == 1 {
      XorSwap(x, POLY, y, POLY);
      XorSelf(POLY);
      XorZero(Xor(x, y));
    } else if a % 2 == 1 {
      XorAssoc(x, POLY, y);
      XorComm(POLY, y);
      XorAssoc(x, y, POLY);
    } else if b % 2 == 1 {
      XorAssoc(x, y, POLY);
    }
  }

  lemma {:induction false} ShiftLinear(a: nat, b: nat, n: nat)
    ensures Shift(Xor(a, b), n) == Xor(Shift(a, n), Shift(b, n))
    decreases n
  {
    hide Xor, Shift1;
    if n > 0 {
      Shift1Linear(a, b);
      ShiftLinear(Shift1(a), Shift1(b), n - 1);
    }
  }

  lemma {:induction false} ShiftAdd(c: nat, m: nat, n: nat)
    ensures Shift(c, m + n) == Shift(Shift(c, m), n)
    decreases m
  {
    hide Shift1;
    if m > 0 {
      ShiftAdd(Shift1(c), m - 1, n);
    }
  }

  /** Low zero bits are shifted out. */
  lemma {:induction false} ShiftOut(c: nat, n: nat)
    ensures Shift(c * Pow2(n), n) == c
    decreases n
  {
    if n == 0 {
      assert c * Pow2(0) == c;
    } else {
      assert c * Pow2(n) == 2 * (c * Pow2(n - 1));
      ShiftOut(c, n - 1);
    }
  }

  /** A step with a table for bytes. */
  lemma ShiftByTable(c: nat)
    ensures Shift(c, 8) == Xor(c / 256, Shift(c % 256, 8))
  {
    hide Shift, Xor;
    Pow2Eight();
    XorDisjoint(c / 256, c % 256, 8);
    ShiftLinear(c / 256 * 256, c % 256, 8);
    ShiftOut(c / 256, 8);
  }

  /** The bits of a number, lowest first, enter the register as the number does. */
  lemma {:induction false} CrcOfWord(c: nat, b: nat, n: nat)
    requires b < Pow2(n)
    ensures CrcOfBits(c, LowWord(b, n)) == Shift(Xor(c, b), n)
    decreases n
  {
    hide Xor, Shift1;
    if n == 0 {
      XorZero(c);
    } else {
      var low, high := b % 2, b / 2;
      assert LowWord(b, n)[1..] == LowWord(high, n - 1);
      CrcOfWord(Shift1(Xor(c, low)), high, n - 1);
      BitEnters(c, low, high);
    }
  }

  lemma BitEnters(c: nat, low: nat, high: nat)
    requires low < 2
    ensures Xor(Shift1(Xor(c, low)), high) == Shift1(Xor(c, 2 * high + low))
  {
    hide Xor;
    assert Pow2(1) == 2;
    XorDisjoint(high, low, 1);
    XorComm(high * 2, low);
    XorAssoc(c, low, high * 2);
    Shift1Linear(Xor(c, low), high * 2);
  }

  lemma CrcOfByte(c: nat, data: seq<Byte>)
    requires data != []
    ensures CrcOfBits(c, LowBitsOf(data)) == CrcOfBits(Shift(Xor(c, data[0]), 8), LowBitsOf(data[1..]))
  {
    hide Xor, Shift, CrcOfBits, LowWord;
    Pow2Eight();
    CrcOfWord(c, data[0], 8);
    CrcOfConcat(c, LowWord(data[0], 8), LowBitsOf(data[1..]));
  }

  // ---------------------------------------------------------------- eight bytes at a time

  function Little(a: Byte, b: Byte, c: Byte, d: Byte): nat {
    a + b * 0x100 + c * 0x1_0000 + d * 0x100_0000
  }

  /** A byte that enters later has been shifted less. */
  lemma LaterByte(x: nat, b: nat, n: nat)
    ensures Shift(Xor(Shift(x, n), b), 8) == Shift(Xor(x, b * Pow2(n)), n + 8)
  {
    hide Shift, Xor;
    ShiftLinear(x, b * Pow2(n), n);
    ShiftOut(b, n);
    ShiftAdd(Xor(x, b * Pow2(n)), n, 8);
  }

  lemma PowersOfBytes()
    ensures Pow2(8) == 0x100 && Pow2(16) == 0x1_0000 && Pow2(24) == 0x100_0000 && Pow2(32) == WORD
  {
    Pow2Eight();
    Pow2Add(8, 8);
    Pow2Add(16, 8);
    Pow2Add(16, 16);
  }

  lemma XorTriple(x: nat, a: nat, b: nat, n: nat)
    requires a < Pow2(n)
    ensures Xor(Xor(x, a), b * Pow2(n)) == Xor(x, a + b * Pow2(n))
  {
    hide Xor;
    XorAssoc(x, a, b * Pow2(n));
    XorComm(a, b * Pow2(n));
    XorDisjoint(b, a, n);
  }

  /** Four bytes enter like the number they make up. */
  lemma FourBytes(x: nat, a: Byte, b: Byte, c: Byte, d: Byte)
    ensures Shift(Xor(Shift(Xor(Shift(Xor(Shift(Xor(x, a), 8), b), 8), c), 8), d), 8) == Shift(Xor(x, Little(a, b, c, d)), 32)
  {
    hide Shift, Xor, Pow2;
    PowersOfBytes();
    LaterByte(Xor(x, a), b, 8);
    XorTriple(x, a, b, 8);
    var ab := a + b * 0x100;
    LaterByte(Xor(x, ab), c, 16);
    XorTriple(x, ab, c, 16);
    var abc := ab + c * 0x1_0000;
    LaterByte(Xor(x, abc), d, 24);
    XorTriple(x, abc, d, 24);
  }

  lemma Digits(t: nat)
    requires t < WORD
    ensures t == Little(t % 256, t / 0x100 % 256, t / 0x1_0000 % 256, t / 0x100_0000)
    ensures t / 0x100_0000 < 256
  {
    var q1, r0 := t / 256, t % 256;
    var q2, r1 := q1 / 256, q1 % 256;
    var q3, r2 := q2 / 256, q2 % 256;
    Remainder(t, 0x1_0000, q2, r1 * 256 + r0);
    Remainder(t, 0x100_0000, q3, r2 * 0x1_0000 + r1 * 256 + r0);
  }

  /** The bytes of a word can be shifted one by one. */
  lemma WordByBytes(a: Byte, b: Byte, c: Byte, d: Byte, n: nat)
    requires n >= 24
    ensures Shift(Little(a, b, c, d), n + 8) == Xor(Xor(Xor(Shift(a, n + 8), Shift(b, n)), Shift(c, n - 8)), Shift(d, n - 16))
  {
    hide Shift, Xor, Pow2;
    PowersOfBytes();
    AddByte(a, b, 8, n);
    AddByte(a + b * 0x100, c, 16, n);
    AddByte(a + b * 0x100 + c * 0x1_0000, d, 24, n);
  }

  lemma AddByte(low: nat, b: nat, k: nat, n: nat)
    requires low < Pow2(k) && k <= n + 8
    ensures Shift(low + b * Pow2(k), n + 8) == Xor(Shift(low, n + 8), Shift(b, n + 8 - k))
  {
    hide Shift, Xor;
    XorDisjoint(b, low, k);
    XorComm(b * Pow2(k), low);
    ShiftLinear(low, b * Pow2(k), n + 8);
    ShiftAdd(b * Pow2(k), k, n + 8 - k);
    ShiftOut(b, k);
  }

  /** The register after eight more bytes. */
  function AfterEight(c: nat, d: seq<Byte>): nat
    requires |d| == 8
  {
    Shift(Xor(Shift(Xor(c, Little(d[0], d[1], d[2], d[3])), 32), Little(d[4], d[5], d[6], d[7])), 32)
  }

  lemma FourOfMessage(c: nat, data: seq<Byte>)
    requires |data| >= 4
    ensures CrcOfBits(c, LowBitsOf(data)) ==
            CrcOfBits(Shift(Xor(c, Little(data[0], data[1], data[2], data[3])), 32), LowBitsOf(data[4..]))
  {
    hide Shift, Xor, CrcOfBits, LowBitsOf;
    var c1 := Shift(Xor(c, data[0]), 8);
    var c2 := Shift(Xor(c1, data[1]), 8);
    var c3 := Shift(Xor(c2, data[2]), 8);
    CrcOfByte(c, data);
    CrcOfByte(c1, data[1..]);
    assert data[1..][1..] == data[2..];
    CrcOfByte(c2, data[2..]);
    assert data[2..][1..] == data[3..];
    CrcOfByte(c3, data[3..]);
    assert data[3..][1..] == data[4..];
    FourBytes(c, data[0], data[1], data[2], data[3]);
  }

  lemma EightOfMessage(c: nat, data: seq<Byte>)
    requires |data| >= 8
    ensures CrcOfBits(c, LowBitsOf(data)) == CrcOfBits(AfterEight(c, data[..8]), LowBitsOf(data[8..]))
  {
    hide Shift, Xor, CrcOfBits, LowBitsOf, Little;
    FourOfMessage(c, data);
    FourOfMessage(Shift(Xor(c, Little(data[0], data[1], data[2], data[3])), 32), data[4..]);
    assert data[4..][4..] == data[8..];
  }

  /** Entry `i` of the table for a byte that is followed by `k` others. */
  ghost predicate EntryOk(entry: nat, k: nat, i: nat) {
    entry == Shift(i, 8 * (k + 1))
  }

  lemma NextTable(entry: nat, low: nat, k: nat, i: nat)
    requires EntryOk(entry, k, i) && EntryOk(low, 0, entry % 256)
    ensures EntryOk(Xor(entry / 256, low), k + 1, i)
  {
    hide Shift, Xor;
    ShiftByTable(entry);
    ShiftAdd(i, 8 * (k + 1), 8);
  }

  /** The entry of `i + j` where `i` is a power of two and `j` a multiple of the next one. */
  lemma DoubledEntry(e: nat, h: nat, j: nat, m: nat)
    requires EntryOk(e, 0, j) && EntryOk(h, 0, Pow2(m)) && j % (2 * Pow2(m)) == 0
    ensures EntryOk(Xor(e, h), 0, Pow2(m) + j)
  {
    hide Shift, Xor, Pow2;
    Pow2Next(m);
    var q := j / Pow2(m + 1);
    assert j == q * Pow2(m + 1);
    Pow2Grows(m, m + 1);
    XorDisjoint(q, Pow2(m), m + 1);
    ShiftLinear(j, Pow2(m), 8);
  }

  class Crc {
    var tableReady: bool
    const table: array2<nat>

    ghost predicate Valid()
      reads this, table
    {
      && table.Length0 == 8 && table.Length1 == 256
      && (tableReady ==> forall k, i :: 0 <= k < 8 && 0 <= i < 256 ==> EntryOk(table[k, i], k, i))
    }

    constructor ()
      ensures Valid() && fresh(table)
    {
      table := new nat[8, 256];
      tableReady := false;
    }

    /** The table for single bytes, by doubling: each round adds the entries with one more bit. */
    method BuildFirst()
      requires table.Length0 == 8 && table.Length1 == 256
      modifies table
      ensures forall i :: 0 <= i < 256 ==> EntryOk(table[0, i], 0, i)
    {
      hide Shift, Shift1, Xor, EntryOk;
      var h := 1;
      table[0, 0] := 0;
      FirstEntries();
      var i: nat := 128;
      ghost var m: int := 7;
      while i > 0
        invariant -1 <= m <= 7 && i == if m >= 0 then Pow2(m) else 0
        invariant EntryOk(h, 0, if i > 0 then 2 * i else 1)
        invariant forall k: nat :: k < 256 && (i > 0 ==> k % (2 * i) == 0) ==> EntryOk(table[0, k], 0, k)
        decreases i
      {
        HalfEntry(h, i);
        h := Shift1(h);
        AddEntries(i, m, h);
        i := i / 2;
        m := m - 1;
      }
    }

    /** One round of doubling. */
    method AddEntries(i: nat, ghost m: nat, h: nat)
      requires table.Length0 == 8 && table.Length1 == 256 && m <= 7 && i == Pow2(m) && EntryOk(h, 0, i)
      requires forall k: nat :: k < 256 && k % (2 * i) == 0 ==> EntryOk(table[0, k], 0, k)
      modifies table
      ensures forall k: nat :: k < 256 && k % i == 0 ==> EntryOk(table[0, k], 0, k)
    {
      hide Shift, Shift1, Xor, EntryOk, Pow2;
      var j: nat := 0;
      Divides256(m);
      while j < 256
        invariant j % (2 * i) == 0 && j <= 256
        invariant forall k: nat :: k < 256 && (k % (2 * i) == 0 || (k < j && k % i == 0)) ==> EntryOk(table[0, k], 0, k)
        decreases 256 - j
      {
        NextMultiple(j, i);
        AddEntry(i, m, h, j);
        Multiples(j, i);
        j := j + 2 * i;
      }
    }

    method AddEntry(i: nat, ghost m: nat, h: nat, j: nat)
      requires table.Length0 == 8 && table.Length1 == 256 && i == Pow2(m) && i + j < 256
      requires EntryOk(h, 0, i) && j % (2 * i) == 0 && EntryOk(table[0, j], 0, j)
      modifies table
      ensures EntryOk(table[0, i + j], 0, i + j)
      ensures forall k: nat :: k < 256 && k != i + j ==> table[0, k] == old(table[0, k])
    {
      hide Shift, Shift1, Xor, EntryOk, Pow2;
      DoubledEntry(table[0, j], h, j, m);
      table[0, i + j] := Xor(table[0, j], h);
    }

    /** The tables for bytes that are followed by others. */
    method BuildOthers()
      requires table.Length0 == 8 && table.Length1 == 256
      requires forall i :: 0 <= i < 256 ==> EntryOk(table[0, i], 0, i)
      modifies table
      ensures forall k, i :: 0 <= k < 8 && 0 <= i < 256 ==> EntryOk(table[k, i], k, i)
    {
      hide Shift, Shift1, Xor, EntryOk;
      for i := 0 to 256
        invariant forall l :: 0 <= l < 256 ==> EntryOk(table[0, l], 0, l)
        invariant forall k, l :: 0 <= k < 8 && 0 <= l < i ==> EntryOk(table[k, l], k, l)
      {
        for j := 1 to 8
          invariant forall l :: 0 <= l < 256 ==> EntryOk(table[0, l], 0, l)
          invariant forall k, l :: 0 <= k < 8 && 0 <= l < i ==> EntryOk(table[k, l], k, l)
          invariant forall k :: 0 <= k < j ==> EntryOk(table[k, i], k, i)
        {
          var entry := table[j - 1, i];
          NextTable(entry, table[0, entry % 256], j - 1, i);
          table[j, i] := Xor(entry / 256, table[0, entry % 256]);
        }
      }
    }

    method BuildTables()
      requires Valid()
      modifies this`tableReady, table
      ensures Valid() && tableReady
    {
      hide EntryOk;
      if !tableReady {
        BuildFirst();
        BuildOthers();
        tableReady := true;
      }
    }

    /** Eight bytes at once. */
    method Slice(c: nat, d: seq<Byte>) returns (r: nat)
      requires Valid() && tableReady && |d| == 8 && c < WORD
      ensures r == AfterEight(c, d) && r < WORD
    {
      hide Shift, Xor, EntryOk, AfterEight;
      var t := Xor(c, Little(d[0], d[1], d[2], d[3]));
      WordBound(c, Little(d[0], d[1], d[2], d[3]));
      Digits(t);
      hide Little;
      var e7, e6 := table[7, t % 256], table[6, t / 0x100 % 256];
      var e5, e4 := table[5, t / 0x1_0000 % 256], table[4, t / 0x100_0000];
      r := Xor(Xor(Xor(e7, e6), e5), e4);
      var e3, e2, e1, e0 := table[3, d[4]], table[2, d[5]], table[1, d[6]], table[0, d[7]];
      r := Xor(r, Xor(Xor(Xor(e3, e2), e1), e0));
      EightEntries(c, d, t, e7, e6, e5, e4, e3, e2, e1, e0);
      EightBound(c, d);
    }

    /** The checksum of a message that continues one with the checksum `crc`. */
    method Update(crc: nat, data: seq<Byte>) returns (r: nat)
      requires Valid() && crc < WORD
      modifies this`tableReady, table
      ensures Valid() && r == Checksum(crc, data) && r < WORD
    {
      hide Shift, Xor, EntryOk, AfterEight, CrcOfBits, LowBitsOf;
      BuildTables();
      var c: nat, at: nat := Xor(crc, ONES), 0;
      WordBound(crc, ONES);
      assert data[0..] == data;
      while |data| - at >= 8
        invariant 0 <= at <= |data| && c < WORD && Valid() && tableReady
        invariant CrcOfBits(c, LowBitsOf(data[at..])) == CrcOfBits(Xor(crc, ONES), LowBitsOf(data))
        decreases |data| - at
      {
        EightOfMessage(c, data[at..]);
        Pieces(data, at, 8);
        c := Slice(c, data[at..at + 8]);
        at := at + 8;
      }
      while at < |data|
        invariant 0 <= at <= |data| && c < WORD && Valid() && tableReady
        invariant CrcOfBits(c, LowBitsOf(data[at..])) == CrcOfBits(Xor(crc, ONES), LowBitsOf(data))
      {
        CrcOfByte(c, data[at..]);
        Pieces(data, at, 1);
        var e := table[0, Xor(c, data[at]) % 256];
        OneEntry(c, data[at], e);
        WordBound(c, data[at]);
        ShiftBound(Xor(c, data[at]), 8);
        c := Xor(c / 256, e);
        at := at + 1;
      }
      CrcOfNothing(c);
      assert data[at..] == [];
      r := Xor(c, ONES);
      WordBound(c, ONES);
    }
  }

  lemma CrcOfNothing(c: nat)
    ensures CrcOfBits(c, LowBitsOf([])) == c
  {
  }

  lemma Pieces(data: seq<Byte>, at: nat, n: nat)
    requires at + n <= |data|
    ensures data[at..][..n] == data[at..at + n] && data[at..][n..] == data[at + n..]
  {
  }

  lemma EightBound(c: nat, d: seq<Byte>)
    requires |d| == 8 && c < WORD
    ensures AfterEight(c, d) < WORD
  {
    hide Shift, Xor;
    var x, y := Little(d[0], d[1], d[2], d[3]), Little(d[4], d[5], d[6], d[7]);
    WordBound(c, x);
    ShiftBound(Xor(c, x), 32);
    WordBound(Shift(Xor(c, x), 32), y);
    ShiftBound(Xor(Shift(Xor(c, x), 32), y), 32);
  }

  lemma {:induction false} ShiftBound(c: nat, n: nat)
    requires c < WORD
    ensures Shift(c, n) < WORD
    decreases n
  {
    hide Xor;
    if n > 0 {
      WordBound(c / 2, POLY);
      ShiftBound(Shift1(c), n - 1);
    }
  }

  lemma WordBound(x: nat, y: nat)
    requires x < WORD && y < WORD
    ensures Xor(x, y) < WORD
  {
    hide Xor, Pow2;
    PowersOfBytes();
    XorBound(x, y, 32);
  }

  /** What eight table entries add up to. */
  lemma EightEntries(c: nat, d: seq<Byte>, t: nat, e7: nat, e6: nat, e5: nat, e4: nat, e3: nat, e2: nat, e1: nat, e0: nat)
    requires |d| == 8 && t == Xor(c, Little(d[0], d[1], d[2], d[3])) && t < WORD
    requires EntryOk(e7, 7, t % 256) && EntryOk(e6, 6, t / 0x100 % 256)
    requires EntryOk(e5, 5, t / 0x1_0000 % 256) && EntryOk(e4, 4, t / 0x100_0000)
    requires EntryOk(e3, 3, d[4]) && EntryOk(e2, 2, d[5]) && EntryOk(e1, 1, d[6]) && EntryOk(e0, 0, d[7])
    ensures Xor(Xor(Xor(Xor(e7, e6), e5), e4), Xor(Xor(Xor(e3, e2), e1), e0)) == AfterEight(c, d)
  {
    hide Shift, Xor, Little;
    Digits(t);
    WordByBytes(t % 256, t / 0x100 % 256, t / 0x1_0000 % 256, t / 0x100_0000, 56);
    WordByBytes(d[4], d[5], d[6], d[7], 24);
    ShiftLinear(Shift(t, 32), Little(d[4], d[5], d[6], d[7]), 32);
    ShiftAdd(t, 32, 32);
  }

  /** The low byte of the register selects the entry, the others move down. */
  lemma OneEntry(c: nat, b: Byte, e: nat)
    requires EntryOk(e, 0, Xor(c, b) % 256)
    ensures Xor(c / 256, e) == Shift(Xor(c, b), 8)
  {
    hide Shift, Xor;
    XorHighByte(c, b);
    XorZero(c / 256);
    ShiftByTable(Xor(c, b));
  }

  lemma FirstEntries()
    ensures EntryOk(0, 0, 0) && EntryOk(1, 0, 256) && Pow2(7) == 128
  {
    Pow2Eight();
    ShiftOut(1, 8);
    ShiftOut(0, 8);
  }

  /** Another step of the register halves the number it starts from. */
  lemma HalfEntry(h: nat, i: nat)
    requires EntryOk(h, 0, 2 * i)
    ensures EntryOk(Shift1(h), 0, i)
  {
    hide Xor;
    OneStep(h);
    OneStep(2 * i);
    ShiftAdd(2 * i, 8, 1);
    ShiftAdd(2 * i, 1, 8);
    assert Shift1(2 * i) == i;
  }

  lemma OneStep(c: nat)
    ensures Shift(c, 1) == Shift1(c)
  {
    hide Shift1;
    assert Shift(Shift1(c), 0) == Shift1(c);
  }

  lemma Divides256(m: nat)
    requires m <= 7
    ensures 256 % (2 * Pow2(m)) == 0
  {
    Pow2Eight();
    Pow2Add(m + 1, 7 - m);
    assert m + 1 + (7 - m) == 8;
    hide Pow2;
    Pow2Next(m);
    Remainder(256, 2 * Pow2(m), Pow2(7 - m), 0);
  }

  lemma NextMultiple(j: nat, i: nat)
    requires i > 0 && j % (2 * i) == 0 && 256 % (2 * i) == 0 && j < 256
    ensures j + 2 * i <= 256 && (j + 2 * i) % (2 * i) == 0 && i + j < 256
  {
    var d := 2 * i;
    var q, n := j / d, 256 / d;
    assert j == q * d && 256 == n * d;
    LessFactor(q, n, d);
    Factor(q + 1, n, d);
    assert (q + 1) * d == q * d + d;
    Remainder(j + d, d, q + 1, 0);
  }

  /** Up to the next multiple of `2 * i` there is one more multiple of `i`. */
  lemma Multiples(j: nat, i: nat)
    requires i > 0 && j % (2 * i) == 0
    ensures forall k: nat :: k < j + 2 * i && k % i == 0 ==> k < j || k == j || k == i + j
  {
    forall k: nat | k < j + 2 * i && k % i == 0 ensures k < j || k == j || k == i + j {
      MultipleBetween(k, j, i);
    }
  }

  lemma MultipleBetween(k: nat, j: nat, i: nat)
    requires i > 0 && j % (2 * i) == 0
    ensures j <= k < j + 2 * i && k % i == 0 ==> k == j || k == i + j
  {
    if j <= k < j + 2 * i && k % i == 0 {
      var q, p := j / (2 * i), k / i;
      assert j == q * (2 * i) && k == p * i;
      assert q * (2 * i) == (2 * q) * i;
      assert (p - 2 * q) * i == k - j;
      Quotient(p - 2 * q, i);
    }
  }

  lemma Quotient(d: int, i: nat)
    requires i > 0 && 0 <= d * i < 2 * i
    ensures d == 0 || d == 1
  {
    if d < 0 {
      Factor(d, -1, i);
    } else if d > 1 {
      Factor(2, d, i);
    }
  }
}
