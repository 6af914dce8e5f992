/** What the checksum means: the remainder of the message, read as a polynomial over GF(2), in the division by the
    generator of CRC-32. A number stands for the polynomial whose coefficients are its bits, so that adding polynomials is
    the exclusive or of the numbers and multiplying by x is doubling. */
module CrcPolynomial {
  import opened Modular
  import opened Bits
  import opened LowBits
  import opened ExclusiveOr
  import opened Crc32

  /** The product of two polynomials. */
  function Times(a: nat, b: nat): nat
    decreases a
  {
    if a == 0 then 0 else Xor(2 * Times(a / 2, b), if a % 2 == 1 then b else 0)
  }

  /** The generator of CRC-32, by its exponents. */
  function Generator(): nat {
    Pow2(32) + Pow2(26) + Pow2(23) + Pow2(22) + Pow2(16) + Pow2(12) + Pow2(11) + Pow2(10) + Pow2(8) + Pow2(7)
    + Pow2(5) + Pow2(4) + Pow2(2) + Pow2(1) + Pow2(0)
  }

  /** The low `n` bits of a number in reverse order: the register holds the highest coefficient in its lowest bit. */
  function Reflect(c: nat, n: nat): nat
    decreases n
  {
    if n == 0 then 0 else (if c % 2 == 1 then Pow2(n - 1) else 0) + Reflect(c / 2, n - 1)
  }

  /** `r` is the remainder of `p` in the division by the generator. */
  ghost predicate Remains(p: nat, r: nat) {
    r < WORD && exists q: nat :: p == Xor(Times(q, Generator()), r)
  }

  // ---------------------------------------------------------------- the generator

  lemma Powers()
    ensures Pow2(0) == 1 && Pow2(1) == 2 && Pow2(2) == 4 && Pow2(4) == 0x10 && Pow2(5) == 0x20 && Pow2(7) == 0x80
    ensures Pow2(8) == 0x100 && Pow2(10) == 0x400 && Pow2(11) == 0x800 && Pow2(12) == 0x1000
    ensures Pow2(16) == 0x1_0000 && Pow2(22) == 0x40_0000 && Pow2(23) == 0x80_0000 && Pow2(26) == 0x400_0000
    ensures Pow2(32) == WORD
  {
    PowersOfBytes();
    assert Pow2(7) == 0x80;
    assert Pow2(12) == 0x1000;
    hide Pow2;
    Pow2Next(23);
    Pow2Next(22);
    Pow2Next(24);
    Pow2Next(25);
  }

  lemma GeneratorNumber()
    ensures Generator() == 0x1_04C1_1DB7
  {
    Powers();
    hide Pow2;
  }

  /** Reflecting a number of two parts exchanges them. */
  lemma {:induction false} ReflectParts(r: nat, q: nat, k: nat, n: nat)
    requires r < Pow2(k)
    ensures Reflect(r + q * Pow2(k), k + n) == Reflect(r, k) * Pow2(n) + Reflect(q, n)
    decreases k
  {
    if k == 0 {
      assert r + q * Pow2(0) == q;
    } else {
      var h, d := Pow2(k - 1), r + q * Pow2(k);
      assert q * (2 * h) == 2 * (q * h);
      assert d % 2 == r % 2 && d / 2 == r / 2 + q * h;
      ReflectParts(r / 2, q, k - 1, n);
      Pow2Add(k - 1, n);
      ReflectOpen(d, k + n);
      ReflectOpen(r, k);
      Spread(h, Reflect(r / 2, k - 1), Pow2(n));
    }
  }

  lemma Spread(h: nat, x: nat, m: nat)
    ensures (h + x) * m == h * m + x * m
  {
  }

  lemma ReflectDigits()
    ensures Reflect(0x0, 4) == 0x0 && Reflect(0x2, 4) == 0x4 && Reflect(0x3, 4) == 0xC && Reflect(0x8, 4) == 0x1
    ensures Reflect(0xB, 4) == 0xD && Reflect(0xD, 4) == 0xB && Reflect(0xE, 4) == 0x7
  {
  }

  /** A hexadecimal digit goes to the other end. */
  lemma ReflectDigit(r: nat, q: nat, n: nat)
    requires r < 16
    ensures Reflect(r + 16 * q, 4 + n) == Reflect(r, 4) * Pow2(n) + Reflect(q, n)
  {
    hide Reflect;
    Powers();
    hide Pow2;
    ReflectParts(r, q, 4, n);
  }

  /** The constant of the program holds the other coefficients of the generator, reflected. */
  lemma PolyIsReflected()
    ensures Generator() == WORD + Reflect(POLY, 32)
  {
    ReflectDigits();
    GeneratorNumber();
    Powers();
    PowersOfBytes();
    hide Pow2, Reflect, Generator;
    Pow2Add(16, 4);
    Pow2Add(24, 4);
    ReflectDigit(0xD, 0xE, 4);
    ReflectDigit(0xB, 0xED, 8);
    ReflectDigit(0x8, 0xEDB, 12);
    ReflectDigit(0x8, 0xEDB8, 16);
    ReflectDigit(0x3, 0xE_DB88, 20);
    ReflectDigit(0x2, 0xED_B883, 24);
    ReflectDigit(0x0, 0xEDB_8832, 28);
  }

  // ---------------------------------------------------------------- sums and products

  /** The product with x^n. */
  function Shifted(a: nat, n: nat): nat {
    a * Pow2(n)
  }

  lemma {:induction false} ShiftedSum(a: nat, b: nat, n: nat)
    ensures Xor(Shifted(a, n), Shifted(b, n)) == Shifted(Xor(a, b), n)
    decreases n
  {
    hide Xor;
    if n > 0 {
      ShiftedSum(a, b, n - 1);
      Doubled(a, Pow2(n - 1));
      Doubled(b, Pow2(n - 1));
      Doubled(Xor(a, b), Pow2(n - 1));
      XorDouble(Shifted(a, n - 1), Shifted(b, n - 1));
    }
  }

  lemma ShiftedTwice(a: nat, m: nat, n: nat)
    ensures Shifted(Shifted(a, m), n) == Shifted(a, m + n) && Shifted(Shifted(a, m), n) == Shifted(Shifted(a, n), m)
  {
    Pow2Add(m, n);
    hide Pow2;
  }

  lemma ShiftedWords(a: nat)
    ensures Shifted(a, 32) == a * WORD && Shifted(a, 1) == 2 * a && Shifted(a, 0) == a
  {
    PowersOfBytes();
    assert Pow2(1) == 2 && Pow2(0) == 1;
  }

  lemma XorDouble(x: nat, y: nat)
    ensures Xor(2 * x, 2 * y) == 2 * Xor(x, y)
  {
    hide Xor;
    XorParts(2 * x, 2 * y);
    assert 2 * x / 2 == x && 2 * y / 2 == y && (2 * x + 2 * y) % 2 == 0;
  }

  lemma {:induction false} TimesOfSum(a: nat, b: nat, g: nat)
    ensures Times(Xor(a, b), g) == Xor(Times(a, g), Times(b, g))
    decreases a + b
  {
    hide Xor;
    XorParts(a, b);
    EvenSum(a, b);
    TimesStep(a, g);
    TimesStep(b, g);
    TimesStep(Xor(a, b), g);
    if a > 0 || b > 0 {
      TimesOfSum(a / 2, b / 2, g);
      hide Times;
      var u, v := Times(a / 2, g), Times(b / 2, g);
      XorDouble(u, v);
      var x, y := if a % 2 == 1 then g else 0, if b % 2 == 1 then g else 0;
      XorSwap(2 * u, x, 2 * v, y);
      XorSelf(g);
      XorZero(g);
      XorZero(0);
    } else {
      XorZero(0);
    }
  }

  lemma TimesStep(a: nat, g: nat)
    ensures Times(a, g) == Xor(2 * Times(a / 2, g), if a % 2 == 1 then g else 0)
  {
    hide Xor;
    if a == 0 {
      XorZero(0);
    }
  }

  lemma {:induction false} TimesPower(n: nat, g: nat)
    ensures Times(Pow2(n), g) == Shifted(g, n)
    decreases n
  {
    hide Xor;
    TimesStep(Pow2(n), g);
    if n == 0 {
      XorZero(g);
    } else {
      TimesPower(n - 1, g);
      hide Times;
      XorZero(2 * Times(Pow2(n - 1), g));
      Doubled(g, Pow2(n - 1));
    }
  }

  // ---------------------------------------------------------------- the remainder is unique

  lemma HighPartStays(x: nat, y: nat, n: nat)
    requires x >= Pow2(n) && y < Pow2(n)
    ensures Xor(x, y) >= Pow2(n)
  {
    hide Xor, Pow2;
    var p := Pow2(n);
    var a, b := x / p, x % p;
    assert x == a * p + b;
    XorDisjoint(a, b, n);
    XorAssoc(a * p, b, y);
    XorBound(b, y, n);
    XorDisjoint(a, Xor(b, y), n);
    LessFactor(0, a, p);
    Factor(1, a, p);
  }

  /** A multiple of a polynomial of degree `n` has at least that degree. */
  lemma {:induction false} MultipleIsLarge(q: nat, g: nat, n: nat)
    requires q > 0 && Pow2(n) <= g < Pow2(n + 1)
    ensures Times(q, g) >= Pow2(n)
    decreases q
  {
    hide Xor;
    TimesStep(q, g);
    if q == 1 {
      XorZero(g);
    } else {
      MultipleIsLarge(q / 2, g, n);
      Pow2Next(n);
      hide Times, Pow2;
      HighPartStays(2 * Times(q / 2, g), if q % 2 == 1 then g else 0, n + 1);
    }
  }

  lemma SameSum(a: nat, b: nat, c: nat, d: nat)
    requires Xor(a, b) == Xor(c, d)
    ensures Xor(a, c) == Xor(b, d)
  {
    hide Xor;
    XorSwap(a, b, c, d);
    XorSelf(Xor(a, b));
    XorAssoc(Xor(a, c), Xor(b, d), Xor(b, d));
    XorSelf(Xor(b, d));
    XorZero(Xor(a, c));
    XorZero(Xor(b, d));
  }

  lemma SumIsZero(a: nat, b: nat)
    requires Xor(a, b) == 0
    ensures a == b
  {
    hide Xor;
    XorAssoc(a, b, b);
    XorSelf(b);
    XorZero(a);
    XorZero(b);
  }

  /** A polynomial has one remainder. */
  lemma RemainderIsUnique(p: nat, r: nat, s: nat)
    requires Remains(p, r) && Remains(p, s)
    ensures r == s
  {
    hide Xor, Times;
    GeneratorNumber();
    PowersOfBytes();
    Pow2Next(32);
    hide Generator, Pow2;
    var g := Generator();
    var q: nat :| p == Xor(Times(q, g), r);
    var t: nat :| p == Xor(Times(t, g), s);
    SameSum(Times(q, g), r, Times(t, g), s);
    TimesOfSum(q, t, g);
    XorBound(r, s, 32);
    if Xor(q, t) > 0 {
      MultipleIsLarge(Xor(q, t), g, 32);
    }
    SumIsZero(q, t);
    XorSelf(Times(q, g));
    SumIsZero(r, s);
  }

  // ---------------------------------------------------------------- the register, reflected

  lemma {:induction false} ReflectBound(c: nat, n: nat)
    ensures Reflect(c, n) < Pow2(n)
    decreases n
  {
    if n > 0 {
      ReflectBound(c / 2, n - 1);
    }
  }

  lemma ReflectStep(c: nat, n: nat)
    requires n > 0
    ensures Reflect(c, n) == Xor(Shifted(c % 2, n - 1), Reflect(c / 2, n - 1))
  {
    hide Xor, Pow2;
    ReflectBound(c / 2, n - 1);
    XorDisjoint(c % 2, Reflect(c / 2, n - 1), n - 1);
  }

  lemma {:induction false} ReflectSum(a: nat, b: nat, n: nat)
    ensures Reflect(Xor(a, b), n) == Xor(Reflect(a, n), Reflect(b, n))
    decreases n
  {
    hide Xor;
    if n == 0 {
      XorZero(0);
    } else {
      ReflectSum(a / 2, b / 2, n - 1);
      ReflectStep(a, n);
      ReflectStep(b, n);
      ReflectStep(Xor(a, b), n);
      hide Reflect;
      XorParts(a, b);
      ShiftedSum(a % 2, b % 2, n - 1);
      SumOfBits(a, b);
      XorSwap(Shifted(a % 2, n - 1), Reflect(a / 2, n - 1), Shifted(b % 2, n - 1), Reflect(b / 2, n - 1));
    }
  }

  lemma SumOfBits(a: nat, b: nat)
    ensures Xor(a % 2, b % 2) == (a + b) % 2
  {
    hide Xor;
    EvenSum(a, b);
    SumOfTwo(a % 2, b % 2);
  }

  lemma SumOfTwo(x: nat, y: nat)
    requires x < 2 && y < 2
    ensures Xor(x, y) == if x == y then 0 else 1
  {
    hide Xor;
    XorZero(x);
    XorZero(y);
    XorSelf(x);
  }

  lemma {:induction false} ReflectInjective(a: nat, b: nat, n: nat)
    requires a < Pow2(n) && b < Pow2(n) && Reflect(a, n) == Reflect(b, n)
    ensures a == b
    decreases n
  {
    if n > 0 {
      ReflectBound(a / 2, n - 1);
      ReflectBound(b / 2, n - 1);
      ReflectInjective(a / 2, b / 2, n - 1);
    }
  }

  lemma {:induction false} ReflectZero(n: nat)
    ensures Reflect(0, n) == 0
    decreases n
  {
    if n > 0 {
      ReflectZero(n - 1);
    }
  }

  /** A zero bit at the high end becomes one at the low end. */
  lemma ReflectLonger(c: nat, n: nat)
    requires c < Pow2(n)
    ensures Reflect(c, n + 1) == 2 * Reflect(c, n)
  {
    hide Reflect;
    ReflectParts(c, 0, n, 1);
    ReflectZero(1);
    PowersOfBytes();
    assert Pow2(1) == 2;
    assert 0 * Pow2(n) == 0;
  }

  lemma ReflectOpen(c: nat, n: nat)
    requires n > 0
    ensures Reflect(c, n) == (if c % 2 == 1 then Pow2(n - 1) else 0) + Reflect(c / 2, n - 1)
  {
  }

  /** Shifting the register to the right is multiplying by x, the bit that falls out excepted. */
  lemma ReflectHalf(c: nat)
    requires c < WORD
    ensures 2 * Reflect(c, 32) == c % 2 * WORD + Reflect(c / 2, 32)
  {
    PowersOfBytes();
    Pow2Next(31);
    hide Pow2, Reflect;
    ReflectOpen(c, 32);
    ReflectLonger(c / 2, 31);
  }

  /** A step multiplies by x and takes the remainder. */
  lemma Shift1IsTimesX(c: nat)
    requires c < WORD
    ensures Reflect(Shift1(c), 32) == Xor(2 * Reflect(c, 32), if c % 2 == 1 then Generator() else 0)
  {
    hide Xor, Generator, Reflect;
    var x, y := Reflect(c / 2, 32), Reflect(POLY, 32);
    ReflectHalf(c);
    if c % 2 == 1 {
      PowersOfBytes();
      hide Pow2;
      PolyIsReflected();
      ReflectBound(c / 2, 32);
      ReflectBound(POLY, 32);
      XorDisjoint(1, x, 32);
      XorDisjoint(1, y, 32);
      XorSwap(WORD, x, WORD, y);
      XorSelf(WORD);
      XorZero(Xor(x, y));
      ReflectSum(c / 2, POLY, 32);
    } else {
      XorZero(x);
    }
  }

  lemma ReflectBit(b: nat)
    requires b < 2
    ensures 2 * Reflect(b, 32) == Shifted(b, 32)
  {
    hide Reflect, Shifted;
    ReflectHalf(b);
    ReflectZero(32);
    ShiftedWords(b);
  }

  /** The same with a bit of input, which enters at the high end of the polynomial. */
  lemma BitEntersPolynomial(c: nat, b: nat)
    requires c < WORD && b < 2
    ensures Reflect(Shift1(Xor(c, b)), 32) ==
            Xor(Xor(Shifted(Reflect(c, 32), 1), Shifted(b, 32)), if Xor(c, b) % 2 == 1 then Generator() else 0)
  {
    hide Xor, Generator, Reflect, Shift1, Shifted;
    WordBound(c, b);
    Shift1IsTimesX(Xor(c, b));
    ReflectSum(c, b, 32);
    XorDouble(Reflect(c, 32), Reflect(b, 32));
    ShiftedWords(Reflect(c, 32));
    ReflectBit(b);
  }

  // ---------------------------------------------------------------- the register after a message

  /** The polynomial of a message after the register `c`: the message times x^32, with the register added in front. */
  function Dividend(c: nat, w: seq<bool>): nat {
    Xor(Shifted(Value(w), 32), Shifted(Reflect(c, 32), |w|))
  }

  lemma {:induction false} ValueOfFront(w: seq<bool>)
    requires w != []
    ensures Value(w) == Shifted(Bit(w[0]), |w| - 1) + Value(w[1..])
    decreases |w|
  {
    if |w| > 1 {
      var v := w[..|w| - 1];
      ValueOfFront(v);
      assert v[1..] == w[1..][..|w| - 2] && v[0] == w[0];
      assert 2 * (Bit(w[0]) * Pow2(|w| - 2)) == Bit(w[0]) * Pow2(|w| - 1);
    } else {
      assert w[..0] == [];
    }
  }

  /** Taking the first bit into the register adds a multiple of the generator. */
  lemma DividendMoves(c: nat, w: seq<bool>)
    requires c < WORD && w != []
    ensures var t := if Xor(c, Bit(w[0])) % 2 == 1 then Generator() else 0;
            Dividend(c, w) == Xor(Dividend(Shift1(Xor(c, Bit(w[0]))), w[1..]), Shifted(t, |w| - 1))
  {
    hide Xor, Generator, Reflect, Shift1, Value, Shifted;
    var k, b, r, v := |w| - 1, Bit(w[0]), Reflect(c, 32), Value(w[1..]);
    var t := if Xor(c, b) % 2 == 1 then Generator() else 0;
    // The message with its first bit apart.
    FrontBit(w);
    ShiftedSum(Shifted(b, k), v, 32);
    ShiftedTwice(b, 32, k);
    // The register after that bit.
    BitEntersPolynomial(c, b);
    ShiftedSum(Xor(Shifted(r, 1), Shifted(b, 32)), t, k);
    ShiftedSum(Shifted(r, 1), Shifted(b, 32), k);
    ShiftedTwice(r, 1, k);
    Rearranged(Shifted(Shifted(b, k), 32), Shifted(v, 32), Shifted(r, k + 1), Shifted(t, k));
  }

  lemma FrontBit(w: seq<bool>)
    requires w != []
    ensures Value(w) == Xor(Shifted(Bit(w[0]), |w| - 1), Value(w[1..]))
  {
    hide Xor, Value, Pow2;
    ValueOfFront(w);
    ValueBound(w[1..]);
    XorDisjoint(Bit(w[0]), Value(w[1..]), |w| - 1);
  }

  lemma Rearranged(x: nat, v: nat, r: nat, t: nat)
    ensures Xor(Xor(x, v), r) == Xor(Xor(v, Xor(Xor(r, x), t)), t)
  {
    hide Xor;
    XorAssoc(v, Xor(Xor(r, x), t), t);
    XorAssoc(Xor(r, x), t, t);
    XorSelf(t);
    XorZero(Xor(r, x));
    XorComm(x, v);
    XorAssoc(v, x, r);
    XorComm(x, r);
  }

  /** The register after a message is the remainder. */
  lemma {:induction false} RegisterIsRemainder(c: nat, w: seq<bool>)
    requires c < WORD
    ensures CrcOfBits(c, w) < WORD && Remains(Dividend(c, w), Reflect(CrcOfBits(c, w), 32))
    decreases |w|
  {
    hide Xor, Generator, Reflect, Shift1, Dividend, Times, Remains, Shifted;
    if w == [] {
      NothingRemains(c);
    } else {
      var b := Bit(w[0]);
      WordBound(c, b);
      Shift1Bound(Xor(c, b));
      RegisterIsRemainder(Shift1(Xor(c, b)), w[1..]);
      DividendMoves(c, w);
      AddMultiple(Dividend(Shift1(Xor(c, b)), w[1..]), Reflect(CrcOfBits(c, w), 32), |w| - 1);
    }
  }

  lemma Shift1Bound(c: nat)
    requires c < WORD
    ensures Shift1(c) < WORD
  {
    hide Xor;
    WordBound(c / 2, POLY);
  }

  lemma NothingRemains(c: nat)
    requires c < WORD
    ensures Remains(Dividend(c, []), Reflect(c, 32))
  {
    hide Xor, Generator, Reflect, Shifted;
    PowersOfBytes();
    ReflectBound(c, 32);
    ShiftedWords(0);
    ShiftedWords(Reflect(c, 32));
    assert Times(0, Generator()) == 0;
  }

  lemma AddMultiple(p: nat, r: nat, n: nat)
    requires Remains(p, r)
    ensures Remains(Xor(p, Shifted(Generator(), n)), r) && Remains(Xor(p, Shifted(0, n)), r)
  {
    hide Xor, Generator, Times, Pow2;
    var g := Generator();
    var q: nat :| p == Xor(Times(q, g), r);
    TimesPower(n, g);
    TimesOfSum(q, Pow2(n), g);
    hide Shifted;
    var m := Shifted(g, n);
    XorAssoc(Times(q, g), r, m);
    XorComm(r, m);
    XorAssoc(Times(q, g), m, r);
    assert Xor(p, m) == Xor(Times(Xor(q, Pow2(n)), g), r);
    ShiftedZero(n);
    XorZero(p);
  }

  lemma ShiftedZero(n: nat)
    ensures Shifted(0, n) == 0
  {
  }

  /** The checksum of a message is the one number whose complement, reflected, is the remainder of the message, in front of
      which 32 ones or the register left by the messages before it were added. */
  lemma ChecksumIsRemainder(crc: nat, data: seq<Byte>, r: nat)
    requires crc < WORD && r < WORD
    ensures r == Checksum(crc, data) <==>
            Remains(Dividend(Xor(crc, ONES), LowBitsOf(data)), Reflect(Xor(r, ONES), 32))
  {
    hide Xor, Generator, Reflect, Dividend, Remains, LowBitsOf, CrcOfBits;
    var w, c := LowBitsOf(data), Xor(crc, ONES);
    WordBound(crc, ONES);
    RegisterIsRemainder(c, w);
    var d := CrcOfBits(c, w);
    PowersOfBytes();
    WordBound(r, ONES);
    Complement(d);
    Complement(r);
    if Remains(Dividend(c, w), Reflect(Xor(r, ONES), 32)) {
      RemainderIsUnique(Dividend(c, w), Reflect(d, 32), Reflect(Xor(r, ONES), 32));
      ReflectInjective(d, Xor(r, ONES), 32);
    }
  }

  lemma Complement(c: nat)
    ensures Xor(Xor(c, ONES), ONES) == c
  {
    hide Xor;
    XorAssoc(c, ONES, ONES);
    XorSelf(ONES);
    XorZero(c);
  }
}
