/** Exclusive or of natural numbers. */
module ExclusiveOr {
  import opened Bits

  function Xor(x: nat, y: nat): nat
    decreases x + y
  {
    if x == 0 && y == 0 then 0 else 2 * Xor(x / 2, y / 2) + (x + y) % 2
  }

  lemma XorParts(x: nat, y: nat)
    ensures Xor(x, y) / 2 == Xor(x / 2, y / 2) && Xor(x, y) % 2 == (x + y) % 2
  {
  }

  lemma {:induction false} XorZero(x: nat)
    ensures Xor(x, 0) == x && Xor(0, x) == x
    decreases x
  {
    if x > 0 {
      XorZero(x / 2);
    }
  }

  lemma {:induction false} XorSelf(x: nat)
    ensures Xor(x, x) == 0
    decreases x
  {
    if x > 0 {
      XorSelf(x / 2);
    }
  }

  lemma {:induction false} XorComm(x: nat, y: nat)
    ensures Xor(x, y) == Xor(y, x)
    decreases x + y
  {
    if x > 0 || y > 0 {
      XorComm(x / 2, y / 2);
    }
  }

  lemma SameNumber(x: nat, y: nat)
    requires x / 2 == y / 2 && x % 2 == y % 2
    ensures x == y
  {
  }

  lemma EvenSum(a: nat, b: nat)
    ensures (a + b) % 2 == if a % 2 == b % 2 then 0 else 1
  {
  }

  lemma Parity(x: nat, y: nat, z: nat)
    ensures (Xor(x, y) + z) % 2 == (x + Xor(y, z)) % 2
  {
    hide Xor;
    XorParts(x, y);
    XorParts(y, z);
    EvenSum(x, y);
    EvenSum(y, z);
    EvenSum(Xor(x, y), z);
    EvenSum(x, Xor(y, z));
  }

  lemma {:induction false} XorAssoc(x: nat, y: nat, z: nat)
    ensures Xor(Xor(x, y), z) == Xor(x, Xor(y, z))
    decreases x + y + z
  {
    hide Xor;
    if x == 0 {
      XorZero(y);
      XorZero(Xor(y, z));
    } else {
      XorAssoc(x / 2, y / 2, z / 2);
      XorParts(x, y);
      XorParts(y, z);
      XorParts(Xor(x, y), z);
      XorParts(x, Xor(y, z));
      Parity(x, y, z);
      SameNumber(Xor(Xor(x, y), z), Xor(x, Xor(y, z)));
    }
  }

  /** Two pairs can be combined in either order. */
  lemma XorSwap(a: nat, b: nat, c: nat, d: nat)
    ensures Xor(Xor(a, b), Xor(c, d)) == Xor(Xor(a, c), Xor(b, d))
  {
    hide Xor;
    XorAssoc(a, b, Xor(c, d));
    XorAssoc(b, c, d);
    XorComm(b, c);
    XorAssoc(c, b, d);
    XorAssoc(a, c, Xor(b, d));
  }

  lemma XorEven(x: nat, y: nat)
    requires Xor(x, y / 2) == x + y / 2
    ensures Xor(2 * x, y) == 2 * x + y
  {
    hide Xor;
    var e := 2 * x;
    assert e / 2 == x && (e + y) / 2 == x + y / 2;
    XorParts(e, y);
    SameNumber(Xor(e, y), e + y);
  }

  /** Numbers without common bits are added. */
  lemma {:induction false} XorDisjoint(a: nat, b: nat, n: nat)
    requires b < Pow2(n)
    ensures Xor(a * Pow2(n), b) == a * Pow2(n) + b
    decreases n
  {
    hide Xor;
    if n == 0 {
      XorZero(a);
      assert a * Pow2(0) == a;
    } else {
      XorDisjoint(a, b / 2, n - 1);
      XorEven(a * Pow2(n - 1), b);
      Doubled(a, Pow2(n - 1));
    }
  }

  lemma Doubled(a: nat, p: nat)
    ensures a * (2 * p) == 2 * (a * p)
  {
  }

  lemma {:induction false} XorBound(x: nat, y: nat, n: nat)
    requires x < Pow2(n) && y < Pow2(n)
    ensures Xor(x, y) < Pow2(n)
    decreases n
  {
    if n > 0 {
      XorBound(x / 2, y / 2, n - 1);
      XorParts(x, y);
    }
  }

  lemma XorQuarter(x: nat, y: nat)
    ensures Xor(x, y) / 4 == Xor(x / 4, y / 4)
  {
    hide Xor;
    XorParts(x, y);
    XorParts(x / 2, y / 2);
    assert x / 2 / 2 == x / 4 && y / 2 / 2 == y / 4 && Xor(x, y) / 2 / 2 == Xor(x, y) / 4;
  }

  lemma XorSixteenth(x: nat, y: nat)
    ensures Xor(x, y) / 16 == Xor(x / 16, y / 16)
  {
    hide Xor;
    XorQuarter(x, y);
    XorQuarter(x / 4, y / 4);
    assert x / 4 / 4 == x / 16 && y / 4 / 4 == y / 16 && Xor(x, y) / 4 / 4 == Xor(x, y) / 16;
  }

  lemma XorHighByte(x: nat, y: nat)
    ensures Xor(x, y) / 256 == Xor(x / 256, y / 256)
  {
    hide Xor;
    XorSixteenth(x, y);
    XorSixteenth(x / 16, y / 16);
    assert x / 16 / 16 == x / 256 && y / 16 / 16 == y / 256 && Xor(x, y) / 16 / 16 == Xor(x, y) / 256;
  }
}
