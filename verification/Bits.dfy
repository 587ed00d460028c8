// Bitwise operations: the EOR/AND/EOR idiom, by which the ROM replaces some bits of a
// byte, EOR with a mask of low bits, and ORA.

module Bits {
  import opened Bytes

  // The bits of a where m is set, and of b elsewhere.
  function Select(a: nat, b: nat, m: nat): nat
    decreases m
  {
    if m == 0 then b
    else (if m % 2 == 1 then a % 2 else b % 2) + 2 * Select(a / 2, b / 2, m / 2)
  }

  lemma {:induction false} EorZero(b: nat)
    ensures Eor(0, b) == b
  {
    if b != 0 {
      EorZero(b / 2);
    }
  }

  lemma {:induction false} AndZero(a: nat)
    ensures And(a, 0) == 0
  {
    if a != 0 {
      AndZero(a / 2);
    }
  }

  // EOR with b, mask, and EOR with b again picks the masked bits from a.
  lemma {:induction false} EorAndEor(a: nat, b: nat, m: nat)
    ensures Eor(And(Eor(a, b), m), b) == Select(a, b, m)
    decreases a + b + m
  {
    hide And, Eor, Select;
    if m == 0 {
      AndZero(Eor(a, b));
      EorZero(b);
      SelectNone(a, b);
    } else if a == 0 && b == 0 {
      EorZero(0);
      AndOfZero(m);
      SelectZero(m);
    } else {
      EorAndEor(a / 2, b / 2, m / 2);
      EorHalf(a, b);
      AndHalf(Eor(a, b), m);
      EorHalf(And(Eor(a, b), m), b);
      SelectHalf(a, b, m);
      SameHalves(Eor(And(Eor(a, b), m), b), Select(a, b, m));
    }
  }

  lemma AndOfZero(m: nat)
    ensures And(0, m) == 0
  {
  }

  lemma SelectNone(a: nat, b: nat)
    ensures Select(a, b, 0) == b
  {
  }

  lemma SelectHalf(a: nat, b: nat, m: nat)
    ensures Select(a, b, m) % 2 == (if m % 2 == 1 then a % 2 else b % 2)
    ensures Select(a, b, m) / 2 == Select(a / 2, b / 2, m / 2)
  {
  }

  lemma {:induction false} SelectZero(m: nat)
    ensures Select(0, 0, m) == 0
    decreases m
  {
    if m != 0 {
      SelectZero(m / 2);
    }
  }

  lemma SkipBit(a: nat, b: nat, i: bit, j: bit, m: nat)
    requires m > 0
    ensures Select(2 * a + i, 2 * b + j, 2 * m) == j + 2 * Select(a, b, m)
  {
    Halves(a, i);
    Halves(b, j);
  }

  lemma TakeBit(a: nat, b: nat, i: bit, j: bit, m: nat)
    ensures Select(2 * a + i, 2 * b + j, 2 * m + 1) == i + 2 * Select(a, b, m)
  {
    Halves(a, i);
    Halves(b, j);
    Halves(m, 1);
  }

  lemma Halves(a: nat, i: bit)
    ensures (2 * a + i) / 2 == a && (2 * a + i) % 2 == i
  {
  }

  // The masks the catalogue code uses, on bytes given by their bits.
  lemma SelectTopSix(a: nat, i1: bit, i0: bit, b: nat, j1: bit, j0: bit)
    requires a < 64 && b < 64
    ensures Select(2 * (2 * a + i1) + i0, 2 * (2 * b + j1) + j0, 0xFC) == 4 * a + 2 * j1 + j0
  {
    hide Select, Ones;
    SkipBit(2 * a + i1, 2 * b + j1, i0, j0, 0x7E);
    SkipBit(a, b, i1, j1, 0x3F);
    OnesSix();
    SelectAll(a, b, 6);
  }

  lemma OnesSix()
    ensures Ones(6) == 63
  {
    assert Ones(2) == 3 && Ones(4) == 15;
  }

  lemma SelectPair(a: nat, i5: bit, i4: bit, b: nat, j5: bit, j4: bit)
    ensures Select(2 * (2 * a + i5) + i4, 2 * (2 * b + j5) + j4, 3) == 4 * b + 2 * i5 + i4
  {
    assert Select(a, b, 0) == b;
    hide Select;
    TakeBit(2 * a + i5, 2 * b + j5, i4, j4, 1);
    TakeBit(a, b, i5, j5, 0);
  }

  // More bits below, which the mask leaves alone.
  lemma SelectSkipTwo(a: nat, u: nat, b: nat, v: nat, m: nat)
    requires u < 4 && v < 4 && m > 0
    ensures Select(4 * a + u, 4 * b + v, 4 * m) == v + 4 * Select(a, b, m)
  {
    hide Select;
    SkipBit(a, b, u / 2, v / 2, m);
    SkipBit(2 * a + u / 2, 2 * b + v / 2, u % 2, v % 2, 2 * m);
  }

  lemma SelectSkipFour(a: nat, u: nat, b: nat, v: nat, m: nat)
    requires u < 16 && v < 16 && m > 0
    ensures Select(16 * a + u, 16 * b + v, 16 * m) == v + 16 * Select(a, b, m)
  {
    hide Select;
    SelectSkipTwo(a, u / 4, b, v / 4, m);
    SelectSkipTwo(4 * a + u / 4, u % 4, 4 * b + v / 4, v % 4, 4 * m);
  }

  function Ones(k: nat): nat { if k == 0 then 0 else 1 + 2 * Ones(k - 1) }

  lemma {:induction false} SelectAll(a: nat, b: nat, k: nat)
    requires a <= Ones(k) && b <= Ones(k)
    ensures Select(a, b, Ones(k)) == a
  {
    hide Select;
    if k > 0 {
      SelectAll(a / 2, b / 2, k - 1);
      SelectHalf(a, b, Ones(k));
      SameHalves(Select(a, b, Ones(k)), a);
    } else {
      SelectNone(a, b);
    }
  }

  // Replace bits 2-7 of b by those of a, the way the source spells it.
  function MergeTopSix(a: byte, b: byte): (r: byte)
    ensures r == 4 * (a / 4) + b % 4
  {
    TopSix(a, b);
    Eor(And(Eor(a, b), 0xFC), b)
  }

  // Replace bits 4-5 of b by those of a.
  function MergeBits45(a: byte, b: byte): (r: byte)
    ensures r == 64 * (b / 64) + 16 * (a / 16 % 4) + b % 16
  {
    Bits45(a, b);
    Eor(And(Eor(a, b), 0x30), b)
  }

  lemma TopSix(a: byte, b: byte)
    ensures Eor(And(Eor(a, b), 0xFC), b) == 4 * (a / 4) + b % 4
  {
    hide Eor, And, Select;
    EorAndEor(a, b, 0xFC);
    SelectTopSix(a / 4, a % 4 / 2, a % 2, b / 4, b % 4 / 2, b % 2);
  }

  lemma Bits45(a: byte, b: byte)
    ensures Eor(And(Eor(a, b), 0x30), b) == 64 * (b / 64) + 16 * (a / 16 % 4) + b % 16
  {
    hide Eor, And, Select;
    EorAndEor(a, b, 0x30);
    SelectSkipFour(a / 16, a % 16, b / 16, b % 16, 3);
    SelectLowPair(a / 16, b / 16);
  }

  lemma SelectLowPair(c: nat, d: nat)
    ensures Select(c, d, 3) == 4 * (d / 4) + c % 4
  {
    hide Select;
    SelectPair(c / 4, c % 4 / 2, c % 2, d / 4, d % 4 / 2, d % 2);
  }

  // ---- Low bits ----

  function Pow2(k: nat): (p: nat)
    ensures p > 0
  {
    if k == 0 then 1 else 2 * Pow2(k - 1)
  }

  // The low bits of an EOR are all clear exactly when the low bits agree.
  lemma {:induction false} EorAgrees(a: nat, b: nat, k: nat)
    ensures Eor(a, b) % Pow2(k) == 0 <==> a % Pow2(k) == b % Pow2(k)
  {
    if k != 0 {
      EorAgrees(a / 2, b / 2, k - 1);
      var p := Pow2(k - 1);
      EorHalf(a, b);
      LowBit(a, p);
      LowBit(b, p);
      LowBit(Eor(a, b), p);
      hide Eor, Pow2;
      assert Pow2(k) == 2 * p;
    }
  }

  lemma EorHalf(a: nat, b: nat)
    ensures Eor(a, b) % 2 == (if a % 2 == b % 2 then 0 else 1) && Eor(a, b) / 2 == Eor(a / 2, b / 2)
  {
  }

  lemma LowBit(x: nat, p: nat)
    requires p > 0
    ensures x % (2 * p) == x % 2 + 2 * (x / 2 % p)
  {
    var q, r := x / 2 / p, x / 2 % p;
    assert x == 2 * (p * q + r) + x % 2;
    assert 2 * (p * q) == (2 * p) * q;
    Remainder(x, 2 * p, q, x % 2 + 2 * r);
  }

  lemma Remainder(x: nat, d: nat, q: nat, r: nat)
    requires d > 0 && x == d * q + r && r < d
    ensures x % d == r
  {
    var q' := x / d;
    assert x == d * q' + x % d;
    assert d * q' == d * q + d * (q' - q) && d * q == d * q' + d * (q - q');
    if q' > q {
      AtLeast(d, q' - q);
    } else if q' < q {
      AtLeast(d, q - q');
    }
  }

  lemma {:induction false} AtLeast(d: nat, t: nat)
    requires t >= 1
    ensures d * t >= d
  {
    if t > 1 {
      AtLeast(d, t - 1);
      assert d * t == d * (t - 1) + d;
    }
  }

  // ---- ORA ----

  function Or(a: nat, b: nat): nat
    decreases a + b
  {
    if a == 0 && b == 0 then 0
    else (if a % 2 == 1 || b % 2 == 1 then 1 else 0) + 2 * Or(a / 2, b / 2)
  }

  lemma {:induction false} AndOr(a: nat, b: nat, m: nat)
    ensures And(Or(a, b), m) == Or(And(a, m), And(b, m))
    decreases a + b
  {
    if a == 0 && b == 0 {
    } else {
      AndOr(a / 2, b / 2, m / 2);
      AndHalf(a, m);
      AndHalf(b, m);
      AndHalf(Or(a, b), m);
      OrHalf(a, b);
      OrHalf(And(a, m), And(b, m));
      SameHalves(And(Or(a, b), m), Or(And(a, m), And(b, m)));
    }
  }

  lemma AndHalf(a: nat, m: nat)
    ensures And(a, m) % 2 == (if a % 2 == 1 && m % 2 == 1 then 1 else 0) && And(a, m) / 2 == And(a / 2, m / 2)
  {
    var bit, half := LowProduct(a % 2, m % 2), And(a / 2, m / 2);
    assert And(a, m) == bit + 2 * half;
    hide And;
  }

  function LowProduct(i: bit, j: bit): (p: bit)
    ensures p == i * j
  {
    if i == 1 && j == 1 then 1 else 0
  }

  lemma OrHalf(a: nat, b: nat)
    ensures Or(a, b) % 2 == (if a % 2 == 1 || b % 2 == 1 then 1 else 0) && Or(a, b) / 2 == Or(a / 2, b / 2)
  {
  }

  lemma SameHalves(x: nat, y: nat)
    requires x % 2 == y % 2 && x / 2 == y / 2
    ensures x == y
  {
  }

  lemma {:induction false} OrZero(a: nat)
    ensures Or(a, 0) == a
  {
    if a != 0 {
      OrZero(a / 2);
    }
  }

  lemma {:induction false} OrSome(a: nat, b: nat)
    ensures Or(a, b) >= a && Or(a, b) >= b
    decreases a + b
  {
    if a != 0 || b != 0 {
      OrSome(a / 2, b / 2);
    }
  }

  // Eight bits stay eight bits.
  lemma OrByte(a: byte, b: byte)
    ensures Or(a, b) < 256
  {
    OrBelow(a, b, 8);
    assert Pow2(4) == 16;
    assert Pow2(8) == 256;
  }

  lemma {:induction false} OrBelow(a: nat, b: nat, k: nat)
    requires a < Pow2(k) && b < Pow2(k)
    ensures Or(a, b) < Pow2(k)
    decreases k
  {
    if k != 0 {
      OrBelow(a / 2, b / 2, k - 1);
      OrHalf(a, b);
    }
  }

  // Powers of two are single bits.
  lemma {:induction false} AndPowers(i: nat, k: nat)
    ensures And(Pow2(i), Pow2(k)) == if i == k then Pow2(i) else 0
    decreases i
  {
    assert And(0, Pow2(k) / 2) == 0 && Pow2(0) == 1;
    AndHalf(Pow2(i), Pow2(k));
    AndZero(Pow2(i) / 2);
    hide And;
    if i != 0 && k != 0 {
      AndPowers(i - 1, k - 1);
    }
  }

  // ---- Clearing ----

  // EOR with all ones and AND: the bits of m are taken out of a, and no others.
  lemma {:induction false} AndNot(m: nat, a: nat, x: nat, k: nat)
    requires m < Pow2(k)
    ensures var c := And(Eor(m, Pow2(k) - 1), a);
      && c <= a && And(c, m) == 0
      && (x < Pow2(k) && And(m, x) == 0 ==> And(c, x) == And(a, x))
    decreases k
  {
    var ones := Pow2(k) - 1;
    var c := And(Eor(m, ones), a);
    if k == 0 {
      EorZero(0);
      AndZero(a);
      AndZero(0);
      hide And, Eor;
    } else {
      AndNot(m / 2, a / 2, x / 2, k - 1);
      OnesHalf(k);
      hide And, Eor, Pow2;
      EorHalf(m, ones);
      AndHalf(Eor(m, ones), a);
      AndHalf(c, m);
      AndHalf(c, x);
      AndHalf(a, x);
      AndHalf(m, x);
    }
  }

  lemma OnesHalf(k: nat)
    requires k > 0
    ensures (Pow2(k) - 1) % 2 == 1 && (Pow2(k) - 1) / 2 == Pow2(k - 1) - 1 && Pow2(k) == 2 * Pow2(k - 1)
  {
    var p := Pow2(k - 1);
    assert Pow2(k) == 2 * p;
    hide Pow2;
    Halves(p - 1, 1);
  }

  lemma AndNotByte(m: byte, a: byte, x: byte)
    ensures var c := And(Eor(m, 0xFF), a);
      && c <= a && And(c, m) == 0
      && (And(m, x) == 0 ==> And(c, x) == And(a, x))
  {
    assert Pow2(4) == 16 && Pow2(8) == 16 * Pow2(4);
    AndNot(m, a, x, 8);
  }

  lemma {:induction false} AndOnes(a: nat, k: nat)
    requires a <= Ones(k)
    ensures And(a, Ones(k)) == a
  {
    if k > 0 {
      AndOnes(a / 2, k - 1);
      AndHalf(a, Ones(k));
      hide And;
    }
  }

  // AND #$fc and ORA replace the lowest two bits.
  lemma AndOrLowPair(p: byte, h: byte)
    requires h < 4
    ensures Or(And(p, 0xFC), h) == 4 * (p / 4) + h
  {
    hide And, Or, Ones;
    AndHalf(p, 0xFC);
    AndHalf(p / 2, 0x7E);
    OnesSix();
    AndOnes(p / 4, 6);
    var a := And(p, 0xFC);
    OrHalf(a, h);
    OrHalf(a / 2, h / 2);
    OrZero(p / 4);
  }

  // ---- Single bits ----

  // The low bits alone.
  lemma {:induction false} AndLow(a: nat, k: nat)
    ensures And(a, Ones(k)) == a % Pow2(k)
    decreases k
  {
    if k == 0 {
      AndZero(a);
    } else {
      AndLow(a / 2, k - 1);
      AndHalf(a, Ones(k));
      LowBit(a, Pow2(k - 1));
      hide And;
    }
  }

  // One bit: what the low bits up to it have more than those below it.
  lemma {:induction false} AndBit(a: nat, k: nat)
    ensures And(a, Pow2(k)) == a % Pow2(k + 1) - a % Pow2(k)
    decreases k
  {
    AndHalf(a, Pow2(k));
    if k == 0 {
      AndZero(a / 2);
      assert Pow2(0) == 1 && Pow2(1) == 2;
      hide And;
    } else {
      AndBit(a / 2, k - 1);
      LowBit(a, Pow2(k));
      LowBit(a, Pow2(k - 1));
      hide And;
    }
  }

  // ORA sets it, and AND with all other bits of a byte clears it.
  lemma {:induction false} OrBit(a: nat, k: nat)
    ensures Or(a, Pow2(k)) == a + Pow2(k) - And(a, Pow2(k))
    decreases k
  {
    OrHalf(a, Pow2(k));
    AndHalf(a, Pow2(k));
    if k == 0 {
      OrZero(a / 2);
      AndZero(a / 2);
      hide And, Or;
    } else {
      OrBit(a / 2, k - 1);
      hide And, Or;
    }
  }

  lemma {:induction false} AndExcept(a: nat, k: nat, n: nat)
    requires k < n && a <= Ones(n)
    ensures Pow2(k) <= Ones(n) && And(a, Ones(n) - Pow2(k)) == a - And(a, Pow2(k))
    decreases k
  {
    hide And, Ones, Pow2;
    OnesAndPowers(k, n);
    AndHalf(a, Pow2(k));
    if k == 0 {
      AndHalf(a, Ones(n) - 1);
      AndOnes(a / 2, n - 1);
      AndZero(a / 2);
    } else {
      AndExcept(a / 2, k - 1, n - 1);
      AndHalf(a, Ones(n) - Pow2(k));
    }
  }

  lemma OnesAndPowers(k: nat, n: nat)
    requires n > 0
    ensures Ones(n) == 1 + 2 * Ones(n - 1)
    ensures if k == 0 then Pow2(k) == 1 else Pow2(k) == 2 * Pow2(k - 1)
  {
  }

  lemma {:induction false} AndAnd(a: nat, m: nat, n: nat)
    ensures And(And(a, m), n) == And(a, And(m, n))
  {
    if a != 0 {
      AndAnd(a / 2, m / 2, n / 2);
      AndHalf(a, m);
      AndHalf(m, n);
      AndHalf(And(a, m), n);
      AndHalf(a, And(m, n));
      hide And;
    }
  }
}
