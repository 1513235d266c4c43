/** JavaScript's bitwise operators on numbers: operands are cut to 32 bits, results are
    signed. Bits are taken apart arithmetically. */
module Words32 {

  const WORD := 0x1_0000_0000

  function Pow2(k: nat): (p: nat)
    ensures p > 0
  {
    if k == 0 then 1 else 2 * Pow2(k - 1)
  }

  function BitOr(a: nat, b: nat): nat {
    if a == 0 && b == 0 then 0
    else 2 * BitOr(a / 2, b / 2) + if a % 2 == 1 || b % 2 == 1 then 1 else 0
  }

  function BitAnd(a: nat, b: nat): nat {
    if a == 0 || b == 0 then 0
    else 2 * BitAnd(a / 2, b / 2) + if a % 2 == 1 && b % 2 == 1 then 1 else 0
  }

  function Unsigned(x: int): nat { x % WORD }

  function Signed(x: int): int {
    if x % WORD >= WORD / 2 then x % WORD - WORD else x % WORD
  }

  function Or32(a: int, b: int): int { Signed(BitOr(Unsigned(a), Unsigned(b))) }

  function And32(a: int, b: int): int { Signed(BitAnd(Unsigned(a), Unsigned(b))) }

  function Shl32(a: int, k: nat): int { Signed(Unsigned(a) * Pow2(k)) }

  function Shr32(a: int): nat { Unsigned(a) / 2 }

  lemma {:induction false} OrZero(a: nat)
    ensures BitOr(a, 0) == a && BitOr(0, a) == a
  {
    if a > 0 {
      OrZero(a / 2);
    }
  }

  lemma {:induction false} OrDisjoint(a: nat, b: nat, k: nat)
    requires b < Pow2(k)
    ensures BitOr(a * Pow2(k), b) == a * Pow2(k) + b
  {
    if k == 0 {
      OrZero(a);
    } else {
      var h := a * Pow2(k - 1);
      assert a * Pow2(k) == 2 * h;
      OrDisjoint(a, b / 2, k - 1);
    }
  }

  lemma {:induction false} AndMask(a: nat, k: nat)
    ensures BitAnd(a, Pow2(k) - 1) == a % Pow2(k)
  {
    if k == 0 {
      assert BitAnd(a, 0) == 0;
    } else {
      var p := Pow2(k - 1);
      assert Pow2(k) == 2 * p;
      AndMask(a / 2, k - 1);
      hide BitAnd, Pow2;
      AndMaskStep(a, p);
    }
  }

  lemma AndMaskStep(a: nat, p: nat)
    requires p > 0 && BitAnd(a / 2, p - 1) == a / 2 % p
    ensures BitAnd(a, 2 * p - 1) == a % (2 * p)
  {
    hide BitAnd;
    AndHalves(a, 2 * p - 1);
    OddMask(p);
    ModHalf(a, p);
  }

  lemma OddMask(p: nat)
    requires p > 0
    ensures (2 * p - 1) / 2 == p - 1 && (2 * p - 1) % 2 == 1
  {
  }

  lemma AndHalves(a: nat, b: nat)
    ensures BitAnd(a, b) == 2 * BitAnd(a / 2, b / 2) + if a % 2 == 1 && b % 2 == 1 then 1 else 0
  {
    if a == 0 || b == 0 {
      assert BitAnd(a / 2, b / 2) == 0;
    }
  }

  lemma ModHalf(a: nat, p: nat)
    requires p > 0
    ensures a % (2 * p) == 2 * (a / 2 % p) + a % 2
  {
    var q, r := a / 2 / p, a / 2 % p;
    assert a / 2 == q * p + r;
    assert a == 2 * (q * p + r) + a % 2;
    assert a == q * (2 * p) + (2 * r + a % 2) by {
      assert 2 * (q * p) == q * (2 * p);
    }
    DivModUnique(a, 2 * p, q, 2 * r + a % 2);
  }

  lemma DivModUnique(a: int, d: int, q: int, r: int)
    requires d > 0 && 0 <= r < d && a == q * d + r
    ensures a % d == r
  {
    QuotientIsUnique(d, a / d, a % d, q, r);
  }

  lemma QuotientIsUnique(d: int, q: int, r: int, q': int, r': int)
    requires 0 <= r < d && 0 <= r' < d && d * q + r == q' * d + r'
    ensures r == r'
  {
    if q < q' {
      AtLeast(q' - q, d);
    } else if q' < q {
      AtLeast(q - q', d);
    }
  }

  lemma AtLeast(n: int, d: int)
    requires n >= 1 && d > 0
    ensures n * d >= d
  {
  }

  /** The shift-and-parity expression reads a signed word as the unsigned number it stands
      for: it repairs the sign bit. */
  lemma SignRepair(x: int)
    ensures Shr32(x) * 2 + And32(x, 0x7fffffff) % 2 == Unsigned(x)
  {
    hide BitAnd, Pow2;
    AndMask(Unsigned(x), 31);
    PowValues();
    var u := Unsigned(x);
    assert Unsigned(0x7fffffff) == 0x7fffffff;
    SmallIsSigned(u % 0x80000000);
    hide Unsigned, Signed;
    assert u % 0x80000000 % 2 == u % 2;
  }

  lemma PowValues()
    ensures Pow2(8) == 0x100 && Pow2(16) == 0x10000 && Pow2(24) == 0x1000000 && Pow2(31) == 0x80000000
    ensures Pow2(4) == 16
  {
    assert Pow2(4) == 16;
    assert Pow2(8) == 0x100;
    assert Pow2(12) == 0x1000;
    assert Pow2(16) == 0x10000;
    assert Pow2(20) == 0x100000;
    assert Pow2(24) == 0x1000000;
    assert Pow2(28) == 0x10000000;
  }

  lemma UnsignedOfSigned(x: nat)
    requires x < WORD
    ensures Unsigned(Signed(x)) == x
  {
  }

  /** Or-ing something into the free bits below a word adds it. */
  lemma OrBelow(w: nat, high: nat, c: nat, m: nat)
    requires c < Pow2(m) && w == high * Pow2(m) && w + c < WORD
    ensures Or32(Signed(w), Signed(c)) == Signed(w + c)
  {
    UnsignedOfSigned(w);
    UnsignedOfSigned(c);
    OrDisjoint(high, c, m);
  }

  lemma ShiftByte(b: nat, k: nat)
    requires b < 256
    ensures Shl32(And32(b, 0xff), k) == Signed(b * Pow2(k))
  {
    hide And32, Signed, Pow2;
    ByteMask(b);
    assert Unsigned(b) == b;
  }

  /** Four bytes, or-ed together most significant first, are the big-endian word. */
  lemma OrWord(a: nat, b: nat, c: nat, d: nat)
    requires a < 256 && b < 256 && c < 256 && d < 256
    ensures var w1 := Or32(0, Shl32(And32(a, 0xff), 24));
            var w2 := Or32(w1, Shl32(And32(b, 0xff), 16));
            var w3 := Or32(w2, Shl32(And32(c, 0xff), 8));
            Or32(w3, And32(d, 0xff)) == Signed(a * 0x1000000 + b * 0x10000 + c * 0x100 + d)
  {
    hide Or32, Signed, And32, Shl32, BitOr, BitAnd, Pow2;
    PowValues();
    ShiftByte(a, 24);
    ShiftByte(b, 16);
    ShiftByte(c, 8);
    ByteMask(d);
    SmallIsSigned(0);
    SmallIsSigned(d);
    OrZero32(a * 0x1000000);
    OrBelow(a * 0x1000000, a, b * 0x10000, 24);
    OrBelow(a * 0x1000000 + b * 0x10000, a * 0x100 + b, c * 0x100, 16);
    OrBelow(a * 0x1000000 + b * 0x10000 + c * 0x100, a * 0x10000 + b * 0x100 + c, d, 8);
  }

  lemma SmallIsSigned(x: nat)
    requires x < WORD / 2
    ensures Signed(x) == x
  {
  }

  lemma OrZero32(x: nat)
    requires x < WORD
    ensures Or32(0, Signed(x)) == Signed(x)
  {
    UnsignedOfSigned(x);
    OrZero(x);
  }

  lemma ByteMask(a: nat)
    requires a < 256
    ensures And32(a, 0xff) == a
  {
    hide BitAnd, Pow2;
    PowValues();
    AndMask(a, 8);
  }

  lemma VersionBit(b: nat)
    requires b < 256
    ensures And32(b, 0x10) == 0x10 <==> b / 16 % 2 == 1
  {
    AndMask(b / 16, 1);
    assert Pow2(1) == 2;
    AndTwice(b, 8);
    AndTwice(b / 2, 4);
    AndTwice(b / 4, 2);
    AndTwice(b / 8, 1);
    assert BitAnd(b, 16) == 16 * BitAnd(b / 16, 1);
  }

  lemma AndTwice(a: nat, b: nat)
    ensures BitAnd(a, 2 * b) == 2 * BitAnd(a / 2, b)
  {
    if a == 0 || b == 0 {
      assert BitAnd(a / 2, b) == 0;
    } else {
      assert 2 * b / 2 == b && 2 * b % 2 == 0;
    }
  }

  lemma {:induction false} OrCommutes(a: nat, b: nat)
    ensures BitOr(a, b) == BitOr(b, a)
  {
    if a != 0 || b != 0 {
      OrCommutes(a / 2, b / 2);
    }
  }

  lemma {:induction false} OrAssociates(a: nat, b: nat, c: nat)
    ensures BitOr(BitOr(a, b), c) == BitOr(a, BitOr(b, c))
    decreases a + b + c
  {
    if a == 0 && b == 0 {
      OrZero(c);
      OrZero(BitOr(b, c));
    } else if b == 0 && c == 0 {
      OrZero(a);
      OrZero(BitOr(a, b));
    } else {
      OrAssociates(a / 2, b / 2, c / 2);
      OrHalves(a, b);
      OrHalves(b, c);
      OrHalves(BitOr(a, b), c);
      OrHalves(a, BitOr(b, c));
    }
  }

  lemma OrHalves(a: nat, b: nat)
    ensures BitOr(a, b) / 2 == BitOr(a / 2, b / 2)
    ensures BitOr(a, b) % 2 == if a % 2 == 1 || b % 2 == 1 then 1 else 0
    ensures BitOr(a, b) == 0 <==> a == 0 && b == 0
  {
    if a == 0 && b == 0 {
      OrZero(0);
    } else if a / 2 == 0 && b / 2 == 0 {
    } else {
      OrPositive(a / 2, b / 2);
    }
  }

  lemma {:induction false} OrPositive(a: nat, b: nat)
    requires a != 0 || b != 0
    ensures BitOr(a, b) > 0
  {
    if a / 2 != 0 || b / 2 != 0 {
      OrPositive(a / 2, b / 2);
    }
  }

  /** The middle and high fields arrive in another order but land in the same places. */
  lemma OrHigh(m0: nat, m1: nat, h0: nat, h1: nat)
    requires m0 < 256 && m1 < 256 && h0 < 256 && h1 < 256
    ensures var w1 := Or32(0, Shl32(And32(m0, 0xff), 8));
            var w2 := Or32(w1, And32(m1, 0xff));
            var w3 := Or32(w2, Shl32(And32(h0, 0xf), 24));
            Or32(w3, Shl32(And32(h1, 0xff), 16)) == Signed(h0 % 16 * 0x1000000 + h1 * 0x10000 + m0 * 0x100 + m1)
  {
    hide Or32, Signed, And32, Shl32, BitOr, BitAnd, Pow2;
    PowValues();
    var x, l, m := h0 % 16 * 0x1000000, m0 * 0x100 + m1, h1 * 0x10000;
    ShiftByte(m0, 8);
    ByteMask(m1);
    SmallIsSigned(0);
    SmallIsSigned(m1);
    OrZero32(m0 * 0x100);
    OrBelow(m0 * 0x100, m0, m1, 8);
    ShiftNibble(h0);
    ShiftByte(h1, 16);
    OrSums(x, m, l, h0 % 16, h1);
    OrThree(x, l, m);
  }

  lemma ShiftNibble(h: nat)
    requires h < 256
    ensures Shl32(And32(h, 0xf), 24) == Signed(h % 16 * 0x1000000)
  {
    PowValues();
    AndMask(h, 4);
    hide Pow2, BitAnd, Signed;
    SmallIsSigned(h % 16);
    assert Unsigned(h) == h && Unsigned(h % 16) == h % 16;
  }

  lemma OrThree(x: nat, l: nat, m: nat)
    requires x < WORD && l < WORD && m < WORD && BitOr(x, l) < WORD
    ensures Or32(Or32(Signed(l), Signed(x)), Signed(m)) == Signed(BitOr(BitOr(x, m), l))
  {
    UnsignedOfSigned(l);
    UnsignedOfSigned(x);
    UnsignedOfSigned(m);
    OrCommutes(l, x);
    UnsignedOfSigned(BitOr(x, l));
    OrAssociates(x, l, m);
    OrCommutes(l, m);
    OrAssociates(x, m, l);
  }

  lemma OrSums(x: nat, m: nat, l: nat, h: nat, b: nat)
    requires x == h * 0x1000000 && m == b * 0x10000 && l < 0x10000 && h < 256 && b < 256
    ensures BitOr(BitOr(x, m), l) == x + m + l && BitOr(x, l) == x + l
  {
    hide BitOr, Pow2;
    PowValues();
    OrDisjoint(h, m, 24);
    OrDisjoint(h, l, 24);
    OrDisjoint(h * 0x100 + b, l, 16);
  }
}
