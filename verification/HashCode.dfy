/** `hashCode` and `hashCodePositive` of src/utils/index.ts. */
module HashCode {
  import opened Words32

  /** The character codes as coefficients of a polynomial in 31. */
  function Polynomial(s: string): nat {
    if s == "" then 0 else 31 * Polynomial(s[..|s| - 1]) + s[|s| - 1] as nat
  }

  /** Reading on is shifting: of two texts joined, the first is the more significant. */
  lemma {:induction false} PolynomialOfJoined(s: string, t: string)
    ensures Polynomial(s + t) == Polynomial(s) * Power31(|t|) + Polynomial(t)
    decreases |t|
  {
    if t == "" {
      assert s + t == s;
    } else {
      var n := |t| - 1;
      assert (s + t)[..|s| + n] == s + t[..n] && (s + t)[|s| + n] == t[n];
      PolynomialOfJoined(s, t[..n]);
      Horner(Polynomial(s), Power31(n), Polynomial(t[..n]), t[n] as nat);
    }
  }

  lemma Horner(a: nat, p: nat, b: nat, c: nat)
    ensures 31 * (a * p + b) + c == a * (31 * p) + (31 * b + c)
  {
  }

  lemma PolynomialOfOne(c: char)
    ensures Polynomial([c]) == c as nat
  {
    assert [c][..0] == "";
  }

  function Power31(k: nat): nat { if k == 0 then 1 else 31 * Power31(k - 1) }

  /** `(hash << 5) - hash` is 31 times the hash up to multiples of 2^32, so cutting to 32
      bits in every round gives the polynomial cut to 32 bits once. */
  method HashCode(str: string) returns (hash: int)
    ensures hash == Signed(Polynomial(str))
  {
    hash := 0;
    for i := 0 to |str|
      invariant hash == Signed(Polynomial(str[..i]))
    {
      assert str[..i + 1][..i] == str[..i];
      Round(Polynomial(str[..i]), str[i] as nat);
      hash := Shl32(hash, 5) - hash + str[i] as int;
      hash := And32(hash, hash);
    }
    assert str[..|str|] == str;
  }

  lemma {:induction false} AndSelf(a: nat)
    ensures BitAnd(a, a) == a
  {
    if a > 0 {
      AndSelf(a / 2);
    }
  }

  lemma Round(p: nat, c: nat)
    ensures var x := Shl32(Signed(p), 5) - Signed(p) + c; And32(x, x) == Signed(31 * p + c)
  {
    var x := Shl32(Signed(p), 5) - Signed(p) + c;
    AndSelf(Unsigned(x));
    assert Pow2(5) == 32;
    SameModulo(p, c);
    SignedOfUnsigned(x);
    SignedOfUnsigned(31 * p + c);
  }

  lemma SignedOfUnsigned(x: int)
    ensures Signed(x) == Signed(Unsigned(x))
  {
  }

  lemma Multiples(y: int, k: int)
    ensures Unsigned(y + k * WORD) == Unsigned(y)
  {
  }

  lemma SignedIsCongruent(x: int) returns (k: int)
    ensures Signed(x) == x + k * WORD && Unsigned(x) == x - x / WORD * WORD
  {
    k := -(x / WORD) - if x % WORD >= WORD / 2 then 1 else 0;
  }

  /** Both sides differ by a multiple of 2^32. */
  lemma SameModulo(p: nat, c: nat)
    ensures Unsigned(Signed(Unsigned(Signed(p)) * 32) - Signed(p) + c) == Unsigned(31 * p + c)
  {
    var k := SignedIsCongruent(p);
    var h := Signed(p);
    var k' := SignedIsCongruent(h);
    var u := Unsigned(h);
    var m := SignedIsCongruent(u * 32);
    var q := h / WORD;
    Multiples(31 * p + c, 31 * k - 32 * q + m);
    assert Signed(u * 32) - h + c == 31 * p + c + (31 * k - 32 * q + m) * WORD;
  }

  /** `hashCodePositive`'s correction of a negative hash. */
  function Positive(h: int): int { if h < 0 then h * -1 + 0x80000000 else h }

  method HashCodePositive(str: string) returns (r: int)
    ensures r == Positive(Signed(Polynomial(str)))
    ensures 0 <= r <= WORD
  {
    var convertedNumber := HashCode(str);
    if convertedNumber < 0 {
      r := convertedNumber * -1 + 0x80000000;
    } else {
      r := convertedNumber;
    }
  }

  /** The correction keeps different hashes apart; its result is an unsigned 32-bit number
      exactly when the hash is not the least signed one. */
  lemma PositiveIsInjective(h: int, k: int)
    requires -0x80000000 <= h < 0x80000000 && -0x80000000 <= k < 0x80000000
    ensures Positive(h) == Positive(k) <==> h == k
    ensures 0 <= Positive(h) <= WORD && (Positive(h) < WORD <==> h != -0x80000000)
  {
  }
}
