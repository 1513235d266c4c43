/** Numbers as the serializers write them: integers in decimal, and epoch seconds with
    exactly six decimals (`toFixed(6)`), the millisecond being the unit of every date. */
module Decimal {
  import opened Results

  function Digit(d: nat): char
    requires d < 10
  {
    "0123456789"[d]
  }

  predicate IsDigit(c: char) { '0' <= c <= '9' }

  function DigitValue(c: char): nat
    requires IsDigit(c)
  {
    (c - '0') as nat
  }

  predicate AllDigits(s: string) { forall i :: 0 <= i < |s| ==> IsDigit(s[i]) }

  function Digits(n: nat): (s: string)
    ensures s != "" && AllDigits(s)
  {
    if n < 10 then [Digit(n)] else Digits(n / 10) + [Digit(n % 10)]
  }

  /** `parseInt` of a text that is all digits; None stands for NaN. */
  function ParseNat(s: string): Option<nat> {
    if s == "" || !AllDigits(s) then None else Some(NatValue(s))
  }

  function NatValue(s: string): nat
    requires AllDigits(s)
  {
    if s == "" then 0 else NatValue(s[..|s| - 1]) * 10 + DigitValue(s[|s| - 1])
  }

  lemma DigitRoundTrip(d: nat)
    requires d < 10
    ensures IsDigit(Digit(d)) && DigitValue(Digit(d)) == d
  {
  }

  lemma {:induction false} DigitsRoundTrip(n: nat)
    ensures ParseNat(Digits(n)) == Some(n)
  {
    var s := Digits(n);
    DigitRoundTrip(n % 10);
    if n < 10 {
      assert NatValue(s[..0]) == 0;
      assert s == [Digit(n)];
    } else {
      DigitsRoundTrip(n / 10);
      assert s[..|s| - 1] == Digits(n / 10);
      assert s[|s| - 1] == Digit(n % 10);
    }
  }

  lemma DigitsAreInjective(m: nat, n: nat)
    requires Digits(m) == Digits(n)
    ensures m == n
  {
    DigitsRoundTrip(m);
    DigitsRoundTrip(n);
  }

  /** Three digits, padded with zeros. */
  function Millis(ms: nat): string
    requires ms < 1000
  {
    [Digit(ms / 100), Digit(ms / 10 % 10), Digit(ms % 10)]
  }

  /** `datetimeToEpoch(value).toFixed(6)`. */
  function Fixed(ms: int): string {
    var size := if ms < 0 then -ms else ms;
    (if ms < 0 then "-" else "") + Digits(size / 1000) + "." + Millis(size % 1000) + "000"
  }

  /** `epochToDatetime(parseFloat(text))` on texts with six decimals; None stands for an
      invalid date. Digits below the millisecond are dropped, as `Date` does. */
  function ParseFixed(s: string): Option<int> {
    if s != "" && s[0] == '-' then
      var m := ParseUnsigned(s[1..]);
      if m.Some? then Some(-m.value) else None
    else ParseUnsigned(s)
  }

  function ParseUnsigned(s: string): Option<int> {
    if |s| < 8 || s[|s| - 7] != '.' then None
    else
      var whole, fraction := ParseNat(s[..|s| - 7]), ParseNat(s[|s| - 6..]);
      if whole.Some? && fraction.Some? then Some(whole.value * 1000 + fraction.value / 1000) else None
  }

  /** Six decimals, the last three of them 0. */
  lemma SixDigits(a: nat, b: nat, c: nat)
    requires a < 10 && b < 10 && c < 10
    ensures ParseNat([Digit(a), Digit(b), Digit(c)] + "000") == Some((a * 100 + b * 10 + c) * 1000)
  {
    DigitRoundTrip(a);
    DigitRoundTrip(b);
    DigitRoundTrip(c);
    hide Digit;
    var s := [Digit(a), Digit(b), Digit(c)] + "000";
    assert AllDigits(s);
    assert NatValue(s[..1]) == a by { assert s[..1][..0] == ""; }
    assert NatValue(s[..2]) == a * 10 + b by { assert s[..2][..1] == s[..1]; }
    assert NatValue(s[..3]) == a * 100 + b * 10 + c by { assert s[..3][..2] == s[..2]; }
    assert NatValue(s[..4]) == (a * 100 + b * 10 + c) * 10 by { assert s[..4][..3] == s[..3]; }
    assert NatValue(s[..5]) == (a * 100 + b * 10 + c) * 100 by { assert s[..5][..4] == s[..4]; }
  }

  lemma MillisValue(ms: nat)
    requires ms < 1000
    ensures |Millis(ms)| == 3 && ParseNat(Millis(ms) + "000") == Some(ms * 1000)
  {
    hide ParseNat, Digit;
    SixDigits(ms / 100, ms / 10 % 10, ms % 10);
  }

  lemma ParsedParts(whole: string, fraction: string)
    requires |fraction| == 6 && ParseNat(whole).Some? && ParseNat(fraction).Some?
    ensures ParseUnsigned(whole + "." + fraction)
         == Some(ParseNat(whole).value * 1000 + ParseNat(fraction).value / 1000)
  {
    assert whole != "";
    hide NatValue, AllDigits, ParseNat;
    var u := whole + "." + fraction;
    assert u[..|u| - 7] == whole && u[|u| - 6..] == fraction && u[|u| - 7] == '.';
  }

  lemma UnsignedRoundTrip(q: nat, ms: nat)
    requires ms < 1000
    ensures ParseUnsigned(Digits(q) + "." + (Millis(ms) + "000")) == Some(q * 1000 + ms)
  {
    hide Digits, ParseNat, Millis, ParseUnsigned;
    MillisValue(ms);
    DigitsRoundTrip(q);
    ParsedParts(Digits(q), Millis(ms) + "000");
  }

  /** No millisecond is lost, before or after 1970. */
  lemma FixedRoundTrip(ms: int)
    ensures ParseFixed(Fixed(ms)) == Some(ms)
    ensures Fixed(ms) != "-1" && ';' !in Fixed(ms)
  {
    hide Digits, Millis, ParseUnsigned;
    var size := if ms < 0 then -ms else ms;
    var whole, fraction := Digits(size / 1000), Millis(size % 1000) + "000";
    UnsignedRoundTrip(size / 1000, size % 1000);
    NoSemicolon(size % 1000);
    SignedRoundTrip(whole, fraction, size, ms < 0);
    assert Fixed(ms) == (if ms < 0 then "-" else "") + whole + "." + fraction;
  }

  lemma NoSemicolon(ms: nat)
    requires ms < 1000
    ensures ';' !in Millis(ms) + "000"
  {
    DigitRoundTrip(ms / 100);
    DigitRoundTrip(ms / 10 % 10);
    DigitRoundTrip(ms % 10);
  }

  lemma SignedRoundTrip(whole: string, fraction: string, size: int, negative: bool)
    requires size >= 0 && whole != "" && AllDigits(whole) && ';' !in fraction && ParseUnsigned(whole + "." + fraction) == Some(size)
    ensures var text := (if negative then "-" else "") + whole + "." + fraction;
      ParseFixed(text) == Some(if negative then -size else size) && text != "-1" && ';' !in text
  {
    hide ParseUnsigned;
    var u := whole + "." + fraction;
    var text := (if negative then "-" else "") + whole + "." + fraction;
    assert IsDigit(u[0]) && '.' in u;
    assert ';' !in whole;
    if negative {
      assert text[0] == '-' && text[1..] == u;
    } else {
      assert text == u;
    }
    assert '.' in text;
  }
}
