/** src/utils/v1time.ts: the time stamp of a version 1 UUID, laid out as in sections 4.1.2
    and 4.1.4 of RFC 4122. JavaScript's bitwise operators work on signed 32-bit words. */
module V1Time {
  import opened Results
  import opened Ids
  import opened Words32

  // ---- the layout of a version 1 UUID ----

  type Byte = b: nat | b < 256

  /** A 60-bit count of 100-nanosecond intervals since 15 October 1582. */
  type Timestamp = t: nat | t < 0x1000_0000_0000_0000

  /** time_low, time_mid, version and time_hi, then clock sequence and node. */
  function Layout(t: Timestamp, rest: seq<Byte>): (b: seq<Byte>)
    requires |rest| == 8
    ensures |b| == 16
  {
    var low, mid, hi := t % WORD, t / WORD % 0x10000, t / WORD / 0x10000;
    [low / 0x1000000, low / 0x10000 % 0x100, low / 0x100 % 0x100, low % 0x100,
     mid / 0x100, mid % 0x100, 0x10 + hi / 0x100, hi % 0x100] + rest
  }

  function HexDigit(d: nat): char
    requires d < 16
  {
    "0123456789abcdef"[d]
  }

  function HexByte(b: Byte): string { [HexDigit(b / 16), HexDigit(b % 16)] }

  function HexBytes(bytes: seq<Byte>): string {
    if bytes == [] then "" else HexByte(bytes[0]) + HexBytes(bytes[1..])
  }

  /** The canonical text: 8-4-4-4-12 digits. */
  function Canonical(bytes: seq<Byte>): string
    requires |bytes| == 16
  {
    HexBytes(bytes[..4]) + "-" + HexBytes(bytes[4..6]) + "-" + HexBytes(bytes[6..8]) + "-" +
    HexBytes(bytes[8..10]) + "-" + HexBytes(bytes[10..])
  }

  // ---- parse ----

  function Lower(c: char): char { if 'A' <= c <= 'Z' then c - 'A' + 'a' else c }

  predicate IsHex(c: char) { '0' <= c <= '9' || 'a' <= c <= 'f' }

  function HexValue(c: char): (v: nat)
    requires IsHex(c)
    ensures v < 16
  {
    if c <= '9' then (c - '0') as nat else (c - 'a') as nat + 10
  }

  /** Every pair of adjacent hex digits, found from the left, is a byte. */
  function Octets(s: string): seq<Byte> {
    if |s| < 2 then []
    else if IsHex(Lower(s[0])) && IsHex(Lower(s[1])) then
      [HexValue(Lower(s[0])) * 16 + HexValue(Lower(s[1]))] + Octets(s[2..])
    else Octets(s[1..])
  }

  /** At most 16 bytes, the missing ones 0. */
  function Padded(bytes: seq<Byte>): seq<Byte> {
    if |bytes| >= 16 then bytes[..16] else bytes + seq(16 - |bytes|, _ => 0)
  }

  method Parse(s: string) returns (buf: seq<Byte>)
    ensures buf == Padded(Octets(s))
  {
    hide Lower, IsHex, HexValue;
    buf := [];
    var ii, at := 0, 0;
    while at + 1 < |s|
      invariant 0 <= at <= |s| && ii == |buf| <= 16
      invariant ii < 16 ==> buf + Octets(s[at..]) == Octets(s)
      invariant ii == 16 ==> |Octets(s)| >= 16 && buf == Octets(s)[..16]
      decreases |s| - at
    {
      var rest := s[at..];
      assert rest[0] == s[at] && rest[1] == s[at + 1] && rest[1..] == s[at + 1..] && rest[2..] == s[at + 2..];
      if IsHex(Lower(s[at])) && IsHex(Lower(s[at + 1])) {
        if ii < 16 {
          ghost var before := buf;
          buf := buf + [HexValue(Lower(s[at])) * 16 + HexValue(Lower(s[at + 1]))];
          ii := ii + 1;
          assert before + Octets(rest) == buf + Octets(s[at + 2..]);
        }
        at := at + 2;
      } else {
        at := at + 1;
      }
    }
    assert |s[at..]| < 2;
    assert ii < 16 ==> buf == Octets(s);
    while ii < 16
      invariant ii == |buf| <= 16
      invariant |Octets(s)| < 16 ==> |Octets(s)| <= ii && buf == Octets(s) + seq(ii - |Octets(s)|, _ => 0)
      invariant |Octets(s)| >= 16 ==> buf == Octets(s)[..16]
    {
      buf := buf + [0];
      ii := ii + 1;
    }
  }

  // ---- v1time ----

  /** Milliseconds since 1970 of a 16-byte buffer; only bit 4 of the version byte is looked at. */
  method V1TimeOf(b: seq<Byte>) returns (r: Result<real>)
    requires |b| == 16
    ensures r.Err? <==> b[6] / 16 % 2 == 0
    ensures r.Ok? ==> r.value == Millis(StampOf(b))
  {
    hide Or32, And32, Shl32, Shr32, Signed, Unsigned, Millis, StampOf;
    VersionBit(b[6]);
    if And32(b[6], 0x10) != 0x10 {
      return Err(ValueError);
    }
    var i, tl, tmh := 0, 0, 0;
    tl := Or32(tl, Shl32(And32(b[i], 0xff), 24));
    i := i + 1;
    tl := Or32(tl, Shl32(And32(b[i], 0xff), 16));
    i := i + 1;
    tl := Or32(tl, Shl32(And32(b[i], 0xff), 8));
    i := i + 1;
    tl := Or32(tl, And32(b[i], 0xff));
    i := i + 1;
    OrWord(b[0], b[1], b[2], b[3]);

    tmh := Or32(tmh, Shl32(And32(b[i], 0xff), 8));
    i := i + 1;
    tmh := Or32(tmh, And32(b[i], 0xff));
    i := i + 1;
    tmh := Or32(tmh, Shl32(And32(b[i], 0xf), 24));
    i := i + 1;
    tmh := Or32(tmh, Shl32(And32(b[i], 0xff), 16));
    OrHigh(b[4], b[5], b[6], b[7]);

    // account for the sign bit
    SignRepair(tl);
    SignRepair(tmh);
    WordsOfStamp(b);
    var low, high := Shr32(tl) * 2 + And32(tl, 0x7fffffff) % 2, Shr32(tmh) * 2 + And32(tmh, 0x7fffffff) % 2;
    assert low == LowWord(b) && high == HighWord(b);
    var msec := low as real / 10000.0;
    msec := msec + high as real * 4294967296.0 / 10000.0;
    r := Ok(msec - 12219292800000.0);
  }

  /** A text is parsed first. */
  method V1Time(s: string) returns (r: Result<real>)
    ensures r == TimeOfText(s) || (r.Err? && TimeOfText(s).Err?)
  {
    var buf := Parse(s);
    r := V1TimeOf(buf);
  }

  function Upper(c: char): char { if 'a' <= c <= 'z' then c - 'a' + 'A' else c }

  /** Text is read without regard to case. */
  lemma {:induction false} OctetsIgnoreCase(s: string)
    ensures Octets(seq(|s|, i requires 0 <= i < |s| => Upper(s[i]))) == Octets(s)
    decreases |s|
  {
    var t := seq(|s|, i requires 0 <= i < |s| => Upper(s[i]));
    if |s| >= 2 {
      assert Lower(t[0]) == Lower(s[0]) && Lower(t[1]) == Lower(s[1]);
      hide Lower, Upper, IsHex, HexValue;
      if IsHex(Lower(s[0])) && IsHex(Lower(s[1])) {
        OctetsIgnoreCase(s[2..]);
        assert t[2..] == seq(|s[2..]|, i requires 0 <= i < |s[2..]| => Upper(s[2..][i]));
      } else {
        OctetsIgnoreCase(s[1..]);
        assert t[1..] == seq(|s[1..]|, i requires 0 <= i < |s[1..]| => Upper(s[1..][i]));
      }
    }
  }

  /** The version sits in the seventh octet: a text without one is rejected, and nothing
      behind the eighth has any influence. */
  lemma EightOctetsCount(s: string, t: string)
    ensures |Octets(s)| < 7 ==> TimeOfText(s).Err?
    ensures |Octets(s)| >= 8 && |Octets(t)| >= 8 && Octets(s)[..8] == Octets(t)[..8] ==> TimeOfText(s) == TimeOfText(t)
  {
    hide Octets, Millis, Padded, StampOf;
    PaddedBytes(Octets(s));
    PaddedBytes(Octets(t));
    if |Octets(s)| >= 8 && |Octets(t)| >= 8 && Octets(s)[..8] == Octets(t)[..8] {
      StampOfEight(Padded(Octets(s)), Padded(Octets(t)));
    }
  }

  lemma PaddedBytes(bytes: seq<Byte>)
    ensures |Padded(bytes)| == 16
    ensures |bytes| < 7 ==> Padded(bytes)[6] == 0
    ensures |bytes| >= 8 ==> Padded(bytes)[..8] == bytes[..8]
  {
  }

  lemma StampOfEight(a: seq<Byte>, b: seq<Byte>)
    requires |a| == |b| == 16 && a[..8] == b[..8]
    ensures StampOf(a) == StampOf(b) && a[6] == b[6]
  {
    hide Word;
    assert forall i :: 0 <= i < 8 ==> a[i] == a[..8][i] && b[i] == b[..8][i];
  }

  function TimeOfText(s: string): Result<real> {
    var b := Padded(Octets(s));
    if b[6] / 16 % 2 == 0 then Err(ValueError) else Ok(Millis(StampOf(b)))
  }

  /** The time stamp the bytes spell out. */
  function StampOf(b: seq<Byte>): nat
    requires |b| == 16
  {
    LowWord(b) + HighWord(b) * WORD
  }

  function Word(a: nat, b: nat, c: nat, d: nat): nat {
    a * 0x1000000 + b * 0x10000 + c * 0x100 + d
  }

  function LowWord(b: seq<Byte>): nat
    requires |b| == 16
  {
    Word(b[0], b[1], b[2], b[3])
  }

  function HighWord(b: seq<Byte>): nat
    requires |b| == 16
  {
    Word(b[6] % 16, b[7], b[4], b[5])
  }

  function Millis(t: nat): real { t as real / 10000.0 - 12219292800000.0 }

  lemma WordIsSmall(a: Byte, b: Byte, c: Byte, d: Byte)
    ensures Word(a, b, c, d) < WORD
  {
  }

  lemma MillisOfWords(low: nat, high: nat)
    ensures (low as real) / 10000.0 + (high as real) * 4294967296.0 / 10000.0 - 12219292800000.0
         == Millis(low + high * WORD)
  {
    assert (low + high * WORD) as real == low as real + (high as real) * 4294967296.0;
  }

  lemma WordsOfStamp(b: seq<Byte>)
    requires |b| == 16
    ensures LowWord(b) < WORD && Unsigned(Signed(LowWord(b))) == LowWord(b)
    ensures HighWord(b) < WORD && Unsigned(Signed(HighWord(b))) == HighWord(b)
    ensures (LowWord(b) as real) / 10000.0 + (HighWord(b) as real) * 4294967296.0 / 10000.0 - 12219292800000.0
         == Millis(StampOf(b))
  {
    hide Millis, Unsigned, Signed, Word;
    var low, high := LowWord(b), HighWord(b);
    WordIsSmall(b[0], b[1], b[2], b[3]);
    WordIsSmall(b[6] % 16, b[7], b[4], b[5]);
    UnsignedOfSigned(low);
    UnsignedOfSigned(high);
    MillisOfWords(low, high);
  }

  // ---- decoding inverts the layout ----

  lemma WordOfBytes(w: nat)
    requires w < WORD
    ensures Word(w / 0x1000000, w / 0x10000 % 0x100, w / 0x100 % 0x100, w % 0x100) == w
  {
    assert w == w / 0x100 * 0x100 + w % 0x100;
    assert w / 0x100 == w / 0x10000 * 0x100 + w / 0x100 % 0x100;
    assert w / 0x10000 == w / 0x1000000 * 0x100 + w / 0x10000 % 0x100;
  }

  lemma WordOfHalves(hi: nat, mid: nat)
    requires hi < 0x1000 && mid < 0x10000
    ensures Word((0x10 + hi / 0x100) % 16, hi % 0x100, mid / 0x100, mid % 0x100) == hi * 0x10000 + mid
    ensures (0x10 + hi / 0x100) / 16 == 1
  {
    assert hi == hi / 0x100 * 0x100 + hi % 0x100;
    assert mid == mid / 0x100 * 0x100 + mid % 0x100;
  }

  lemma TimestampParts(t: Timestamp)
    ensures t / WORD / 0x10000 < 0x1000
    ensures t % WORD + (t / WORD / 0x10000 * 0x10000 + t / WORD % 0x10000) * WORD == t
  {
  }

  lemma StampOfLayout(t: Timestamp, rest: seq<Byte>)
    requires |rest| == 8
    ensures StampOf(Layout(t, rest)) == t && Layout(t, rest)[6] / 16 == 1
    ensures LowWord(Layout(t, rest)) == t % WORD
  {
    var low, mid, hi := t % WORD, t / WORD % 0x10000, t / WORD / 0x10000;
    TimestampParts(t);
    WordOfBytes(low);
    WordOfHalves(hi, mid);
    hide Word;
    var b := Layout(t, rest);
    assert b[0] == low / 0x1000000 && b[1] == low / 0x10000 % 0x100 && b[2] == low / 0x100 % 0x100 && b[3] == low % 0x100;
    assert b[4] == mid / 0x100 && b[5] == mid % 0x100 && b[6] == 0x10 + hi / 0x100 && b[7] == hi % 0x100;
    assert LowWord(b) == low && HighWord(b) == hi * 0x10000 + mid;
  }

  lemma HexRoundTrip(b: Byte)
    ensures var h := HexByte(b);
      Lower(h[0]) == h[0] && Lower(h[1]) == h[1] && IsHex(h[0]) && IsHex(h[1]) &&
      HexValue(h[0]) * 16 + HexValue(h[1]) == b
  {
    HexDigitValue(b / 16);
    HexDigitValue(b % 16);
  }

  lemma HexDigitValue(d: nat)
    requires d < 16
    ensures var c := HexDigit(d); Lower(c) == c && IsHex(c) && HexValue(c) == d
  {
  }

  lemma OctetsOfByte(b: Byte, rest: string)
    ensures Octets(HexByte(b) + rest) == [b] + Octets(rest)
  {
    var s := HexByte(b) + rest;
    HexRoundTrip(b);
    assert s[0] == HexByte(b)[0] && s[1] == HexByte(b)[1] && s[2..] == rest;
  }

  /** Whole bytes in front of a text are read off one by one. */
  lemma {:induction false} OctetsOfBytes(bytes: seq<Byte>, tail: string)
    ensures Octets(HexBytes(bytes) + tail) == bytes + Octets(tail)
  {
    hide Octets, HexByte;
    if bytes == [] {
      assert HexBytes(bytes) + tail == tail;
    } else {
      var rest := HexBytes(bytes[1..]) + tail;
      assert HexBytes(bytes) + tail == HexByte(bytes[0]) + rest;
      OctetsOfByte(bytes[0], rest);
      OctetsOfBytes(bytes[1..], tail);
    }
  }

  /** A dash is skipped. */
  lemma OctetsOfGroup(bytes: seq<Byte>, tail: string)
    requires tail != ""
    ensures Octets(HexBytes(bytes) + ("-" + tail)) == bytes + Octets(tail)
  {
    OctetsOfBytes(bytes, "-" + tail);
    var s := "-" + tail;
    assert s[0] == '-' && s[1..] == tail;
  }

  lemma OctetsOfCanonical(bytes: seq<Byte>)
    requires |bytes| == 16
    ensures Octets(Canonical(bytes)) == bytes
  {
    hide Octets, HexByte;
    var p0, p1, p2, p3, p4 := bytes[..4], bytes[4..6], bytes[6..8], bytes[8..10], bytes[10..];
    var t4 := HexBytes(p4);
    var t3 := HexBytes(p3) + ("-" + t4);
    var t2 := HexBytes(p2) + ("-" + t3);
    var t1 := HexBytes(p1) + ("-" + t2);
    assert Canonical(bytes) == HexBytes(p0) + ("-" + t1);
    LastGroup(p4);
    OctetsOfGroup(p3, t4);
    OctetsOfGroup(p2, t3);
    OctetsOfGroup(p1, t2);
    OctetsOfGroup(p0, t1);
    assert bytes == p0 + (p1 + (p2 + (p3 + p4)));
  }

  lemma LastGroup(bytes: seq<Byte>)
    requires bytes != []
    ensures HexBytes(bytes) != "" && Octets(HexBytes(bytes)) == bytes
  {
    OctetsOfBytes(bytes, "");
    assert HexBytes(bytes) + "" == HexBytes(bytes) && bytes + [] == bytes;
  }

  /** For every 60-bit time stamp, parsing the canonical text and decoding it gives exactly
      the milliseconds since 1970, whatever the clock sequence and the node. */
  lemma V1TimeInvertsLayout(t: Timestamp, rest: seq<Byte>)
    requires |rest| == 8
    ensures TimeOfText(Canonical(Layout(t, rest))) == Ok(t as real / 10000.0 - 12219292800000.0)
  {
    hide Layout, StampOf, Octets, Canonical, TimeOfText;
    OctetsOfCanonical(Layout(t, rest));
    StampOfLayout(t, rest);
    DecodedText(Canonical(Layout(t, rest)), Layout(t, rest));
  }

  lemma DecodedText(text: string, b: seq<Byte>)
    requires |b| == 16 && Octets(text) == b && b[6] / 16 == 1
    ensures TimeOfText(text) == Ok(Millis(StampOf(b)))
  {
    hide Millis, StampOf, Octets;
    assert Padded(b) == b;
  }

  /** Scores are strictly increasing in the time stamp. */
  lemma ScoresIncrease(t: Timestamp, u: Timestamp, rest: seq<Byte>, rest': seq<Byte>)
    requires |rest| == 8 && |rest'| == 8 && t < u
    ensures TimeOfText(Canonical(Layout(t, rest))).Ok? && TimeOfText(Canonical(Layout(u, rest'))).Ok?
    ensures TimeOfText(Canonical(Layout(t, rest))).value < TimeOfText(Canonical(Layout(u, rest'))).value
  {
    V1TimeInvertsLayout(t, rest);
    V1TimeInvertsLayout(u, rest');
  }

  // ---- the order of the texts ----

  lemma ConsOrder(c: char, d: char, s: string, t: string)
    ensures Less([c] + s, [d] + t) <==> c < d || (c == d && Less(s, t))
  {
    assert ([c] + s)[1..] == s && ([d] + t)[1..] == t;
  }

  lemma DigitOrder(x: nat, y: nat)
    requires x < 16 && y < 16
    ensures (HexDigit(x) < HexDigit(y) <==> x < y) && (HexDigit(x) == HexDigit(y) <==> x == y)
  {
    HexDigitValue(x);
    HexDigitValue(y);
  }

  lemma HexOrder(a: Byte, b: Byte, s: string, t: string)
    ensures Less(HexByte(a) + s, HexByte(b) + t) <==> a < b || (a == b && Less(s, t))
  {
    hide Less, HexDigit;
    DigitOrder(a / 16, b / 16);
    DigitOrder(a % 16, b % 16);
    assert HexByte(a) + s == [HexDigit(a / 16)] + ([HexDigit(a % 16)] + s);
    assert HexByte(b) + t == [HexDigit(b / 16)] + ([HexDigit(b % 16)] + t);
    ConsOrder(HexDigit(a / 16), HexDigit(b / 16), [HexDigit(a % 16)] + s, [HexDigit(b % 16)] + t);
    ConsOrder(HexDigit(a % 16), HexDigit(b % 16), s, t);
  }

  /** Two UUIDs whose low words differ are ordered as texts by those low words alone: text
      order is time order exactly when the low words happen to be in the order of the times. */
  lemma TextOrderIsLowWordOrder(t: Timestamp, u: Timestamp, rest: seq<Byte>, rest': seq<Byte>)
    requires |rest| == 8 && |rest'| == 8 && t % WORD != u % WORD
    ensures Less(Canonical(Layout(t, rest)), Canonical(Layout(u, rest'))) <==> t % WORD < u % WORD
  {
    var a, b := Layout(t, rest), Layout(u, rest');
    var ra, rb := TailOf(a), TailOf(b);
    StampOfLayout(t, rest);
    StampOfLayout(u, rest');
    CanonicalStarts(a);
    CanonicalStarts(b);
    HexOrder(a[3], b[3], ra, rb);
    HexOrder(a[2], b[2], HexByte(a[3]) + ra, HexByte(b[3]) + rb);
    HexOrder(a[1], b[1], HexByte(a[2]) + (HexByte(a[3]) + ra), HexByte(b[2]) + (HexByte(b[3]) + rb));
    HexOrder(a[0], b[0], HexByte(a[1]) + (HexByte(a[2]) + (HexByte(a[3]) + ra)),
             HexByte(b[1]) + (HexByte(b[2]) + (HexByte(b[3]) + rb)));
  }

  function TailOf(bytes: seq<Byte>): string
    requires |bytes| == 16
  {
    "-" + HexBytes(bytes[4..6]) + "-" + HexBytes(bytes[6..8]) + "-" +
    HexBytes(bytes[8..10]) + "-" + HexBytes(bytes[10..])
  }

  lemma CanonicalStarts(b: seq<Byte>)
    requires |b| == 16
    ensures Canonical(b) == HexByte(b[0]) + (HexByte(b[1]) + (HexByte(b[2]) + (HexByte(b[3]) + TailOf(b))))
  {
    hide HexByte;
    var p := b[..4];
    assert p[1..][1..][1..][1..] == [];
    assert HexBytes(p) == HexByte(b[0]) + (HexByte(b[1]) + (HexByte(b[2]) + HexByte(b[3]))) by {
      assert HexBytes(p[3..]) == HexByte(b[3]) by { assert p[3..] == [b[3]]; assert HexBytes([]) == ""; }
      assert HexBytes(p[2..]) == HexByte(b[2]) + HexBytes(p[3..]) by { assert p[2..][1..] == p[3..]; }
      assert HexBytes(p[1..]) == HexByte(b[1]) + HexBytes(p[2..]) by { assert p[1..][1..] == p[2..]; }
    }
  }

  /** So the in-memory timeline, which orders ids as texts, and the Redis timeline, which
      scores them by time, can disagree: a later UUID may sort before an earlier one. */
  lemma LaterUuidCanSortFirst(rest: seq<Byte>)
    requires |rest| == 8
    ensures var early, late := Canonical(Layout(0xffffffff, rest)), Canonical(Layout(0x1_0000_0000, rest));
            Less(late, early) && TimeOfText(early).Ok? && TimeOfText(late).Ok? &&
            TimeOfText(early).value < TimeOfText(late).value
  {
    TextOrderIsLowWordOrder(0x1_0000_0000, 0xffffffff, rest, rest);
    ScoresIncrease(0xffffffff, 0x1_0000_0000, rest, rest);
  }
}
