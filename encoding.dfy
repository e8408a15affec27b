/**
 * The two text encodings a challenge token goes through: the decimal text
 * produced by `fmt.Sprintf("%d", n)` and read back by `strconv.Atoi`, and the
 * standard padded base64 alphabet of `encoding/base64.StdEncoding`
 * (section 4 of RFC 4648), with Go's lenient decoding.
 */
module Encoding {
  import opened Basics

  // ---------------------------------------------------------------------
  // Decimal text, as ASCII bytes
  // ---------------------------------------------------------------------

  const Zero: byte := 48  // '0'
  const Plus: byte := 43  // '+'
  const Minus: byte := 45 // '-'

  predicate IsDigit(b: byte) {
    Zero <= b <= Zero + 9
  }

  predicate AllDigits(s: seq<byte>) {
    forall i :: 0 <= i < |s| ==> IsDigit(s[i])
  }

  /** The shortest decimal digits of a natural number (no leading zeros). */
  function DigitsOf(n: nat): (r: seq<byte>)
    ensures |r| >= 1 && AllDigits(r)
    ensures r[0] == Zero ==> n == 0
  {
    if n < 10 then [Zero + n] else DigitsOf(n / 10) + [Zero + n % 10]
  }

  /** The number a run of decimal digits denotes (0 for the empty run). */
  function DigitsValue(s: seq<byte>): nat
    requires AllDigits(s)
  {
    if s == [] then 0 else DigitsValue(s[..|s| - 1]) * 10 + (s[|s| - 1] - Zero)
  }

  /** Digits without a superfluous leading zero. */
  predicate CanonicalDigits(d: seq<byte>) {
    |d| >= 1 && AllDigits(d) && (d[0] == Zero ==> |d| == 1)
  }

  /** The only spelling `%d` produces: no plus sign, no leading zero, no `-0`. */
  predicate Canonical(s: seq<byte>) {
    CanonicalDigits(s) || (|s| >= 2 && s[0] == Minus && CanonicalDigits(s[1..]) && s[1] != Zero)
  }

  /** `fmt.Sprintf("%d", n)`: an optional minus sign followed by the digits. */
  function FormatInt(n: int): (r: seq<byte>)
    ensures Canonical(r)
    ensures r[0] == Minus <==> n < 0
  {
    if n < 0 then [Minus] + DigitsOf(-n) else DigitsOf(n)
  }

  /**
   * `strconv.Atoi` on a 64-bit target: an optional sign, at least one
   * decimal digit and nothing else, with a value that fits in `int64`.
   */
  function ParseInt(s: seq<byte>): (r: Option<int64>)
    // accepted: an optional sign, then at least one digit and nothing else
    ensures r.Some? ==> |s| > 0
    ensures r.Some? ==> var body := if s[0] == Minus || s[0] == Plus then s[1..] else s;
      |body| > 0 && AllDigits(body)
      && r.value == if s[0] == Minus then 0 - DigitsValue(body) else DigitsValue(body)
    // an optional sign and digits denoting a value within range are always accepted
    ensures var body := if |s| > 0 && (s[0] == Minus || s[0] == Plus) then s[1..] else s;
      |body| > 0 && AllDigits(body)
      && MinInt64 <= (if s[0] == Minus then 0 - DigitsValue(body) else DigitsValue(body)) <= MaxInt64
      ==> r.Some?
    ensures |s| > 0 && AllDigits(s) && DigitsValue(s) <= MaxInt64 ==> r == Some(DigitsValue(s))
  {
    var negative := |s| > 0 && s[0] == Minus;
    var body := if |s| > 0 && (s[0] == Minus || s[0] == Plus) then s[1..] else s;
    if |body| == 0 || !AllDigits(body) then None
    else
      var v: int := if negative then 0 - DigitsValue(body) as int else DigitsValue(body);
      if MinInt64 <= v <= MaxInt64 then Some(v) else None
  }

  lemma {:induction false} DigitsRoundTrip(n: nat)
    ensures DigitsValue(DigitsOf(n)) == n
  {
    if n >= 10 {
      var s := DigitsOf(n);
      assert s[..|s| - 1] == DigitsOf(n / 10);
      DigitsRoundTrip(n / 10);
    }
  }

  /** Reading back what `%d` printed gives the number again, for every `int64`. */
  lemma FormatParseRoundTrip(n: int64)
    ensures ParseInt(FormatInt(n)) == Some(n)
  {
    if n < 0 {
      var s, m := FormatInt(n), 0 - n as int;
      assert s[1..] == DigitsOf(m);
      DigitsRoundTrip(m);
    } else {
      DigitsRoundTrip(n);
    }
  }

  lemma {:induction false} LeadingDigitPositive(d: seq<byte>)
    requires |d| >= 1 && AllDigits(d) && d[0] != Zero
    ensures DigitsValue(d) > 0
  {
    if |d| > 1 {
      var p := d[..|d| - 1];
      assert p[0] == d[0];
      LeadingDigitPositive(p);
    } else {
      assert d[..0] == [];
    }
  }

  lemma {:induction false} CanonicalDigitsRoundTrip(d: seq<byte>)
    requires CanonicalDigits(d)
    ensures DigitsOf(DigitsValue(d)) == d
  {
    if |d| == 1 {
      assert d[..0] == [];
    } else {
      var p := d[..|d| - 1];
      assert p[0] == d[0];
      LeadingDigitPositive(p);
      CanonicalDigitsRoundTrip(p);
      assert d == p + [d[|d| - 1]];
    }
  }

  /**
   * The converse of `FormatParseRoundTrip`: text in the form `%d` writes
   * is read as the number whose `%d` spelling it is, so `%d` and `Atoi`
   * are inverse on canonical text.
   */
  lemma ParseFormatRoundTrip(s: seq<byte>, n: int64)
    requires Canonical(s) && ParseInt(s) == Some(n)
    ensures FormatInt(n) == s
  {
    if s[0] == Minus {
      var body := s[1..];
      assert body[0] == s[1];
      LeadingDigitPositive(body);
      CanonicalDigitsRoundTrip(body);
      assert s == [Minus] + body;
    } else {
      CanonicalDigitsRoundTrip(s);
    }
  }

  // ---------------------------------------------------------------------
  // Base64, standard alphabet with '=' padding
  // ---------------------------------------------------------------------

  const Pad: char := '='

  /** The character of the standard alphabet that stands for a 6-bit group. */
  function SextetChar(v: int): (c: char)
    requires 0 <= v < 64
    ensures c != Pad && c != '\n' && c != '\r'
  {
    if v < 26 then ('A' as int + v) as char
    else if v < 52 then ('a' as int + (v - 26)) as char
    else if v < 62 then ('0' as int + (v - 52)) as char
    else if v == 62 then '+'
    else '/'
  }

  /** The 6-bit group a character of the standard alphabet stands for, if it is one. */
  function SextetValue(c: char): (r: Option<int>)
    ensures r.Some? ==> 0 <= r.value < 64 && SextetChar(r.value) == c
  {
    if 'A' <= c <= 'Z' then Some(c as int - 'A' as int)
    else if 'a' <= c <= 'z' then Some(c as int - 'a' as int + 26)
    else if '0' <= c <= '9' then Some(c as int - '0' as int + 52)
    else if c == '+' then Some(62)
    else if c == '/' then Some(63)
    else None
  }

  lemma SextetRoundTrip(v: int)
    requires 0 <= v < 64
    ensures SextetValue(SextetChar(v)) == Some(v)
  {
  }

  /** Characters of an encoding: alphabet characters and padding, never a line break. */
  predicate IsEncodingChar(c: char) {
    SextetValue(c).Some? || c == Pad
  }

  /** `base64.StdEncoding.EncodeToString`. */
  function Base64Encode(b: seq<byte>): (r: string)
    ensures |r| == 4 * ((|b| + 2) / 3)
    ensures forall i :: 0 <= i < |r| ==> IsEncodingChar(r[i])
  {
    if |b| == 0 then ""
    else if |b| == 1 then
      [SextetChar(b[0] / 4), SextetChar((b[0] % 4) * 16), Pad, Pad]
    else if |b| == 2 then
      [SextetChar(b[0] / 4), SextetChar((b[0] % 4) * 16 + b[1] / 16), SextetChar((b[1] % 16) * 4), Pad]
    else EncodeQuantum(b[0], b[1], b[2]) + Base64Encode(b[3..])
  }

  /** Four alphabet characters for three bytes, six bits each, most significant first. */
  function EncodeQuantum(b0: byte, b1: byte, b2: byte): (r: string)
    ensures |r| == 4 && forall i :: 0 <= i < 4 ==> IsEncodingChar(r[i])
  {
    [SextetChar(b0 / 4), SextetChar((b0 % 4) * 16 + b1 / 16),
     SextetChar((b1 % 16) * 4 + b2 / 64), SextetChar(b2 % 64)]
  }

  /** Go's decoder skips carriage returns and newlines wherever they occur. */
  function StripLineBreaks(s: string): (r: string)
    ensures |r| <= |s|
    ensures (forall i :: 0 <= i < |s| ==> s[i] != '\n' && s[i] != '\r') ==> r == s
    ensures forall i :: 0 <= i < |s| && s[i] != '\n' && s[i] != '\r' ==> s[i] in r
  {
    if s == [] then []
    else if s[0] == '\n' || s[0] == '\r' then StripLineBreaks(s[1..])
    else [s[0]] + StripLineBreaks(s[1..])
  }

  /** Three bytes from four alphabet characters (the final quantum may use fewer). */
  function DecodeQuantum(c0: char, c1: char, c2: char, c3: char): (r: Option<seq<byte>>)
    // the first two characters are in the alphabet, the last two may be padding
    ensures r.Some? ==> SextetValue(c0).Some? && SextetValue(c1).Some?
    ensures r.Some? ==> IsEncodingChar(c2) && IsEncodingChar(c3) && (c2 == Pad ==> c3 == Pad)
    // each padding character stands for one byte less
    ensures r.Some? ==> |r.value| == PaddedLength(c2, c3)
  {
    var v0, v1, v2, v3 := SextetValue(c0), SextetValue(c1), SextetValue(c2), SextetValue(c3);
    if v0.None? || v1.None? then None
    else if v2.Some? && v3.Some? then
      Some([v0.value * 4 + v1.value / 16,
            (v1.value % 16) * 16 + v2.value / 4,
            (v2.value % 4) * 64 + v3.value])
    else if v2.Some? && c3 == Pad then
      Some([v0.value * 4 + v1.value / 16, (v1.value % 16) * 16 + v2.value / 4])
    else if c2 == Pad && c3 == Pad then
      Some([v0.value * 4 + v1.value / 16])
    else None
  }

  /** The number of bytes a quantum ending in `c2`, `c3` carries. */
  function PaddedLength(c2: char, c3: char): nat {
    if c3 != Pad then 3 else if c2 != Pad then 2 else 1
  }

  /**
   * Quanta of four characters; padding may only close the last one, and a
   * trailing partial quantum is an error. Bits below the last full byte are
   * ignored, as in Go's non-strict mode.
   */
  function DecodeQuanta(s: string): (r: Option<seq<byte>>)
    ensures r.Some? ==> |s| % 4 == 0
  {
    if |s| == 0 then Some([])
    else if |s| < 4 then None
    else
      var head := DecodeQuantum(s[0], s[1], s[2], s[3]);
      if head.None? then None
      else if |s| == 4 then head
      else if |head.value| < 3 then None
      else match DecodeQuanta(s[4..])
        case None => None
        case Some(tail) => Some(head.value + tail)
  }

  /**
   * What the decoder accepts: only alphabet characters, padding only in
   * the last two places, and three bytes per quantum less one for each
   * padding character.
   */
  lemma {:induction false} DecodedShape(s: string)
    requires DecodeQuanta(s).Some?
    ensures forall i :: 0 <= i < |s| ==> IsEncodingChar(s[i])
    ensures forall i :: 0 <= i < |s| - 2 ==> s[i] != Pad
    ensures |DecodeQuanta(s).value|
         == if s == [] then 0 else 3 * (|s| / 4 - 1) + PaddedLength(s[|s| - 2], s[|s| - 1])
  {
    if |s| > 4 {
      var t := s[4..];
      DecodedShape(t);
      forall i | 0 <= i < |s|
        ensures IsEncodingChar(s[i]) && (i < |s| - 2 ==> s[i] != Pad)
      {
        if i >= 4 {
          assert s[i] == t[i - 4];
        }
      }
      assert s[|s| - 2] == t[|t| - 2] && s[|s| - 1] == t[|t| - 1];
    }
  }

  /**
   * A final quantum whose unused low bits are zero, as the encoder always
   * leaves them; the lenient decoder ignores those bits.
   */
  predicate CanonicalQuantum(c0: char, c1: char, c2: char, c3: char) {
    if c3 != Pad then true
    else if c2 != Pad then SextetValue(c2).Some? && SextetValue(c2).value % 4 == 0
    else SextetValue(c1).Some? && SextetValue(c1).value % 16 == 0
  }

  /** Text whose last quantum is canonical. */
  predicate CanonicalText(s: string) {
    |s| < 4 || CanonicalQuantum(s[|s| - 4], s[|s| - 3], s[|s| - 2], s[|s| - 1])
  }

  lemma EncodeConcat(head: seq<byte>, tail: seq<byte>)
    requires |head| == 3 && |tail| > 0
    ensures Base64Encode(head + tail) == Base64Encode(head) + Base64Encode(tail)
  {
    var b := head + tail;
    assert b[0] == head[0] && b[1] == head[1] && b[2] == head[2] && b[3..] == tail;
    assert head[3..] == [];
    EncodeSplit(b);
  }

  lemma DecodeQuantaSplit(s: string)
    requires DecodeQuanta(s).Some? && |s| > 4
    ensures DecodeQuantum(s[0], s[1], s[2], s[3]).Some?
    ensures |DecodeQuantum(s[0], s[1], s[2], s[3]).value| == 3
    ensures DecodeQuanta(s[4..]).Some?
    ensures DecodeQuanta(s).value == DecodeQuantum(s[0], s[1], s[2], s[3]).value + DecodeQuanta(s[4..]).value
  {
  }

  lemma QuantumInverse(c0: char, c1: char, c2: char, c3: char)
    requires DecodeQuantum(c0, c1, c2, c3).Some? && CanonicalQuantum(c0, c1, c2, c3)
    ensures Base64Encode(DecodeQuantum(c0, c1, c2, c3).value) == [c0, c1, c2, c3]
  {
    var v0, v1 := SextetValue(c0).value, SextetValue(c1).value;
    var b := DecodeQuantum(c0, c1, c2, c3).value;
    assert b[0] / 4 == v0;
    if c3 != Pad {
      var v2, v3 := SextetValue(c2).value, SextetValue(c3).value;
      assert (b[0] % 4) * 16 + b[1] / 16 == v1;
      assert (b[1] % 16) * 4 + b[2] / 64 == v2;
      assert b[2] % 64 == v3;
      assert b[3..] == [];
    } else if c2 != Pad {
      var v2 := SextetValue(c2).value;
      assert (b[0] % 4) * 16 + b[1] / 16 == v1;
      assert (b[1] % 16) * 4 == v2;
    } else {
      assert (b[0] % 4) * 16 == v1;
    }
  }

  /**
   * The converse of `Base64RoundTrip`: text the decoder accepts, with the
   * unused bits of its last quantum zero, is exactly the encoding of the
   * bytes it decodes to.
   */
  lemma {:induction false} DecodeCanonicalInverse(s: string)
    requires DecodeQuanta(s).Some? && CanonicalText(s)
    ensures Base64Encode(DecodeQuanta(s).value) == s
  {
    if |s| == 4 {
      QuantumInverse(s[0], s[1], s[2], s[3]);
      assert s == [s[0], s[1], s[2], s[3]];
    } else if |s| > 4 {
      var t := s[4..];
      DecodeQuantaSplit(s);
      assert t[|t| - 4] == s[|s| - 4] && t[|t| - 3] == s[|s| - 3];
      assert t[|t| - 2] == s[|s| - 2] && t[|t| - 1] == s[|s| - 1];
      DecodeCanonicalInverse(t);
      DecodeCanonicalStep(s);
    }
  }

  /** One full quantum in front of text that already re-encodes to itself. */
  lemma DecodeCanonicalStep(s: string)
    requires DecodeQuanta(s).Some? && |s| > 4
    requires DecodeQuanta(s[4..]).Some? && Base64Encode(DecodeQuanta(s[4..]).value) == s[4..]
    ensures Base64Encode(DecodeQuanta(s).value) == s
  {
    DecodeQuantaSplit(s);
    HeadReencodes(s);
    DecodedNonEmpty(s[4..]);
    EncodeConcat(DecodeQuantum(s[0], s[1], s[2], s[3]).value, DecodeQuanta(s[4..]).value);
    assert s == s[..4] + s[4..];
  }

  /** A quantum followed by more text is full, and re-encodes to itself. */
  lemma HeadReencodes(s: string)
    requires DecodeQuanta(s).Some? && |s| > 4
    ensures DecodeQuantum(s[0], s[1], s[2], s[3]).Some?
    ensures Base64Encode(DecodeQuantum(s[0], s[1], s[2], s[3]).value) == s[..4]
  {
    DecodeQuantaSplit(s);
    QuantumInverse(s[0], s[1], s[2], s[3]);
    assert s[..4] == [s[0], s[1], s[2], s[3]];
  }

  lemma DecodedNonEmpty(s: string)
    requires DecodeQuanta(s).Some? && |s| > 0
    ensures |DecodeQuanta(s).value| > 0
  {
  }

  /** `base64.StdEncoding.DecodeString`. */
  function Base64Decode(s: string): (r: Option<seq<byte>>)
    // anything but alphabet characters, padding and line breaks is refused
    ensures r.Some? ==> forall i :: 0 <= i < |s| ==> IsEncodingChar(s[i]) || s[i] == '\n' || s[i] == '\r'
  {
    var stripped := StripLineBreaks(s);
    var r := DecodeQuanta(stripped);
    if r.Some? then DecodedShape(stripped); r else r
  }

  lemma QuantumRoundTrip(b0: byte, b1: byte, b2: byte)
    ensures (b0 / 4) * 4 + ((b0 % 4) * 16 + b1 / 16) / 16 == b0
    ensures (((b0 % 4) * 16 + b1 / 16) % 16) * 16 + ((b1 % 16) * 4 + b2 / 64) / 4 == b1
    ensures (((b1 % 16) * 4 + b2 / 64) % 4) * 64 + b2 % 64 == b2
  {
  }

  lemma DecodeOneByte(b0: byte)
    ensures DecodeQuantum(SextetChar(b0 / 4), SextetChar((b0 % 4) * 16), Pad, Pad) == Some([b0])
  {
    var v0, v1 := b0 / 4, (b0 % 4) * 16;
    SextetRoundTrip(v0);
    SextetRoundTrip(v1);
    assert v0 * 4 + v1 / 16 == b0;
  }

  lemma DecodeTwoBytes(b0: byte, b1: byte)
    ensures DecodeQuantum(SextetChar(b0 / 4), SextetChar((b0 % 4) * 16 + b1 / 16),
                          SextetChar((b1 % 16) * 4), Pad) == Some([b0, b1])
  {
    var v0, v1, v2 := b0 / 4, (b0 % 4) * 16 + b1 / 16, (b1 % 16) * 4;
    SextetRoundTrip(v0);
    SextetRoundTrip(v1);
    SextetRoundTrip(v2);
    QuantumRoundTrip(b0, b1, 0);
  }

  lemma DecodeThreeBytes(b0: byte, b1: byte, b2: byte)
    ensures DecodeQuantum(SextetChar(b0 / 4), SextetChar((b0 % 4) * 16 + b1 / 16),
                          SextetChar((b1 % 16) * 4 + b2 / 64), SextetChar(b2 % 64)) == Some([b0, b1, b2])
  {
    var v0, v1, v2, v3 := b0 / 4, (b0 % 4) * 16 + b1 / 16, (b1 % 16) * 4 + b2 / 64, b2 % 64;
    SextetRoundTrip(v0);
    SextetRoundTrip(v1);
    SextetRoundTrip(v2);
    SextetRoundTrip(v3);
    QuantumRoundTrip(b0, b1, b2);
  }

  /** A single quantum decodes through the last-quantum rule. */
  lemma DecodeSingleQuantum(q: string)
    requires |q| == 4
    ensures DecodeQuanta(q) == DecodeQuantum(q[0], q[1], q[2], q[3])
  {
  }

  lemma DecodeShortEncode(b: seq<byte>)
    requires 0 < |b| <= 3
    ensures DecodeQuanta(Base64Encode(b)) == Some(b)
  {
    var s := Base64Encode(b);
    DecodeSingleQuantum(s);
    if |b| == 1 {
      EncodeOneByte(b);
    } else if |b| == 2 {
      EncodeTwoBytes(b);
    } else {
      EncodeThreeBytes(b);
    }
  }

  lemma EncodeOneByte(b: seq<byte>)
    requires |b| == 1
    ensures var s := Base64Encode(b); DecodeQuantum(s[0], s[1], s[2], s[3]) == Some(b)
  {
    DecodeOneByte(b[0]);
    assert b == [b[0]];
  }

  lemma EncodeTwoBytes(b: seq<byte>)
    requires |b| == 2
    ensures var s := Base64Encode(b); DecodeQuantum(s[0], s[1], s[2], s[3]) == Some(b)
  {
    DecodeTwoBytes(b[0], b[1]);
    assert b == [b[0], b[1]];
  }

  lemma EncodeThreeBytes(b: seq<byte>)
    requires |b| == 3
    ensures var s := Base64Encode(b); DecodeQuantum(s[0], s[1], s[2], s[3]) == Some(b)
  {
    assert b[3..] == [];
    assert Base64Encode(b) == EncodeQuantum(b[0], b[1], b[2]) + [];
    EncodeQuantumDecodes(b[0], b[1], b[2]);
    assert b == [b[0], b[1], b[2]];
  }

  lemma DecodeQuantaPrefix(q: string, t: string)
    requires |q| == 4 && |t| > 0
    requires DecodeQuantum(q[0], q[1], q[2], q[3]).Some?
    requires |DecodeQuantum(q[0], q[1], q[2], q[3]).value| == 3
    requires DecodeQuanta(t).Some?
    ensures DecodeQuanta(q + t) == Some(DecodeQuantum(q[0], q[1], q[2], q[3]).value + DecodeQuanta(t).value)
  {
    var s := q + t;
    assert s[0] == q[0] && s[1] == q[1] && s[2] == q[2] && s[3] == q[3];
    assert s[4..] == t;
  }

  lemma EncodeQuantumDecodes(b0: byte, b1: byte, b2: byte)
    ensures var q := EncodeQuantum(b0, b1, b2); DecodeQuantum(q[0], q[1], q[2], q[3]) == Some([b0, b1, b2])
  {
    DecodeThreeBytes(b0, b1, b2);
  }

  /** Encoding a longer input is one full quantum followed by the encoding of the rest. */
  lemma EncodeSplit(b: seq<byte>)
    requires |b| > 3
    ensures Base64Encode(b) == EncodeQuantum(b[0], b[1], b[2]) + Base64Encode(b[3..])
  {
  }

  lemma {:induction false} DecodeQuantaEncode(b: seq<byte>)
    ensures DecodeQuanta(Base64Encode(b)) == Some(b)
  {
    if 0 < |b| <= 3 {
      DecodeShortEncode(b);
    } else if |b| > 3 {
      var q, t := EncodeQuantum(b[0], b[1], b[2]), Base64Encode(b[3..]);
      EncodeQuantumDecodes(b[0], b[1], b[2]);
      DecodeQuantaEncode(b[3..]);
      DecodeQuantaPrefix(q, t);
      calc {
        DecodeQuanta(Base64Encode(b));
        { EncodeSplit(b); }
        DecodeQuanta(q + t);
        Some([b[0], b[1], b[2]] + b[3..]);
        { assert b == [b[0], b[1], b[2]] + b[3..]; }
        Some(b);
      }
    }
  }

  /** Whatever the encoder produces, the decoder reads back unchanged. */
  lemma Base64RoundTrip(b: seq<byte>)
    ensures Base64Decode(Base64Encode(b)) == Some(b)
  {
    var s := Base64Encode(b);
    assert forall i :: 0 <= i < |s| ==> s[i] != '\n' && s[i] != '\r';
    DecodeQuantaEncode(b);
  }
}
