/** Bytes and the UTF-8 encoding, shared by every module that crosses between text and bytes.

    A Rust `String` is modelled as a Dafny `string` (both are sequences of Unicode scalar
    values), a byte slice as `seq<byte>`. */
module Utf8 {

  type byte = b: int | 0 <= b < 256

  const REPLACEMENT: char := '\U{FFFD}'

  function EncodeChar(c: char): (r: seq<byte>)
    ensures 1 <= |r| <= 4
  {
    var n := c as int;
    if n < 0x80 then [n]
    else if n < 0x800 then [0xC0 + n / 0x40, 0x80 + n % 0x40]
    else if n < 0x10000 then [0xE0 + n / 0x1000, 0x80 + n / 0x40 % 0x40, 0x80 + n % 0x40]
    else [0xF0 + n / 0x40000, 0x80 + n / 0x1000 % 0x40, 0x80 + n / 0x40 % 0x40, 0x80 + n % 0x40]
  }

  /** `str::as_bytes`. */
  function Encode(s: string): seq<byte> {
    if s == "" then [] else EncodeChar(s[0]) + Encode(s[1..])
  }

  function CharLength(c: char): nat {
    if c < '\U{80}' then 1 else if c < '\U{800}' then 2 else if c < '\U{10000}' then 3 else 4
  }

  /** `String::len` */
  function ByteLength(s: string): nat {
    if s == "" then 0 else CharLength(s[0]) + ByteLength(s[1..])
  }

  predicate Continuation(b: byte) {
    0x80 <= b < 0xC0
  }

  /** How many bytes a sequence led by `b` has; 0 when no scalar value starts with `b`. */
  function Width(b: byte): (n: nat)
    ensures n <= 4
  {
    if b < 0x80 then 1 else if b < 0xC2 then 0 else if b < 0xE0 then 2
    else if b < 0xF0 then 3 else if b < 0xF5 then 4 else 0
  }

  /** The second byte rules out overlong forms, surrogates and values past U+10FFFF. */
  predicate SecondAllowed(lead: byte, b: byte) {
    && Continuation(b)
    && (lead == 0xE0 ==> 0xA0 <= b)
    && (lead == 0xED ==> b < 0xA0)
    && (lead == 0xF0 ==> 0x90 <= b)
    && (lead == 0xF4 ==> b < 0x90)
  }

  /** How many leading bytes of `b` agree with the sequence its first byte announces. */
  function Matched(b: seq<byte>): (m: nat)
    requires b != [] && Width(b[0]) != 0
    ensures 1 <= m <= Width(b[0]) && m <= |b|
  {
    if Width(b[0]) == 1 || |b| == 1 || !SecondAllowed(b[0], b[1]) then 1
    else if Width(b[0]) == 2 || |b| == 2 || !Continuation(b[2]) then 2
    else if Width(b[0]) == 3 || |b| == 3 || !Continuation(b[3]) then 3
    else 4
  }

  predicate StartsWithScalar(b: seq<byte>) {
    b != [] && Width(b[0]) != 0 && Matched(b) == Width(b[0])
  }

  /** The code point spelled by the leading scalar value. */
  function HeadCode(b: seq<byte>): (n: int)
    requires StartsWithScalar(b)
    ensures 0 <= n < 0xD800 || 0xE000 <= n < 0x11_0000
  {
    var lead: int := b[0];
    if Width(b[0]) == 1 then lead
    else
      var n1: int := b[1] - 0x80;
      if Width(b[0]) == 2 then (lead - 0xC0) * 0x40 + n1
      else
        var n2: int := b[2] - 0x80;
        if Width(b[0]) == 3 then (lead - 0xE0) * 0x1000 + n1 * 0x40 + n2
        else
          var n3: int := b[3] - 0x80;
          (lead - 0xF0) * 0x40000 + n1 * 0x1000 + n2 * 0x40 + n3
  }

  function HeadScalar(b: seq<byte>): char
    requires StartsWithScalar(b)
  {
    HeadCode(b) as char
  }

  /** `String::from_utf8_lossy`: each maximal ill-formed piece becomes one U+FFFD. */
  function DecodeLossy(b: seq<byte>): string {
    if b == [] then ""
    else if StartsWithScalar(b) then [HeadScalar(b)] + DecodeLossy(b[Width(b[0])..])
    else [REPLACEMENT] + DecodeLossy(b[if Width(b[0]) == 0 then 1 else Matched(b)..])
  }

  /** `str::from_utf8`: the bytes are UTF-8 exactly when nothing had to be replaced. */
  predicate IsUtf8(b: seq<byte>) {
    Encode(DecodeLossy(b)) == b
  }

  lemma {:induction false} EncodeConcat(s: string, t: string)
    ensures Encode(s + t) == Encode(s) + Encode(t)
  {
    hide EncodeChar;
    if s == "" {
      assert s + t == t;
    } else {
      EncodeConcat(s[1..], t);
      assert (s + t)[1..] == s[1..] + t;
    }
  }

  predicate Ascii(s: string) {
    forall c :: c in s ==> c < '\U{80}'
  }

  /** ASCII text is its own encoding, one byte for each character. */
  lemma {:induction false} AsciiBytes(s: string)
    requires Ascii(s)
    ensures |Encode(s)| == |s| && forall i :: 0 <= i < |s| ==> Encode(s)[i] == s[i] as int
    decreases |s|
  {
    if s != "" {
      assert s[0] in s && forall c :: c in s[1..] ==> c in s;
      AsciiBytes(s[1..]);
    }
  }

  /** So bytes cut short are the encoding of the text cut short. */
  lemma AsciiCut(s: string, n: nat)
    requires Ascii(s) && n <= |s|
    ensures |Encode(s)| == |s| && Encode(s)[..n] == Encode(s[..n])
  {
    assert forall c :: c in s[..n] ==> c in s;
    AsciiBytes(s);
    AsciiBytes(s[..n]);
  }

  lemma ByteLengthIsEncodedLength(s: string)
    ensures ByteLength(s) == |Encode(s)|
  {
    if s != "" {
      ByteLengthIsEncodedLength(s[1..]);
    }
  }

  lemma AsciiLength(s: string)
    requires Ascii(s)
    ensures ByteLength(s) == |s|
  {
    AsciiBytes(s);
    ByteLengthIsEncodedLength(s);
  }

  lemma DigitsOf(n: nat)
    requires n < 0x11_0000
    ensures n == n / 0x40 * 0x40 + n % 0x40
    ensures n == n / 0x1000 * 0x1000 + n / 0x40 % 0x40 * 0x40 + n % 0x40
    ensures n == n / 0x40000 * 0x40000 + n / 0x1000 % 0x40 * 0x1000 + n / 0x40 % 0x40 * 0x40 + n % 0x40
  {
  }

  lemma CharRoundTrip(c: char, rest: seq<byte>)
    ensures var b := EncodeChar(c) + rest;
            StartsWithScalar(b) && Width(b[0]) == |EncodeChar(c)| && HeadScalar(b) == c
  {
    var n := c as int;
    var e := EncodeChar(c);
    var b := e + rest;
    DigitsOf(n);
    assert forall i :: 0 <= i < |e| ==> b[i] == e[i];
    if n < 0x80 {
    } else if n < 0x800 {
      assert Width(b[0]) == 2;
    } else if n < 0x10000 {
      assert Width(b[0]) == 3;
      assert SecondAllowed(b[0], b[1]);
      assert Matched(b) == 3;
      assert HeadCode(b) == n;
    } else {
      assert Width(b[0]) == 4;
      assert SecondAllowed(b[0], b[1]);
      assert Matched(b) == 4;
      assert HeadCode(b) == n;
    }
  }

  lemma DecodeStep(c: char, rest: seq<byte>)
    ensures DecodeLossy(EncodeChar(c) + rest) == [c] + DecodeLossy(rest)
  {
    CharRoundTrip(c, rest);
    hide EncodeChar, StartsWithScalar, Width, HeadScalar, Matched;
    assert (EncodeChar(c) + rest)[|EncodeChar(c)|..] == rest;
  }

  /** Lossy decoding undoes encoding, for every string, whatever bytes follow. */
  lemma {:induction false} DecodeEncodeThen(s: string, tail: seq<byte>)
    ensures DecodeLossy(Encode(s) + tail) == s + DecodeLossy(tail)
    decreases |s|
  {
    hide DecodeLossy, EncodeChar;
    if s == "" {
      assert [] + tail == tail;
    } else {
      var rest := Encode(s[1..]) + tail;
      DecodeStep(s[0], rest);
      assert Encode(s) + tail == EncodeChar(s[0]) + rest;
      DecodeEncodeThen(s[1..], tail);
      assert [s[0]] + (s[1..] + DecodeLossy(tail)) == s + DecodeLossy(tail);
    }
  }

  lemma DecodeEncode(s: string)
    ensures DecodeLossy(Encode(s)) == s
  {
    DecodeEncodeThen(s, []);
    assert Encode(s) + [] == Encode(s);
  }

  /** `IsUtf8` is what it should be: the bytes are the encoding of some string. */
  lemma Utf8IsEncodings(b: seq<byte>)
    ensures IsUtf8(b) <==> exists s: string :: Encode(s) == b
  {
    if s: string :| Encode(s) == b {
      DecodeEncode(s);
    }
    assert IsUtf8(b) ==> Encode(DecodeLossy(b)) == b;
  }

  /** A byte that nothing begins with becomes one U+FFFD, wherever it stands behind text. */
  lemma StrayBytesAreReplaced(s: string, b: byte, rest: seq<byte>)
    requires 0x80 <= b < 0xC2 || b >= 0xF5
    ensures DecodeLossy(Encode(s) + [b] + rest) == s + [REPLACEMENT] + DecodeLossy(rest)
  {
    hide Encode;
    assert Encode(s) + [b] + rest == Encode(s) + ([b] + rest);
    DecodeEncodeThen(s, [b] + rest);
    assert ([b] + rest)[1..] == rest;
    assert s + ([REPLACEMENT] + DecodeLossy(rest)) == s + [REPLACEMENT] + DecodeLossy(rest);
  }

  /** A character that is cut off at the end becomes one U+FFFD. */
  lemma CutCharactersAreReplaced(s: string, c: char, n: nat)
    requires 0 < n < |EncodeChar(c)|
    ensures DecodeLossy(Encode(s) + EncodeChar(c)[..n]) == s + [REPLACEMENT]
  {
    var cut := EncodeChar(c)[..n];
    CharRoundTrip(c, []);
    assert EncodeChar(c) + [] == EncodeChar(c);
    CutMatches(c, n);
    hide Encode, EncodeChar, Matched, Width, StartsWithScalar, HeadScalar;
    DecodeEncodeThen(s, cut);
    assert cut[|cut|..] == [];
  }

  lemma CutMatches(c: char, n: nat)
    requires 0 < n < |EncodeChar(c)| && StartsWithScalar(EncodeChar(c))
    ensures var cut := EncodeChar(c)[..n];
            cut != [] && Width(cut[0]) != 0 && Matched(cut) == n && !StartsWithScalar(cut)
  {
    var whole, cut := EncodeChar(c), EncodeChar(c)[..n];
    assert forall i :: 0 <= i < n ==> cut[i] == whole[i];
    assert Width(whole[0]) == |whole|;
    hide EncodeChar;
  }
}
