/** The base64 encoder of examples/chrome_proxy_dns_shortcircuit.rs against the decoder of
    section 4 of RFC 4648, and the use scorpion_app/src/iam.rs makes of that decoder. */
module Base64 {
  import opened Results
  import opened Utf8
  import opened Strings
  import opened IamFacts

  type sextet = n: int | 0 <= n < 64

  /** The table, whose entries are in the order of section 4 of RFC 4648. */
  function Symbol(n: sextet): char {
    if n < 26 then ('A' as int + n) as char
    else if n < 52 then ('a' as int + n - 26) as char
    else if n < 62 then ('0' as int + n - 52) as char
    else if n == 62 then '+'
    else '/'
  }

  function Value(c: char): Option<sextet> {
    if 'A' <= c <= 'Z' then Some(c as int - 'A' as int)
    else if 'a' <= c <= 'z' then Some(c as int - 'a' as int + 26)
    else if '0' <= c <= '9' then Some(c as int - '0' as int + 52)
    else if c == '+' then Some(62)
    else if c == '/' then Some(63)
    else None
  }

  // ----- The encoding -----

  /** Three bytes, as four digits of six bits. */
  function Quad(a: byte, b: byte, c: byte): (t: string)
    ensures |t| == 4
  {
    [Symbol(a / 4), Symbol(a % 4 * 16 + b / 16), Symbol(b % 16 * 4 + c / 64), Symbol(c % 64)]
  }

  function PadOne(a: byte): (t: string)
    ensures |t| == 4
  {
    [Symbol(a / 4), Symbol(a % 4 * 16), '=', '=']
  }

  function PadTwo(a: byte, b: byte): (t: string)
    ensures |t| == 4
  {
    [Symbol(a / 4), Symbol(a % 4 * 16 + b / 16), Symbol(b % 16 * 4), '=']
  }

  /** Section 4 of RFC 4648. */
  function EncodeBase64(bytes: seq<byte>): string {
    if bytes == [] then ""
    else if |bytes| == 1 then PadOne(bytes[0])
    else if |bytes| == 2 then PadTwo(bytes[0], bytes[1])
    else Quad(bytes[0], bytes[1], bytes[2]) + EncodeBase64(bytes[3..])
  }

  function LastTwo(t: string): Option<seq<byte>>
    requires |t| == 4
  {
    var v0, v1, v2 := Value(t[0]), Value(t[1]), Value(t[2]);
    if v0.None? || v1.None? || v2.None? || v2.value % 4 != 0 then None
    else Some([v0.value * 4 + v1.value / 16, v1.value % 16 * 16 + v2.value / 4])
  }

  function LastOne(t: string): Option<seq<byte>>
    requires |t| == 4
  {
    var v0, v1 := Value(t[0]), Value(t[1]);
    if v0.None? || v1.None? || v1.value % 16 != 0 then None else Some([v0.value * 4 + v1.value / 16])
  }

  /** A quantum of four digits. */
  function Three(t: string): Option<seq<byte>>
    requires |t| == 4
  {
    var v0, v1, v2, v3 := Value(t[0]), Value(t[1]), Value(t[2]), Value(t[3]);
    if v0.None? || v1.None? || v2.None? || v3.None? then None
    else Some([v0.value * 4 + v1.value / 16, v1.value % 16 * 16 + v2.value / 4, v2.value % 4 * 64 + v3.value])
  }

  /** The strict decoder: padding is required, and the bits left over must be zero. */
  function DecodeBase64(t: string): Option<seq<byte>>
    decreases |t|
  {
    if t == "" then Some([])
    else if |t| < 4 then None
    else if |t| == 4 && t[3] == '=' then if t[2] == '=' then LastOne(t) else LastTwo(t)
    else
      var quantum, tail := Three(t[..4]), DecodeBase64(t[4..]);
      if quantum.None? || tail.None? then None else Some(quantum.value + tail.value)
  }

  // ----- The code -----

  lemma Sextets(a: byte, b: byte, c: byte)
    ensures var n := a * 0x10000 + b * 0x100 + c;
            && n / 0x40000 % 0x40 == a / 4
            && n / 0x1000 % 0x40 == a % 4 * 16 + b / 16
            && n / 0x40 % 0x40 == b % 16 * 4 + c / 64
            && n % 0x40 == c % 64
  {
    var d3, d2, d1, d0 := a / 4, a % 4 * 16 + b / 16, b % 16 * 4 + c / 64, c % 64;
    DigitsOfGroup(d3, d2, d1, d0);
    assert a * 0x10000 == d3 * 0x40000 + a % 4 * 0x10000;
    assert b * 0x100 == b / 16 * 0x1000 + b % 16 * 0x100;
    assert c == c / 64 * 64 + d0;
  }

  lemma DigitsOfGroup(d3: sextet, d2: sextet, d1: sextet, d0: sextet)
    ensures var n := d3 * 0x40000 + d2 * 0x1000 + d1 * 0x40 + d0;
            n / 0x40000 % 0x40 == d3 && n / 0x1000 % 0x40 == d2 && n / 0x40 % 0x40 == d1 && n % 0x40 == d0
  {
    var n := d3 * 0x40000 + d2 * 0x1000 + d1 * 0x40 + d0;
    assert n / 0x40000 == d3;
    assert n / 0x1000 == d3 * 0x40 + d2;
    assert n / 0x40 == d3 * 0x1000 + d2 * 0x40 + d1;
  }

  /** The four symbols the loop takes from one 24-bit group. */
  function Group(n: nat): string {
    [Symbol(n / 0x40000 % 0x40), Symbol(n / 0x1000 % 0x40), Symbol(n / 0x40 % 0x40), Symbol(n % 0x40)]
  }

  lemma GroupIsQuad(a: byte, b: byte, c: byte)
    ensures Group(a * 0x10000 + b * 0x100 + c) == Quad(a, b, c)
  {
    hide Symbol;
    Sextets(a, b, c);
  }

  lemma PaddedQuads(a: byte, b: byte)
    ensures Quad(a, b, 0)[..3] + "=" == PadTwo(a, b) && Quad(a, 0, 0)[..2] + "==" == PadOne(a)
  {
    hide Symbol;
    var two, one := Quad(a, b, 0), Quad(a, 0, 0);
    assert two[0] == Symbol(a / 4) && two[1] == Symbol(a % 4 * 16 + b / 16) && two[2] == Symbol(b % 16 * 4);
    assert one[0] == Symbol(a / 4) && one[1] == Symbol(a % 4 * 16);
  }

  /** What is left to encode from `i` on. */
  lemma EncodeAt(input: seq<byte>, i: nat)
    requires i <= |input|
    ensures EncodeBase64(input[i..]) ==
            if i == |input| then ""
            else if i + 1 == |input| then PadOne(input[i])
            else if i + 2 == |input| then PadTwo(input[i], input[i + 1])
            else Quad(input[i], input[i + 1], input[i + 2]) + EncodeBase64(input[i + 3..])
  {
    hide Quad, PadOne, PadTwo;
    if i + 3 <= |input| {
      assert input[i..][3..] == input[i + 3..];
    }
  }

  /** The shifts and masks of the code are division and remainder in `Group`. */
  method Base64Encode(input: seq<byte>) returns (out: string)
    ensures out == EncodeBase64(input) && |out| == (|input| + 2) / 3 * 4
  {
    hide Group, Quad, PadOne, PadTwo, EncodeBase64;
    out := "";
    var i := 0;
    assert input[0..] == input;
    while i + 3 <= |input|
      invariant i <= |input| && i % 3 == 0 && |out| == i / 3 * 4
      invariant out + EncodeBase64(input[i..]) == EncodeBase64(input)
    {
      var n := (input[i] as int) * 0x10000 + (input[i + 1] as int) * 0x100 + input[i + 2] as int;
      GroupIsQuad(input[i], input[i + 1], input[i + 2]);
      EncodeAt(input, i);
      out := out + Group(n);
      i := i + 3;
    }
    var rem := |input| - i;
    EncodeAt(input, i);
    if rem == 1 {
      GroupIsQuad(input[i], 0, 0);
      PaddedQuads(input[i], 0);
      out := out + Group((input[i] as int) * 0x10000)[..2] + "==";
    } else if rem == 2 {
      GroupIsQuad(input[i], input[i + 1], 0);
      PaddedQuads(input[i], input[i + 1]);
      out := out + Group((input[i] as int) * 0x10000 + (input[i + 1] as int) * 0x100)[..3] + "=";
    }
  }

  // ----- Round trips -----

  lemma ValueOfSymbol(n: sextet)
    ensures Value(Symbol(n)) == Some(n)
  {
  }

  lemma SymbolOfValue(c: char)
    ensures Value(c).Some? ==> Symbol(Value(c).value) == c
    ensures Value('=') == None
  {
  }

  lemma QuadDecodes(a: byte, b: byte, c: byte)
    ensures Three(Quad(a, b, c)) == Some([a, b, c]) && Quad(a, b, c)[3] != '='
  {
    hide Symbol, Value;
    ValueOfSymbol(a / 4);
    ValueOfSymbol(a % 4 * 16 + b / 16);
    ValueOfSymbol(b % 16 * 4 + c / 64);
    ValueOfSymbol(c % 64);
    SymbolOfValue('=');
  }

  lemma OneDecodes(a: byte)
    ensures DecodeBase64(EncodeBase64([a])) == Some([a])
  {
    hide Symbol, Value;
    ValueOfSymbol(a / 4);
    ValueOfSymbol(a % 4 * 16);
    assert LastOne(EncodeBase64([a])) == Some([a]);
  }

  lemma TwoDecode(a: byte, b: byte)
    ensures DecodeBase64(EncodeBase64([a, b])) == Some([a, b])
  {
    hide Symbol, Value;
    ValueOfSymbol(a / 4);
    ValueOfSymbol(a % 4 * 16 + b / 16);
    ValueOfSymbol(b % 16 * 4);
    SymbolOfValue('=');
    var t := EncodeBase64([a, b]);
    assert t[2] != '=' && t[3] == '=';
    assert LastTwo(t) == Some([a, b]);
  }

  /** The strict decoder undoes the encoder, for every byte sequence. */
  lemma {:induction false} DecodeUndoesEncode(bytes: seq<byte>)
    ensures DecodeBase64(EncodeBase64(bytes)) == Some(bytes)
    decreases |bytes|
  {
    hide Symbol, Value, Quad, Three, PadOne, PadTwo;
    if |bytes| == 1 {
      OneDecodes(bytes[0]);
      assert bytes == [bytes[0]];
    } else if |bytes| == 2 {
      TwoDecode(bytes[0], bytes[1]);
      assert bytes == [bytes[0], bytes[1]];
    } else if bytes != [] {
      var quad, rest := Quad(bytes[0], bytes[1], bytes[2]), EncodeBase64(bytes[3..]);
      QuadDecodes(bytes[0], bytes[1], bytes[2]);
      DecodeUndoesEncode(bytes[3..]);
      var t := quad + rest;
      assert t[..4] == quad && t[4..] == rest && t[3] == quad[3];
      assert EncodeBase64(bytes) == t;
      assert [bytes[0], bytes[1], bytes[2]] + bytes[3..] == bytes;
    }
  }

  lemma ThreeEncodes(t: string)
    requires |t| == 4 && Three(t).Some?
    ensures var b := Three(t).value; |b| == 3 && Quad(b[0], b[1], b[2]) == t
  {
    hide Symbol, Value;
    SymbolOfValue(t[0]);
    SymbolOfValue(t[1]);
    SymbolOfValue(t[2]);
    SymbolOfValue(t[3]);
  }

  lemma LastEncodes(t: string)
    requires |t| == 4 && t[3] == '='
    ensures LastTwo(t).Some? ==> EncodeBase64(LastTwo(t).value) == t
    ensures t[2] == '=' && LastOne(t).Some? ==> EncodeBase64(LastOne(t).value) == t
  {
    hide Symbol, Value;
    SymbolOfValue(t[0]);
    SymbolOfValue(t[1]);
    SymbolOfValue(t[2]);
  }

  /** Only one text decodes to given bytes: the encoder's. */
  lemma {:induction false} EncodeUndoesDecode(t: string)
    ensures DecodeBase64(t).Some? ==> EncodeBase64(DecodeBase64(t).value) == t
    decreases |t|
  {
    hide Symbol, Value, Quad, Three, LastOne, LastTwo, PadOne, PadTwo;
    if DecodeBase64(t).Some? && t != "" {
      if |t| == 4 && t[3] == '=' {
        LastEncodes(t);
      } else {
        ThreeEncodes(t[..4]);
        EncodeUndoesDecode(t[4..]);
        var bytes := Three(t[..4]).value + DecodeBase64(t[4..]).value;
        assert bytes[3..] == DecodeBase64(t[4..]).value;
        assert t == t[..4] + t[4..];
      }
    }
  }

  // ----- SAMLResponse -----

  const SAML_MAX_RAW_BASE64_BYTES: nat := IAM_MAX_VALUE_BYTES
  const SAML_MAX_DECODED_XML_BYTES: nat := 8 * 1024

  function StripWhitespace(s: string): string {
    if s == "" then "" else (if IsWhitespace(s[0]) then "" else [s[0]]) + StripWhitespace(s[1..])
  }

  function XmlOf(raw: string): Result<seq<byte>, string> {
    var xml := DecodeBase64(StripWhitespace(raw));
    if ByteLength(raw) > SAML_MAX_RAW_BASE64_BYTES then Err("oversized_response")
    else if xml.None? then Err("malformed_base64")
    else if |xml.value| > SAML_MAX_DECODED_XML_BYTES then Err("oversized_decoded_xml")
    else Ok(xml.value)
  }

  /** The part of `decode_saml_response` that comes before the XML. */
  method DecodeSamlResponse(raw: string) returns (r: Result<seq<byte>, string>)
    ensures r == XmlOf(raw)
    ensures r.Ok? ==> ByteLength(raw) <= SAML_MAX_RAW_BASE64_BYTES && |r.value| <= SAML_MAX_DECODED_XML_BYTES
    ensures r.Ok? ==> EncodeBase64(r.value) == StripWhitespace(raw)
    ensures r.Err? ==>
              if ByteLength(raw) > SAML_MAX_RAW_BASE64_BYTES then r.error == "oversized_response"
              else if exists b :: EncodeBase64(b) == StripWhitespace(raw) then
                r.error == "oversized_decoded_xml"
                && forall b :: EncodeBase64(b) == StripWhitespace(raw) ==> |b| > SAML_MAX_DECODED_XML_BYTES
              else r.error == "malformed_base64"
  {
    if ByteLength(raw) > SAML_MAX_RAW_BASE64_BYTES {
      return Err("oversized_response");
    }
    var cleaned := StripWhitespace(raw);
    var xml := DecodeBase64(cleaned);
    EncodeUndoesDecode(cleaned);
    forall b | EncodeBase64(b) == cleaned
      ensures xml == Some(b)
    {
      DecodeUndoesEncode(b);
    }
    if xml.None? {
      return Err("malformed_base64");
    }
    if |xml.value| > SAML_MAX_DECODED_XML_BYTES {
      return Err("oversized_decoded_xml");
    }
    return Ok(xml.value);
  }

  lemma {:induction false} StripConcat(a: string, b: string)
    ensures StripWhitespace(a + b) == StripWhitespace(a) + StripWhitespace(b)
    decreases |a|
  {
    hide IsWhitespace;
    if a == "" {
      assert a + b == b;
    } else {
      assert (a + b)[1..] == a[1..] + b;
      StripConcat(a[1..], b);
    }
  }

  lemma {:induction false} NothingToStrip(s: string)
    requires NoWhitespace(s)
    ensures StripWhitespace(s) == s
    decreases |s|
  {
    hide IsWhitespace;
    if s != "" {
      assert s[0] in s;
      NothingToStrip(s[1..]);
    }
  }

  lemma SymbolIsPlain(n: sextet)
    ensures !IsWhitespace(Symbol(n)) && Symbol(n) < '\U{80}'
  {
  }

  predicate PlainAscii(s: string) {
    forall c :: c in s ==> !IsWhitespace(c) && c < '\U{80}'
  }

  lemma PiecesArePlain(a: byte, b: byte, c: byte)
    ensures PlainAscii(Quad(a, b, c)) && PlainAscii(PadOne(a)) && PlainAscii(PadTwo(a, b))
  {
    hide Symbol;
    assert !IsWhitespace('=');
    hide IsWhitespace;
    SymbolIsPlain(a / 4);
    SymbolIsPlain(a % 4 * 16);
    SymbolIsPlain(a % 4 * 16 + b / 16);
    SymbolIsPlain(b % 16 * 4);
    SymbolIsPlain(b % 16 * 4 + c / 64);
    SymbolIsPlain(c % 64);
  }

  lemma {:induction false} EncodedIsPlain(bytes: seq<byte>)
    ensures PlainAscii(EncodeBase64(bytes)) && |EncodeBase64(bytes)| == (|bytes| + 2) / 3 * 4
    decreases |bytes|
  {
    hide Quad, PadOne, PadTwo, IsWhitespace;
    if |bytes| >= 3 {
      PiecesArePlain(bytes[0], bytes[1], bytes[2]);
      EncodedIsPlain(bytes[3..]);
    } else if |bytes| == 2 {
      PiecesArePlain(bytes[0], bytes[1], 0);
    } else if |bytes| == 1 {
      PiecesArePlain(bytes[0], 0, 0);
    }
  }

  lemma {:induction false} WhitespaceVanishes(space: string)
    requires forall c :: c in space ==> IsWhitespace(c)
    ensures StripWhitespace(space) == ""
    decreases |space|
  {
    hide IsWhitespace;
    if space != "" {
      assert space[0] in space;
      WhitespaceVanishes(space[1..]);
    }
  }

  /** Whitespace put in anywhere is not seen. */
  lemma WhitespaceIsIgnored(before: string, space: string, after: string)
    requires forall c :: c in space ==> IsWhitespace(c)
    ensures StripWhitespace(before + space + after) == StripWhitespace(before + after)
  {
    hide IsWhitespace, StripWhitespace;
    WhitespaceVanishes(space);
    StripConcat(before + space, after);
    StripConcat(before, space);
    StripConcat(before, after);
  }

  lemma {:induction false} PlainAsciiLength(s: string)
    requires PlainAscii(s)
    ensures NoWhitespace(s) && ByteLength(s) == |s|
    decreases |s|
  {
    hide IsWhitespace;
    if s != "" {
      assert s[0] in s;
      PlainAsciiLength(s[1..]);
    }
  }

  /** An encoding broken up by whitespace still decodes to the same bytes. */
  lemma WrappedTextDecodes(bytes: seq<byte>, before: string, space: string, after: string)
    requires forall c :: c in space ==> IsWhitespace(c)
    requires StripWhitespace(before + after) == EncodeBase64(bytes)
    ensures DecodeBase64(StripWhitespace(before + space + after)) == Some(bytes)
  {
    WhitespaceIsIgnored(before, space, after);
    DecodeUndoesEncode(bytes);
  }

  lemma EncodedLengthFits(n: nat)
    ensures (n + 2) / 3 * 4 <= SAML_MAX_RAW_BASE64_BYTES <==> n <= 12288
  {
  }

  lemma UnbrokenText(bytes: seq<byte>)
    ensures StripWhitespace(EncodeBase64(bytes)) == EncodeBase64(bytes)
    ensures ByteLength(EncodeBase64(bytes)) == (|bytes| + 2) / 3 * 4
  {
    hide EncodeBase64, StripWhitespace, ByteLength, IsWhitespace;
    EncodedIsPlain(bytes);
    PlainAsciiLength(EncodeBase64(bytes));
    NothingToStrip(EncodeBase64(bytes));
  }

  /** Both size bounds bite. Of unbroken encodings, those of up to 8192 bytes come through, those
      of up to 12288 fail on the decoded bound, and only longer ones on the raw bound. */
  lemma UnbrokenEncodings(bytes: seq<byte>)
    ensures XmlOf(EncodeBase64(bytes)) ==
            if |bytes| > 12288 then Err("oversized_response")
            else if |bytes| > SAML_MAX_DECODED_XML_BYTES then Err("oversized_decoded_xml")
            else Ok(bytes)
  {
    hide EncodeBase64, DecodeBase64, StripWhitespace, ByteLength;
    UnbrokenText(bytes);
    EncodedLengthFits(|bytes|);
    DecodeUndoesEncode(bytes);
  }
}
