/** Percent-encoding: the form encoder and decoder of examples/mcp_oauth.rs, and the check
    scorpion_app/src/iam.rs makes before it parses a form. */
module FormCodec {
  import opened Results
  import opened Utf8
  import opened Strings

  // ----- Encoding -----

  predicate Unreserved(b: byte) {
    || 'A' as int <= b <= 'Z' as int || 'a' as int <= b <= 'z' as int || '0' as int <= b <= '9' as int
    || b == '-' as int || b == '_' as int || b == '.' as int || b == '~' as int
  }

  function UpperHex(n: nat): char
    requires n < 16
  {
    if n < 10 then ('0' as int + n) as char else ('A' as int + n - 10) as char
  }

  function EscapeByte(b: byte): string {
    if Unreserved(b) then [b as char] else ['%', UpperHex(b / 16), UpperHex(b % 16)]
  }

  function EscapeBytes(bytes: seq<byte>): string {
    if bytes == [] then "" else EscapeByte(bytes[0]) + EscapeBytes(bytes[1..])
  }

  /** `encode` */
  function PercentEncode(value: string): string {
    EscapeBytes(Encode(value))
  }

  function EncodePairs(pairs: seq<(string, string)>): seq<string> {
    if pairs == [] then [] else [PercentEncode(pairs[0].0) + "=" + PercentEncode(pairs[0].1)] + EncodePairs(pairs[1..])
  }

  /** `form_urlencode` */
  function FormUrlencode(pairs: seq<(string, string)>): string {
    Join(EncodePairs(pairs), "&")
  }

  // ----- Decoding -----

  predicate IsHexDigit(b: byte) {
    '0' as int <= b <= '9' as int || 'A' as int <= b <= 'F' as int || 'a' as int <= b <= 'f' as int
  }

  function HexValue(b: byte): (n: nat)
    requires IsHexDigit(b)
    ensures n < 16
  {
    if b <= '9' as int then b - '0' as int else if b <= 'F' as int then b - 'A' as int + 10 else b - 'a' as int + 10
  }

  function HexByte(a: byte, b: byte): byte
    requires IsHexDigit(a) && IsHexDigit(b)
  {
    16 * HexValue(a) + HexValue(b)
  }

  /** A '%' with two hex digits after it. */
  predicate IsEscape(bytes: seq<byte>) {
    |bytes| >= 3 && bytes[0] == '%' as int && IsHexDigit(bytes[1]) && IsHexDigit(bytes[2])
  }

  /** What each escape, and each byte outside one, stands for. */
  function Unescape(bytes: seq<byte>): seq<byte>
    decreases |bytes|
  {
    if bytes == [] then []
    else if IsEscape(bytes) then [HexByte(bytes[1], bytes[2])] + Unescape(bytes[3..])
    else [bytes[0]] + Unescape(bytes[1..])
  }

  function PlusToSpace(s: string): string {
    if s == "" then "" else [if s[0] == '+' then ' ' else s[0]] + PlusToSpace(s[1..])
  }

  function PercentDecode(input: string): string {
    DecodeLossy(Unescape(Encode(PlusToSpace(input))))
  }

  /** `u8::from_str_radix` on a two-character string, in base 16; no '+' reaches it. */
  function FromHexPair(a: byte, b: byte): Option<byte> {
    if IsHexDigit(a) && IsHexDigit(b) then Some(HexByte(a, b)) else None
  }

  /** One turn of the decoding loop. */
  lemma UnescapeAt(bytes: seq<byte>, i: nat)
    requires i < |bytes|
    ensures Unescape(bytes[i..]) ==
            if i + 3 <= |bytes| && bytes[i] == '%' as int && FromHexPair(bytes[i + 1], bytes[i + 2]).Some? then
              [FromHexPair(bytes[i + 1], bytes[i + 2]).value] + Unescape(bytes[i + 3..])
            else [bytes[i]] + Unescape(bytes[i + 1..])
  {
    hide IsHexDigit, HexByte;
    assert bytes[i..][1..] == bytes[i + 1..];
    if IsEscape(bytes[i..]) {
      assert bytes[i..][3..] == bytes[i + 3..];
    }
  }

  method Decode(input: string) returns (text: string)
    ensures text == PercentDecode(input)
  {
    hide Encode, PlusToSpace, DecodeLossy, FromHexPair, Unescape;
    var bytes := Encode(PlusToSpace(input));
    var out: seq<byte> := [];
    var i := 0;
    assert bytes[0..] == bytes;
    while i < |bytes|
      invariant i <= |bytes|
      invariant out + Unescape(bytes[i..]) == Unescape(bytes)
    {
      UnescapeAt(bytes, i);
      if i + 3 <= |bytes| && bytes[i] == '%' as int {
        var pair := FromHexPair(bytes[i + 1], bytes[i + 2]);
        if pair.Some? {
          AppendedOne(out, pair.value, Unescape(bytes[i + 3..]));
          out := out + [pair.value];
          i := i + 3;
        } else {
          AppendedOne(out, bytes[i], Unescape(bytes[i + 1..]));
          out := out + [bytes[i]];
          i := i + 1;
        }
      } else {
        AppendedOne(out, bytes[i], Unescape(bytes[i + 1..]));
        out := out + [bytes[i]];
        i := i + 1;
      }
    }
    NothingUnescapes(bytes, i);
    assert out + [] == out;
    text := DecodeLossy(out);
  }

  lemma AppendedOne(out: seq<byte>, b: byte, rest: seq<byte>)
    ensures out + [b] + rest == out + ([b] + rest)
  {
  }

  lemma NothingUnescapes(bytes: seq<byte>, n: nat)
    requires n == |bytes|
    ensures Unescape(bytes[n..]) == []
  {
  }

  function DecodePairs(pieces: seq<string>): seq<(string, string)> {
    if pieces == [] then []
    else
      var parts := SplitOnce(pieces[0], '=');
      (if parts.None? then [] else [(PercentDecode(parts.value.0),
                                     PercentDecode(parts.value.1))]) + DecodePairs(pieces[1..])
  }

  /** `query_pairs` */
  function QueryPairs(target: string): seq<(string, string)> {
    var parts := SplitOnce(target, '?');
    DecodePairs(Split(if parts.Some? then parts.value.1 else "", '&'))
  }

  // ----- The check -----

  predicate HexAfter(bytes: seq<byte>, i: nat)
    requires i < |bytes|
  {
    i + 2 < |bytes| && IsHexDigit(bytes[i + 1]) && IsHexDigit(bytes[i + 2])
  }

  /** Every '%' is followed by two hex digits. */
  ghost predicate WellEscaped(bytes: seq<byte>) {
    forall i :: 0 <= i < |bytes| && bytes[i] == '%' as int ==> HexAfter(bytes, i)
  }

  /** Neither digit after a '%' is one. */
  lemma HexDigitsAfter(bytes: seq<byte>, i: nat)
    requires i < |bytes|
    ensures HexAfter(bytes, i) <==> i + 2 < |bytes| && IsHexDigit(bytes[i + 1]) && IsHexDigit(bytes[i + 2])
    ensures HexAfter(bytes, i) ==> bytes[i + 1] != '%' as int && bytes[i + 2] != '%' as int
  {
  }

  /** The loop steps over three bytes at an escape, and never over another '%'. */
  method ValidatePercentEncoding(raw: string) returns (ok: bool)
    ensures ok <==> WellEscaped(Encode(raw))
  {
    hide Encode, HexAfter;
    var bytes := Encode(raw);
    var index := 0;
    while index < |bytes|
      invariant index <= |bytes|
      invariant forall i :: 0 <= i < index && bytes[i] == '%' as int ==> HexAfter(bytes, i)
    {
      if bytes[index] == '%' as int {
        HexDigitsAfter(bytes, index);
        if index + 3 > |bytes| || !IsHexDigit(bytes[index + 1]) || !IsHexDigit(bytes[index + 2]) {
          return false;
        }
        index := index + 3;
      } else {
        index := index + 1;
      }
    }
    return true;
  }

  // ----- What encoded text is made of -----

  predicate FormChar(c: char) {
    c == '%' || (c < '\U{80}' && Unreserved(c as int))
  }

  /** What can be a word of a request line. */
  predicate WordText(s: string) {
    Ascii(s) && NoWhitespace(s)
  }

  predicate FormText(s: string) {
    forall c :: c in s ==> FormChar(c)
  }

  lemma {:induction false} EscapedIsFormText(bytes: seq<byte>)
    ensures FormText(EscapeBytes(bytes))
  {
    if bytes != [] {
      EscapedIsFormText(bytes[1..]);
    }
  }

  /** So it has no delimiter of a query or a request line in it. */
  lemma FormTextIsClean(s: string)
    requires FormText(s)
    ensures '&' !in s && '=' !in s && '?' !in s && '+' !in s && WordText(s)
  {
  }

  lemma {:induction false} NoPlusToReplace(s: string)
    requires '+' !in s
    ensures PlusToSpace(s) == s
    decreases |s|
  {
    if s != "" {
      NoPlusToReplace(s[1..]);
    }
  }

  /** Characters that are their own encoding. */
  predicate Plain(s: string) {
    forall i :: 0 <= i < |s| ==> s[i] < '\U{80}' && Unreserved(s[i] as int)
  }

  lemma {:induction false} PlainIsItsOwnEncoding(s: string)
    requires Plain(s)
    ensures PercentEncode(s) == s
    decreases |s|
  {
    if s != "" {
      PlainIsItsOwnEncoding(s[1..]);
      hide Unreserved;
      var b := s[0] as int;
      assert EncodeChar(s[0]) == [b] && EscapeByte(b) == [s[0]];
      assert Encode(s) == [b] + Encode(s[1..]);
    }
  }

  // ----- Round trips -----

  lemma HexDigitOf(n: nat)
    requires n < 16
    ensures IsHexDigit(UpperHex(n) as int) && HexValue(UpperHex(n) as int) == n
  {
  }

  lemma UnescapeOne(b: byte, rest: seq<byte>)
    ensures Unescape(Encode(EscapeByte(b)) + rest) == [b] + Unescape(rest)
  {
    hide Encode, FormChar, UpperHex, IsHexDigit, HexValue;
    HexDigitOf(b / 16);
    HexDigitOf(b % 16);
    EscapedIsFormText([b]);
    assert EscapeBytes([b]) == EscapeByte(b) + "" == EscapeByte(b);
    FormTextIsClean(EscapeByte(b));
    AsciiBytes(EscapeByte(b));
    var bytes := Encode(EscapeByte(b)) + rest;
    if Unreserved(b) {
      assert bytes[0] == b && bytes[1..] == rest;
    } else {
      assert bytes[0] == '%' as int && bytes[1] == UpperHex(b / 16) as int && bytes[2] == UpperHex(b % 16) as int;
      assert bytes[3..] == rest;
      assert IsEscape(bytes);
      assert HexByte(bytes[1], bytes[2]) == b;
    }
  }

  lemma {:induction false} UnescapeUndoesEscape(bytes: seq<byte>)
    ensures Unescape(Encode(EscapeBytes(bytes))) == bytes
  {
    if bytes != [] {
      var rest := EscapeBytes(bytes[1..]);
      EncodeConcat(EscapeByte(bytes[0]), rest);
      UnescapeOne(bytes[0], Encode(rest));
      UnescapeUndoesEscape(bytes[1..]);
    }
  }

  /** `decode(encode(s)) == s`, for every string. */
  lemma DecodeUndoesEncode(s: string)
    ensures PercentDecode(PercentEncode(s)) == s
  {
    var escaped := PercentEncode(s);
    EscapedIsFormText(Encode(s));
    FormTextIsClean(escaped);
    NoPlusToReplace(escaped);
    UnescapeUndoesEscape(Encode(s));
    DecodeEncode(s);
  }

  lemma EncodedPairSplits(key: string, value: string)
    ensures var piece := PercentEncode(key) + "=" + PercentEncode(value);
            && '&' !in piece && '?' !in piece && WordText(piece)
            && SplitOnce(piece, '=') == Some((PercentEncode(key), PercentEncode(value)))
  {
    EscapedIsFormText(Encode(key));
    EscapedIsFormText(Encode(value));
    FormTextIsClean(PercentEncode(key));
    FormTextIsClean(PercentEncode(value));
    SplitOnceFinds(PercentEncode(key), '=', PercentEncode(value));
  }

  lemma {:induction false} DecodeEncodedPairs(pairs: seq<(string, string)>)
    ensures DecodePairs(EncodePairs(pairs)) == pairs
    ensures forall p :: p in EncodePairs(pairs) ==> '&' !in p && '?' !in p && WordText(p)
    ensures |EncodePairs(pairs)| == |pairs|
  {
    if pairs != [] {
      var (key, value) := pairs[0];
      EncodedPairSplits(key, value);
      DecodeUndoesEncode(key);
      DecodeUndoesEncode(value);
      DecodeEncodedPairs(pairs[1..]);
      assert EncodePairs(pairs)[1..] == EncodePairs(pairs[1..]);
    }
  }

  /** Every list of pairs comes back whole from a target with the encoded query. */
  lemma QueryRoundTrip(prefix: string, pairs: seq<(string, string)>)
    requires '?' !in prefix
    ensures QueryPairs(prefix + "?" + FormUrlencode(pairs)) == pairs
  {
    DecodeEncodedPairs(pairs);
    SplitOnceFinds(prefix, '?', FormUrlencode(pairs));
    if pairs != [] {
      SplitJoin(EncodePairs(pairs), '&');
    } else {
      SplitOnceMisses("", '&');
      SplitOnceMisses("", '=');
      assert DecodePairs([""]) == [] + DecodePairs([]);
    }
  }

  lemma {:induction false} JoinIsClean(pieces: seq<string>)
    requires forall p :: p in pieces ==> WordText(p)
    ensures WordText(Join(pieces, "&"))
    decreases |pieces|
  {
    if pieces != [] {
      assert pieces[0] in pieces;
      JoinIsClean(pieces[1..]);
    }
  }

  /** Encoded pairs can be a word of a request line. */
  lemma FormUrlencodeIsClean(pairs: seq<(string, string)>)
    ensures WordText(FormUrlencode(pairs))
  {
    DecodeEncodedPairs(pairs);
    JoinIsClean(EncodePairs(pairs));
  }

  // ----- The check and the codec -----

  lemma WellEscapedConcat(a: seq<byte>, b: seq<byte>)
    requires WellEscaped(a) && WellEscaped(b)
    ensures WellEscaped(a + b)
  {
    var c := a + b;
    forall i | 0 <= i < |c| && c[i] == '%' as int
      ensures i + 2 < |c| && IsHexDigit(c[i + 1]) && IsHexDigit(c[i + 2])
    {
      if i < |a| {
        assert a[i] == '%' as int;
        assert c[i + 1] == a[i + 1] && c[i + 2] == a[i + 2];
      } else {
        assert b[i - |a|] == '%' as int;
        assert c[i + 1] == b[i - |a| + 1] && c[i + 2] == b[i - |a| + 2];
      }
    }
  }

  lemma EscapeIsWellEscaped(b: byte)
    ensures WellEscaped(Encode(EscapeByte(b)))
  {
    hide Encode, FormChar, UpperHex, IsHexDigit, HexValue;
    HexDigitOf(b / 16);
    HexDigitOf(b % 16);
    EscapedIsFormText([b]);
    assert EscapeBytes([b]) == EscapeByte(b) + "" == EscapeByte(b);
    FormTextIsClean(EscapeByte(b));
    AsciiBytes(EscapeByte(b));
  }

  lemma {:induction false} EscapedIsWellEscaped(bytes: seq<byte>)
    ensures WellEscaped(Encode(EscapeBytes(bytes)))
  {
    if bytes != [] {
      EscapeIsWellEscaped(bytes[0]);
      EscapedIsWellEscaped(bytes[1..]);
      EncodeConcat(EscapeByte(bytes[0]), EscapeBytes(bytes[1..]));
      WellEscapedConcat(Encode(EscapeByte(bytes[0])), Encode(EscapeBytes(bytes[1..])));
    }
  }

  lemma WellEscapedJoined(a: string, separator: string, b: string)
    requires WellEscaped(Encode(a)) && WellEscaped(Encode(b)) && separator in ["=", "&"]
    ensures WellEscaped(Encode(a + separator + b))
  {
    assert WellEscaped(Encode(separator)) by {
      assert Encode(separator) == EncodeChar(separator[0]) + Encode(separator[1..]);
    }
    hide Encode, EncodeChar, WellEscaped;
    EncodeConcat(a + separator, b);
    EncodeConcat(a, separator);
    WellEscapedConcat(Encode(a), Encode(separator));
    WellEscapedConcat(Encode(a) + Encode(separator), Encode(b));
  }

  /** The check accepts whatever the form encoder puts out. */
  lemma {:induction false} EncoderOutputIsAccepted(pairs: seq<(string, string)>)
    ensures WellEscaped(Encode(FormUrlencode(pairs)))
    decreases |pairs|
  {
    if pairs != [] {
      var (key, value) := pairs[0];
      EscapedIsWellEscaped(Encode(key));
      EscapedIsWellEscaped(Encode(value));
      WellEscapedJoined(PercentEncode(key), "=", PercentEncode(value));
      EncoderOutputIsAccepted(pairs[1..]);
      var first := PercentEncode(key) + "=" + PercentEncode(value);
      if |pairs| == 1 {
        assert EncodePairs(pairs[1..]) == [];
      } else {
        DecodeEncodedPairs(pairs);
        assert EncodePairs(pairs)[1..] == EncodePairs(pairs[1..]);
        WellEscapedJoined(first, "&", FormUrlencode(pairs[1..]));
      }
    }
  }

  function Percents(bytes: seq<byte>): nat {
    if bytes == [] then 0 else (if bytes[0] == '%' as int then 1 else 0) + Percents(bytes[1..])
  }

  lemma WellEscapedTail(bytes: seq<byte>, n: nat)
    requires n <= |bytes|
    ensures WellEscaped(bytes) ==> WellEscaped(bytes[n..])
  {
    if WellEscaped(bytes) {
      var tail := bytes[n..];
      forall i | 0 <= i < |tail| && tail[i] == '%' as int
        ensures i + 2 < |tail| && IsHexDigit(tail[i + 1]) && IsHexDigit(tail[i + 2])
      {
        assert bytes[n + i] == '%' as int;
        assert tail[i + 1] == bytes[n + i + 1] && tail[i + 2] == bytes[n + i + 2];
      }
    }
  }

  /** The lenient decoder lets a stray '%' through; the text the check accepts is exactly the
      text in which each '%' costs the decoder its two digits. */
  lemma {:induction false} AcceptedDecodesExactly(bytes: seq<byte>)
    ensures |Unescape(bytes)| + 2 * Percents(bytes) >= |bytes|
    ensures WellEscaped(bytes) <==> |Unescape(bytes)| + 2 * Percents(bytes) == |bytes|
    decreases |bytes|
  {
    if bytes == [] {
    } else if IsEscape(bytes) {
      var rest := bytes[3..];
      assert bytes[1..][1..][1..] == rest;
      assert Percents(bytes) == 1 + Percents(rest) by {
        assert bytes[1..][0] != '%' as int && bytes[1..][1..][0] != '%' as int;
        assert Percents(bytes[1..]) == Percents(bytes[1..][1..]) == Percents(rest);
      }
      AcceptedDecodesExactly(rest);
      WellEscapedTail(bytes, 3);
      if WellEscaped(rest) {
        assert bytes[..3] + rest == bytes;
        WellEscapedConcat(bytes[..3], rest);
      }
    } else {
      AcceptedDecodesExactly(bytes[1..]);
      WellEscapedTail(bytes, 1);
      if WellEscaped(bytes[1..]) && bytes[0] != '%' as int {
        assert bytes[..1] + bytes[1..] == bytes;
        WellEscapedConcat(bytes[..1], bytes[1..]);
      }
    }
  }
}
