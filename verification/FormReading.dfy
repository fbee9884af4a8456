/** What form-encoded text stands for, character by character, and what the listener makes of the
    parameters of a callback. */
module FormReading {
  import opened Results
  import opened Utf8
  import opened Strings
  import opened FormCodec
  import opened CallbackListener

  /** `c` is the hex digit of value `n`, in either case. */
  predicate Digit(c: char, n: int) {
    0 <= n < 16 && (c == "0123456789abcdef"[n] || c == "0123456789ABCDEF"[n])
  }

  /** Two digits behind a percent sign. */
  ghost predicate Escapes(text: string) {
    && |text| >= 3 && text[0] == '%'
    && (exists n :: Digit(text[1], n)) && (exists m :: Digit(text[2], m))
  }

  /** `bytes` are what the text stands for: an escape is the byte of its two digits, a plus is a space,
      and any other character is itself, a percent sign without digits too. */
  ghost predicate StandsFor(text: string, bytes: seq<byte>)
    decreases |text|
  {
    if text == "" then bytes == []
    else if Escapes(text) then
      && bytes != []
      && (exists n, m :: Digit(text[1], n) && Digit(text[2], m) && bytes[0] == 16 * n + m)
      && StandsFor(text[3..], bytes[1..])
    else
      var here := if text[0] == '+' then [32] else Encode([text[0]]);
      here <= bytes && StandsFor(text[1..], bytes[|here|..])
  }

  lemma DigitIsHex(c: char)
    ensures (exists n :: Digit(c, n)) <==> c < '\U{80}' && IsHexDigit(c as int)
    ensures c < '\U{80}' && IsHexDigit(c as int) ==> Digit(c, HexValue(c as int))
  {
    if c < '\U{80}' && IsHexDigit(c as int) {
      HexDigits(c);
    }
  }

  lemma HexDigits(c: char)
    requires c < '\U{80}' && IsHexDigit(c as int)
    ensures Digit(c, HexValue(c as int))
  {
  }

  lemma PlusOne(text: string)
    requires text != ""
    ensures PlusToSpace(text) == [if text[0] == '+' then ' ' else text[0]] + PlusToSpace(text[1..])
  {
  }

  lemma EncodeOne(c: char, rest: string)
    ensures Encode([c] + rest) == Encode([c]) + Encode(rest)
    ensures c < '\U{80}' ==> Encode([c]) == [c as int]
    ensures Encode([c]) == EncodeChar(c)
  {
    hide EncodeChar;
    assert [c][1..] == "" && ([c] + rest)[1..] == rest;
    assert Encode([c]) == EncodeChar(c) + Encode("") == EncodeChar(c);
    EncodeConcat([c], rest);
    if c < '\U{80}' {
      OneByte(c);
    }
  }

  lemma OneByte(c: char)
    requires c < '\U{80}'
    ensures EncodeChar(c) == [c as int]
  {
  }

  /** The bytes of a character above ASCII are no hex digits, and no percent sign. */
  lemma HighBytes(c: char)
    requires c >= '\U{80}'
    ensures EncodeChar(c) != [] && forall i :: 0 <= i < |EncodeChar(c)| ==> EncodeChar(c)[i] >= 128
  {
  }

  lemma {:induction false} HighBytesStay(a: seq<byte>, rest: seq<byte>)
    requires forall i :: 0 <= i < |a| ==> a[i] >= 128
    ensures Unescape(a + rest) == a + Unescape(rest)
    decreases |a|
  {
    if a == [] {
      assert a + rest == rest;
    } else {
      assert (a + rest)[1..] == a[1..] + rest;
      assert !IsEscape(a + rest);
      HighBytesStay(a[1..], rest);
    }
  }

  /** The bytes before unescaping. */
  function Raw(text: string): seq<byte> {
    Encode(PlusToSpace(text))
  }

  lemma RawOne(text: string)
    requires text != ""
    ensures Raw(text) == (if text[0] == '+' then [32] else Encode([text[0]])) + Raw(text[1..])
  {
    hide Encode, EncodeChar;
    PlusOne(text);
    var c := if text[0] == '+' then ' ' else text[0];
    EncodeOne(c, PlusToSpace(text[1..]));
  }

  lemma RawEmpty()
    ensures Raw("") == []
  {
  }

  /** A byte of the raw form that is a digit, is the digit that was written. */
  lemma RawDigit(text: string)
    requires text != ""
    ensures (Raw(text) != [] && IsHexDigit(Raw(text)[0])) <==> (exists n :: Digit(text[0], n))
    ensures (exists n :: Digit(text[0], n)) ==> Raw(text) == [text[0] as int] + Raw(text[1..])
  {
    hide Encode, EncodeChar, Raw;
    RawOne(text);
    DigitIsHex(text[0]);
    EncodeOne(text[0], "");
    if text[0] >= '\U{80}' {
      HighBytes(text[0]);
    }
  }

  lemma PercentIsRaw(text: string)
    requires text != "" && text[0] == '%'
    ensures Raw(text) == ['%' as int] + Raw(text[1..])
  {
    hide Encode, Raw;
    RawOne(text);
    EncodeOne('%', "");
  }

  lemma EscapeIsRaw(text: string)
    requires text != "" && text[0] == '%'
    ensures IsEscape(Raw(text)) <==> Escapes(text)
    ensures Escapes(text) ==>
              Raw(text)[1] == text[1] as int && Raw(text)[2] == text[2] as int && Raw(text)[3..] == Raw(text[3..])
  {
    hide Raw, Digit, IsHexDigit;
    PercentIsRaw(text);
    RawEmpty();
    assert Raw(text)[1..] == Raw(text[1..]);
    if |text| > 1 {
      var one := text[1..];
      assert one[0] == text[1] && one[1..] == text[2..];
      RawDigit(one);
      if exists n :: Digit(text[1], n) {
        assert Raw(text) == ['%' as int, text[1] as int] + Raw(text[2..]);
        if |text| > 2 {
          var two := text[2..];
          assert two[0] == text[2] && two[1..] == text[3..];
          RawDigit(two);
          assert Raw(text)[2..] == Raw(two);
        } else {
          assert text[2..] == "";
        }
      }
    } else {
      assert text[1..] == "";
    }
  }

  lemma NoEscapeIsRaw(text: string)
    requires text != "" && !Escapes(text)
    ensures Unescape(Raw(text)) == (if text[0] == '+' then [32] else Encode([text[0]])) + Unescape(Raw(text[1..]))
  {
    hide Raw, Encode, EncodeChar, Escapes, HexByte;
    RawOne(text);
    EncodeOne(text[0], "");
    var raw := Raw(text);
    if text[0] < '\U{80}' {
      assert raw[1..] == Raw(text[1..]);
      if text[0] == '%' {
        EscapeIsRaw(text);
      }
      assert !IsEscape(raw);
    } else {
      HighBytes(text[0]);
      HighBytesStay(EncodeChar(text[0]), Raw(text[1..]));
    }
  }

  lemma {:induction false} TextStandsFor(text: string)
    ensures StandsFor(text, Unescape(Raw(text)))
    decreases |text|
  {
    assert Escapes(text) ==> |text| >= 3;
    hide Raw, Encode, HexValue, IsHexDigit, Digit, Escapes;
    var bytes := Unescape(Raw(text));
    if text == "" {
      RawEmpty();
    } else if Escapes(text) {
      EscapeStandsFor(text);
      TextStandsFor(text[3..]);
    } else {
      NoEscapeIsRaw(text);
      TextStandsFor(text[1..]);
    }
  }

  lemma EscapeStandsFor(text: string)
    requires Escapes(text)
    ensures var bytes := Unescape(Raw(text));
            && bytes != [] && bytes[1..] == Unescape(Raw(text[3..]))
            && exists n, m :: Digit(text[1], n) && Digit(text[2], m) && bytes[0] == 16 * n + m
  {
    hide Raw, Digit, IsHexDigit, HexValue;
    EscapeIsRaw(text);
    DigitIsHex(text[1]);
    DigitIsHex(text[2]);
    var n, m := HexValue(text[1] as int), HexValue(text[2] as int);
    assert Unescape(Raw(text))[0] == 16 * n + m;
  }

  /** The decoder reads every text as what it stands for. */
  lemma DecodedAsItStands(text: string)
    ensures exists bytes :: StandsFor(text, bytes) && PercentDecode(text) == DecodeLossy(bytes)
  {
    TextStandsFor(text);
    hide Unescape, DecodeLossy, StandsFor, Encode;
    assert PercentDecode(text) == DecodeLossy(Unescape(Raw(text)));
  }

  /** And there is only one thing it stands for. */
  lemma {:induction false} StandsForOne(text: string, a: seq<byte>, b: seq<byte>)
    requires StandsFor(text, a) && StandsFor(text, b)
    ensures a == b
    decreases |text|
  {
    assert Escapes(text) ==> |text| >= 3;
    hide Encode, Escapes, Digit;
    if text != "" {
      if Escapes(text) {
        SameEscape(text, a[0], b[0]);
        StandsForOne(text[3..], a[1..], b[1..]);
        Headed(a[..1], a, b);
      } else {
        var here := if text[0] == '+' then [32] else Encode([text[0]]);
        StandsForOne(text[1..], a[|here|..], b[|here|..]);
        Headed(here, a, b);
      }
    }
  }

  lemma SameEscape(text: string, x: byte, y: byte)
    requires |text| >= 3
    requires exists n, m :: Digit(text[1], n) && Digit(text[2], m) && x == 16 * n + m
    requires exists n, m :: Digit(text[1], n) && Digit(text[2], m) && y == 16 * n + m
    ensures x == y
  {
    DigitsAreUnique(text[1]);
    DigitsAreUnique(text[2]);
    hide Digit;
  }

  lemma Headed(head: seq<byte>, a: seq<byte>, b: seq<byte>)
    requires head <= a && head <= b && a[|head|..] == b[|head|..]
    ensures a == b
  {
    assert a == head + a[|head|..] && b == head + b[|head|..];
  }

  lemma DigitsAreUnique(c: char)
    ensures forall n, m :: Digit(c, n) && Digit(c, m) ==> n == m
  {
  }

  /** For instance a slash, with digits in either case, and a space. */
  lemma SlashAndSpace()
    ensures PercentDecode("%2f") == PercentDecode("%2F") == "/" && PercentDecode("a+b") == "a b"
  {
    Reads("%2f", "/", [47]);
    Reads("%2F", "/", [47]);
    Reads("a+b", "a b", [97, 32, 98]);
  }

  lemma Reads(text: string, meant: string, bytes: seq<byte>)
    requires ((text == "%2f" || text == "%2F") && meant == "/" && bytes == [47])
             || (text == "a+b" && meant == "a b" && bytes == [97, 32, 98])
    ensures PercentDecode(text) == meant
  {
    assert Encode(meant) == bytes by {
      assert Ascii(meant);
      AsciiBytes(meant);
    }
    assert StandsFor(text, bytes) by {
      SmallTexts(text, bytes);
    }
    hide DecodeLossy, StandsFor, Encode, PercentDecode;
    DecodedAsItStands(text);
    var other :| StandsFor(text, other) && PercentDecode(text) == DecodeLossy(other);
    StandsForOne(text, other, bytes);
    DecodeEncode(meant);
  }

  lemma SmallTexts(text: string, bytes: seq<byte>)
    requires ((text == "%2f" || text == "%2F") && bytes == [47]) || (text == "a+b" && bytes == [97, 32, 98])
    ensures StandsFor(text, bytes)
  {
    hide Encode;
    if text == "a+b" {
      EncodeOne('a', "");
      EncodeOne('b', "");
      assert text[1..] == "+b" && text[2..] == "b" && text[1..][1..] == "b" && text[2..][1..] == "";
      assert StandsFor("", []);
      assert StandsFor("b", [98]);
      assert StandsFor("+b", [32, 98]);
    } else {
      assert Digit('2', 2) && Digit('f', 15) && Digit('F', 15);
      assert text[3..] == "" && bytes[1..] == [];
      assert Digit(text[1], 2) && Digit(text[2], 15) && bytes[0] == 16 * 2 + 15;
    }
  }

  // ----- The encoder -----

  const OTHERS: string := "0123456789-_.~"

  predicate IsUnreserved(c: char) {
    c in LETTERS || c in SMALL_LETTERS || c in OTHERS
  }

  /** A byte that is no unreserved character goes as a percent sign and two upper-case digits. */
  lemma BytesAreEscaped(b: byte)
    ensures EscapeByte(b) == if IsUnreserved(b as char) then [b as char]
                             else ['%', "0123456789ABCDEF"[b / 16], "0123456789ABCDEF"[b % 16]]
  {
    UnreservedIs(b);
    UpperDigit(b / 16);
    UpperDigit(b % 16);
    hide IsUnreserved, UpperHex;
  }

  lemma UpperDigit(n: nat)
    requires n < 16
    ensures UpperHex(n) == "0123456789ABCDEF"[n]
  {
  }

  lemma LettersAre(c: char)
    ensures c in LETTERS <==> 'A' <= c <= 'Z'
  {
    if 'A' <= c <= 'Z' {
      assert LETTERS[c as int - 'A' as int] == c;
    }
  }

  lemma SmallLettersAre(c: char)
    ensures c in SMALL_LETTERS <==> 'a' <= c <= 'z'
  {
    if 'a' <= c <= 'z' {
      assert SMALL_LETTERS[c as int - 'a' as int] == c;
    }
  }

  lemma OthersAre(c: char)
    ensures c in OTHERS <==> '0' <= c <= '9' || c == '-' || c == '_' || c == '.' || c == '~'
  {
    if '0' <= c <= '9' {
      assert OTHERS[c as int - '0' as int] == c;
    } else {
      assert OTHERS[10] == '-' && OTHERS[11] == '_' && OTHERS[12] == '.' && OTHERS[13] == '~';
    }
  }

  lemma UnreservedIs(b: byte)
    ensures Unreserved(b) <==> IsUnreserved(b as char)
  {
    LettersAre(b as char);
    SmallLettersAre(b as char);
    OthersAre(b as char);
    hide LETTERS, SMALL_LETTERS, OTHERS;
  }

  // ----- Queries -----

  /** A piece of a query, with an equals sign in it or without. */
  datatype Piece = Bare(text: string) | Pair(key: string, value: string)

  function Written(p: Piece): string {
    if p.Bare? then p.text else p.key + "=" + p.value
  }

  predicate WellWritten(p: Piece) {
    && '&' !in Written(p)
    && match p
       case Bare(text) => '=' !in text
       case Pair(key, _) => '=' !in key
  }

  function AllWritten(pieces: seq<Piece>): seq<string> {
    seq(|pieces|, i requires 0 <= i < |pieces| => Written(pieces[i]))
  }

  /** The pairs among them, decoded. */
  function Pairs(pieces: seq<Piece>): seq<(string, string)> {
    if pieces == [] then []
    else
      (match pieces[0]
       case Bare(_) => []
       case Pair(key, value) => [(PercentDecode(key), PercentDecode(value))])
      + Pairs(pieces[1..])
  }

  lemma {:induction false} PiecesDecode(pieces: seq<Piece>)
    requires forall p :: p in pieces ==> WellWritten(p)
    ensures DecodePairs(AllWritten(pieces)) == Pairs(pieces)
    decreases |pieces|
  {
    hide PercentDecode;
    if pieces != [] {
      var p := pieces[0];
      assert p in pieces;
      assert AllWritten(pieces)[1..] == AllWritten(pieces[1..]);
      PiecesDecode(pieces[1..]);
      match p
      case Bare(text) => SplitOnceMisses(text, '=');
      case Pair(key, value) => SplitOnceFinds(key, '=', value);
    }
  }

  /** A query is its pieces between ampersands; a piece without an equals sign says nothing; of the
      others what is before the first one is the key; a target without a question mark has no query. */
  lemma QueriesAreRead(prefix: string, pieces: seq<Piece>)
    requires '?' !in prefix && forall p :: p in pieces ==> WellWritten(p)
    ensures QueryPairs(prefix + "?" + Join(AllWritten(pieces), "&")) == Pairs(pieces)
    ensures QueryPairs(prefix) == []
  {
    hide PercentDecode;
    PiecesDecode(pieces);
    var query := Join(AllWritten(pieces), "&");
    SplitOnceFinds(prefix, '?', query);
    SplitOnceMisses(prefix, '?');
    NothingIsRead();
    if pieces != [] {
      forall i | 0 <= i < |pieces| ensures '&' !in AllWritten(pieces)[i] {
        assert pieces[i] in pieces;
      }
      SplitJoin(AllWritten(pieces), '&');
    }
  }

  lemma NothingIsRead()
    ensures DecodePairs(Split("", '&')) == []
  {
    hide PercentDecode;
    SplitOnceMisses("", '&');
    SplitOnceMisses("", '=');
    assert DecodePairs([""]) == [] + DecodePairs([]);
  }

  // ----- The listener -----

  /** `value` is that of the first parameter called `key`. */
  ghost predicate First(pairs: seq<(string, string)>, key: string, value: string) {
    exists i :: 0 <= i < |pairs| && pairs[i] == (key, value) && forall j :: 0 <= j < i ==> pairs[j].0 != key
  }

  lemma {:induction false} GetIsFirst(pairs: seq<(string, string)>, key: string, value: string)
    ensures Get(pairs, key) == Some(value) <==> First(pairs, key, value)
    decreases |pairs|
  {
    if pairs != [] {
      var rest := pairs[1..];
      GetIsFirst(rest, key, value);
      assert forall j :: 0 <= j < |rest| ==> rest[j] == pairs[j + 1];
      assert forall j :: 0 < j < |pairs| ==> pairs[j] == rest[j - 1];
      if First(rest, key, value) && pairs[0].0 != key {
        var i :| 0 <= i < |rest| && rest[i] == (key, value) && forall j :: 0 <= j < i ==> rest[j].0 != key;
        assert pairs[i + 1] == (key, value);
      }
      if First(pairs, key, value) && pairs[0].0 != key {
        var i :| 0 <= i < |pairs| && pairs[i] == (key, value) && forall j :: 0 <= j < i ==> pairs[j].0 != key;
        assert rest[i - 1] == (key, value);
      }
    }
  }

  lemma {:induction false} GetFinds(pairs: seq<(string, string)>, key: string)
    ensures Get(pairs, key).None? <==> forall i :: 0 <= i < |pairs| ==> pairs[i].0 != key
    decreases |pairs|
  {
    if pairs != [] {
      GetFinds(pairs[1..], key);
      assert forall j :: 0 < j < |pairs| ==> pairs[j] == pairs[1..][j - 1];
    }
  }

  /** A request is decided on exactly if its target begins with /callback and its parameters have an
      error, or no state or another one, or a code: an error is reported whatever else there is; a
      code is taken only under the state that was sent out, and only if there is no error. */
  lemma ParametersDecide(request: seq<byte>, state: string)
    ensures var pairs, verdict := QueryPairs(Target(request)), Judge(request, state);
            var no := (key: string) => forall i :: 0 <= i < |pairs| ==> pairs[i].0 != key;
            if !("/callback" <= Target(request)) then verdict == Waiting
            else
              && (forall e :: verdict == Denied(e) <==> First(pairs, "error", e))
              && (verdict == StateMismatch <==> no("error") && !First(pairs, "state", state))
              && (forall c :: verdict == Code(c) <==>
                                no("error") && First(pairs, "state", state) && First(pairs, "code", c))
              && (verdict == Waiting <==> no("error") && First(pairs, "state", state) && no("code"))
  {
    var pairs := QueryPairs(Target(request));
    hide QueryPairs, Target, Get, First;
    forall key, value ensures Get(pairs, key) == Some(value) <==> First(pairs, key, value) {
      GetIsFirst(pairs, key, value);
    }
    GetFinds(pairs, "error");
    GetFinds(pairs, "code");
  }

  /** The target is the second word of the request. */
  lemma SecondWordIsTarget(first: string, target: string, rest: seq<byte>)
    requires first != "" && target != "" && NoWhitespace(first) && NoWhitespace(target)
    ensures Target(Encode(first + " " + target + " ") + rest) == target
  {
    hide Words, NoWhitespace, Encode, DecodeLossy;
    DecodeEncodeThen(first + " " + target + " ", rest);
    TwoWords(first, target, DecodeLossy(rest));
  }
}
