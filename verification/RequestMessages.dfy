/** A well-formed request gets through `handle` whole: what a client writes is what is framed. */
module RequestMessages {
  import opened Results
  import opened Utf8
  import opened Strings
  import opened HttpHead
  import opened RequestFramer
  import opened RequestChunking

  lemma EncodeFirstLine(lines: seq<string>)
    requires |lines| > 1
    ensures Encode(Join(lines, "\r\n")) == Encode(lines[0]) + CRLF + Encode(Join(lines[1..], "\r\n"))
  {
    hide Encode;
    var rest := Join(lines[1..], "\r\n");
    EncodeConcat(lines[0], "\r\n" + rest);
    EncodeLineEnd(rest);
    assert Join(lines, "\r\n") == lines[0] + ("\r\n" + rest);
  }

  lemma LineGoesOn(first: seq<byte>, rest: seq<byte>, body: seq<byte>)
    requires 13 !in first && rest != [] && rest[0] != 13 && Find(rest + BLANK + body) == Some(|rest|)
    ensures Find(first + CRLF + rest + BLANK + body) == Some(|first + CRLF + rest|)
  {
    hide Find;
    var tail := rest + BLANK + body;
    assert first + CRLF + rest + BLANK + body == first + (CRLF + tail);
    assert tail[0] == rest[0];
    FindSkipsLineEnd(tail);
    FindSkips(first, CRLF + tail);
  }

  lemma {:induction false} HeadEndsAtBlank(lines: seq<string>, body: seq<byte>)
    requires lines != [] && forall l :: l in lines ==> OneLine(l)
    ensures Find(Encode(Join(lines, "\r\n")) + BLANK + body) == Some(|Encode(Join(lines, "\r\n"))|)
    decreases |lines|
  {
    hide Find, Encode;
    assert lines[0] in lines;
    EncodeAvoids(lines[0], '\r');
    if |lines| == 1 {
      LastLineEnds(Encode(lines[0]), body);
    } else {
      EncodeFirstLine(lines);
      HeadEndsAtBlank(lines[1..], body);
      FirstByte(lines[1..]);
      LineGoesOn(Encode(lines[0]), Encode(Join(lines[1..], "\r\n")), body);
    }
  }

  lemma FirstByte(lines: seq<string>)
    requires lines != [] && OneLine(lines[0])
    ensures var bytes := Encode(Join(lines, "\r\n")); bytes != [] && bytes[0] != 13
  {
    var text := Join(lines, "\r\n");
    assert text[0] == lines[0][0] && lines[0][0] in lines[0];
    CharAvoids(text[0], '\r');
    hide EncodeChar;
    var bytes := Encode(text);
    assert bytes == EncodeChar(text[0]) + Encode(text[1..]);
    assert bytes[0] in EncodeChar(text[0]);
  }

  // ----- Headers -----

  predicate Trimmed(s: string) {
    s != "" ==> !IsWhitespace(s[0]) && !IsWhitespace(s[|s| - 1])
  }

  lemma TrimAfterSpace(s: string)
    requires Trimmed(s)
    ensures Trim(" " + s) == s
  {
    assert IsWhitespace(' ');
    hide IsWhitespace;
    assert (" " + s)[1..] == s;
    assert TrimStart(s) == s;
    assert TrimStart(" " + s) == s;
  }

  lemma NumberIsTrimmed(n: nat)
    ensures Trimmed(Decimal(n)) && OneLine(Decimal(n))
  {
    DecimalDigits(n);
    assert Decimal(n)[0] in Decimal(n) && Decimal(n)[|Decimal(n)| - 1] in Decimal(n);
  }

  // ----- Messages -----

  /** `others` are header lines of any other name. */
  datatype Message = Message(verb: string, path: string, others: seq<string>, contentType: Option<string>,
                             body: seq<byte>)

  predicate OtherHeader(line: string) {
    && OneLine(line)
    && HeaderValue(line, "Content-Length:", "content-length:").None?
    && HeaderValue(line, "Content-Type:", "content-type:").None?
  }

  predicate WellFormed(m: Message) {
    && m.verb != "" && m.path != "" && NoWhitespace(m.verb) && NoWhitespace(m.path)
    && (forall l :: l in m.others ==> OtherHeader(l))
    && (m.contentType.Some? ==>
          var value := m.contentType.value; Trimmed(value) && '\r' !in value && '\n' !in value)
    && |m.body| <= MAX_BODY_BYTES
  }

  function TypeLines(contentType: Option<string>): seq<string> {
    if contentType.None? then [] else ["Content-Type:" + (" " + contentType.value)]
  }

  function RequestLine(m: Message): string {
    m.verb + " " + m.path + " " + "HTTP/1.1"
  }

  function LengthLine(m: Message): string {
    "Content-Length:" + (" " + Decimal(|m.body|))
  }

  function HeaderLines(m: Message): seq<string> {
    m.others + TypeLines(m.contentType) + [LengthLine(m)]
  }

  function HeadLines(m: Message): seq<string> {
    [RequestLine(m)] + HeaderLines(m)
  }

  /** The bytes of the message. */
  function Compose(m: Message): seq<byte> {
    Encode(Join(HeadLines(m), "\r\n")) + BLANK + m.body
  }

  lemma WordIsOneLine(word: string)
    requires NoWhitespace(word)
    ensures '\r' !in word && '\n' !in word
  {
    assert IsWhitespace('\r') && IsWhitespace('\n');
  }

  lemma HeaderLine(title: string, lower: string, value: string)
    requires Trimmed(value)
    ensures HeaderValue(title + (" " + value), title, lower) == Some(value)
  {
    TrimAfterSpace(value);
    hide Trim;
    assert (title + (" " + value))[|title|..] == " " + value;
  }

  lemma LengthLineHasNoType(value: string)
    ensures HeaderValue("Content-Length:" + (" " + value), "Content-Type:", "content-type:").None?
  {
    hide Trim;
    var line := "Content-Length:" + (" " + value);
    assert line[8] == "Content-Length:"[8] == 'L';
    PrefixAt(line, "Content-Type:");
    PrefixAt(line, "content-type:");
  }

  lemma {:induction false} LastValueOfOthers(lines: seq<string>)
    requires forall l :: l in lines ==> OtherHeader(l)
    ensures LastValue(lines, "Content-Type:", "content-type:") == None
    decreases |lines|
  {
    hide HeaderValue;
    if lines != [] {
      assert lines[|lines| - 1] in lines;
      LastValueOfOthers(lines[..|lines| - 1]);
    }
  }

  lemma LastValueStep(lines: seq<string>, line: string, title: string, lower: string)
    ensures LastValue(lines + [line], title, lower)
            == if HeaderValue(line, title, lower).Some? then HeaderValue(line, title, lower)
              else LastValue(lines, title, lower)
  {
    hide HeaderValue;
    assert (lines + [line])[..|lines|] == lines;
  }

  /** The headers of a composed message are read back. */
  lemma HeadersAreRead(m: Message)
    requires WellFormed(m)
    ensures LengthOf(LastValue(HeaderLines(m), "Content-Length:", "content-length:")) == |m.body|
    ensures LastValue(HeaderLines(m), "Content-Type:", "content-type:") == m.contentType
  {
    hide HeaderValue;
    var digits := Decimal(|m.body|);
    var length := "Content-Length:" + (" " + digits);
    NumberIsTrimmed(|m.body|);
    ParseDecimal(|m.body|, USIZE);
    HeaderLine("Content-Length:", "content-length:", digits);
    LengthLineHasNoType(digits);
    var before := m.others + TypeLines(m.contentType);
    LastValueStep(before, length, "Content-Length:", "content-length:");
    LastValueStep(before, length, "Content-Type:", "content-type:");
    LastValueOfOthers(m.others);
    if m.contentType.Some? {
      HeaderLine("Content-Type:", "content-type:", m.contentType.value);
      LastValueStep(m.others, TypeLines(m.contentType)[0], "Content-Type:", "content-type:");
    } else {
      assert before == m.others;
    }
  }

  lemma HeadLinesAreLines(m: Message)
    requires WellFormed(m)
    ensures forall l :: l in HeadLines(m) ==> OneLine(l)
  {
    assert OneLine(RequestLine(m)) by {
      WordIsOneLine(m.verb);
      WordIsOneLine(m.path);
    }
    assert OneLine(LengthLine(m)) by {
      NumberIsTrimmed(|m.body|);
    }
    if m.contentType.Some? {
      assert OneLine(TypeLines(m.contentType)[0]);
    }
    hide OneLine, HeaderValue, RequestLine, LengthLine;
  }

  lemma HeadIsRead(m: Message)
    requires WellFormed(m)
    ensures ParseHead(Join(HeadLines(m), "\r\n")) == Some(Head(m.verb, m.path, |m.body|, m.contentType))
  {
    HeadLinesAreLines(m);
    LinesOfJoin(HeadLines(m));
    HeadersAreRead(m);
    TwoWords(m.verb, m.path, "HTTP/1.1");
    assert WordAt(Words(RequestLine(m)), 0) == m.verb && WordAt(Words(RequestLine(m)), 1) == m.path;
    hide Lines, Join, Words, LastValue, LengthOf, HeaderValue, NoWhitespace, RequestLine, HeaderLines;
    assert HeadLines(m)[1..] == HeaderLines(m);
  }

  /** What a client composed is what the one-shot parse frames: method, path, content type and
      every byte of the body. */
  lemma ComposedIsParsed(m: Message)
    requires WellFormed(m)
    ensures Parse(Compose(m)) == Framed(m.verb, m.path, m.contentType, m.body)
  {
    var text, s := Join(HeadLines(m), "\r\n"), Compose(m);
    HeadLinesAreLines(m);
    HeadEndsAtBlank(HeadLines(m), m.body);
    DecodeEncode(text);
    HeadIsRead(m);
    hide Find, Join, Encode, DecodeLossy, ParseHead, HeadLines;
    assert s[..|Encode(text)|] == Encode(text);
    assert s[|Encode(text)| + 4..][..|m.body|] == m.body;
  }

  /** And so does `handle`, in whatever reads it arrives, if it is within the limit as a whole. */
  lemma ComposedIsHandled(m: Message, deliveries: seq<seq<byte>>)
    requires WellFormed(m) && Deliveries(deliveries)
    requires Concat(deliveries) == Compose(m) && |Compose(m)| <= MAX_BODY_BYTES
    ensures Handled(deliveries) == Framed(m.verb, m.path, m.contentType, m.body)
  {
    hide Handled, Compose, Parse;
    SmallStreamsAreSafe(deliveries);
    ComposedIsParsed(m);
  }
}
