/** What the header lines of a request declare, in either spelling, in any order and number, and what
    is framed then. */
module RequestHeaders {
  import opened Results
  import opened Utf8
  import opened Strings
  import opened HttpHead
  import opened RequestFramer
  import opened RequestMessages

  /** What a length line says: a number, with a plus sign or zeros before it or not, or something else. */
  datatype Amount = Number(plus: bool, zeros: nat, n: nat) | NoNumber(text: string)

  datatype Line =
    | LengthOf(small: bool, spaces: nat, amount: Amount)
    | TypeOf(small: bool, spaces: nat, value: string)
    | Other(text: string)

  function Said(amount: Amount): string {
    match amount
    case Number(plus, zeros, n) => (if plus then "+" else "") + (Zeros(zeros) + Decimal(n))
    case NoNumber(text) => text
  }

  function Spaces(n: nat): string {
    seq(n, _ => ' ')
  }

  function Written(line: Line): string {
    match line
    case LengthOf(small, spaces, amount) =>
      (if small then "content-length:" else "Content-Length:") + (Spaces(spaces) + Said(amount))
    case TypeOf(small, spaces, value) =>
      (if small then "content-type:" else "Content-Type:") + (Spaces(spaces) + value)
    case Other(text) => text
  }

  /** Nothing, or a character that is no digit, a plus sign in front apart. */
  predicate NotDigits(text: string) {
    || text == "" || text == "+"
    || exists i :: 0 <= i < |text| && text[i] !in "0123456789" && (i > 0 || text[0] != '+')
  }

  predicate Fine(line: Line) {
    match line
    case LengthOf(_, _, amount) =>
      amount.NoNumber? ==>
        && Trimmed(amount.text) && '\r' !in amount.text && '\n' !in amount.text
        && NotDigits(amount.text)
    case TypeOf(_, _, value) => Trimmed(value) && '\r' !in value && '\n' !in value
    case Other(text) =>
      && OneLine(text)
      && !("Content-Length:" <= text) && !("content-length:" <= text)
      && !("Content-Type:" <= text) && !("content-type:" <= text)
  }

  /** The last length line declares the length: no number, or one past 64 bits, declares none. */
  function Declared(lines: seq<Line>): nat {
    if lines == [] then 0
    else
      match lines[|lines| - 1]
      case LengthOf(_, _, amount) => if amount.Number? && amount.n < 0x1_0000_0000_0000_0000 then amount.n else 0
      case _ => Declared(lines[..|lines| - 1])
  }

  /** The last type line declares the type. */
  function DeclaredType(lines: seq<Line>): Option<string> {
    if lines == [] then None
    else
      match lines[|lines| - 1]
      case TypeOf(_, _, value) => Some(value)
      case _ => DeclaredType(lines[..|lines| - 1])
  }

  function AllWritten(lines: seq<Line>): seq<string> {
    seq(|lines|, i requires 0 <= i < |lines| => Written(lines[i]))
  }

  function Texts(verb: string, path: string, lines: seq<Line>): seq<string> {
    [verb + " " + path + " " + "HTTP/1.1"] + AllWritten(lines)
  }

  // ----- One line -----

  lemma {:induction false} TrimAfterSpaces(n: nat, s: string)
    requires Trimmed(s)
    ensures Trim(Spaces(n) + s) == s
    decreases n
  {
    hide IsWhitespace;
    StartAfterSpaces(n, s);
    assert TrimEnd(s) == s;
  }

  lemma {:induction false} StartAfterSpaces(n: nat, s: string)
    requires Trimmed(s)
    ensures TrimStart(Spaces(n) + s) == s
    decreases n
  {
    assert IsWhitespace(' ');
    hide IsWhitespace;
    if n == 0 {
      assert Spaces(n) + s == s;
    } else {
      assert (Spaces(n) + s)[1..] == Spaces(n - 1) + s;
      assert (Spaces(n) + s)[0] == ' ';
      StartAfterSpaces(n - 1, s);
    }
  }

  predicate Numeric(c: char) {
    c == '+' || '0' <= c <= '9'
  }

  lemma NumericIsTrimmed(s: string)
    requires forall i :: 0 <= i < |s| ==> Numeric(s[i])
    ensures Trimmed(s) && '\r' !in s && '\n' !in s
  {
  }

  lemma NumberIsNumeric(plus: bool, zeros: nat, n: nat)
    ensures var text := Said(Number(plus, zeros, n)); forall i :: 0 <= i < |text| ==> Numeric(text[i])
  {
    ZerosInFront(zeros, n);
    var digits, text := Zeros(zeros) + Decimal(n), Said(Number(plus, zeros, n));
    hide Zeros, Decimal;
    forall i | 0 <= i < |text| ensures Numeric(text[i]) {
      var k := if plus then i - 1 else i;
      if k >= 0 {
        assert text[i] == digits[k];
        DigitsAreDigits(digits, k);
      }
    }
  }

  lemma SaidIsTrimmed(amount: Amount)
    requires Fine(LengthOf(false, 0, amount))
    ensures Trimmed(Said(amount)) && '\r' !in Said(amount) && '\n' !in Said(amount)
  {
    hide Trimmed, Numeric;
    if amount.Number? {
      NumberIsNumeric(amount.plus, amount.zeros, amount.n);
      NumericIsTrimmed(Said(amount));
    }
  }

  lemma {:induction false} DigitsAreDigits(s: string, i: nat)
    requires AllDigits(s) && i < |s|
    ensures '0' <= s[i] <= '9'
    decreases |s|
  {
    if i < |s| - 1 {
      DigitsAreDigits(s[..|s| - 1], i);
    }
  }

  lemma AmountIsParsed(amount: Amount)
    requires Fine(LengthOf(false, 0, amount))
    ensures RequestFramer.LengthOf(Some(Said(amount)))
            == if amount.Number? && amount.n < 0x1_0000_0000_0000_0000 then amount.n else 0
  {
    match amount
    case Number(plus, zeros, n) => NumberIsParsed(plus, zeros, n);
    case NoNumber(text) =>
      var digits := if text != "" && text[0] == '+' then text[1..] else text;
      if digits != "" && AllDigits(digits) {
        var i :| 0 <= i < |text| && text[i] !in "0123456789" && (i > 0 || text[0] != '+');
        var k := if text[0] == '+' then i - 1 else i;
        assert digits[k] == text[i];
        DigitsAreDigits(digits, k);
        DigitsIn(text[i]);
        assert false;
      }
  }

  lemma NumberIsParsed(plus: bool, zeros: nat, n: nat)
    ensures ParseUnsigned(Said(Number(plus, zeros, n)), USIZE) == if n < USIZE then Some(n) else None
  {
    ZerosInFront(zeros, n);
    DecimalDigits(n);
    hide Zeros, Decimal, AllDigits, DigitsValue, ParseUnsigned;
    var digits := Zeros(zeros) + Decimal(n);
    assert digits != "";
    DigitsAreParsed(plus, digits);
  }

  lemma DigitsAreParsed(plus: bool, digits: string)
    requires digits != "" && AllDigits(digits)
    ensures ParseUnsigned((if plus then "+" else "") + digits, USIZE)
            == if DigitsValue(digits) < USIZE then Some(DigitsValue(digits)) else None
  {
    DigitsAreDigits(digits, 0);
    hide AllDigits, DigitsValue;
    if plus {
      assert ("+" + digits)[1..] == digits;
    } else {
      assert "" + digits == digits;
    }
  }

  lemma DigitsIn(c: char)
    requires '0' <= c <= '9'
    ensures c in "0123456789"
  {
    assert "0123456789"[c as int - '0' as int] == c;
  }

  /** What a line is as a header of one name. */
  lemma NamedLine(name: string, value: string, title: string, small: string)
    requires |title| > 8 && |small| > 8 && |name| > 8
    ensures name[8] != title[8] && name[8] != small[8] ==> HeaderValue(name + value, title, small) == None
  {
    hide Trim;
    PrefixAt(name + value, title);
    PrefixAt(name + value, small);
    assert (name + value)[8] == name[8];
  }

  lemma OwnLine(small: bool, title: string, lower: string, spaces: nat, value: string)
    requires Trimmed(value) && title != "" && lower != "" && title[0] != lower[0]
    ensures HeaderValue((if small then lower else title) + (Spaces(spaces) + value), title, lower) == Some(value)
  {
    TrimAfterSpaces(spaces, value);
    hide Trim, Spaces;
    var name := if small then lower else title;
    var line := name + (Spaces(spaces) + value);
    assert line[0] == name[0];
    assert line[|name|..] == Spaces(spaces) + value;
  }

  lemma LineIsRead(line: Line)
    requires Fine(line)
    ensures HeaderValue(Written(line), "Content-Length:", "content-length:")
            == if line.LengthOf? then Some(Said(line.amount)) else None
    ensures HeaderValue(Written(line), "Content-Type:", "content-type:")
            == if line.TypeOf? then Some(line.value) else None
  {
    hide HeaderValue, Trim, Spaces;
    match line
    case LengthOf(small, spaces, amount) =>
      SaidIsTrimmed(amount);
      OwnLine(small, "Content-Length:", "content-length:", spaces, Said(amount));
      NamedLine(if small then "content-length:" else "Content-Length:", Spaces(spaces) + Said(amount),
                "Content-Type:", "content-type:");
    case TypeOf(small, spaces, value) =>
      OwnLine(small, "Content-Type:", "content-type:", spaces, value);
      NamedLine(if small then "content-type:" else "Content-Type:", Spaces(spaces) + value, "Content-Length:",
                "content-length:");
    case Other(text) => OtherIsNone(text);
  }

  lemma OtherIsNone(text: string)
    requires Fine(Other(text))
    ensures HeaderValue(text, "Content-Length:", "content-length:") == None
    ensures HeaderValue(text, "Content-Type:", "content-type:") == None
  {
  }

  lemma {:induction false} LinesAreRead(lines: seq<Line>)
    requires forall l :: l in lines ==> Fine(l)
    ensures RequestFramer.LengthOf(LastValue(AllWritten(lines), "Content-Length:", "content-length:"))
            == Declared(lines)
    ensures LastValue(AllWritten(lines), "Content-Type:", "content-type:") == DeclaredType(lines)
    decreases |lines|
  {
    hide HeaderValue, Written, RequestFramer.LengthOf, Fine, Said;
    if lines != [] {
      var before, last := lines[..|lines| - 1], lines[|lines| - 1];
      assert last in lines;
      LinesAreRead(before);
      assert AllWritten(lines) == AllWritten(before) + [Written(last)];
      LineIsRead(last);
      LastValueStep(AllWritten(before), Written(last), "Content-Length:", "content-length:");
      LastValueStep(AllWritten(before), Written(last), "Content-Type:", "content-type:");
      if last.LengthOf? {
        FineAmount(last);
        AmountIsParsed(last.amount);
      }
    } else {
      NothingDeclared();
    }
  }

  lemma FineAmount(line: Line)
    requires Fine(line) && line.LengthOf?
    ensures Fine(LengthOf(false, 0, line.amount))
  {
  }

  lemma NothingDeclared()
    ensures RequestFramer.LengthOf(None) == 0
  {
  }

  // ----- The message -----

  lemma LineIsOneLine(line: Line)
    requires Fine(line)
    ensures OneLine(Written(line))
  {
    match line
    case LengthOf(small, spaces, amount) =>
      SaidIsTrimmed(amount);
      hide Said, Trimmed;
      NoLineEnds(if small then "content-length:" else "Content-Length:", spaces, Said(amount));
    case TypeOf(small, spaces, value) =>
      NoLineEnds(if small then "content-type:" else "Content-Type:", spaces, value);
    case Other(_) =>
  }

  lemma NoLineEnds(name: string, spaces: nat, value: string)
    requires OneLine(name) && '\r' !in value && '\n' !in value
    ensures OneLine(name + (Spaces(spaces) + value))
  {
    assert forall c :: c in Spaces(spaces) ==> c == ' ';
  }

  lemma TextsAreLines(verb: string, path: string, lines: seq<Line>)
    requires verb != "" && NoWhitespace(verb) && NoWhitespace(path) && forall l :: l in lines ==> Fine(l)
    ensures forall t :: t in Texts(verb, path, lines) ==> OneLine(t)
  {
    hide Fine, Written, OneLine, NoWhitespace;
    FirstIsOneLine(verb, path);
    forall i | 0 <= i < |lines| ensures OneLine(AllWritten(lines)[i]) {
      assert lines[i] in lines;
      LineIsOneLine(lines[i]);
    }
  }

  lemma FirstIsOneLine(verb: string, path: string)
    requires verb != "" && NoWhitespace(verb) && NoWhitespace(path)
    ensures OneLine(verb + " " + path + " " + "HTTP/1.1")
  {
    WordIsOneLine(verb);
    WordIsOneLine(path);
  }

  lemma HeadLinesAreRead(verb: string, path: string, lines: seq<Line>)
    requires verb != "" && path != "" && NoWhitespace(verb) && NoWhitespace(path)
    requires forall l :: l in lines ==> Fine(l)
    ensures ParseHead(Join(Texts(verb, path, lines), "\r\n"))
            == Some(Head(verb, path, Declared(lines), DeclaredType(lines)))
  {
    TextsAreLines(verb, path, lines);
    var texts := Texts(verb, path, lines);
    LinesOfJoin(texts);
    LinesAreRead(lines);
    TwoWords(verb, path, "HTTP/1.1");
    hide Lines, Join, Words, LastValue, RequestFramer.LengthOf, HeaderValue, NoWhitespace, Declared, DeclaredType, Fine,
         Written;
    assert texts[1..] == AllWritten(lines);
  }

  /** Any request line, any header lines with the two names in either spelling, any number of times,
      and anything behind the blank line: more than 65536 bytes declared are refused; else what is
      framed has the type of the last type line, and as its body the bytes that the last length line
      declares, or none if they do not all come. */
  lemma DeclaredIsFramed(verb: string, path: string, lines: seq<Line>, rest: seq<byte>)
    requires verb != "" && path != "" && NoWhitespace(verb) && NoWhitespace(path)
    requires forall l :: l in lines ==> Fine(l)
    ensures var n := Declared(lines);
            Parse(Encode(Join(Texts(verb, path, lines), "\r\n")) + [13, 10, 13, 10] + rest)
            == if n > 65536 then TooLarge
               else Framed(verb, path, DeclaredType(lines), if n <= |rest| then rest[..n] else [])
  {
    var texts := Texts(verb, path, lines);
    var text := Join(texts, "\r\n");
    var s := Encode(text) + BLANK + rest;
    TextsAreLines(verb, path, lines);
    HeadEndsAtBlank(texts, rest);
    DecodeEncode(text);
    HeadLinesAreRead(verb, path, lines);
    hide Find, Join, Encode, DecodeLossy, ParseHead, Texts, Declared, DeclaredType, Fine, OneLine, NoWhitespace, Parse;
    FramedBehind(Encode(text), rest, Head(verb, path, Declared(lines), DeclaredType(lines)));
  }

  lemma FramedBehind(head: seq<byte>, rest: seq<byte>, h: Head)
    requires Find(head + BLANK + rest) == Some(|head|) && ParseHead(DecodeLossy(head)) == Some(h)
    ensures Parse(head + BLANK + rest)
            == if h.contentLength > 65536 then TooLarge
               else Framed(h.verb, h.path, h.contentType,
                           if h.contentLength <= |rest| then rest[..h.contentLength] else [])
  {
    hide Find, DecodeLossy, ParseHead;
    var s, n, from := head + BLANK + rest, h.contentLength, |head| + 4;
    assert s[..|head|] == head;
    assert |s| == from + |rest|;
    if n <= |rest| {
      assert s[from..from + n] == rest[..n];
    }
  }

  // ----- Line feeds alone -----

  lemma {:induction false} LinesOfFeeds(lines: seq<string>)
    requires forall l :: l in lines ==> OneLine(l)
    ensures Lines(Join(lines, "\n")) == lines && '\r' !in Join(lines, "\n")
    decreases |lines|
  {
    if lines != [] {
      assert lines[0] in lines;
      if |lines| == 1 {
        SplitOnceMisses(lines[0], '\n');
      } else {
        var rest := Join(lines[1..], "\n");
        assert Join(lines, "\n") == lines[0] + ['\n'] + rest;
        SplitOnceFinds(lines[0], '\n', rest);
        LinesOfFeeds(lines[1..]);
      }
    }
  }

  /** Inside the head lines may end in a line feed alone. */
  lemma LineFeedsAreEnough(verb: string, path: string, lines: seq<Line>, rest: seq<byte>)
    requires verb != "" && path != "" && NoWhitespace(verb) && NoWhitespace(path)
    requires forall l :: l in lines ==> Fine(l)
    ensures var texts := Texts(verb, path, lines);
            Parse(Encode(Join(texts, "\n")) + [13, 10, 13, 10] + rest)
            == Parse(Encode(Join(texts, "\r\n")) + [13, 10, 13, 10] + rest)
  {
    var texts := Texts(verb, path, lines);
    var text := Join(texts, "\n");
    TextsAreLines(verb, path, lines);
    LinesOfFeeds(texts);
    LinesOfJoin(texts);
    EncodeAvoids(text, '\r');
    LastLineEnds(Encode(text), rest);
    DecodeEncode(text);
    SameHead(text, Join(texts, "\r\n"));
    HeadLinesAreRead(verb, path, lines);
    DeclaredIsFramed(verb, path, lines, rest);
    hide Find, Join, Encode, DecodeLossy, ParseHead, Texts, Declared, DeclaredType, Fine, OneLine, NoWhitespace, Parse;
    FramedBehind(Encode(text), rest, Head(verb, path, Declared(lines), DeclaredType(lines)));
  }

  lemma SameHead(a: string, b: string)
    requires Lines(a) == Lines(b)
    ensures ParseHead(a) == ParseHead(b)
  {
    hide Lines, Words, LastValue, RequestFramer.LengthOf;
  }
}
