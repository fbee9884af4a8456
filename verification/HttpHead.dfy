/** The head of an HTTP message: its lines, and the blank line that ends it. */
module HttpHead {
  import opened Results
  import opened Utf8
  import opened Strings

  const CRLF: seq<byte> := [13, 10]
  const BLANK: seq<byte> := [13, 10, 13, 10]

  // ----- The end of the head -----

  predicate BlankLine(s: seq<byte>) {
    |s| >= 4 && s[0] == 13 && s[1] == 10 && s[2] == 13 && s[3] == 10
  }

  /** Where CRLF CRLF first begins. */
  function Find(s: seq<byte>): (r: Option<nat>)
    ensures r.Some? ==> r.value + 4 <= |s|
  {
    if BlankLine(s) then Some(0)
    else if s == [] then None
    else
      var rest := Find(s[1..]);
      if rest.None? then None else Some(rest.value + 1)
  }

  /** `str::lines`: a line ends at LF, with a CR before it dropped. */
  function Lines(s: string): seq<string>
    decreases |s|
  {
    var parts := SplitOnce(s, '\n');
    if s == "" then []
    else if parts.None? then [s]
    else [DropCr(parts.value.0)] + Lines(parts.value.1)
  }

  function DropCr(line: string): string {
    if line != "" && line[|line| - 1] == '\r' then line[..|line| - 1] else line
  }

  predicate OneLine(line: string) {
    line != "" && '\r' !in line && '\n' !in line
  }

  // ----- Laws -----

  lemma {:induction false} FindInPrefix(s: seq<byte>, n: nat)
    requires n <= |s|
    ensures Find(s[..n]) == if Find(s).Some? && Find(s).value + 4 <= n then Find(s) else None
    decreases |s|
  {
    if n > 0 {
      assert s[..n][1..] == s[1..][..n - 1];
      FindInPrefix(s[1..], n - 1);
      assert BlankLine(s[..n]) <==> BlankLine(s) && n >= 4;
    }
  }

  lemma {:induction false} EncodeAvoids(s: string, c: char)
    requires c !in s && c < '\U{80}'
    ensures c as int !in Encode(s)
    decreases |s|
  {
    if s != "" {
      CharAvoids(s[0], c);
      hide EncodeChar;
      EncodeAvoids(s[1..], c);
    }
  }

  lemma CharAvoids(a: char, c: char)
    requires a != c && c < '\U{80}'
    ensures c as int !in EncodeChar(a)
  {
  }

  lemma {:induction false} FindSkips(a: seq<byte>, rest: seq<byte>)
    requires 13 !in a
    ensures Find(a + rest) == if Find(rest).Some? then Some(|a| + Find(rest).value) else None
    decreases |a|
  {
    if a == [] {
      assert a + rest == rest;
    } else {
      assert (a + rest)[0] == a[0] && a[0] in a;
      assert (a + rest)[1..] == a[1..] + rest;
      FindSkips(a[1..], rest);
    }
  }

  /** A line end with something other than a line end after it. */
  lemma FindSkipsLineEnd(rest: seq<byte>)
    requires rest != [] && rest[0] != 13
    ensures Find(CRLF + rest) == if Find(rest).Some? then Some(2 + Find(rest).value) else None
  {
    var s := CRLF + rest;
    assert s[2] == rest[0] && s[1] == 10;
    assert s[1..][1..] == rest;
    assert !BlankLine(s) && !BlankLine(s[1..]);
  }

  lemma FindBlank(body: seq<byte>)
    ensures Find(BLANK + body) == Some(0)
  {
  }

  lemma {:induction false} LinesOfJoin(lines: seq<string>)
    requires forall l :: l in lines ==> OneLine(l)
    ensures Lines(Join(lines, "\r\n")) == lines
    decreases |lines|
  {
    if lines != [] {
      assert lines[0] in lines;
      if |lines| == 1 {
        SplitOnceMisses(lines[0], '\n');
      } else {
        var rest := Join(lines[1..], "\r\n");
        var first := lines[0] + "\r";
        assert Join(lines, "\r\n") == first + ['\n'] + rest;
        SplitOnceFinds(first, '\n', rest);
        assert first[..|first| - 1] == lines[0];
        LinesOfJoin(lines[1..]);
      }
    }
  }

  lemma EncodeLineEnd(rest: string)
    ensures Encode("\r\n" + rest) == CRLF + Encode(rest)
  {
    EncodeConcat("\r\n", rest);
    assert Encode("\r\n") == EncodeChar('\r') + Encode("\n");
    assert Encode("\n") == EncodeChar('\n') + Encode("");
    assert "\r\n"[1..] == "\n" && "\n"[1..] == "";
  }

  lemma LastLineEnds(first: seq<byte>, body: seq<byte>)
    requires 13 !in first
    ensures Find(first + BLANK + body) == Some(|first|)
  {
    assert first + BLANK + body == first + (BLANK + body);
    FindBlank(body);
    FindSkips(first, BLANK + body);
  }

  /** Nothing ends a head across a byte that is in no line end. */
  lemma {:induction false} FindPast(a: seq<byte>, x: byte, rest: seq<byte>)
    requires x != 13 && x != 10 && Find(a).None?
    ensures Find(a + [x] + rest) == if Find(rest).Some? then Some(|a| + 1 + Find(rest).value) else None
    decreases |a|
  {
    var s := a + [x] + rest;
    assert s[|a|] == x;
    if a == [] {
      assert s[1..] == rest;
    } else {
      assert s[1..] == a[1..] + [x] + rest;
      assert |a| >= 4 ==> s[..4] == a[..4];
      FindPast(a[1..], x, rest);
    }
  }

  // ----- The same in text -----

  /** `str::find("\r\n\r\n")`, in characters. */
  function FindText(text: string): (r: Option<nat>)
    ensures r.Some? ==> r.value + 4 <= |text|
  {
    if "\r\n\r\n" <= text then Some(0)
    else if text == "" then None
    else
      var rest := FindText(text[1..]);
      if rest.None? then None else Some(rest.value + 1)
  }

  lemma FirstByteIs(text: string, c: char)
    requires text != "" && c < '\U{80}'
    ensures Encode(text) != [] && (Encode(text)[0] == c as int <==> text[0] == c)
    ensures text[0] == c ==> Encode(text)[1..] == Encode(text[1..])
  {
    if text[0] != c {
      CharAvoids(text[0], c);
      assert Encode(text)[0] == EncodeChar(text[0])[0];
    } else {
      assert Encode(text) == [c as int] + Encode(text[1..]);
    }
  }

  lemma BlankLineInText(text: string)
    ensures BlankLine(Encode(text)) <==> "\r\n\r\n" <= text
  {
    hide Encode;
    EncodeEmpty();
    if text != "" {
      FirstByteIs(text, '\r');
      if text[0] == '\r' && text[1..] != "" {
        FirstByteIs(text[1..], '\n');
        if text[1] == '\n' && text[2..] != "" {
          assert text[1..][1..] == text[2..];
          FirstByteIs(text[2..], '\r');
          if text[2] == '\r' && text[3..] != "" {
            assert text[2..][1..] == text[3..];
            FirstByteIs(text[3..], '\n');
          }
        }
      }
    }
  }

  lemma EncodeEmpty()
    ensures Encode("") == []
  {
  }

  lemma FindSkipsOne(s: seq<byte>)
    ensures s != [] && !BlankLine(s) ==>
              Find(s) == if Find(s[1..]).Some? then Some(1 + Find(s[1..]).value) else None
  {
  }

  /** Where a text does not begin with the blank line, it is looked for behind the first
      character, in the text and in its bytes. */
  lemma TextFindSkips(text: string)
    requires text != "" && !("\r\n\r\n" <= text)
    ensures var rest := Find(Encode(text[1..]));
            Find(Encode(text)) == if rest.Some? then Some(|EncodeChar(text[0])| + rest.value) else None
  {
    hide Encode, EncodeChar, Find;
    EncodeHead(text);
    if text[0] == '\r' {
      ReturnSkipped(text);
    } else {
      CharSkipped(text[0], Encode(text[1..]));
    }
  }

  lemma ReturnSkipped(text: string)
    requires text != "" && !("\r\n\r\n" <= text) && text[0] == '\r'
    ensures var rest := Find(Encode(text[1..]));
            Find(Encode(text)) == if rest.Some? then Some(1 + rest.value) else None
  {
    hide Encode, Find, BlankLine;
    BlankLineInText(text);
    FindSkipsOne(Encode(text));
    FirstByteIs(text, '\r');
  }

  lemma CharSkipped(c: char, rest: seq<byte>)
    requires c != '\r'
    ensures Find(EncodeChar(c) + rest)
            == if Find(rest).Some? then Some(|EncodeChar(c)| + Find(rest).value) else None
  {
    CharAvoids(c, '\r');
    hide EncodeChar, Find;
    FindSkips(EncodeChar(c), rest);
  }

  lemma EncodeHead(text: string)
    requires text != ""
    ensures Encode(text) == EncodeChar(text[0]) + Encode(text[1..])
    ensures text[0] == '\r' ==> |EncodeChar(text[0])| == 1
  {
  }

  /** The blank line is found at the same place in a text and in its bytes. */
  lemma {:induction false} TextFindsBytes(text: string)
    ensures var r := FindText(text);
            Find(Encode(text)) == if r.Some? then Some(|Encode(text[..r.value])|) else None
    decreases |text|
  {
    hide EncodeChar, Find;
    if "\r\n\r\n" <= text {
      BlankLineInText(text);
      FindAtOnce(Encode(text));
      assert text[..0] == "";
    } else if text != "" {
      var rest := text[1..];
      TextFindSkips(text);
      TextFindsBytes(rest);
      if FindText(rest).Some? {
        var k := FindText(rest).value;
        assert text[..k + 1][1..] == rest[..k];
        EncodeHead(text[..k + 1]);
      }
    } else {
      FindAtOnce(Encode(text));
    }
  }

  lemma FindAtOnce(s: seq<byte>)
    ensures BlankLine(s) ==> Find(s) == Some(0)
    ensures s == [] ==> Find(s) == None
  {
  }

  // ----- Read by read -----

  function Concat(chunks: seq<seq<byte>>): seq<byte> {
    if chunks == [] then [] else chunks[0] + Concat(chunks[1..])
  }

  lemma {:induction false} ConcatAppend(chunks: seq<seq<byte>>, i: nat)
    requires i < |chunks|
    ensures Concat(chunks[..i + 1]) == Concat(chunks[..i]) + chunks[i]
    ensures Concat(chunks) == Concat(chunks[..i + 1]) + Concat(chunks[i + 1..])
    decreases i
  {
    if i == 0 {
      assert chunks[..1][1..] == [] && chunks[..0] == [];
      assert Concat(chunks[..1]) == chunks[0] + Concat([]);
      assert Concat(chunks[..0]) == [];
    } else {
      ConcatAppend(chunks[1..], i - 1);
      assert chunks[1..][..i - 1] == chunks[..i][1..] && chunks[1..][..i] == chunks[..i + 1][1..];
      assert chunks[1..][i..] == chunks[i + 1..];
    }
  }

  lemma HeldIsPrefix(chunks: seq<seq<byte>>, n: nat, bytes: seq<byte>)
    requires n <= |chunks| && bytes == Concat(chunks[..n])
    ensures bytes <= Concat(chunks) && (n == |chunks| ==> bytes == Concat(chunks))
    ensures var whole := Find(Concat(chunks));
            Find(bytes) == if whole.Some? && whole.value + 4 <= |bytes| then whole else None
  {
    assert chunks[..|chunks|] == chunks;
    if n < |chunks| {
      ConcatAppend(chunks, n);
    }
    assert Concat(chunks)[..|bytes|] == bytes;
    FindInPrefix(Concat(chunks), |bytes|);
  }
}
