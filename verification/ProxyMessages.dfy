/** What the forwarder sends on, byte for byte, said of the bytes that were buffered. */
module ProxyMessages {
  import opened Results
  import opened Utf8
  import opened Strings
  import opened HttpHead
  import opened ProxyForwarder

  predicate LineEndsAt(s: seq<byte>, i: nat)
    requires i + 4 <= |s|
  {
    s[i] == 13 && s[i + 1] == 10 && s[i + 2] == 13 && s[i + 3] == 10
  }

  /** The first blank line is at `k`. */
  predicate BlankAt(s: seq<byte>, k: nat) {
    k + 4 <= |s| && LineEndsAt(s, k) && forall i :: 0 <= i < k ==> !LineEndsAt(s, i)
  }

  /** `CONNECT` and a space. */
  predicate Connects(s: seq<byte>) {
    [67, 79, 78, 78, 69, 67, 84, 32] <= s
  }

  lemma {:induction false} BlankIsFound(s: seq<byte>, k: nat)
    ensures BlankAt(s, k) <==> Find(s) == Some(k)
    decreases |s|
  {
    if k == 0 {
      assert BlankAt(s, 0) <==> BlankLine(s);
    } else if s != [] {
      BlankIsFound(s[1..], k - 1);
      if k + 4 <= |s| {
        assert BlankLine(s) <==> LineEndsAt(s, 0);
        assert forall i :: 0 <= i < k ==> (LineEndsAt(s[1..], i) <==> LineEndsAt(s, i + 1));
        assert BlankAt(s, k) ==> BlankAt(s[1..], k - 1) && !BlankLine(s);
        if BlankAt(s[1..], k - 1) && !BlankLine(s) {
          forall i | 0 < i < k ensures !LineEndsAt(s, i) {
            assert !LineEndsAt(s[1..], i - 1);
          }
        }
      }
    }
  }

  // ----- The first line -----

  const CONNECT: string := "CONNECT "

  /** The first line begins with the word exactly when the text does. */
  lemma FirstLineBegins(text: string)
    ensures CONNECT <= FirstLine(text) <==> CONNECT <= text
  {
    var parts := SplitOnce(text, '\n');
    if text != "" && parts.Some? {
      SplitOnceParts(text, '\n');
      var line := parts.value.0;
      assert FirstLine(text) == DropCr(line);
      assert text[|line|] == '\n' && forall i :: 0 <= i < 8 ==> CONNECT[i] != '\n';
      if CONNECT <= text {
        assert line[7] == text[7] == ' ';
        assert CONNECT <= line;
      }
    }
  }

  lemma {:induction false} SplitOnceParts(s: string, c: char)
    requires SplitOnce(s, c).Some?
    ensures var (a, b) := SplitOnce(s, c).value; s == a + [c] + b && c !in a
    decreases |s|
  {
    if s[0] != c {
      SplitOnceParts(s[1..], c);
      var (a, b) := SplitOnce(s[1..], c).value;
      assert s == [s[0]] + s[1..];
    } else {
      assert s == [c] + s[1..];
    }
  }

  lemma {:induction false} PlainBegins(word: string, text: string)
    requires forall i :: 0 <= i < |word| ==> word[i] < '\U{80}'
    ensures word <= text <==> Codes(word) <= Encode(text)
    decreases |word|
  {
    hide EncodeChar;
    if word != "" && text != "" {
      FirstByteIs(text, word[0]);
      PlainBegins(word[1..], text[1..]);
      assert Codes(word) == [word[0] as int] + Codes(word[1..]);
      if text[0] == word[0] {
        assert word <= text <==> word[1..] <= text[1..];
        var bytes := Encode(text);
        assert bytes == [bytes[0]] + bytes[1..];
        assert Codes(word) <= bytes <==> Codes(word[1..]) <= bytes[1..] by {
          assert bytes[0] == Codes(word)[0];
          assert Codes(word)[1..] == Codes(word[1..]);
          PrefixTail(Codes(word), bytes);
        }
      }
    } else if text == "" {
      EncodeEmpty();
    }
  }

  lemma PrefixTail(a: seq<byte>, b: seq<byte>)
    requires a != [] && b != [] && a[0] == b[0]
    ensures a <= b <==> a[1..] <= b[1..]
  {
    if a[1..] <= b[1..] {
      assert a == [a[0]] + a[1..] && b == [b[0]] + b[1..];
    }
  }

  function Codes(word: string): seq<byte>
    requires forall i :: 0 <= i < |word| ==> word[i] < '\U{80}'
  {
    seq(|word|, i requires 0 <= i < |word| => word[i] as int)
  }

  lemma ConnectsIsConnect(buf: seq<byte>)
    requires Find(buf).Some? && IsUtf8(HeadOf(buf))
    ensures IsConnect(buf) <==> Connects(buf)
  {
    HeadConnects(HeadOf(buf));
    HeadBegins(buf, Find(buf).value);
    hide FirstLine, RequestText, IsUtf8, Encode, Find, Connects;
  }

  lemma HeadConnects(head: seq<byte>)
    requires IsUtf8(head)
    ensures CONNECT <= FirstLine(RequestText(head)) <==> Connects(head)
  {
    TextIsHead(head);
    WordCodes();
    var text := RequestText(head);
    FirstLineBegins(text);
    PlainBegins(CONNECT, text);
    hide FirstLine, RequestText, IsUtf8, Encode, Codes;
  }

  lemma WordCodes()
    ensures Codes(CONNECT) == [67, 79, 78, 78, 69, 67, 84, 32]
  {
  }

  lemma TextIsHead(head: seq<byte>)
    requires IsUtf8(head)
    ensures Encode(RequestText(head)) == head
  {
    hide Encode, DecodeLossy;
  }

  /** The blank line has no letter of the word in it. */
  lemma HeadBegins(buf: seq<byte>, k: nat)
    requires Find(buf) == Some(k)
    ensures Connects(buf) <==> Connects(buf[..k + 4])
  {
    BlankIsFound(buf, k);
    assert buf[k] == 13;
  }

  // ----- What is sent -----

  /** A head that is UTF-8 and no CONNECT: without a credential all that was buffered goes on as it
      is, and with one all of it, the line standing before the blank line. */
  lemma OthersGoWhole(buf: seq<byte>, k: nat, line: string)
    requires BlankAt(buf, k) && IsUtf8(buf[..k + 4]) && !Connects(buf) && OneLine(line)
    ensures Find(buf) == Some(k) && IsHeader(line + "\r\n")
    ensures Forwarded(buf, None) == buf
    ensures Forwarded(buf, Some(line + "\r\n")) == buf[..k] + [13, 10] + Encode(line) + buf[k..]
  {
    BlankIsFound(buf, k);
    ConnectsIsConnect(buf);
    HeaderOf(line);
    assert HeadOf(buf) == buf[..k + 4] && Behind(buf) == buf[k + 4..];
    hide IsUtf8, Encode, Find, IsConnect, OneLine, IsHeader, LineOf, WithLine, HeadOf, Behind, BlankAt, Connects;
    LineIn(buf[..k + 4], line);
    Reassembled(buf, k, Encode(line));
  }

  lemma Reassembled(buf: seq<byte>, k: nat, line: seq<byte>)
    requires k + 4 <= |buf|
    ensures var head, tail := buf[..k + 4], buf[k + 4..];
            && head + tail == buf
            && head[..|head| - 4] + [13, 10] + line + head[|head| - 4..] + tail == buf[..k] + [13, 10] + line + buf[k..]
  {
    var head := buf[..k + 4];
    assert head[..k] == buf[..k] && head[k..] + buf[k + 4..] == buf[k..];
  }

  lemma HeaderOf(line: string)
    requires OneLine(line)
    ensures IsHeader(line + "\r\n") && LineOf(Some(line + "\r\n")) == Some(line) && LineOf(None) == None
  {
    assert (line + "\r\n")[..|line|] == line;
  }

  /** A CONNECT: the head goes on without what is behind it. */
  lemma ConnectsGoAlone(buf: seq<byte>, k: nat, line: string)
    requires BlankAt(buf, k) && IsUtf8(buf[..k + 4]) && Connects(buf) && OneLine(line)
    ensures Find(buf) == Some(k) && IsHeader(line + "\r\n")
    ensures Forwarded(buf, None) == buf[..k + 4]
    ensures Forwarded(buf, Some(line + "\r\n")) == buf[..k] + [13, 10] + Encode(line) + [13, 10, 13, 10]
  {
    BlankIsFound(buf, k);
    ConnectsIsConnect(buf);
    HeaderOf(line);
    BlankIsThere(buf, k);
    assert HeadOf(buf) == buf[..k + 4];
    hide IsUtf8, Encode, Find, IsConnect, OneLine, IsHeader, LineOf, Forwarded, BlankAt, Connects, HeadOf, WithLine;
    ConnectIsRewritten(buf, None);
    ConnectIsRewritten(buf, Some(line + "\r\n"));
    LineIn(buf[..k + 4], line);
  }

  lemma BlankIsThere(buf: seq<byte>, k: nat)
    requires BlankAt(buf, k)
    ensures var head := buf[..k + 4]; head[..|head| - 4] == buf[..k] && head[|head| - 4..] == [13, 10, 13, 10]
  {
  }

  lemma LineIn(head: seq<byte>, line: string)
    requires |head| >= 4
    ensures WithLine(head, None) == head
    ensures WithLine(head, Some(line)) == head[..|head| - 4] + [13, 10] + Encode(line) + head[|head| - 4..]
  {
    hide Encode;
  }

  /** Any accepted proxy URL, any buffered UTF-8 head that is no CONNECT: what is sent is all that was
      buffered, body and all, with one line more if the URL has a credential, and that line decodes to
      the text before the first '@' of the URL. */
  lemma OthersCarryTheCredential(url: string, buf: seq<byte>, k: nat)
    requires ParseProxy(url).Some? && BlankAt(buf, k) && IsUtf8(buf[..k + 4]) && !Connects(buf)
    ensures Find(buf) == Some(k)
    ensures var header := ParseProxy(url).value.authHeader;
            && (header.Some? ==> IsHeader(header.value))
            && match CredentialOf(url)
               case None => Forwarded(buf, header) == buf
               case Some(userPass) =>
                 exists line: string ::
                   && OneLine(line) && DecodedCredential(line) == Some(Encode(userPass))
                   && Forwarded(buf, header) == buf[..k] + [13, 10] + Encode(line) + buf[k..]
  {
    ParsedHeaderIsHeader(url);
    match CredentialOf(url)
    case None =>
      OthersGoWhole(buf, k, "x");
    case Some(userPass) =>
      OneLineCredential(userPass);
      CredentialDecodes(userPass);
      OthersGoWhole(buf, k, Credential(userPass));
  }

  // ----- Proxy URLs -----

  /** A URL without a credential is read as it is written too. */
  lemma PlainUrlParses(scheme: string, host: string, port: string, path: string)
    requires scheme in ["http://", "https://"]
    requires ':' !in host && '/' !in host && '/' !in port && (path == "" || path[0] == '/')
    requires '@' !in host && '@' !in port && '@' !in path
    ensures var url, n := scheme + (host + ":" + port + path), ParseUnsigned(port, 65536);
            && CredentialOf(url) == None
            && ParseProxy(url) == if n.None? then None else Some(Upstream(host, n.value, None))
  {
    var address := host + ":" + port + path;
    HostPortParses(host, port, path, None);
    SplitOnceMisses(address, '@');
    hide HostPort, ParseUnsigned;
    SchemeStrips(scheme, address);
  }

  /** Another scheme, or no colon before the path, is refused. */
  lemma OtherUrlsAreRefused(url: string, host: string, path: string)
    requires '@' !in host && ':' !in host && '/' !in host && '@' !in path && (path == "" || path[0] == '/')
    ensures !("http://" <= url) && !("https://" <= url) ==> ParseProxy(url) == None
    ensures ParseProxy("http://" + (host + path)) == None
  {
    var address := host + path;
    SchemeStrips("http://", address);
    SplitOnceMisses(address, '@');
    if path == "" {
      SplitOnceMisses(host, '/');
      assert host + path == host;
    } else {
      SplitOnceFinds(host, '/', path[1..]);
      assert host + path == host + ['/'] + path[1..];
    }
    SplitOnceMisses(host, ':');
  }
}
