/** The local forwarder of examples/chrome_proxy_dns_shortcircuit.rs: it puts the credential of
    the upstream proxy into the first request of a connection. */
module ProxyForwarder {
  import opened Results
  import opened Utf8
  import opened Strings
  import opened Base64
  import opened HttpHead

  const BUFFER_BYTES: nat := 8192

  // ----- The upstream proxy -----

  datatype Upstream = Upstream(host: string, port: nat, authHeader: Option<string>)

  /** The header line without its CRLF. */
  function Credential(userPass: string): string {
    "Proxy-Authorization: Basic " + EncodeBase64(Encode(userPass))
  }

  function HostPort(text: string, authHeader: Option<string>): Option<Upstream> {
    var beforePath := Split(text, '/')[0];
    var parts := SplitOnce(beforePath, ':');
    if parts.None? || ParseUnsigned(parts.value.1, 0x1_0000).None? then None
    else Some(Upstream(parts.value.0, ParseUnsigned(parts.value.1, 0x1_0000).value, authHeader))
  }

  /** The URL behind its scheme. */
  function Authority(url: string): Option<string> {
    var plain := StripPrefix(url, "http://");
    if plain.Some? then plain else StripPrefix(url, "https://")
  }

  /** The text before the first '@'. */
  function CredentialOf(url: string): Option<string> {
    if Authority(url).None? || SplitOnce(Authority(url).value, '@').None? then None
    else Some(SplitOnce(Authority(url).value, '@').value.0)
  }

  /** `parse_proxy` */
  function ParseProxy(url: string): Option<Upstream> {
    var rest := Authority(url);
    if rest.None? then None
    else
      var parts := SplitOnce(rest.value, '@');
      if parts.None? then HostPort(rest.value, None)
      else HostPort(parts.value.1, Some(Credential(parts.value.0) + "\r\n"))
  }

  // ----- The rewriting -----

  /** A header as `parse_proxy` leaves it: one line and its end. */
  predicate IsHeader(header: string) {
    |header| > 2 && header[|header| - 2..] == "\r\n" && OneLine(header[..|header| - 2])
  }

  function LineOf(header: Option<string>): Option<string>
    requires header.Some? ==> IsHeader(header.value)
  {
    if header.None? then None else Some(header.value[..|header.value| - 2])
  }

  /** `head`, with `line` put in as the last of its lines. */
  function WithLine(head: seq<byte>, line: Option<string>): seq<byte>
    requires |head| >= 4
  {
    var at := |head| - 4;
    if line.None? then head else head[..at] + CRLF + Encode(line.value) + head[at..]
  }

  function FirstLine(text: string): string {
    if Lines(text) == [] then "" else Lines(text)[0]
  }

  /** The head of the buffered request. */
  function HeadOf(buf: seq<byte>): (head: seq<byte>)
    requires Find(buf).Some?
    ensures |head| >= 4
  {
    buf[..Find(buf).value + 4]
  }

  /** The text of a head, none when it is not UTF-8. */
  function RequestText(head: seq<byte>): string {
    if IsUtf8(head) then DecodeLossy(head) else ""
  }

  predicate IsConnect(buf: seq<byte>)
    requires Find(buf).Some?
  {
    "CONNECT " <= FirstLine(RequestText(HeadOf(buf)))
  }

  /** What arrived behind the head; a CONNECT is sent on without it. */
  function Behind(buf: seq<byte>): seq<byte>
    requires Find(buf).Some?
  {
    if IsConnect(buf) then [] else buf[Find(buf).value + 4..]
  }

  /** What goes to the upstream proxy: the head with the credential in it. A head that is not
      UTF-8 is lost, and only the credential goes. */
  function Forwarded(buf: seq<byte>, header: Option<string>): seq<byte>
    requires Find(buf).Some? && (header.Some? ==> IsHeader(header.value))
  {
    var line := LineOf(header);
    (if IsUtf8(HeadOf(buf)) then WithLine(HeadOf(buf), line)
     else if line.None? then [] else CRLF + Encode(line.value))
    + Behind(buf)
  }

  // ----- The code -----

  /** `trim_end_matches("\r\n")` */
  function TrimLineEnds(s: string): string {
    if |s| >= 2 && s[|s| - 2..] == "\r\n" then TrimLineEnds(s[..|s| - 2]) else s
  }

  lemma HeaderTrims(header: string)
    requires IsHeader(header)
    ensures TrimLineEnds(header) == header[..|header| - 2] && Encode(header) == Encode(header[..|header| - 2]) + CRLF
  {
    var line := header[..|header| - 2];
    assert line[|line| - 1] in line;
    assert |line| >= 2 ==> line[|line| - 2..][1] == line[|line| - 1];
    assert TrimLineEnds(line) == line;
    assert header == line + ("\r\n" + "");
    EncodeConcat(line, "\r\n" + "");
    EncodeLineEnd("");
    assert CRLF + [] == CRLF;
  }

  /** In the text of a head the blank line is at the end, and what goes in before it goes in
      there in the bytes. */
  lemma TextWithLine(head: seq<byte>, line: string)
    requires IsUtf8(head) && Find(head) == Some(|head| - 4)
    ensures var text := DecodeLossy(head);
            && FindText(text).Some?
            && Encode(text[..FindText(text).value] + ("\r\n" + line) + text[FindText(text).value..])
               == WithLine(head, Some(line))
  {
    var text := DecodeLossy(head);
    TextFindsBytes(text);
    hide Encode, FindText, Find, DecodeLossy;
    var before, after := text[..FindText(text).value], text[FindText(text).value..];
    assert text == before + after;
    EncodeConcat(before, after);
    EncodeInserted(before, line, after);
    HeadParts(head, Encode(before), Encode(after));
  }

  lemma HeadParts(head: seq<byte>, a: seq<byte>, b: seq<byte>)
    requires head == a + b && |head| >= 4 && |a| == |head| - 4
    ensures a == head[..|head| - 4] && b == head[|head| - 4..]
  {
  }

  lemma EncodeInserted(before: string, line: string, after: string)
    ensures Encode(before + ("\r\n" + line) + after) == Encode(before) + CRLF + Encode(line) + Encode(after)
  {
    hide Encode;
    EncodeConcat(before + ("\r\n" + line), after);
    EncodeConcat(before, "\r\n" + line);
    EncodeLineEnd(line);
  }

  /** The arm for a CONNECT. */
  method RewriteConnect(body: seq<byte>, header: Option<string>) returns (out: seq<byte>)
    requires Find(body) == Some(|body| - 4) && (header.Some? ==> IsHeader(header.value))
    ensures out == WithLine(body, LineOf(header))
  {
    var headEnd := |body| - 4;
    out := body[..headEnd];
    out := out + CRLF;
    if header.Some? {
      HeaderTrims(header.value);
      out := out + Encode(header.value);
    }
    out := out + CRLF;
    BlankAtEnd(body);
  }

  lemma {:induction false} BlankAtEnd(head: seq<byte>)
    requires Find(head) == Some(|head| - 4)
    ensures head[|head| - 4..] == CRLF + CRLF
    decreases |head|
  {
    if |head| > 4 {
      BlankAtEnd(head[1..]);
      assert head[1..][|head| - 5..] == head[|head| - 4..];
    }
  }

  /** The arm for anything else. */
  method RewriteText(request: string, header: Option<string>) returns (out: string)
    requires header.Some? ==> IsHeader(header.value)
    ensures header.None? ==> out == request
    ensures header.Some? ==>
              var line := "\r\n" + LineOf(header).value;
              var at := FindText(request);
              if at.Some? then out == request[..at.value] + line + request[at.value..]
              else out == request + line
  {
    out := request;
    if header.Some? {
      HeaderTrims(header.value);
      var insertAt := if FindText(out).Some? then FindText(out).value else |out|;
      assert request[..|request|] == request && request[|request|..] == "";
      out := out[..insertAt] + ("\r\n" + TrimLineEnds(header.value)) + out[insertAt..];
    }
  }

  /** The request that was buffered, sent on. */
  method ForwardHead(buf: seq<byte>, header: Option<string>) returns (out: seq<byte>)
    requires Find(buf).Some? && (header.Some? ==> IsHeader(header.value))
    ensures out == Forwarded(buf, header)
  {
    hide IsUtf8, DecodeLossy, Encode, Lines, Find, FindText, IsHeader;
    var headerEnd := Find(buf).value + 4;
    var head := buf[..headerEnd];
    HeadEndsAtIts(buf);
    var request := if IsUtf8(head) then DecodeLossy(head) else "";
    if "CONNECT " <= FirstLine(request) {
      ConnectIsUtf8(head);
      out := RewriteConnect(head, header);
      assert out + [] == out;
    } else {
      var text := RewriteText(request, header);
      out := Encode(text);
      RewrittenText(head, header, text);
      if headerEnd < |buf| {
        out := out + buf[headerEnd..];
      } else {
        assert buf[headerEnd..] == [];
      }
    }
  }

  lemma HeadEndsAtIts(buf: seq<byte>)
    requires Find(buf).Some?
    ensures Find(HeadOf(buf)) == Some(|HeadOf(buf)| - 4)
  {
    FindInPrefix(buf, Find(buf).value + 4);
  }

  lemma ConnectIsUtf8(head: seq<byte>)
    ensures "CONNECT " <= FirstLine(RequestText(head)) ==> IsUtf8(head)
  {
    hide IsUtf8;
    if !IsUtf8(head) {
      assert RequestText(head) == "";
      assert FirstLine("") == "";
    }
  }

  lemma RewrittenText(head: seq<byte>, header: Option<string>, text: string)
    requires Find(head) == Some(|head| - 4) && (header.Some? ==> IsHeader(header.value))
    requires var request, line := RequestText(head), LineOf(header);
             if header.None? then text == request
             else if FindText(request).Some? then
               text == request[..FindText(request).value] + ("\r\n" + line.value) + request[FindText(request).value..]
             else text == request + ("\r\n" + line.value)
    ensures Encode(text) == if IsUtf8(head) then WithLine(head, LineOf(header))
                            else if header.None? then [] else CRLF + Encode(LineOf(header).value)
  {
    hide DecodeLossy, Encode, Find, IsHeader;
    EncodeEmpty();
    if header.Some? {
      if IsUtf8(head) {
        TextWithLine(head, LineOf(header).value);
      } else {
        assert FindText("").None?;
        EncodeLineEnd(LineOf(header).value);
        assert "" + ("\r\n" + LineOf(header).value) == "\r\n" + LineOf(header).value;
      }
    }
  }

  /** One read into the free part of the buffer. */
  method ReadInto(buf: array<byte>, filled: nat, read: seq<byte>)
    requires filled + |read| <= buf.Length
    modifies buf
    ensures buf[..filled + |read|] == old(buf[..filled]) + read
  {
    forall k | 0 <= k < |read| {
      buf[filled + k] := read[k];
    }
  }

  /** The read loop: fill the buffer until a head is complete. */
  method FillBuffer(deliveries: seq<seq<byte>>) returns (held: Option<seq<byte>>, next: nat)
    requires |Concat(deliveries)| <= BUFFER_BYTES && forall d :: d in deliveries ==> d != []
    ensures held.None? <==> Find(Concat(deliveries)).None?
    ensures held.Some? ==>
              && 0 < next <= |deliveries| && held.value == Concat(deliveries[..next])
              && Find(held.value).Some? && Find(Concat(deliveries[..next - 1])).None?
  {
    var buf := new byte[BUFFER_BYTES];
    var filled: nat := 0;
    next := 0;
    while next < |deliveries|
      invariant next <= |deliveries| && filled <= BUFFER_BYTES
      invariant buf[..filled] == Concat(deliveries[..next])
      invariant Find(Concat(deliveries[..next])).None?
    {
      hide Find, Concat;
      ConcatAppend(deliveries, next);
      HeldIsPrefix(deliveries, next + 1, Concat(deliveries[..next + 1]));
      ReadInto(buf, filled, deliveries[next]);
      filled := filled + |deliveries[next]|;
      next := next + 1;
      assert buf[..filled] == Concat(deliveries[..next]);
      if Find(buf[..filled]).Some? {
        held := Some(buf[..filled]);
        return;
      }
    }
    assert deliveries[..next] == deliveries;
    return None, next;
  }

  /** Serve one connection: `deliveries` is what its reads give, each something but none more than
      the room left in the buffer, until the peer closes it. Nothing is sent on unless a head is complete. */
  method HandleClient(deliveries: seq<seq<byte>>, header: Option<string>) returns (sent: Option<seq<byte>>)
    requires |Concat(deliveries)| <= BUFFER_BYTES && forall d :: d in deliveries ==> d != []
    requires header.Some? ==> IsHeader(header.value)
    ensures sent.None? <==> Find(Concat(deliveries)).None?
    ensures sent.Some? ==>
              exists n :: 0 < n <= |deliveries|
                          && Find(Concat(deliveries[..n - 1])).None? && Find(Concat(deliveries[..n])).Some?
                          && sent.value == Forwarded(Concat(deliveries[..n]), header)
  {
    hide Forwarded, Concat, Find, IsHeader;
    var held, n := FillBuffer(deliveries);
    if held.None? {
      return None;
    }
    var out := ForwardHead(held.value, header);
    return Some(out);
  }

  // ----- What gets through -----

  lemma LineBytes(line: string)
    requires OneLine(line)
    ensures Encode(line) != [] && 13 !in Encode(line) && 10 !in Encode(line)
  {
    EncodeAvoids(line, '\r');
    EncodeAvoids(line, '\n');
    assert Encode(line) == EncodeChar(line[0]) + Encode(line[1..]);
  }

  /** The rewritten head is still one head: its blank line is at its end and nowhere before. */
  lemma FramingIsKept(head: seq<byte>, line: string)
    requires Find(head) == Some(|head| - 4) && OneLine(line)
    ensures var out := WithLine(head, Some(line)); Find(out) == Some(|out| - 4)
  {
    hide Encode, Find, OneLine;
    var at, bytes := |head| - 4, Encode(line);
    LineBytes(line);
    BlankAtEnd(head);
    FindInPrefix(head, at + 2);
    assert head[..at + 2] == head[..at] + CRLF;
    BlankIsLast(head[..at] + CRLF, bytes);
    assert CRLF + CRLF == BLANK;
    assert WithLine(head, Some(line)) == head[..at] + CRLF + bytes + BLANK;
  }

  lemma BlankIsLast(before: seq<byte>, line: seq<byte>)
    requires Find(before).None? && line != [] && 13 !in line && 10 !in line
    ensures Find(before + line + BLANK) == Some(|before + line|)
  {
    hide Find;
    var x, tail := line[0], line[1..];
    LastLineEnds(tail, []);
    assert tail + BLANK + [] == tail + BLANK;
    FindPast(before, x, tail + BLANK);
    assert before + line + BLANK == before + [x] + (tail + BLANK);
  }

  /** Without the inserted line it is the head the client sent, byte for byte. */
  lemma DeletingTheLine(head: seq<byte>, line: string)
    requires |head| >= 4
    ensures var out, at, n := WithLine(head, Some(line)), |head| - 4, |CRLF + Encode(line)|;
            |out| == |head| + n && out[at..at + n] == CRLF + Encode(line) && out[..at] + out[at + n..] == head
  {
    hide Encode;
  }

  /** The client's head reaches the proxy with the credential in it exactly when it is UTF-8;
      then, a CONNECT or not, the blank line is where the inserted line ends. */
  lemma HeadSurvivesIfText(buf: seq<byte>, header: Option<string>)
    requires Find(buf).Some? && (header.Some? ==> IsHeader(header.value))
    ensures Forwarded(buf, header) == WithLine(HeadOf(buf), LineOf(header)) + Behind(buf) <==> IsUtf8(HeadOf(buf))
  {
    hide IsUtf8, Encode, Behind, LineOf;
    if !IsUtf8(HeadOf(buf)) {
      assert |Forwarded(buf, header)| < |WithLine(HeadOf(buf), LineOf(header)) + Behind(buf)|;
    }
  }

  /** A head that begins with a byte no UTF-8 sequence begins with. */
  lemma HeadsCanBeLost()
    ensures var buf := [255] + BLANK;
            Find(buf) == Some(1) && !IsUtf8(HeadOf(buf)) && Forwarded(buf, None) == [] != HeadOf(buf)
  {
    var buf: seq<byte> := [255] + BLANK;
    FindSkips([255], BLANK);
    assert BLANK + [] == BLANK;
    FindBlank([]);
    assert HeadOf(buf) == buf && buf[0] == 255;
    NoTextBeginsSo(buf);
    hide IsUtf8, Find;
    assert RequestText(buf) == "" && FirstLine("") == "";
  }

  lemma NoTextBeginsSo(bytes: seq<byte>)
    requires bytes != [] && bytes[0] == 255
    ensures !IsUtf8(bytes)
  {
    var text := DecodeLossy(bytes);
    assert text[0] == REPLACEMENT;
    assert Encode(text) == EncodeChar(REPLACEMENT) + Encode(text[1..]);
    assert EncodeChar(REPLACEMENT)[0] == 0xEF;
  }

  // ----- The credential -----

  lemma CredentialIsHeader(userPass: string)
    ensures IsHeader(Credential(userPass) + "\r\n")
    ensures LineOf(Some(Credential(userPass) + "\r\n")) == Some(Credential(userPass))
  {
    var digits := EncodeBase64(Encode(userPass));
    EncodedIsPlain(Encode(userPass));
    assert IsWhitespace('\r') && IsWhitespace('\n');
    hide EncodeBase64, Encode, IsWhitespace;
    var name := "Proxy-Authorization: Basic ";
    assert '\r' !in name && '\n' !in name;
    assert (Credential(userPass) + "\r\n")[..|Credential(userPass)|] == Credential(userPass);
  }

  /** Every header that is parsed is one line that can be put into a head. */
  lemma ParsedHeaderIsHeader(url: string)
    requires ParseProxy(url).Some?
    ensures var header := ParseProxy(url).value.authHeader;
            && header == (if CredentialOf(url).None? then None else Some(Credential(CredentialOf(url).value) + "\r\n"))
            && (header.Some? ==> IsHeader(header.value))
  {
    hide Credential, IsHeader, SplitOnce, Split;
    if CredentialOf(url).Some? {
      CredentialIsHeader(CredentialOf(url).value);
    }
  }

  /** What the credential in a header line decodes to: section 2 of RFC 7617. */
  function DecodedCredential(line: string): Option<seq<byte>> {
    var digits := StripPrefix(line, "Proxy-Authorization: Basic ");
    if digits.None? then None else DecodeBase64(digits.value)
  }

  lemma CredentialDecodes(userPass: string)
    ensures DecodedCredential(Credential(userPass)) == Some(Encode(userPass))
  {
    hide Encode, EncodeBase64, DecodeBase64;
    var name, digits := "Proxy-Authorization: Basic ", EncodeBase64(Encode(userPass));
    assert (name + digits)[|name|..] == digits;
    DecodeUndoesEncode(Encode(userPass));
  }

  lemma OneLineCredential(userPass: string)
    ensures OneLine(Credential(userPass))
  {
    CredentialIsHeader(userPass);
    assert (Credential(userPass) + "\r\n")[..|Credential(userPass)|] == Credential(userPass);
  }

  /** A CONNECT head is UTF-8, and nothing goes with it. */
  lemma ConnectIsRewritten(buf: seq<byte>, header: Option<string>)
    requires Find(buf).Some? && IsConnect(buf) && (header.Some? ==> IsHeader(header.value))
    ensures Forwarded(buf, header) == WithLine(HeadOf(buf), LineOf(header))
  {
    ConnectIsUtf8(HeadOf(buf));
    hide IsUtf8, IsHeader, Find, Encode, FirstLine, RequestText, WithLine;
    assert WithLine(HeadOf(buf), LineOf(header)) + [] == WithLine(HeadOf(buf), LineOf(header));
  }

  /** The bytes of the line stand between what was before it and the blank line. */
  lemma LineStands(head: seq<byte>, line: string)
    requires Find(head) == Some(|head| - 4) && OneLine(line)
    ensures var out, from := WithLine(head, Some(line)), |head| - 4;
            var to := |out| - 4;
            && Find(out) == Some(to)
            && from + 2 <= to && out[from..from + 2] == CRLF && out[from + 2..to] == Encode(line)
            && out[..from] + out[to..] == head
  {
    FramingIsKept(head, line);
    BlankAtEnd(head);
    hide Find, Encode, OneLine;
    var at, bytes := |head| - 4, Encode(line);
    assert WithLine(head, Some(line)) == head[..at] + CRLF + bytes + (CRLF + CRLF);
    assert head == head[..at] + (CRLF + CRLF);
  }

  /** Any accepted proxy URL with a credential, any buffered CONNECT: what is sent has its only
      blank line at its end; without one line it is the head the client sent; and the credential
      in that line decodes to the text before the first '@' of the URL. */
  lemma ConnectCarriesTheCredential(url: string, buf: seq<byte>)
    requires ParseProxy(url).Some? && CredentialOf(url).Some? && Find(buf).Some? && IsConnect(buf)
    ensures var header := ParseProxy(url).value.authHeader; header.Some? && IsHeader(header.value)
    ensures var head, out := HeadOf(buf), Forwarded(buf, ParseProxy(url).value.authHeader);
            var from, to := |head| - 4, |out| - 4;
            && Find(out) == Some(to)
            && from + 2 <= to && out[from..from + 2] == CRLF && out[..from] + out[to..] == head
            && DecodedCredential(DecodeLossy(out[from + 2..to])) == Some(Encode(CredentialOf(url).value))
  {
    hide ParseProxy, CredentialOf, Credential, IsConnect, IsHeader, Find, Encode, DecodeLossy, DecodedCredential,
         OneLine,
         Forwarded, WithLine, HeadOf, LineOf;
    var userPass := CredentialOf(url).value;
    ParsedHeaderIsHeader(url);
    CredentialIsHeader(userPass);
    ConnectIsRewritten(buf, ParseProxy(url).value.authHeader);
    HeadEndsAtIts(buf);
    OneLineCredential(userPass);
    LineStands(HeadOf(buf), Credential(userPass));
    CredentialDecodes(userPass);
    DecodeEncode(Credential(userPass));
  }

  /** And without a credential the head goes on as it is. */
  lemma ConnectWithoutCredential(url: string, buf: seq<byte>)
    requires ParseProxy(url).Some? && CredentialOf(url).None? && Find(buf).Some? && IsConnect(buf)
    ensures ParseProxy(url).value.authHeader.None? && Forwarded(buf, None) == HeadOf(buf)
  {
    ParsedHeaderIsHeader(url);
    ConnectIsUtf8(HeadOf(buf));
    hide ParseProxy, CredentialOf, IsUtf8, Find, FirstLine, RequestText;
    assert HeadOf(buf) + [] == HeadOf(buf);
  }

  lemma HostPortParses(host: string, port: string, path: string, header: Option<string>)
    requires ':' !in host && '/' !in host && '/' !in port && (path == "" || path[0] == '/')
    ensures var n := ParseUnsigned(port, 0x1_0000);
            HostPort(host + ":" + port + path, header) == if n.None? then None
              else Some(Upstream(host, n.value, header))
  {
    var address := host + ":" + port;
    assert '/' !in address;
    hide ParseUnsigned;
    SplitOnceFinds(host, ':', port);
    if path == "" {
      SplitOnceMisses(address, '/');
      assert address + path == address;
    } else {
      SplitOnceFinds(address, '/', path[1..]);
      assert address + path == address + ['/'] + path[1..];
    }
  }

  /** A proxy URL is read as it is written, and refused exactly when its port is not a number
      below 65536: the credential is the text up to the first '@', the host ends at the first ':'. */
  lemma ProxyUrlParses(scheme: string, userPass: string, host: string, port: string, path: string)
    requires scheme in ["http://", "https://"] && '@' !in userPass
    requires ':' !in host && '/' !in host && '/' !in port && (path == "" || path[0] == '/')
    ensures var url, n := scheme + (userPass + "@" + (host + ":" + port + path)), ParseUnsigned(port, 0x1_0000);
            && CredentialOf(url) == Some(userPass)
            && ParseProxy(url) == if n.None? then None
               else Some(Upstream(host, n.value, Some(Credential(userPass) + "\r\n")))
  {
    var address := host + ":" + port + path;
    HostPortParses(host, port, path, Some(Credential(userPass) + "\r\n"));
    SplitOnceFinds(userPass, '@', address);
    hide HostPort, Credential, ParseUnsigned;
    SchemeStrips(scheme, userPass + "@" + address);
  }

  lemma SchemeStrips(scheme: string, rest: string)
    requires scheme in ["http://", "https://"]
    ensures Authority(scheme + rest) == Some(rest)
  {
    assert (scheme + rest)[|scheme|..] == rest;
    if scheme == "https://" {
      assert (scheme + rest)[4] == 's' != "http://"[4];
    }
  }
}
