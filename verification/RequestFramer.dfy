/** How `handle` in scorpion_app/src/main.rs reads a request off a connection, and how far
    that depends on the way the stream arrives. */
module RequestFramer {
  import opened Results
  import opened Utf8
  import opened Strings
  import opened HttpHead

  const MAX_BODY_BYTES: nat := 64 * 1024
  const CHUNK_BYTES: nat := 4096

  /** One past the largest `usize`, on 64 bits. */
  const USIZE: nat := 0x1_0000_0000_0000_0000

  // ----- The head -----

  /** The value of the line, if it is this header in either of the two spellings known. */
  function HeaderValue(line: string, title: string, lower: string): Option<string> {
    var value := StripPrefix(line, title);
    if value.Some? then Some(Trim(value.value))
    else
      var other := StripPrefix(line, lower);
      if other.Some? then Some(Trim(other.value)) else None
  }

  /** The last line that is the header gives its value. */
  function LastValue(lines: seq<string>, title: string, lower: string): Option<string> {
    if lines == [] then None
    else
      var last := HeaderValue(lines[|lines| - 1], title, lower);
      if last.Some? then last else LastValue(lines[..|lines| - 1], title, lower)
  }

  function LengthOf(value: Option<string>): nat {
    if value.None? || ParseUnsigned(value.value, USIZE).None? then 0 else ParseUnsigned(value.value, USIZE).value
  }

  datatype Head = Head(verb: string, path: string, contentLength: nat, contentType: Option<string>)

  function WordAt(words: seq<string>, i: nat): string {
    if i < |words| then words[i] else ""
  }

  function ParseHead(head: string): Option<Head> {
    var lines := Lines(head);
    if lines == [] then None
    else
      var words := Words(lines[0]);
      Some(Head(WordAt(words, 0), WordAt(words, 1),
                LengthOf(LastValue(lines[1..], "Content-Length:", "content-length:")),
                LastValue(lines[1..], "Content-Type:", "content-type:")))
  }

  // ----- One shot -----

  datatype Outcome =
    | TooLarge
    | Failed(message: string)
    | Framed(verb: string, path: string, contentType: Option<string>, body: seq<byte>)

  /** `bytes.get(from..from + n).unwrap_or_default()` */
  function Slice(s: seq<byte>, from: nat, n: nat): seq<byte> {
    if from + n <= |s| then s[from..from + n] else []
  }

  /** What a stream says, all of it at hand. */
  function Parse(s: seq<byte>): Outcome {
    if Find(s).None? then Failed("malformed HTTP request")
    else
      var head := ParseHead(DecodeLossy(s[..Find(s).value]));
      if head.None? then Failed("missing request line")
      else if head.value.contentLength > MAX_BODY_BYTES then TooLarge
      else Framed(head.value.verb, head.value.path, head.value.contentType,
                  Slice(s, Find(s).value + 4, head.value.contentLength))
  }

  /** The limit bounds the head, or everything when the head has no end. */
  function OneShot(s: seq<byte>): Outcome {
    if (if Find(s).Some? then Find(s).value + 4 else |s|) > MAX_BODY_BYTES then TooLarge else Parse(s)
  }

  // ----- Read by read -----

  /** Each read delivers something, and at most a chunk. */
  predicate Deliveries(chunks: seq<seq<byte>>) {
    forall c :: c in chunks ==> 1 <= |c| <= CHUNK_BYTES
  }

  /** How many bytes are held when the first loop stops. */
  function HeldAtHead(held: seq<byte>, chunks: seq<seq<byte>>): nat
    decreases |chunks|
  {
    if chunks == [] then |held|
    else
      var now := held + chunks[0];
      if |now| > MAX_BODY_BYTES || Find(now).Some? then |now| else HeldAtHead(now, chunks[1..])
  }

  function Handled(chunks: seq<seq<byte>>): Outcome {
    if HeldAtHead([], chunks) > MAX_BODY_BYTES then TooLarge else Parse(Concat(chunks))
  }

  // ----- The code -----

  method ReadHeaders(lines: seq<string>) returns (contentLength: nat, contentType: Option<string>)
    ensures contentLength == LengthOf(LastValue(lines, "Content-Length:", "content-length:"))
    ensures contentType == LastValue(lines, "Content-Type:", "content-type:")
  {
    contentLength, contentType := 0, None;
    for i := 0 to |lines|
      invariant contentLength == LengthOf(LastValue(lines[..i], "Content-Length:", "content-length:"))
      invariant contentType == LastValue(lines[..i], "Content-Type:", "content-type:")
    {
      hide Trim, ParseUnsigned, StripPrefix;
      var line := lines[i];
      assert lines[..i + 1][..i] == lines[..i] && lines[..i + 1][i] == line;
      OneHeaderALine(line);
      var value := HeaderValue(line, "Content-Length:", "content-length:");
      if value.Some? {
        var parsed := ParseUnsigned(value.value, USIZE);
        contentLength := if parsed.Some? then parsed.value else 0;
      } else {
        value := HeaderValue(line, "Content-Type:", "content-type:");
        if value.Some? {
          contentType := Some(value.value);
        }
      }
    }
    assert lines[..|lines|] == lines;
  }

  lemma OneHeaderALine(line: string)
    ensures HeaderValue(line, "Content-Length:", "content-length:").Some? ==>
            HeaderValue(line, "Content-Type:", "content-type:").None?
  {
    hide Trim;
    PrefixAt(line, "Content-Length:");
    PrefixAt(line, "content-length:");
    PrefixAt(line, "Content-Type:");
    PrefixAt(line, "content-type:");
  }

  lemma PrefixAt(line: string, prefix: string)
    requires |prefix| > 8
    ensures prefix <= line ==> line[8] == prefix[8]
  {
  }

  /** The request line and the header lines. */
  method ReadHeadLines(text: string) returns (head: Option<Head>)
    ensures head == ParseHead(text)
  {
    var lines := Lines(text);
    if lines == [] {
      return None;
    }
    var words := Words(lines[0]);
    var contentLength, contentType := ReadHeaders(lines[1..]);
    return Some(Head(WordAt(words, 0), WordAt(words, 1), contentLength, contentType));
  }

  /** The first loop: read until the head is complete, the limit is passed or the peer is done. */
  method ReadHead(deliveries: seq<seq<byte>>) returns (bytes: seq<byte>, next: nat)
    ensures next <= |deliveries| && bytes == Concat(deliveries[..next])
    ensures |bytes| == HeldAtHead([], deliveries)
    ensures |bytes| <= MAX_BODY_BYTES && Find(bytes).None? ==> next == |deliveries|
  {
    bytes, next := [], 0;
    assert deliveries[0..] == deliveries;
    while next < |deliveries|
      invariant next <= |deliveries| && bytes == Concat(deliveries[..next])
      invariant HeldAtHead(bytes, deliveries[next..]) == HeldAtHead([], deliveries)
      invariant |bytes| <= MAX_BODY_BYTES && Find(bytes).None?
    {
      ConcatAppend(deliveries, next);
      assert deliveries[next..][1..] == deliveries[next + 1..];
      bytes := bytes + deliveries[next];
      next := next + 1;
      if |bytes| > MAX_BODY_BYTES || Find(bytes).Some? {
        return;
      }
    }
  }

  /** The second loop: read on until the body is there, or the peer is done. */
  method ReadBody(deliveries: seq<seq<byte>>, held: seq<byte>, from: nat, bodyOffset: nat,
                  contentLength: nat) returns (body: seq<byte>)
    requires from <= |deliveries| && held == Concat(deliveries[..from])
    ensures body == Slice(Concat(deliveries), bodyOffset, contentLength)
  {
    hide Find;
    var bytes, next := held, from;
    while |bytes| < bodyOffset + contentLength && next < |deliveries|
      invariant from <= next <= |deliveries| && bytes == Concat(deliveries[..next])
    {
      ConcatAppend(deliveries, next);
      bytes := bytes + deliveries[next];
      next := next + 1;
    }
    HeldIsPrefix(deliveries, next, bytes);
    return Slice(bytes, bodyOffset, contentLength);
  }

  /** The connection, read by read: `deliveries` is what the reads of at most a chunk give
      before the peer closes it. */
  method Handle(deliveries: seq<seq<byte>>) returns (r: Outcome)
    requires Deliveries(deliveries)
    ensures r == Handled(deliveries)
  {
    hide ParseHead, DecodeLossy, HeldAtHead, Find;
    var bytes: seq<byte>, next: nat := ReadHead(deliveries);
    if |bytes| > MAX_BODY_BYTES {
      return TooLarge;
    }
    HeldIsPrefix(deliveries, next, bytes);
    if Find(bytes).None? {
      return Failed("malformed HTTP request");
    }
    var delimiter := Find(bytes).value;
    var bodyOffset := delimiter + 4;
    assert bytes[..delimiter] == Concat(deliveries)[..delimiter];
    var head := ReadHeadLines(DecodeLossy(bytes[..delimiter]));
    if head.None? {
      return Failed("missing request line");
    }
    var contentLength := head.value.contentLength;
    if contentLength > MAX_BODY_BYTES {
      return TooLarge;
    }
    var body := ReadBody(deliveries, bytes, next, bodyOffset, contentLength);
    return Framed(head.value.verb, head.value.path, head.value.contentType, body);
  }
}
