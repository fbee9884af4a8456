/** Which streams `handle` answers the same however they are cut into reads. */
module RequestChunking {
  import opened Results
  import opened Utf8
  import opened Strings
  import opened HttpHead
  import opened RequestFramer

  predicate AtMost(chunks: seq<seq<byte>>, most: nat) {
    forall c :: c in chunks ==> 1 <= |c| <= most
  }

  /** The first loop stops at the read that completes the head, so it holds fewer than `most`
      bytes past it; it passes the limit when the head does. */
  lemma {:induction false} HeldBounds(held: seq<byte>, chunks: seq<seq<byte>>, most: nat)
    requires AtMost(chunks, most) && |held| <= MAX_BODY_BYTES && Find(held).None?
    ensures var s, n := held + Concat(chunks), HeldAtHead(held, chunks);
            && n <= |s|
            && (Find(s).None? ==> (n > MAX_BODY_BYTES <==> |s| > MAX_BODY_BYTES))
            && (Find(s).Some? && Find(s).value + 4 > MAX_BODY_BYTES ==> n > MAX_BODY_BYTES)
            && (Find(s).Some? && Find(s).value + 4 <= MAX_BODY_BYTES ==>
                  Find(s).value + 4 <= n < Find(s).value + 4 + most)
    decreases |chunks|
  {
    hide Find;
    var s := held + Concat(chunks);
    assert s[..|held|] == held;
    FindInPrefix(s, |held|);
    if chunks != [] {
      var now := held + chunks[0];
      assert chunks[0] in chunks;
      assert s == now + Concat(chunks[1..]);
      assert s[..|now|] == now;
      FindInPrefix(s, |now|);
      if |now| <= MAX_BODY_BYTES && Find(now).None? {
        HeldBounds(now, chunks[1..], most);
      }
    }
  }

  /** The head ends within the limit, but a read can carry the bytes held past the limit along
      with the end of the head. */
  predicate AtRisk(s: seq<byte>) {
    && Find(s).Some?
    && Find(s).value + 4 <= MAX_BODY_BYTES
    && |s| > MAX_BODY_BYTES
    && Find(s).value + 3 + CHUNK_BYTES > MAX_BODY_BYTES
  }

  /** Cut however, a stream gets the answer of the one-shot parse, or 413 if it is at risk. */
  lemma ChunkingHardlyMatters(chunks: seq<seq<byte>>)
    requires Deliveries(chunks)
    ensures var s := Concat(chunks);
            Handled(chunks) == OneShot(s) || (AtRisk(s) && Handled(chunks) == TooLarge)
  {
    hide Parse;
    HeldBounds([], chunks, CHUNK_BYTES);
    assert [] + Concat(chunks) == Concat(chunks);
  }

  /** In particular a stream within the limit is read the same in any pieces, also when the
      blank line is split over several reads. */
  lemma SmallStreamsAreSafe(chunks: seq<seq<byte>>)
    requires Deliveries(chunks) && |Concat(chunks)| <= MAX_BODY_BYTES
    ensures Handled(chunks) == Parse(Concat(chunks))
  {
    hide Parse;
    ChunkingHardlyMatters(chunks);
  }

  // ----- The streams at risk -----

  function Singles(s: seq<byte>): seq<seq<byte>> {
    if s == [] then [] else [[s[0]]] + Singles(s[1..])
  }

  lemma {:induction false} SinglesAreOnes(s: seq<byte>)
    ensures Concat(Singles(s)) == s && AtMost(Singles(s), 1)
  {
    if s != [] {
      SinglesAreOnes(s[1..]);
      assert Singles(s)[1..] == Singles(s[1..]);
    }
  }

  lemma {:induction false} ConcatPlus(a: seq<seq<byte>>, b: seq<seq<byte>>)
    ensures Concat(a + b) == Concat(a) + Concat(b)
    decreases |a|
  {
    if a == [] {
      assert a + b == b;
    } else {
      assert (a + b)[1..] == a[1..] + b;
      ConcatPlus(a[1..], b);
    }
  }

  /** Reads that end before the head does change nothing but the bytes held. */
  lemma {:induction false} HeldSkips(held: seq<byte>, a: seq<seq<byte>>, b: seq<seq<byte>>)
    requires var now := held + Concat(a); |now| <= MAX_BODY_BYTES && Find(now).None?
    ensures HeldAtHead(held, a + b) == HeldAtHead(held + Concat(a), b)
    decreases |a|
  {
    if a == [] {
      assert a + b == b && held + Concat(a) == held;
    } else {
      var all, now := held + Concat(a), held + a[0];
      assert all == now + Concat(a[1..]) && all[..|now|] == now;
      FindInPrefix(all, |now|);
      assert (a + b)[1..] == a[1..] + b;
      HeldSkips(now, a[1..], b);
    }
  }

  /** Byte by byte up to `from`, then one read up to `to`, then byte by byte. */
  function Burst(s: seq<byte>, from: nat, to: nat): seq<seq<byte>>
    requires from <= to <= |s|
  {
    Singles(s[..from]) + ([s[from..to]] + Singles(s[to..]))
  }

  lemma BurstDelivers(s: seq<byte>, from: nat, to: nat)
    requires from < to <= |s| && to <= from + CHUNK_BYTES
    ensures Deliveries(Burst(s, from, to)) && Concat(Burst(s, from, to)) == s
  {
    hide Singles, Concat;
    SinglesAreOnes(s[..from]);
    SinglesAreOnes(s[to..]);
    ConcatPlus(Singles(s[..from]), [s[from..to]] + Singles(s[to..]));
    ConcatPlus([s[from..to]], Singles(s[to..]));
    ConcatOne(s[from..to]);
    assert s[..from] + (s[from..to] + s[to..]) == s;
  }

  lemma ConcatOne(chunk: seq<byte>)
    ensures Concat([chunk]) == chunk
  {
    assert [chunk][1..] == [];
    assert chunk + [] == chunk;
  }

  lemma BurstIsHeld(s: seq<byte>, from: nat, to: nat)
    requires from < to <= |s| && from <= MAX_BODY_BYTES < to && Find(s[..from]).None?
    ensures HeldAtHead([], Burst(s, from, to)) == to
  {
    var early, late, rest := s[..from], s[from..to], Singles(s[to..]);
    SinglesAreOnes(early);
    assert [] + Concat(Singles(early)) == early;
    HeldSkips([], Singles(early), [late] + rest);
    assert HeldAtHead(early, [late] + rest) == |early + late|;
  }

  function Late(s: seq<byte>): seq<seq<byte>>
    requires AtRisk(s)
  {
    var from := Find(s).value + 3;
    Burst(s, from, if |s| < from + CHUNK_BYTES then |s| else from + CHUNK_BYTES)
  }

  /** The last byte of the head comes with as much as a read takes. */
  lemma LateIsRefused(s: seq<byte>)
    requires AtRisk(s)
    ensures Deliveries(Late(s)) && Concat(Late(s)) == s && Handled(Late(s)) == TooLarge
  {
    hide Parse, Burst, HeldAtHead, Concat;
    var from := Find(s).value + 3;
    var to := if |s| < from + CHUNK_BYTES then |s| else from + CHUNK_BYTES;
    FindInPrefix(s, from);
    hide Find;
    BurstDelivers(s, from, to);
    BurstIsHeld(s, from, to);
  }

  /** Byte by byte the first loop stops right after the head. */
  lemma SinglesAreParsed(s: seq<byte>)
    ensures Deliveries(Singles(s)) && Concat(Singles(s)) == s && Handled(Singles(s)) == OneShot(s)
  {
    hide Parse;
    SinglesAreOnes(s);
    HeldBounds([], Singles(s), 1);
    assert [] + s == s;
  }

  /** Two ways to cut a stream that get different answers. */
  ghost predicate SplitMatters(s: seq<byte>) {
    exists a, b :: Deliveries(a) && Deliveries(b) && Concat(a) == s && Concat(b) == s && Handled(a) != Handled(b)
  }

  /** Exactly the streams for which the cut decides: those at risk whose Content-Length is not
      itself over the limit. */
  lemma RiskDecides(s: seq<byte>)
    ensures SplitMatters(s) <==> AtRisk(s) && OneShot(s) != TooLarge
  {
    hide Parse, OneShot, Handled;
    forall a, b | Deliveries(a) && Deliveries(b) && Concat(a) == s && Concat(b) == s && Handled(a) != Handled(b)
      ensures AtRisk(s) && OneShot(s) != TooLarge
    {
      ChunkingHardlyMatters(a);
      ChunkingHardlyMatters(b);
    }
    if AtRisk(s) && OneShot(s) != TooLarge {
      LateIsRefused(s);
      SinglesAreParsed(s);
      assert Handled(Late(s)) != Handled(Singles(s));
    }
  }

  // ----- One of them -----

  function Letters(n: nat): string {
    if n == 0 then "" else "a" + Letters(n - 1)
  }

  lemma {:induction false} LettersAre(n: nat)
    ensures |Letters(n)| == n && |Encode(Letters(n))| == n && forall c :: c in Letters(n) ==> c == 'a'
  {
    if n > 0 {
      LettersAre(n - 1);
      assert Letters(n)[1..] == Letters(n - 1);
    }
  }

  /** A head of one long line, and some bytes behind it. */
  function LongHead(letters: nat, tail: nat): seq<byte> {
    Encode(Letters(letters)) + BLANK + seq(tail, _ => 0)
  }

  lemma LongHeadIsFramed(letters: nat, tail: nat)
    requires 0 < letters
    ensures var s := LongHead(letters, tail);
            |s| == letters + 4 + tail && Find(s) == Some(letters) && Parse(s).Framed?
  {
    var text, zeros := Letters(letters), seq(tail, _ => 0 as byte);
    LettersAre(letters);
    EncodeAvoids(text, '\r');
    LastLineEnds(Encode(text), zeros);
    DecodeEncode(text);
    SplitOnceMisses(text, '\n');
    hide Find, Encode, DecodeLossy, Letters, SplitOnce;
    var s := LongHead(letters, tail);
    assert s[..letters] == Encode(text);
    assert Lines(text) == [text];
    OneLineHead(text);
  }

  lemma OneLineHead(text: string)
    requires Lines(text) == [text]
    ensures ParseHead(text).Some? && ParseHead(text).value.contentLength == 0
  {
    hide Lines;
    assert [text][1..] == [];
  }

  /** 62000 letters, a blank line and 5000 bytes: refused or answered, as they arrive. */
  lemma SomeSplitMatters()
    ensures SplitMatters(LongHead(62000, 5000))
  {
    hide Parse, LongHead, SplitMatters, Find;
    LongHeadIsFramed(62000, 5000);
    RiskDecides(LongHead(62000, 5000));
  }
}
