/** Which requests the cache has a part in, and what each kind is answered with, said of the requests
    and replies themselves. */
module CacheAccess {
  import opened Results
  import opened Utf8
  import opened CacheRules
  import HttpHead

  /** Another verb than GET or HEAD, a body, a secret header, or a header that carries a credential. */
  predicate Personal(r: Request) {
    || (r.verb != "GET" && r.verb != "HEAD")
    || r.body.Some?
    || r.secretHeaders != []
    || exists i :: 0 <= i < |r.headers|
                   && (r.headers[i].0 == "authorization" || r.headers[i].0 == "proxy-authorization"
                       || r.headers[i].0 == "cookie" || r.headers[i].0 == "set-cookie")
  }

  predicate MayUse(s: Step) {
    s.allowCache && !Personal(s.request)
  }

  predicate AllCame(chunks: seq<Option<seq<byte>>>) {
    forall i :: 0 <= i < |chunks| ==> chunks[i].Some?
  }

  function Pieces(chunks: seq<Option<seq<byte>>>): seq<seq<byte>>
    requires AllCame(chunks)
  {
    seq(|chunks|, i requires 0 <= i < |chunks| => chunks[i].value)
  }

  /** The values of one header in order. */
  function Values(headers: Headers, name: string): seq<string> {
    if headers == [] then []
    else (if headers[0].0 == name then [headers[0].1] else []) + Values(headers[1..], name)
  }

  /** The reply as it was sent, its body put together. */
  ghost predicate AsSent(r: Result<Response, string>, origin: OriginReply) {
    match origin
    case Failed(failure) => r == Err(failure)
    case Replied(status, headers, chunks, url, tor) =>
      if AllCame(chunks) then r == Ok(Response(status, headers, HttpHead.Concat(Pieces(chunks)), url, tor))
      else r == Err("body failed")
  }

  /** The same, but for cookies on a 304. */
  ghost predicate AsSentWithoutCookies(r: Result<Response, string>, origin: OriginReply) {
    if origin.Replied? && origin.status == 304 && AllCame(origin.chunks) then
      && r.Ok? && r.value.status == 304 && r.value.url == origin.url && r.value.tor == origin.tor
      && r.value.body == HttpHead.Concat(Pieces(origin.chunks))
      && forall name :: Values(r.value.headers, name)
                        == if name == "set-cookie" then [] else Values(origin.headers, name)
    else AsSent(r, origin)
  }

  lemma {:induction false} BodyIsWhole(chunks: seq<Option<seq<byte>>>)
    ensures BodyOf(chunks) == if AllCame(chunks) then Some(HttpHead.Concat(Pieces(chunks))) else None
    decreases |chunks|
  {
    if chunks != [] {
      var n := |chunks| - 1;
      BodyIsWhole(chunks[..n]);
      if AllCame(chunks[..n]) && chunks[n].Some? {
        var pieces := Pieces(chunks);
        assert pieces[..n] == Pieces(chunks[..n]);
        HttpHead.ConcatAppend(pieces, n);
        assert pieces[..n + 1] == pieces;
      }
      assert AllCame(chunks) <==> AllCame(chunks[..n]) && chunks[n].Some?;
    }
  }

  lemma BypassIsAsSent(turn: Turn)
    ensures AsSent(Bypass(turn), turn.origin)
  {
    if turn.origin.Replied? {
      BodyIsWhole(turn.origin.chunks);
    }
  }

  lemma {:induction false} WithoutKeepsValues(headers: Headers, removed: string, name: string)
    ensures Values(Without(headers, removed), name) == if name == removed then [] else Values(headers, name)
    decreases |headers|
  {
    if headers != [] {
      WithoutKeepsValues(headers[1..], removed, name);
      var rest := Without(headers[1..], removed);
      assert ([headers[0]] + rest)[1..] == rest;
      assert [] + rest == rest;
    }
  }

  lemma MaterializedIsAsSent(origin: OriginReply)
    ensures AsSentWithoutCookies(Materialized(origin), origin)
  {
    hide Values, Without;
    if origin.Replied? {
      BodyIsWhole(origin.chunks);
      forall name
        ensures Values(Without(origin.headers, "set-cookie"), name)
                == if name == "set-cookie" then [] else Values(origin.headers, name)
      {
        WithoutKeepsValues(origin.headers, "set-cookie", name);
      }
    }
  }

  lemma PersonalIsNotCacheable(r: Request)
    ensures Cacheable(r) <==> !Personal(r)
  {
    if Personal(r) && (r.verb == "GET" || r.verb == "HEAD") && r.body.None? && r.secretHeaders == [] {
      var i :| 0 <= i < |r.headers|
               && (r.headers[i].0 == "authorization" || r.headers[i].0 == "proxy-authorization"
                   || r.headers[i].0 == "cookie" || r.headers[i].0 == "set-cookie");
      assert Has(r.headers, r.headers[i].0);
    }
  }

  /** After any run, a request that is personal, or that asks for no cache, leaves the store as it is
      and is answered with what the origin sends to it. */
  lemma PersonalRequestsPass(lib: Library, steps: seq<Step>, s: Step)
    requires !s.allowCache || Personal(s.request)
    ensures var o := After(lib, Run(lib, EMPTY, steps), s);
            && o.store == Run(lib, EMPTY, steps) == Run(lib, EMPTY, steps + [s])
            && !o.fromStore
            && AsSent(o.result, s.turn.origin)
  {
    PersonalIsNotCacheable(s.request);
    BypassIsAsSent(s.turn);
    hide Cacheable, Personal, Bypass, Arrived, AsSent;
    assert (steps + [s])[..|steps|] == steps && (steps + [s])[|steps|] == s;
  }

  /** Whatever the request: an answer that does not come from the store is what the origin sends. */
  lemma OtherAnswersAreAsSent(lib: Library, store: Store, s: Step)
    requires !After(lib, store, s).fromStore
    ensures AsSentWithoutCookies(After(lib, store, s).result, s.turn.origin)
            || (!MayUse(s) && AsSent(After(lib, store, s).result, s.turn.origin))
  {
    PersonalIsNotCacheable(s.request);
    BypassIsAsSent(s.turn);
    MaterializedIsAsSent(s.turn.origin);
    hide Key, Cacheable, Personal, Bypass, Materialized, FailClosed, AsSent, AsSentWithoutCookies;
  }

  // ----- What is stored -----

  /** The origin sent this body to a request of that namespace, verb and URL that may use the cache. */
  ghost predicate Sent(s: Step, id: Identity, response: Response) {
    && MayUse(s)
    && s.request.verb == id.verb && s.request.url == id.url && s.namespace == id.namespace
    && s.turn.origin.Replied? && AllCame(s.turn.origin.chunks)
    && response.body == HttpHead.Concat(Pieces(s.turn.origin.chunks))
    && response.status == s.turn.origin.status && response.url == s.turn.origin.url
    && response.tor == s.turn.origin.tor
  }

  ghost predicate SentInRun(entry: Entry, steps: seq<Step>) {
    exists i :: 0 <= i < |steps| && Sent(steps[i], entry.identity, entry.response)
  }

  ghost predicate AllSent(store: Store, steps: seq<Step>) {
    forall key :: key in store.entries ==> SentInRun(store.entries[key], steps)
  }

  lemma SentStill(entry: Entry, steps: seq<Step>, s: Step)
    requires SentInRun(entry, steps)
    ensures SentInRun(entry, steps + [s])
  {
    hide Sent;
    var i :| 0 <= i < |steps| && Sent(steps[i], entry.identity, entry.response);
    assert (steps + [s])[i] == steps[i];
  }

  lemma ArrivedIsSent(s: Step)
    requires MayUse(s) && Materialized(s.turn.origin).Ok?
    ensures Sent(s, Identity(s.namespace, s.request.verb, s.request.url), Materialized(s.turn.origin).value)
  {
    BodyIsWhole(s.turn.origin.chunks);
    hide Personal, Without;
  }

  /** An entry is left, gets other headers, or is what just came in. */
  lemma StepStores(lib: Library, store: Store, s: Step, key: string)
    requires key in After(lib, store, s).store.entries
    ensures var e := After(lib, store, s).store.entries[key];
            || (key in store.entries && e.identity == store.entries[key].identity
                && e.response.(headers := []) == store.entries[key].response.(headers := []))
            || Sent(s, e.identity, e.response)
  {
    PersonalIsNotCacheable(s.request);
    if MayUse(s) && Materialized(s.turn.origin).Ok? {
      ArrivedIsSent(s);
    }
    hide Key, Cacheable, Personal, FailClosed, Materialized, Sent, Bypass;
  }

  lemma SameButHeaders(a: Entry, b: Entry, steps: seq<Step>)
    requires a.identity == b.identity && a.response.(headers := []) == b.response.(headers := [])
    requires SentInRun(b, steps)
    ensures SentInRun(a, steps)
  {
    var i :| 0 <= i < |steps| && Sent(steps[i], b.identity, b.response);
    assert b.response.(headers := []).body == b.response.body;
    assert a.response.body == b.response.body && a.response.status == b.response.status
           && a.response.url == b.response.url && a.response.tor == b.response.tor;
    assert Sent(steps[i], a.identity, a.response);
  }

  /** Over every run: whatever is stored was sent by the origin to a request that is not personal. */
  lemma {:induction false} NothingPersonalIsStored(lib: Library, steps: seq<Step>)
    ensures AllSent(Run(lib, EMPTY, steps), steps)
    decreases |steps|
  {
    hide After, SentInRun;
    if steps != [] {
      var before, s := steps[..|steps| - 1], steps[|steps| - 1];
      NothingPersonalIsStored(lib, before);
      assert before + [s] == steps;
      var store, next := Run(lib, EMPTY, before), Run(lib, EMPTY, steps);
      forall key | key in next.entries ensures SentInRun(next.entries[key], steps) {
        StepStores(lib, store, s, key);
        var e := next.entries[key];
        if Sent(s, e.identity, e.response) {
          SentNow(e, before, s);
        } else {
          SameButHeaders(e, store.entries[key], before);
          SentStill(e, before, s);
        }
      }
    }
  }

  lemma SentNow(e: Entry, steps: seq<Step>, s: Step)
    requires Sent(s, e.identity, e.response)
    ensures SentInRun(e, steps + [s])
  {
    hide Sent;
    assert (steps + [s])[|steps|] == s;
  }

  /** After any run: what is served from the store was sent by the origin earlier, whole, to a request
      that is not personal, for the same namespace, verb and URL; and the request it is served to is
      not personal either. */
  lemma NothingPersonalIsServed(lib: Library, steps: seq<Step>, s: Step)
    requires PlainUrls(steps) && '\n' !in s.request.url
    requires After(lib, Run(lib, EMPTY, steps), s).fromStore
    ensures var r := After(lib, Run(lib, EMPTY, steps), s).result;
            && MayUse(s) && r.Ok?
            && exists i :: 0 <= i < |steps| && SentLikewise(steps[i], s, r.value.body)
  {
    var r := After(lib, Run(lib, EMPTY, steps), s).result;
    ServedMayUse(lib, Run(lib, EMPTY, steps), s);
    ServedBodiesAreTheirOwn(lib, steps, s);
    hide After, Run;
    var i :| 0 <= i < |steps| && SentFor(steps[i], IdentityOf(s), r.value.body);
    PersonalIsNotCacheable(steps[i].request);
    BodyIsWhole(steps[i].turn.origin.chunks);
    hide Personal, Cacheable;
    assert SentLikewise(steps[i], s, r.value.body);
  }

  ghost predicate SentLikewise(earlier: Step, s: Step, body: seq<byte>) {
    && MayUse(earlier)
    && earlier.request.verb == s.request.verb && earlier.request.url == s.request.url
    && (earlier.namespace == s.namespace || {earlier.namespace, s.namespace} == {None, Some("")})
    && earlier.turn.origin.Replied? && AllCame(earlier.turn.origin.chunks)
    && body == HttpHead.Concat(Pieces(earlier.turn.origin.chunks))
  }

  lemma ServedMayUse(lib: Library, store: Store, s: Step)
    requires After(lib, store, s).fromStore
    ensures MayUse(s)
  {
    PersonalIsNotCacheable(s.request);
    hide Key, Cacheable, Personal, Materialized, Arrived, Bypass;
  }

  // ----- What is served -----

  ghost predicate AnswersFresh(first: Step, second: Step) {
    && MayUse(first) && MayUse(second) && second.turn.isFresh
    && first.namespace == second.namespace && first.request.verb == second.request.verb
    && first.request.url == second.request.url
  }

  /** What is stored under the request's key is not served as it is. */
  predicate GoesToTheOrigin(store: Store, s: Step) {
    Key(IdentityOf(s)) in store.entries ==>
      && !s.turn.isFresh
      && (s.turn.serveStale ==>
            s.turn.origin.Replied? && s.turn.origin.status < 500 && AllCame(s.turn.origin.chunks))
  }

  /** What comes in whole and is written, in the place of what was stored or of nothing, is what the
      next request for the same gets while it is fresh; that one leaves the store as it is. */
  lemma WhatIsStoredIsServed(lib: Library, store: Store, first: Step, second: Step)
    requires AnswersFresh(first, second) && GoesToTheOrigin(store, first)
    requires first.turn.origin.Replied? && first.turn.origin.status != 304 && AllCame(first.turn.origin.chunks)
    requires first.turn.write && lib.storable(first.request, first.turn.origin.headers)
    requires forall i :: 0 <= i < |first.turn.origin.headers| ==> first.turn.origin.headers[i].0 != "set-cookie"
    ensures var after := After(lib, store, first);
            && AsSent(after.result, first.turn.origin)
            && After(lib, after.store, second) == Outcome(after.store, after.result, true)
  {
    PersonalIsNotCacheable(first.request);
    PersonalIsNotCacheable(second.request);
    MaterializedIsAsSent(first.turn.origin);
    assert FailClosed(first.turn.origin.headers) == first.turn.origin.headers;
    MaterializedFields(first.turn.origin);
    hide Personal, Cacheable, AsSent, Key, FailClosed, Materialized;
  }

  lemma MaterializedFields(origin: OriginReply)
    requires origin.Replied? && AllCame(origin.chunks)
    ensures Materialized(origin).Ok? && Materialized(origin).value.status == origin.status
    ensures origin.status != 304 ==> Materialized(origin).value.headers == origin.headers
  {
    BodyIsWhole(origin.chunks);
  }

  /** A request that is not personal is answered from the store while its entry is fresh. */
  lemma FreshEntriesAreServed(lib: Library, store: Store, s: Step)
    requires !Personal(s.request) && s.allowCache && s.turn.isFresh && Key(IdentityOf(s)) in store.entries
    ensures After(lib, store, s) == Outcome(store, Ok(store.entries[Key(IdentityOf(s))].response), true)
  {
    PersonalIsNotCacheable(s.request);
    hide Personal, Cacheable, Key;
  }

  /** Where the origin says that it has not been modified, the stored response is served and stays
      stored, with new header fields and nothing else new. */
  lemma UnmodifiedEntriesAreServed(lib: Library, store: Store, s: Step)
    requires MayUse(s) && GoesToTheOrigin(store, s) && Key(IdentityOf(s)) in store.entries
    requires s.turn.origin.Replied? && s.turn.origin.status == 304 && AllCame(s.turn.origin.chunks)
    ensures var was, o := store.entries[Key(IdentityOf(s))], After(lib, store, s);
            && o.fromStore && o.result.Ok?
            && o.result.value.(headers := []) == was.response.(headers := [])
            && o.store.entries == store.entries[Key(IdentityOf(s)) := was.(response := o.result.value)]
  {
    PersonalIsNotCacheable(s.request);
    MaterializedFields(s.turn.origin);
    hide Personal, Cacheable, Key, Materialized;
  }

  /** Where the origin fails, or answers with a server error, what is stored may be served, and stays. */
  lemma StaleEntriesAreServed(lib: Library, store: Store, s: Step)
    requires MayUse(s) && Key(IdentityOf(s)) in store.entries && s.turn.serveStale
    requires s.turn.origin.Failed? || s.turn.origin.status >= 500
    ensures After(lib, store, s) == Outcome(store, Ok(store.entries[Key(IdentityOf(s))].response), true)
  {
    PersonalIsNotCacheable(s.request);
    MaterializedStatus(s.turn.origin);
    hide Personal, Cacheable, Key, Materialized;
  }
}
