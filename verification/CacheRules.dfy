/** What spider/src/cache_request.rs lets into the shared HTTP cache, and who gets it back. The
    cache library is an environment: it decides what is fresh and what is storable, and writes
    in the two ways the source describes. */
module CacheRules {
  import opened Results
  import opened Utf8

  /** Header fields in order; names are lower-case. */
  type Headers = seq<(string, string)>

  predicate Has(headers: Headers, name: string) {
    exists i :: 0 <= i < |headers| && headers[i].0 == name
  }

  /** `HeaderMap::remove` */
  function Without(headers: Headers, name: string): Headers {
    if headers == [] then []
    else (if headers[0].0 == name then [] else [headers[0]]) + Without(headers[1..], name)
  }

  /** `HeaderMap::insert` */
  function Put(headers: Headers, name: string, value: string): Headers {
    Without(headers, name) + [(name, value)]
  }

  const SET_COOKIE := "set-cookie"

  // ----- Identity -----

  /** The cache's notion of what was asked: no headers, no body. */
  datatype Identity = Identity(namespace: Option<string>, verb: string, url: string) {
    /** No namespace is the empty one. */
    function Namespace(): string {
      if namespace.None? then "" else namespace.value
    }
  }

  /** `CacheRequestIdentity::key` */
  function Key(id: Identity): string {
    "scorpion-cache-v1\n" + id.Namespace() + "\n" + id.verb + "\n" + id.url
  }

  predicate SameIdentity(a: Identity, b: Identity) {
    a.Namespace() == b.Namespace() && a.verb == b.verb && a.url == b.url
  }

  // ----- Requests and responses -----

  datatype Request = Request(verb: string, url: string, headers: Headers, body: Option<seq<byte>>,
                             secretHeaders: Headers)

  /** `cacheable_request` */
  predicate Cacheable(r: Request) {
    && (r.verb == "GET" || r.verb == "HEAD")
    && r.body.None?
    && r.secretHeaders == []
    && !Has(r.headers, "authorization")
    && !Has(r.headers, "proxy-authorization")
    && !Has(r.headers, "cookie")
    && !Has(r.headers, SET_COOKIE)
  }

  datatype Response = Response(status: nat, headers: Headers, body: seq<byte>, url: string, tor: bool)

  /** What the transport gives: a reply whose body comes in chunks, one of which may fail. */
  datatype OriginReply =
    | Replied(status: nat, headers: Headers, chunks: seq<Option<seq<byte>>>, url: string, tor: bool)
    | Failed(failure: string)

  /** The whole body, if no chunk fails. */
  function BodyOf(chunks: seq<Option<seq<byte>>>): Option<seq<byte>> {
    if chunks == [] then Some([])
    else
      var before, last := BodyOf(chunks[..|chunks| - 1]), chunks[|chunks| - 1];
      if before.None? || last.None? then None else Some(before.value + last.value)
  }

  function Materialized(origin: OriginReply): Result<Response, string> {
    if origin.Failed? then Err(origin.failure)
    else if BodyOf(origin.chunks).None? then Err("body failed")
    else
      var headers := if origin.status == 304 then Without(origin.headers, SET_COOKIE) else origin.headers;
      Ok(Response(origin.status, headers, BodyOf(origin.chunks).value, origin.url, origin.tor))
  }

  /** `fail_closed_on_set_cookie` */
  function FailClosed(headers: Headers): Headers {
    if Has(headers, SET_COOKIE) then Put(headers, "cache-control", "no-store") else headers
  }

  // ----- The cache library -----

  /** `storable` decides on a response, `merged` folds the headers of a 304 into stored ones. */
  datatype Library = Library(storable: (Request, Headers) -> bool, merged: (Headers, Headers) -> Headers)

  /** Section 3 of RFC 9111: no-store is an absolute veto; section 4.3.4: freshening takes header
      fields from the stored response and from the 304, and from nowhere else. */
  ghost predicate Lawful(lib: Library) {
    && (forall r, h :: ("cache-control", "no-store") in h ==> !lib.storable(r, h))
    && (forall a, b, name :: Has(lib.merged(a, b), name) ==> Has(a, name) || Has(b, name))
  }

  /** What is left open for one request: is a stored entry fresh, may it be served when the
      origin fails, is a storable response written, and what does the origin say. */
  datatype Turn = Turn(isFresh: bool, serveStale: bool, write: bool, origin: OriginReply)

  datatype Entry = Entry(identity: Identity, response: Response)

  datatype Store = Store(entries: map<string, Entry>)

  datatype Outcome = Outcome(store: Store, result: Result<Response, string>, fromStore: bool)

  /** A request that the cache has no part in. */
  function Bypass(turn: Turn): Result<Response, string> {
    if turn.origin.Failed? then Err(turn.origin.failure)
    else if BodyOf(turn.origin.chunks).None? then Err("body failed")
    else Ok(Response(turn.origin.status, turn.origin.headers, BodyOf(turn.origin.chunks).value, turn.origin.url,
                     turn.origin.tor))
  }

  /** A response that came in although `key` may be stored. */
  function Arrived(lib: Library, store: Store, id: Identity, request: Request, write: bool,
                   response: Response): Outcome {
    var key := Key(id);
    if key in store.entries && response.status == 304 then
      var stored := store.entries[key];
      var freshened := stored.response.(headers := lib.merged(stored.response.headers, response.headers));
      Outcome(Store(store.entries[key := stored.(response := freshened)]), Ok(freshened), true)
    else if lib.storable(request, FailClosed(response.headers)) && write then
      Outcome(Store(store.entries[key := Entry(id, response)]), Ok(response), false)
    else Outcome(store, Ok(response), false)
  }

  /** `CanonicalCacheExecutor::execute` */
  function Execute(lib: Library, store: Store, namespace: Option<string>, request: Request, allowCache: bool,
                   turn: Turn): Outcome {
    if !allowCache || !Cacheable(request) then Outcome(store, Bypass(turn), false)
    else
      var id := Identity(namespace, request.verb, request.url);
      if Key(id) in store.entries && turn.isFresh then Outcome(store, Ok(store.entries[Key(id)].response), true)
      else
        var response := Materialized(turn.origin);
        if response.Ok? && !(response.value.status >= 500 && turn.serveStale && Key(id) in store.entries) then
          Arrived(lib, store, id, request, turn.write, response.value)
        else if turn.serveStale
          && Key(id) in store.entries then Outcome(store, Ok(store.entries[Key(id)].response), true)
        else Outcome(store, response, false)
  }

  datatype Step = Step(namespace: Option<string>, request: Request, allowCache: bool, turn: Turn)

  function After(lib: Library, store: Store, s: Step): Outcome {
    Execute(lib, store, s.namespace, s.request, s.allowCache, s.turn)
  }

  /** The store after a run of requests. */
  function Run(lib: Library, store: Store, steps: seq<Step>): Store {
    if steps == [] then store
    else After(lib, Run(lib, store, steps[..|steps| - 1]), steps[|steps| - 1]).store
  }

  const EMPTY := Store(map[])

  // ----- The code -----

  method MaterializeNetworkResponse(origin: OriginReply) returns (r: Result<Response, string>)
    ensures r == Materialized(origin)
  {
    if origin.Failed? {
      return Err(origin.failure);
    }
    var headers := origin.headers;
    if origin.status == 304 {
      headers := Without(headers, SET_COOKIE);
    }
    var bytes: seq<byte> := [];
    for i := 0 to |origin.chunks|
      invariant BodyOf(origin.chunks[..i]) == Some(bytes)
    {
      assert origin.chunks[..i + 1][..i] == origin.chunks[..i];
      if origin.chunks[i].None? {
        BodyFails(origin.chunks, i);
        return Err("body failed");
      }
      bytes := bytes + origin.chunks[i].value;
    }
    assert origin.chunks[..|origin.chunks|] == origin.chunks;
    return Ok(Response(origin.status, headers, bytes, origin.url, origin.tor));
  }

  lemma {:induction false} BodyFails(chunks: seq<Option<seq<byte>>>, i: nat)
    requires i < |chunks| && chunks[i].None?
    ensures BodyOf(chunks).None?
    decreases |chunks|
  {
    if i < |chunks| - 1 {
      BodyFails(chunks[..|chunks| - 1], i);
    }
  }

  /** The adapter between the cache and the transport: it has one request to send. */
  class CacheAdapter {
    var request: Option<Request>

    constructor (r: Request)
      ensures request == Some(r)
    {
      request := Some(r);
    }

    method RemoteFetch(origin: OriginReply) returns (r: Result<Response, string>)
      modifies this
      ensures request == None
      ensures r == if old(request).None? then Err("cache request already consumed") else Materialized(origin)
    {
      if request.None? {
        return Err("cache request already consumed");
      }
      request := None;
      r := MaterializeNetworkResponse(origin);
    }
  }

  /** The process-wide cache manager. */
  class CacheManager {
    var store: Store

    constructor ()
      ensures store == EMPTY
    {
      store := EMPTY;
    }

    /** The library's `put` behind its storability check. */
    method StoreFresh(lib: Library, id: Identity, request: Request, write: bool, response: Response)
      modifies this
      ensures store == if lib.storable(request, FailClosed(response.headers)) && write
                       then Store(old(store).entries[Key(id) := Entry(id, response)]) else old(store)
    {
      var headers := response.headers;
      if Has(headers, SET_COOKIE) {
        headers := Put(headers, "cache-control", "no-store");
      }
      if lib.storable(request, headers) && write {
        store := Store(store.entries[Key(id) := Entry(id, response)]);
      }
    }

    method ExecuteRequest(lib: Library, namespace: Option<string>, request: Request, allowCache: bool, turn: Turn)
      returns (r: Result<Response, string>)
      modifies this
      ensures var o := Execute(lib, old(store), namespace, request, allowCache, turn); store == o.store && r == o.result
    {
      hide Key, FailClosed, Materialized, Cacheable;
      if !allowCache || !Cacheable(request) {
        return Bypass(turn);
      }
      var id := Identity(namespace, request.verb, request.url);
      var key := Key(id);
      if key in store.entries && turn.isFresh {
        return Ok(store.entries[key].response);
      }
      var adapter := new CacheAdapter(request);
      var response := adapter.RemoteFetch(turn.origin);
      if key in store.entries && turn.serveStale && (response.Err? || response.value.status >= 500) {
        return Ok(store.entries[key].response);
      }
      if response.Err? {
        return response;
      }
      if key in store.entries && response.value.status == 304 {
        var stored := store.entries[key];
        var freshened := stored.response.(headers := lib.merged(stored.response.headers, response.value.headers));
        store := Store(store.entries[key := stored.(response := freshened)]);
        return Ok(freshened);
      }
      StoreFresh(lib, id, request, turn.write, response.value);
      return response;
    }
  }

  // ----- Cookies -----

  lemma {:induction false} WithoutRemoves(headers: Headers, name: string)
    ensures !Has(Without(headers, name), name)
    ensures forall other :: Has(Without(headers, name), other) ==> Has(headers, other)
  {
    if headers != [] {
      var rest := Without(headers[1..], name);
      WithoutRemoves(headers[1..], name);
      if headers[0].0 != name {
        HasCons(headers[0], rest);
      }
      HasCons(headers[0], headers[1..]);
      assert [headers[0]] + headers[1..] == headers;
    }
  }

  lemma HasCons(field: (string, string), rest: Headers)
    ensures forall name :: Has([field] + rest, name) <==> field.0 == name || Has(rest, name)
  {
    forall name
      ensures Has([field] + rest, name) <==> field.0 == name || Has(rest, name)
    {
      var all := [field] + rest;
      assert all[0] == field;
      assert forall i :: 0 <= i < |rest| ==> all[i + 1] == rest[i];
      assert forall i :: 0 < i < |all| ==> all[i] == rest[i - 1];
    }
  }

  /** The veto the library is handed for every response with a cookie. */
  lemma CookiesAreVetoed(lib: Library, request: Request, headers: Headers)
    requires Lawful(lib) && Has(headers, SET_COOKIE)
    ensures !lib.storable(request, FailClosed(headers))
  {
    var closed := FailClosed(headers);
    assert closed[|closed| - 1] == ("cache-control", "no-store");
    assert ("cache-control", "no-store") in closed;
  }

  ghost predicate NoStoredCookies(store: Store) {
    forall key :: key in store.entries ==> !Has(store.entries[key].response.headers, SET_COOKIE)
  }

  lemma MaterializedHeaders(origin: OriginReply)
    ensures Materialized(origin).Ok? && origin.status == 304 ==> !Has(Materialized(origin).value.headers, SET_COOKIE)
  {
    if origin.Replied? {
      WithoutRemoves(origin.headers, SET_COOKIE);
    }
  }

  lemma StepKeepsCookiesOut(lib: Library, store: Store, s: Step)
    requires Lawful(lib) && NoStoredCookies(store)
    ensures NoStoredCookies(After(lib, store, s).store)
  {
    hide Key, Has, Materialized, Cacheable, FailClosed;
    MaterializedHeaders(s.turn.origin);
    var response := Materialized(s.turn.origin);
    if response.Ok? && Has(response.value.headers, SET_COOKIE) {
      CookiesAreVetoed(lib, s.request, response.value.headers);
    }
    MaterializedStatus(s.turn.origin);
  }

  lemma MaterializedStatus(origin: OriginReply)
    ensures Materialized(origin).Ok? ==> origin.Replied? && Materialized(origin).value.status == origin.status
  {
  }

  /** Over every run of requests, against any origin and any choice of freshness, no stored
      entry has a Set-Cookie field. */
  lemma {:induction false} NoCookieIsEverStored(lib: Library, steps: seq<Step>)
    requires Lawful(lib)
    ensures NoStoredCookies(Run(lib, EMPTY, steps))
    decreases |steps|
  {
    hide After;
    if steps != [] {
      NoCookieIsEverStored(lib, steps[..|steps| - 1]);
      StepKeepsCookiesOut(lib, Run(lib, EMPTY, steps[..|steps| - 1]), steps[|steps| - 1]);
    }
  }

  /** A fresh reply reaches the caller with its cookies; only a 304 loses them. */
  lemma CallersKeepTheirCookies(lib: Library, store: Store, s: Step)
    requires !After(lib, store, s).fromStore && After(lib, store, s).result.Ok?
    ensures s.turn.origin.Replied?
    ensures s.turn.origin.status != 304 ==> After(lib, store, s).result.value.headers == s.turn.origin.headers
  {
    hide Key, Has, Cacheable, FailClosed;
  }

  // ----- Rejected requests -----

  predicate Admits(s: Step) {
    s.allowCache && Cacheable(s.request)
  }

  /** Of something for each step, what belongs to the admitted ones. */
  function Admitted<T>(steps: seq<Step>, each: seq<T>): seq<T>
    requires |each| == |steps|
    decreases |steps|
  {
    if steps == [] then []
    else
      var n := |steps| - 1;
      Admitted(steps[..n], each[..n]) + if Admits(steps[n]) then [each[n]] else []
  }

  /** What each step of a run did. */
  function Outcomes(lib: Library, store: Store, steps: seq<Step>): (outcomes: seq<Outcome>)
    ensures |outcomes| == |steps|
  {
    if steps == [] then []
    else
      var n := |steps| - 1;
      Outcomes(lib, store, steps[..n]) + [After(lib, Run(lib, store, steps[..n]), steps[n])]
  }

  lemma RejectedStep(lib: Library, store: Store, s: Step)
    requires !Admits(s)
    ensures After(lib, store, s) == Outcome(store, Bypass(s.turn), false)
  {
  }

  lemma RunMore(lib: Library, store: Store, steps: seq<Step>, s: Step)
    ensures Run(lib, store, steps + [s]) == After(lib, Run(lib, store, steps), s).store
    ensures Outcomes(lib, store, steps + [s])
            == Outcomes(lib, store, steps) + [After(lib, Run(lib, store, steps), s)]
  {
    hide After;
    assert (steps + [s])[..|steps|] == steps;
  }

  /** Take the requests that are rejected out of a run: the store it ends with is the same, and
      so is what happens to every other request. */
  lemma {:induction false} RejectedRequestsAreApart(lib: Library, store: Store, steps: seq<Step>)
    ensures Run(lib, store, Admitted(steps, steps)) == Run(lib, store, steps)
    ensures Outcomes(lib, store, Admitted(steps, steps)) == Admitted(steps, Outcomes(lib, store, steps))
    decreases |steps|
  {
    if steps != [] {
      hide After, Admits;
      var n := |steps| - 1;
      var before, last := steps[..n], steps[n];
      RejectedRequestsAreApart(lib, store, before);
      assert Outcomes(lib, store, steps)[..n] == Outcomes(lib, store, before);
      if Admits(last) {
        RunMore(lib, store, Admitted(before, before), last);
      } else {
        RejectedStep(lib, Run(lib, store, before), last);
        assert Admitted(steps, steps) == Admitted(before, before);
      }
    }
  }

  /** And each of those is answered as the origin replied. */
  lemma {:induction false} RejectedAnswers(lib: Library, store: Store, steps: seq<Step>, k: nat)
    requires k < |steps| && !Admits(steps[k])
    ensures Outcomes(lib, store, steps)[k].result == Bypass(steps[k].turn)
            && !Outcomes(lib, store, steps)[k].fromStore
    decreases |steps|
  {
    hide After, Admits;
    var n := |steps| - 1;
    if k < n {
      RejectedAnswers(lib, store, steps[..n], k);
    } else {
      RejectedStep(lib, Run(lib, store, steps[..n]), steps[n]);
    }
  }

  // ----- Identity -----

  lemma NewlineIsLast(a: string, u: string)
    requires '\n' !in u
    ensures var s := a + ['\n'] + u; s[|a|] == '\n' && forall k :: |a| < k < |s| ==> s[k] != '\n'
  {
    var s := a + ['\n'] + u;
    forall k | |a| < k < |s|
      ensures s[k] != '\n'
    {
      assert s[k] == u[k - |a| - 1];
    }
  }

  lemma LastLineIsUnique(a: string, u: string, b: string, v: string)
    requires '\n' !in u && '\n' !in v && a + ['\n'] + u == b + ['\n'] + v
    ensures a == b && u == v
  {
    NewlineIsLast(a, u);
    NewlineIsLast(b, v);
    var s := a + ['\n'] + u;
    assert |a| == |b|;
    assert a == s[..|a|] && b == s[..|b|];
    assert u == s[|a| + 1..] && v == s[|b| + 1..];
  }

  predicate OneLineEach(id: Identity) {
    '\n' !in id.verb && '\n' !in id.url
  }

  /** Two requests share a key exactly when namespace, method and URL agree, for methods and URLs
      without newlines and any namespaces. */
  lemma KeyIsIdentity(a: Identity, b: Identity)
    requires OneLineEach(a) && OneLineEach(b)
    ensures Key(a) == Key(b) <==> SameIdentity(a, b)
  {
    if Key(a) == Key(b) {
      var p := "scorpion-cache-v1\n";
      LastLineIsUnique(p + a.Namespace() + "\n" + a.verb, a.url, p + b.Namespace() + "\n" + b.verb, b.url);
      LastLineIsUnique(p + a.Namespace(), a.verb, p + b.Namespace(), b.verb);
      assert (p + a.Namespace())[|p|..] == a.Namespace() && (p + b.Namespace())[|p|..] == b.Namespace();
    }
  }

  function IdentityOf(s: Step): Identity {
    Identity(s.namespace, s.request.verb, s.request.url)
  }

  ghost predicate PlainUrls(steps: seq<Step>) {
    forall i :: 0 <= i < |steps| ==> '\n' !in steps[i].request.url
  }

  /** The origin sent `body` in answer to a request of this identity that may be cached. */
  ghost predicate SentFor(s: Step, id: Identity, body: seq<byte>) {
    && Admits(s) && SameIdentity(IdentityOf(s), id)
    && s.turn.origin.Replied? && BodyOf(s.turn.origin.chunks) == Some(body)
  }

  ghost predicate Sourced(entry: Entry, steps: seq<Step>) {
    exists i :: 0 <= i < |steps| && SentFor(steps[i], entry.identity, entry.response.body)
  }

  ghost predicate Kept(key: string, entry: Entry, steps: seq<Step>) {
    OneLineEach(entry.identity) && key == Key(entry.identity) && Sourced(entry, steps)
  }

  predicate SameContent(a: Entry, b: Entry) {
    a.identity == b.identity && a.response.body == b.response.body
  }

  ghost predicate Faithful(store: Store, steps: seq<Step>) {
    forall key :: key in store.entries ==>
      Kept(key, store.entries[key], steps)
  }

  lemma SourcedStill(entry: Entry, steps: seq<Step>, s: Step)
    requires Sourced(entry, steps)
    ensures Sourced(entry, steps + [s])
  {
    var i :| 0 <= i < |steps| && SentFor(steps[i], entry.identity, entry.response.body);
    assert (steps + [s])[i] == steps[i];
  }

  /** A step either leaves an entry alone, gives it other headers, or stores what came in. */
  lemma StepWrites(lib: Library, store: Store, s: Step, key: string)
    requires key in After(lib, store, s).store.entries
    ensures var e := After(lib, store, s).store.entries[key];
            || (key in store.entries && SameContent(e, store.entries[key]))
            || (e.identity == IdentityOf(s) && key == Key(IdentityOf(s)) && SentFor(s, IdentityOf(s), e.response.body))
  {
    hide Key, Has, FailClosed, Without;
  }

  lemma CacheableVerb(r: Request)
    requires Cacheable(r)
    ensures '\n' !in r.verb
  {
  }

  lemma StepKeepsFaith(lib: Library, store: Store, steps: seq<Step>, s: Step)
    requires Faithful(store, steps) && '\n' !in s.request.url
    ensures Faithful(After(lib, store, s).store, steps + [s])
  {
    hide After, Key, Cacheable;
    var next := After(lib, store, s).store;
    forall key | key in next.entries
      ensures Kept(key, next.entries[key], steps + [s])
    {
      StepWrites(lib, store, s, key);
      var e := next.entries[key];
      if key in store.entries && SameContent(e, store.entries[key]) {
        SourcedStill(store.entries[key], steps, s);
      } else {
        CacheableVerb(s.request);
        assert (steps + [s])[|steps|] == s;
      }
    }
  }

  lemma {:induction false} RunsAreFaithful(lib: Library, steps: seq<Step>)
    requires PlainUrls(steps)
    ensures Faithful(Run(lib, EMPTY, steps), steps)
    decreases |steps|
  {
    hide After, Faithful;
    if steps == [] {
      NothingStored();
    } else {
      var before, last := steps[..|steps| - 1], steps[|steps| - 1];
      RunsAreFaithful(lib, before);
      StepKeepsFaith(lib, Run(lib, EMPTY, before), before, last);
      assert before + [last] == steps;
    }
  }

  lemma NothingStored()
    ensures Faithful(EMPTY, [])
  {
  }

  lemma ServedIsStored(lib: Library, store: Store, s: Step)
    requires After(lib, store, s).fromStore
    ensures Cacheable(s.request) && Key(IdentityOf(s)) in store.entries
    ensures After(lib, store, s).result.Ok?
    ensures After(lib, store, s).result.value.body == store.entries[Key(IdentityOf(s))].response.body
  {
    hide Key, Has, Without, FailClosed;
  }

  /** Whatever run came before, a body served from the store is one the origin sent earlier, to
      a cacheable request of the same namespace, method and URL. */
  lemma ServedBodiesAreTheirOwn(lib: Library, steps: seq<Step>, s: Step)
    requires PlainUrls(steps) && '\n' !in s.request.url
    requires After(lib, Run(lib, EMPTY, steps), s).fromStore
    ensures var r := After(lib, Run(lib, EMPTY, steps), s).result;
            r.Ok? && exists i :: 0 <= i < |steps| && SentFor(steps[i], IdentityOf(s), r.value.body)
  {
    hide After, Run, Key, Cacheable;
    var store := Run(lib, EMPTY, steps);
    RunsAreFaithful(lib, steps);
    ServedIsStored(lib, store, s);
    CacheableVerb(s.request);
    var entry := store.entries[Key(IdentityOf(s))];
    KeyIsIdentity(entry.identity, IdentityOf(s));
    var i :| 0 <= i < |steps| && SentFor(steps[i], entry.identity, entry.response.body);
    assert SentFor(steps[i], IdentityOf(s), entry.response.body);
  }
}
