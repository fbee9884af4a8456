/** What kind of callback the names of its pairs make it, and what each pair comes to, by those names
    as they are written. */
module CallbackNames {
  import opened Results
  import opened IamFacts
  import opened Utf8
  import JsonFacts
  import opened JsonPaths
  import opened IamCallback

  predicate Named(pairs: Pairs, name: string) {
    exists i :: 0 <= i < |pairs| && pairs[i].0 == name
  }

  /** Called SAMLResponse in whatever case. */
  predicate CarriesSaml(pairs: Pairs) {
    exists i :: 0 <= i < |pairs| && SameLetters(pairs[i].0, "samlresponse")
  }

  /** Pair `i` is the first called `name`. */
  predicate FirstNamed(pairs: Pairs, i: int, name: string) {
    0 <= i < |pairs| && pairs[i].0 == name && forall j :: 0 <= j < i ==> pairs[j].0 != name
  }

  predicate FirstSaml(pairs: Pairs, i: int) {
    && 0 <= i < |pairs| && SameLetters(pairs[i].0, "samlresponse")
    && forall j :: 0 <= j < i ==> !SameLetters(pairs[j].0, "samlresponse")
  }

  lemma SamlLetters()
    ensures SameLetters("SAMLResponse", "samlresponse")
    ensures forall i :: 0 <= i < |"samlresponse"| ==> !('A' <= "samlresponse"[i] <= 'Z')
  {
  }

  lemma SamlResponseIs(name: string)
    ensures ToAsciiLower(name) == ToAsciiLower("SAMLResponse") <==> SameLetters(name, "samlresponse")
    ensures name == "SAMLResponse" ==> SameLetters(name, "samlresponse")
  {
    SamlLetters();
    hide ToAsciiLower, SameLetters;
    LettersAreLowered("SAMLResponse", "samlresponse");
    LettersAreLowered(name, "samlresponse");
  }

  lemma {:induction false} FirstSamlIsFound(pairs: Pairs)
    ensures var r := FirstValue(pairs, "SAMLResponse", true);
            && (r.Some? <==> CarriesSaml(pairs))
            && (r.Some? ==> exists i :: FirstSaml(pairs, i) && r == Some(pairs[i].1))
    decreases |pairs|
  {
    hide SameLetters, ToAsciiLower;
    if pairs != [] {
      SamlResponseIs(pairs[0].0);
      var rest := pairs[1..];
      FirstSamlIsFound(rest);
      assert forall j :: 0 <= j < |rest| ==> rest[j] == pairs[j + 1];
      assert forall j :: 0 < j < |pairs| ==> pairs[j] == rest[j - 1];
      if SameLetters(pairs[0].0, "samlresponse") {
        assert FirstSaml(pairs, 0);
      } else if FirstValue(rest, "SAMLResponse", true).Some? {
        var i :| FirstSaml(rest, i) && FirstValue(rest, "SAMLResponse", true) == Some(rest[i].1);
        assert pairs[i + 1] == rest[i];
        forall j | 0 <= j < i + 1 ensures !SameLetters(pairs[j].0, "samlresponse") {
          if j > 0 {
            assert pairs[j] == rest[j - 1];
          }
        }
        assert FirstSaml(pairs, i + 1);
      }
    }
  }

  lemma {:induction false} FirstNamedIsFound(pairs: Pairs, name: string)
    ensures var r := FirstValue(pairs, name, false);
            && (r.Some? <==> Named(pairs, name))
            && (r.Some? ==> exists i :: FirstNamed(pairs, i, name) && r == Some(pairs[i].1))
    decreases |pairs|
  {
    hide ToAsciiLower;
    if pairs != [] {
      var rest := pairs[1..];
      FirstNamedIsFound(rest, name);
      assert forall j :: 0 <= j < |rest| ==> rest[j] == pairs[j + 1];
      assert forall j :: 0 < j < |pairs| ==> pairs[j] == rest[j - 1];
      if pairs[0].0 == name {
        assert FirstNamed(pairs, 0, name);
      } else if FirstValue(rest, name, false).Some? {
        var i :| FirstNamed(rest, i, name) && FirstValue(rest, name, false) == Some(rest[i].1);
        assert pairs[i + 1] == rest[i];
        assert FirstNamed(pairs, i + 1, name);
      }
    }
  }

  lemma NamesOfPairs(pairs: Pairs, name: string)
    ensures |PairFacts(pairs)| == |pairs| && (name in Names(PairFacts(pairs)) <==> Named(pairs, name))
  {
    hide PairFacts, IsSensitiveName;
    NoPairs();
    if pairs != [] {
      PairFactAt(pairs, 0);
    }
    forall i | 0 <= i < |pairs| ensures PairFacts(pairs)[i].name == pairs[i].0 {
      PairFactAt(pairs, i);
    }
    var names := Names(PairFacts(pairs));
    assert |names| == |pairs| && forall i :: 0 <= i < |pairs| ==> names[i] == pairs[i].0;
  }

  lemma NoPairs()
    ensures PairFacts([]) == []
  {
  }

  /** Any SAMLResponse, in whatever case, makes it a SAML callback; else an id_token makes it OIDC;
      else a code, an error or a state makes it OAuth2; nothing else makes it any of these. */
  lemma NamesMakeTheProtocol(decoders: Decoders, pairs: Pairs)
    ensures var saml, oidc := CarriesSaml(pairs), Named(pairs, "id_token");
            var oauth := Named(pairs, "code") || Named(pairs, "error") || Named(pairs, "state");
            AllFacts(decoders, pairs).0
            == if saml then Saml else if oidc then Oidc else if oauth then OAuth2 else Generic
  {
    FirstSamlIsFound(pairs);
    FirstNamedIsFound(pairs, "id_token");
    NamesOfPairs(pairs, "code");
    NamesOfPairs(pairs, "error");
    NamesOfPairs(pairs, "state");
    hide PairFacts, FirstValue, CarriesSaml, Named, Names, TokenFacts, SamlFacts;
  }

  /** Each pair's own fact: redacted under a secret name; a state not validated in a callback that is
      not SAML and could not be without it; anything else in the open. */
  lemma PairsBecomeFacts(decoders: Decoders, pairs: Pairs, i: nat)
    requires i < |pairs|
    ensures var (name, value) := pairs[i];
            && i < |AllFacts(decoders, pairs).1|
            && AllFacts(decoders, pairs).1[i] == Fact(name,
                 if IsSecret(name) then Redacted(Sha256(value))
                 else if name == "state" && !CarriesSaml(pairs) then NotValidated(value)
                 else Observed(value))
  {
    PairsKeepTheirFacts(decoders, pairs, i);
    SecretsAreSensitive(pairs[i].0);
    NamesMakeTheProtocol(decoders, pairs);
    hide IsSecret, IsSensitiveName, CarriesSaml, AllFacts;
    if pairs[i].0 == "state" {
      assert Named(pairs, "state");
    }
  }

  /** What a decoded token adds, or why it did not decode. */
  ghost predicate Tells(facts: seq<Fact>, decoded: Result<seq<Fact>, string>, errorName: string) {
    match decoded
    case Ok(said) => facts == said
    case Err(error) => facts == [Fact(errorName, NotValidated(error))]
  }

  /** `facts` are those of the first id_token, if there is one. */
  ghost predicate OfIdToken(decoders: Decoders, pairs: Pairs, facts: seq<Fact>) {
    if Named(pairs, "id_token") then
      exists i :: FirstNamed(pairs, i, "id_token") && Tells(facts, decoders.jwt(pairs[i].1), "jwt.decode_error")
    else facts == []
  }

  /** `facts` are those of the first SAMLResponse, if there is one. */
  ghost predicate OfSaml(decoders: Decoders, pairs: Pairs, facts: seq<Fact>) {
    if CarriesSaml(pairs) then
      exists i :: FirstSaml(pairs, i) && Tells(facts, SamlFacts(decoders, pairs[i].1), "saml.decode_error")
    else facts == []
  }

  lemma IdTokenTells(decoders: Decoders, pairs: Pairs)
    ensures OfIdToken(decoders, pairs, IdTokenFacts(decoders, pairs))
  {
    FirstNamedIsFound(pairs, "id_token");
    hide FirstValue, Named, FirstNamed;
  }

  function SamlTokenFacts(decoders: Decoders, pairs: Pairs): seq<Fact> {
    var raw := FirstValue(pairs, "SAMLResponse", true);
    if raw.Some? then TokenFacts(SamlFacts(decoders, raw.value), "saml.decode_error") else []
  }

  lemma SamlTells(decoders: Decoders, pairs: Pairs)
    ensures OfSaml(decoders, pairs, SamlTokenFacts(decoders, pairs))
  {
    FirstSamlIsFound(pairs);
    hide FirstValue, CarriesSaml, FirstSaml, SamlFacts;
  }

  /** Behind the facts of the pairs stand those of the first id_token, if there is one, and then those
      of the first SAMLResponse; each that does not decode is one fact that says why. */
  lemma TokensFollow(decoders: Decoders, pairs: Pairs)
    ensures var facts := AllFacts(decoders, pairs).1;
            && |facts| >= |pairs|
            && exists jwt, saml ::
                 facts[|pairs|..] == jwt + saml && OfIdToken(decoders, pairs, jwt) && OfSaml(decoders, pairs, saml)
  {
    IdTokenTells(decoders, pairs);
    SamlTells(decoders, pairs);
    NamesOfPairs(pairs, "");
    hide PairFacts, SamlFacts, ProtocolOf, MarkedFact, FirstValue, OfIdToken, OfSaml, IdTokenFacts, TokenFacts;
    var facts, jwt, saml := AllFacts(decoders, pairs).1, IdTokenFacts(decoders, pairs), SamlTokenFacts(decoders, pairs);
    assert facts[|pairs|..] == jwt + saml;
  }

  lemma PairIsBounded(pair: (string, string))
    ensures JsonFacts.Bounded(PairFact(pair)) <==> ByteLength(pair.0) <= 256 && ByteLength(pair.1) <= 16384
  {
    hide IsSensitiveName, ByteLength;
  }

  predicate PairsFit(pairs: Pairs) {
    forall i :: 0 <= i < |pairs| ==> ByteLength(pairs[i].0) <= 256 && ByteLength(pairs[i].1) <= 16384
  }

  lemma PairFactsFit(pairs: Pairs)
    ensures JsonFacts.Accepted(0, PairFacts(pairs), true) <==> |pairs| <= 64 && PairsFit(pairs)
  {
    NamesOfPairs(pairs, "");
    var facts := PairFacts(pairs);
    hide PairFacts, PairFact, JsonFacts.Bounded, ByteLength;
    forall i | 0 <= i < |pairs|
      ensures JsonFacts.Bounded(facts[i]) <==> ByteLength(pairs[i].0) <= 256 && ByteLength(pairs[i].1) <= 16384
    {
      PairFactAt(pairs, i);
      PairIsBounded(pairs[i]);
    }
    assert forall f :: f in facts ==> exists i :: 0 <= i < |facts| && facts[i] == f;
    assert forall i :: 0 <= i < |facts| ==> facts[i] in facts;
  }

  /** Pairs are accepted exactly if their names have at most 256 bytes and their values at most 16384,
      and with what the tokens add there are at most 64 facts. */
  lemma PairsAreAccepted(decoders: Decoders, pairs: Pairs, r: Result<(Protocol, seq<Fact>), Rejection>)
    requires IamCallback.Inspected(decoders, pairs, r)
    ensures r.Ok? <==> PairsFit(pairs) && |AllFacts(decoders, pairs).1| <= 64
    ensures r.Ok? ==> |pairs| <= 64 && r.value == AllFacts(decoders, pairs)
    ensures r.Err? ==> r.error == ParameterLimitExceeded
  {
    PairFactsFit(pairs);
    TokensFollow(decoders, pairs);
    hide PairFacts, AllFacts, PairsFit, JsonFacts.Accepted;
  }
}
