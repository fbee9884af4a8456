/** A form or query callback from its decoded pairs to its facts: the generic facts, the
    classification, and what the tokens inside are found to say. */
module IamCallback {
  import opened Results
  import opened Utf8
  import opened IamFacts
  import opened SamlMarkup
  import opened SamlWalker
  import opened SamlReference
  import opened SamlVerdicts
  import Base64
  import FormCodec
  import JsonFacts
  import SamlParser

  datatype Protocol = Generic | OAuth2 | Oidc | Saml

  type Pairs = seq<(string, string)>

  /** What is outside the model: the parser of form-encoded text, the JWT decoder, and the XML
      reader up to the events it delivers. */
  datatype Decoders = Decoders(
    pairs: string -> Pairs, jwt: string -> Result<seq<Fact>, string>, events: seq<byte> -> seq<XmlEvent>)

  datatype Rejection = MalformedPercentEncoding | MalformedFormEncoding | ParameterLimitExceeded

  // ----- The generic facts -----

  function PairFacts(pairs: Pairs): seq<Fact> {
    if pairs == [] then []
    else PairFacts(pairs[..|pairs| - 1]) + [PairFact(pairs[|pairs| - 1])]
  }

  function PairFact(pair: (string, string)): Fact {
    JsonFacts.FactOf(pair.0, pair.1, IsSensitiveName(pair.0))
  }

  method FactsFromPairs(pairs: Pairs) returns (facts: Option<seq<Fact>>)
    ensures facts == if JsonFacts.Accepted(0, PairFacts(pairs), true) then Some(PairFacts(pairs)) else None
  {
    hide IsSensitiveName, JsonFacts.Bounded;
    var sink := new JsonFacts.FactSink();
    for i := 0 to |pairs|
      invariant sink.facts == PairFacts(pairs[..i]) && JsonFacts.Accepted(0, PairFacts(pairs[..i]), true)
    {
      assert pairs[..i + 1][..i] == pairs[..i] && pairs[..i + 1][i] == pairs[i];
      JsonFacts.AcceptedConcat(0, PairFacts(pairs[..i]), true, [PairFact(pairs[i])], true);
      var ok := sink.PushFact(pairs[i].0, pairs[i].1, IsSensitiveName(pairs[i].0));
      if !ok {
        RejectedForGood(pairs, i + 1);
        return None;
      }
    }
    assert pairs[..|pairs|] == pairs;
    return Some(sink.facts);
  }

  lemma {:induction false} RejectedForGood(pairs: Pairs, n: nat)
    requires n <= |pairs| && !JsonFacts.Accepted(0, PairFacts(pairs[..n]), true)
    ensures !JsonFacts.Accepted(0, PairFacts(pairs), true)
    decreases |pairs| - n
  {
    hide IsSensitiveName, JsonFacts.Bounded;
    if n == |pairs| {
      assert pairs[..n] == pairs;
    } else {
      assert pairs[..n + 1][..n] == pairs[..n] && pairs[..n + 1][n] == pairs[n];
      JsonFacts.AcceptedConcat(0, PairFacts(pairs[..n]), true, [PairFact(pairs[n])], true);
      RejectedForGood(pairs, n + 1);
    }
  }

  // ----- The tokens -----

  /** The first value under a name, with ASCII case ignored or not. */
  function FirstValue(pairs: Pairs, name: string, ignoreCase: bool): Option<string> {
    if pairs == [] then None
    else if pairs[0].0 == name || (ignoreCase && ToAsciiLower(pairs[0].0) == ToAsciiLower(name)) then Some(pairs[0].1)
    else FirstValue(pairs[1..], name, ignoreCase)
  }

  /** `decode_saml_response` */
  function SamlFacts(decoders: Decoders, raw: string): Result<seq<Fact>, string> {
    var xml :- Base64.XmlOf(raw);
    Parse(ClassifiedAll(decoders.events(xml)))
  }

  /** A token that does not decode gives one fact that says why. */
  function TokenFacts(decoded: Result<seq<Fact>, string>, errorName: string): seq<Fact> {
    if decoded.Ok? then decoded.value else [Fact(errorName, NotValidated(decoded.error))]
  }

  function Names(facts: seq<Fact>): seq<string> {
    seq(|facts|, i requires 0 <= i < |facts| => facts[i].name)
  }

  /** `classify_protocol`, from the names that were observed. */
  function ClassifyProtocol(hasSaml: bool, hasIdToken: bool, names: seq<string>): Protocol {
    if hasSaml then Saml
    else if hasIdToken then Oidc
    else if "code" in names || "error" in names || "state" in names then OAuth2
    else Generic
  }

  function MarkedFact(f: Fact): Fact {
    if f.name == "state" && f.status.Observed? then f.(status := NotValidated(f.status.value)) else f
  }

  /** `mark_state_not_validated` */
  function Marked(facts: seq<Fact>): seq<Fact> {
    seq(|facts|, i requires 0 <= i < |facts| => MarkedFact(facts[i]))
  }

  function IdTokenFacts(decoders: Decoders, pairs: Pairs): seq<Fact> {
    var idToken := FirstValue(pairs, "id_token", false);
    if idToken.Some? then TokenFacts(decoders.jwt(idToken.value), "jwt.decode_error") else []
  }

  function ProtocolOf(pairs: Pairs): Protocol {
    ClassifyProtocol(FirstValue(pairs, "SAMLResponse", true).Some?, FirstValue(pairs, "id_token", false).Some?,
                     Names(PairFacts(pairs)))
  }

  /** Everything a callback gives, without the limit. */
  function AllFacts(decoders: Decoders, pairs: Pairs): (Protocol, seq<Fact>) {
    var saml, protocol := FirstValue(pairs, "SAMLResponse", true), ProtocolOf(pairs);
    (protocol,
     (if protocol.OAuth2? || protocol.Oidc? then Marked(PairFacts(pairs)) else PairFacts(pairs))
     + IdTokenFacts(decoders, pairs)
     + (if saml.Some? then TokenFacts(SamlFacts(decoders, saml.value), "saml.decode_error") else []))
  }

  // ----- The code -----

  method MarkStateNotValidated(facts: array<Fact>)
    modifies facts
    ensures facts[..] == Marked(old(facts[..]))
  {
    for i := 0 to facts.Length
      invariant forall k :: 0 <= k < i ==> facts[k] == MarkedFact(old(facts[k]))
      invariant forall k :: i <= k < facts.Length ==> facts[k] == old(facts[k])
    {
      if facts[i].name == "state" {
        match facts[i].status {
          case Observed(value) => facts[i] := Fact("state", NotValidated(value));
          case _ =>
        }
      }
    }
  }

  method AppendTokenFacts(facts: seq<Fact>, decoded: Result<seq<Fact>, string>,
                          errorName: string) returns (r: Option<seq<Fact>>)
    ensures r == if |facts| + |TokenFacts(decoded, errorName)| > IAM_MAX_FACTS then None
                 else Some(facts + TokenFacts(decoded, errorName))
  {
    var newFacts := if decoded.Ok? then decoded.value else [Fact(errorName, NotValidated(decoded.error))];
    if |facts| + |newFacts| > IAM_MAX_FACTS {
      return None;
    }
    return Some(facts + newFacts);
  }

  method DecodeSaml(decoders: Decoders, raw: string) returns (r: Result<seq<Fact>, string>)
    ensures r == SamlFacts(decoders, raw)
  {
    hide Parse, Base64.EncodeBase64, Base64.DecodeBase64;
    var xml := Base64.DecodeSamlResponse(raw);
    if xml.Err? {
      return Err(xml.error);
    }
    r := SamlParser.ParseSamlXml(decoders.events(xml.value));
  }

  method FinalizeIamFacts(decoders: Decoders, generic: seq<Fact>, rawIdToken: Option<string>, rawSaml: Option<string>)
    returns (r: Option<(Protocol, seq<Fact>)>)
    requires |generic| <= IAM_MAX_FACTS
    ensures var protocol := ClassifyProtocol(rawSaml.Some?, rawIdToken.Some?, Names(generic));
            var jwt := if rawIdToken.Some? then TokenFacts(decoders.jwt(rawIdToken.value), "jwt.decode_error") else [];
            var saml := if rawSaml.None? then []
                        else TokenFacts(SamlFacts(decoders, rawSaml.value), "saml.decode_error");
            var all := (if protocol.OAuth2? || protocol.Oidc? then Marked(generic) else generic) + jwt + saml;
            r == if |all| <= IAM_MAX_FACTS then Some((protocol, all)) else None
  {
    hide SamlFacts;
    var protocol := ClassifyProtocol(rawSaml.Some?, rawIdToken.Some?, Names(generic));
    var facts := generic;
    if protocol.OAuth2? || protocol.Oidc? {
      var relabelled := new Fact[|generic|](i requires 0 <= i < |generic| => generic[i]);
      assert relabelled[..] == generic;
      MarkStateNotValidated(relabelled);
      facts := relabelled[..];
    }
    assert facts + [] == facts;
    if rawIdToken.Some? {
      var appended := AppendTokenFacts(facts, decoders.jwt(rawIdToken.value), "jwt.decode_error");
      if appended.None? {
        return None;
      }
      facts := appended.value;
    }
    assert facts + [] == facts;
    if rawSaml.Some? {
      var decoded := DecodeSaml(decoders, rawSaml.value);
      var appended := AppendTokenFacts(facts, decoded, "saml.decode_error");
      if appended.None? {
        return None;
      }
      facts := appended.value;
    }
    return Some((protocol, facts));
  }

  /** The form and query callbacks, once decoded into pairs: checking at every stage accepts
      exactly the callbacks whose facts are all within the bounds in the end. */
  method InspectPairs(decoders: Decoders, pairs: Pairs) returns (r: Option<(Protocol, seq<Fact>)>)
    ensures r == if JsonFacts.Accepted(0, PairFacts(pairs), true) && |AllFacts(decoders, pairs).1| <= IAM_MAX_FACTS
                 then Some(AllFacts(decoders, pairs)) else None
  {
    hide PairFacts, SamlFacts, FirstValue, TokenFacts, JsonFacts.Bounded;
    var facts := FactsFromPairs(pairs);
    if facts.None? {
      return None;
    }
    r := FinalizeIamFacts(decoders, facts.value, FirstValue(pairs, "id_token", false),
                          FirstValue(pairs, "SAMLResponse", true));
  }

  /** What the pairs of a callback come to, its encoding having been accepted. */
  ghost predicate Inspected(decoders: Decoders, pairs: Pairs, r: Result<(Protocol, seq<Fact>), Rejection>) {
    r == if JsonFacts.Accepted(0, PairFacts(pairs), true) && |AllFacts(decoders, pairs).1| <= IAM_MAX_FACTS
         then Ok(AllFacts(decoders, pairs)) else Err(ParameterLimitExceeded)
  }

  /** `parse_query_facts` */
  method InspectQuery(decoders: Decoders, query: string) returns (r: Result<(Protocol, seq<Fact>), Rejection>)
    ensures r == Err(MalformedPercentEncoding) <==> !FormCodec.WellEscaped(Encode(query))
    ensures FormCodec.WellEscaped(Encode(query)) ==> Inspected(decoders, decoders.pairs(query), r)
  {
    hide AllFacts, PairFacts, FormCodec.WellEscaped, JsonFacts.Accepted;
    var wellEscaped := FormCodec.ValidatePercentEncoding(query);
    if !wellEscaped {
      return Err(MalformedPercentEncoding);
    }
    var inspected := InspectPairs(decoders, decoders.pairs(query));
    r := if inspected.Some? then Ok(inspected.value) else Err(ParameterLimitExceeded);
  }

  /** The arm of `parse_post_facts` for forms. */
  method InspectForm(decoders: Decoders, body: seq<byte>) returns (r: Result<(Protocol, seq<Fact>), Rejection>)
    ensures r == Err(MalformedFormEncoding) <==> !IsUtf8(body)
    ensures r == Err(MalformedPercentEncoding) <==> IsUtf8(body) && !FormCodec.WellEscaped(body)
    ensures IsUtf8(body) && FormCodec.WellEscaped(body) ==> Inspected(decoders, decoders.pairs(DecodeLossy(body)), r)
  {
    hide Inspected, FormCodec.WellEscaped, DecodeLossy;
    if !IsUtf8(body) {
      return Err(MalformedFormEncoding);
    }
    r := InspectQuery(decoders, DecodeLossy(body));
    InspectedIsNoFormError(decoders, decoders.pairs(DecodeLossy(body)), r);
  }

  lemma InspectedIsNoFormError(decoders: Decoders, pairs: Pairs, r: Result<(Protocol, seq<Fact>), Rejection>)
    ensures Inspected(decoders, pairs, r) ==> r.Ok? || r.error == ParameterLimitExceeded
  {
    hide AllFacts, PairFacts, JsonFacts.Accepted;
  }

  // ----- What a callback shows -----

  lemma {:induction false} PairFactAt(pairs: Pairs, i: nat)
    requires i < |pairs|
    ensures |PairFacts(pairs)| == |pairs| && PairFacts(pairs)[i] == PairFact(pairs[i])
    decreases |pairs|
  {
    hide PairFact;
    if i < |pairs| - 1 {
      PairFactAt(pairs[..|pairs| - 1], i);
    } else if |pairs| > 1 {
      PairFactAt(pairs[..|pairs| - 1], 0);
    } else {
      assert pairs[..0] == [];
    }
  }

  /** Each pair keeps its own fact, in order and under its own name. A sensitive one stays redacted
      whatever is decoded from it; of the others exactly `state` is marked not validated, and that
      exactly in an OAuth2 or OIDC callback. */
  lemma PairsKeepTheirFacts(decoders: Decoders, pairs: Pairs, i: nat)
    requires i < |pairs|
    ensures var (name, value) := pairs[i];
            var (protocol, facts) := AllFacts(decoders, pairs);
            && i < |facts| && facts[i].name == name
            && facts[i].status ==
               if IsSensitiveName(name) then Redacted(Sha256(value))
               else if name == "state" && (protocol.OAuth2? || protocol.Oidc?) then NotValidated(value)
               else Observed(value)
  {
    hide IsSensitiveName, PairFacts, TokenFacts, FirstValue, ProtocolOf;
    PairFactAt(pairs, i);
  }

  /** `raw` is the document `m`, written as `xml`, in base64 with whitespace anywhere. */
  predicate Carries(decoders: Decoders, raw: string, xml: seq<byte>, m: Markup) {
    && Base64.StripWhitespace(raw) == Base64.EncodeBase64(xml)
    && ByteLength(raw) <= Base64.SAML_MAX_RAW_BASE64_BYTES && |xml| <= Base64.SAML_MAX_DECODED_XML_BYTES
    && ClassifiedAll(decoders.events(xml)) == Events(m)
  }

  /** A SAML response posted by an identity provider: its callback shows the facts of the document
      as the reference walk reads them, or says why not, behind the generic facts and those of an
      id_token beside it. */
  lemma SamlCallbackShowsTheDocument(decoders: Decoders, pairs: Pairs, raw: string, xml: seq<byte>, m: Markup)
    requires FirstValue(pairs, "SAMLResponse", true) == Some(raw)
    ensures Carries(decoders, raw, xml, m) && !Nests(m) && NamesHold(m, None, None) ==>
              AllFacts(decoders, pairs) ==
              (Saml, PairFacts(pairs) + IdTokenFacts(decoders, pairs) + TokenFacts(Reference(m), "saml.decode_error"))
  {
    hide PairFacts, IdTokenFacts, TokenFacts, FirstValue, Parse, Reference, NamesHold, Nests, ClassifiedAll, Events,
         ByteLength, Base64.DecodeBase64, Base64.EncodeBase64, Base64.StripWhitespace;
    Base64.DecodeUndoesEncode(xml);
    if Carries(decoders, raw, xml, m) && !Nests(m) && NamesHold(m, None, None) {
      NamesDecide(m);
      assert SamlFacts(decoders, raw) == Reference(m);
    }
  }
}
