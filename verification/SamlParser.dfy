/** `parse_saml_xml` as it is written: one loop over the reader's events that updates its
    locals, here gathered in one `Walker`. */
module SamlParser {
  import opened Results
  import opened IamFacts
  import opened Utf8
  import opened SamlMarkup
  import opened SamlWalker

  lemma {:induction false} PushAllConcat(facts: seq<Fact>, first: seq<Pending>, second: seq<Pending>)
    ensures PushAll(facts, first + second) ==
            var r := PushAll(facts, first); if r.Err? then r else PushAll(r.value, second)
    decreases |first|
  {
    if first == [] {
      assert first + second == second;
    } else {
      assert (first + second)[1..] == first[1..] + second;
      if Push(facts, first[0]).Ok? {
        PushAllConcat(Push(facts, first[0]).value, first[1..], second);
      }
    }
  }

  method PushSamlTextFact(facts: seq<Fact>, name: string, value: string, forceNotValidated: bool)
    returns (r: Result<seq<Fact>, string>)
    ensures r == PushAll(facts, [Pending(name, value, forceNotValidated)])
  {
    assert forall fs: seq<Fact> :: PushAll(fs, []) == Ok(fs);
    if |facts| >= IAM_MAX_FACTS {
      return Err("too_many_facts");
    }
    if ByteLength(value) > SAML_MAX_TEXT_BYTES {
      return Err("oversized_text_value");
    }
    if IsSensitiveName(name) {
      return Ok(facts + [Fact(name, Redacted(Sha256(value)))]);
    } else if forceNotValidated {
      return Ok(facts + [Fact(name, NotValidated(value))]);
    } else {
      return Ok(facts + [Fact(name, Observed(value))]);
    }
  }

  /** `if let Some(value) = attribute_value(..) { push_saml_text_fact(..)? }`, for a list of
      attribute names and fact names. */
  method PushAttributes(facts: seq<Fact>, attributes: seq<Attr>,
                        targets: seq<(string, string)>) returns (r: Result<seq<Fact>, string>)
    ensures r == PushAll(facts, FromAttributes(attributes, targets))
  {
    var pushed := facts;
    for i := 0 to |targets|
      invariant PushAll(pushed, FromAttributes(attributes, targets[i..]))
              == PushAll(facts, FromAttributes(attributes, targets))
    {
      var (local, name) := targets[i];
      PushAllConcat(pushed, FromAttribute(attributes, local, name), FromAttributes(attributes, targets[i + 1..]));
      var value := ValueOf(attributes, local);
      if value.Some? {
        pushed :- PushSamlTextFact(pushed, name, value.value, false);
      }
    }
    return Ok(pushed);
  }

  /** The facts a start tag's own attributes give. */
  method PushTagFacts(pr: Progress, kind: Kind, attributes: seq<Attr>, depth: nat)
    returns (r: Result<seq<Fact>, string>)
    ensures r == if Inspects(pr, kind, depth) then PushAll(pr.facts, TagFacts(kind, attributes)) else Ok(pr.facts)
  {
    var facts := pr.facts;
    match kind {
      case Response =>
        if depth == 0 {
          var targets := [("ID", "saml.response.id"), ("Destination", "saml.response.destination"),
                          ("Version", "saml.response.version")];
          PushAllConcat(facts, FromAttributes(attributes, targets),
                        Correlation(attributes, "InResponseTo", "saml.response.in_response_to"));
          facts :- PushAttributes(facts, attributes, targets);
          var value := ValueOf(attributes, "InResponseTo");
          if value.Some? {
            facts :- PushSamlTextFact(facts, "saml.response.in_response_to", value.value, true);
          }
        }
      case Assertion =>
        facts :- PushAttributes(facts, attributes, [("ID", "saml.assertion.id"),
                                                    ("IssueInstant", "saml.assertion.issue_instant")]);
      case Conditions =>
        facts :- PushAttributes(facts, attributes, [("NotBefore", "saml.conditions.not_before"),
                                                    ("NotOnOrAfter", "saml.conditions.not_on_or_after")]);
      case StatusCode =>
        if !pr.sawStatusCode {
          facts :- PushAttributes(facts, attributes, [("Value", "saml.status.code")]);
        }
      case NameId =>
        if !pr.sawNameId {
          facts :- PushAttributes(facts, attributes, [("Format", "saml.name_id.format")]);
        }
      case Attribute =>
        facts :- PushAttributes(facts, attributes, [("Name", "saml.attribute.name")]);
      case _ =>
    }
    return Ok(facts);
  }

  method FinalizeSamlCapture(capture: Capture, facts: seq<Fact>) returns (r: Result<seq<Fact>, string>)
    ensures r == PushAll(facts, CapturedFact(capture.kind, capture.attributeName, capture.buffer))
  {
    match capture.kind {
      case Issuer => r := PushSamlTextFact(facts, "saml.issuer", capture.buffer, false);
      case StatusMessage => r := PushSamlTextFact(facts, "saml.status.message", capture.buffer, false);
      case NameId => r := PushSamlTextFact(facts, "saml.name_id", capture.buffer, false);
      case Audience => r := PushSamlTextFact(facts, "saml.audience", capture.buffer, false);
      case AttributeValue =>
        var name := if capture.attributeName.Some? then capture.attributeName.value else "saml.attribute.value";
        r := PushSamlTextFact(facts, "saml.attribute.value[" + name + "]", capture.buffer, false);
      case _ => r := Ok(facts);
    }
  }

  /** What a start tag adds before any text is captured. */
  method InspectTag(progress: Progress, kind: Kind, attributes: seq<Attr>, depth: nat, underAssertion: bool,
                    ghost tag: Tag)
    returns (r: Result<Progress, string>)
    requires tag.kind == kind && tag.facts == TagFacts(kind, attributes)
    ensures r == Open(progress, tag, depth, underAssertion)
  {
    hide TagFacts, PushAll;
    var pr := progress;
    if kind == Attribute {
      pr := pr.(attributeCount := pr.attributeCount + 1);
      if pr.attributeCount > SAML_MAX_ATTRIBUTES {
        return Err("too_many_attributes");
      }
    }
    var facts :- PushTagFacts(pr, kind, attributes, depth);
    pr := pr.(facts := facts);
    match kind {
      case StatusCode => pr := pr.(sawStatusCode := true);
      case NameId => pr := pr.(sawNameId := true);
      case Signature =>
        if underAssertion {
          pr := pr.(assertionSigned := true);
        } else {
          pr := pr.(responseSigned := true);
        }
      case _ =>
    }
    return Ok(pr);
  }

  /** Bounded text capture, for the element kinds that carry text. */
  method BeginText(w: Walker, kind: Kind, isEmpty: bool) returns (r: Result<Walker, string>)
    ensures r == StartText(w, kind, isEmpty)
  {
    var startsCapture := kind == Issuer || kind == StatusMessage || kind == NameId || kind == AttributeValue
                         || (kind == Audience && !w.progress.sawAudience);
    if (kind == Issuer && w.progress.sawIssuer) || !startsCapture {
      return Ok(w);
    }
    var pr := w.progress;
    if kind == Issuer {
      pr := pr.(sawIssuer := true);
    }
    if kind == Audience {
      pr := pr.(sawAudience := true);
    }
    var capture := Capture(kind, |w.stack|, "", w.attributeName);
    if isEmpty {
      var facts :- FinalizeSamlCapture(capture, pr.facts);
      return Ok(w.(progress := pr.(facts := facts), capture := None));
    }
    return Ok(w.(progress := pr, capture := Some(capture)));
  }

  /** The arm for `Event::Start` and `Event::Empty`. */
  method HandleTag(w: Walker, local: string, attributes: seq<Attr>, isEmpty: bool) returns (r: Result<Walker, string>)
    ensures r == OnTag(w, TagOf(local, attributes), isEmpty)
  {
    var kind := Classify(local);
    var pr :- InspectTag(w.progress, kind, attributes, |w.stack|, Assertion in w.stack, TagOf(local, attributes));
    var next := w.(progress := pr);
    if kind == Attribute {
      next := next.(attributeName := ValueOf(attributes, "Name"));
    }
    next :- BeginText(next, kind, isEmpty);
    if !isEmpty {
      next := next.(stack := next.stack + [kind]);
      if |next.stack| > SAML_MAX_XML_DEPTH {
        return Err("excessive_nesting");
      }
    }
    return Ok(next);
  }

  /** The arm for `Event::Text`. */
  method HandleText(w: Walker, decoded: Option<string>) returns (r: Result<Walker, string>)
    ensures r == OnText(w, decoded)
  {
    if w.capture.None? {
      return Ok(w);
    }
    var active := w.capture.value;
    if decoded.None? {
      return Err("malformed_xml");
    }
    if ByteLength(active.buffer) + ByteLength(decoded.value) > SAML_MAX_TEXT_BYTES {
      return Err("oversized_text_value");
    }
    return Ok(w.(capture := Some(active.(buffer := active.buffer + decoded.value))));
  }

  /** The arm for `Event::End`. */
  method HandleEnd(w: Walker, local: string) returns (r: Result<Walker, string>)
    ensures r == OnEnd(w, Classify(local))
  {
    var next := w;
    var kind := Classify(local);
    if w.capture.Some? {
      var active := w.capture.value;
      if active.kind == kind && active.depth == (if w.stack == [] then 0 else |w.stack| - 1) {
        var facts :- FinalizeSamlCapture(active, w.progress.facts);
        next := next.(progress := next.progress.(facts := facts), capture := None);
      }
    }
    if kind == Attribute {
      next := next.(attributeName := None);
    }
    return Ok(next.(stack := if w.stack == [] then [] else w.stack[..|w.stack| - 1]));
  }

  method HandleEvent(w: Walker, event: XmlEvent) returns (r: Result<Walker, string>)
    ensures r == OnEvent(w, Classified(event))
  {
    match event {
      case StartTag(local, attributes) => r := HandleTag(w, local, attributes, false);
      case EmptyTag(local, attributes) => r := HandleTag(w, local, attributes, true);
      case CharacterData(decoded) => r := HandleText(w, decoded);
      case EndTag(local) => r := HandleEnd(w, local);
      case Passed => r := Ok(w);
      case ReadError => r := Err("malformed_xml");
    }
  }

  method ParseSamlXml(events: seq<XmlEvent>) returns (r: Result<seq<Fact>, string>)
    ensures r == Parse(ClassifiedAll(events))
  {
    var w := INITIAL;
    for i := 0 to |events|
      invariant Run(w, ClassifiedAll(events[i..])) == Run(INITIAL, ClassifiedAll(events))
    {
      assert events[i..][1..] == events[i + 1..];
      RunCons(w, Classified(events[i]), ClassifiedAll(events[i + 1..]));
      w :- HandleEvent(w, events[i]);
    }
    return Ok(w.progress.facts + [
      Fact("saml.response.signature.present", Observed(BoolText(w.progress.responseSigned))),
      Fact("saml.assertion.signature.present", Observed(BoolText(w.progress.assertionSigned))),
      Fact("saml.signature.verification", NotValidated("not_attempted"))]);
  }
}
