/** What the redaction check inside `push_saml_text_fact` can do. */
module SamlPolicy {
  import opened Results
  import opened IamFacts
  import opened Utf8
  import opened SamlMarkup
  import opened SamlWalker

  predicate SamlNamed(name: string) {
    |name| >= 5 && name[0] == 's' && name[1] == 'a' && name[2] == 'm' && name[3] == 'l' && name[4] == '.'
  }

  /** The names given to SAML facts begin with "saml.", and no sensitive name does. */
  lemma SamlNamesAreNotSensitive(name: string)
    requires SamlNamed(name)
    ensures !IsSensitiveName(name)
  {
    ContainsIsIn(SENSITIVE_NAMES, ToAsciiLower(name));
    LowerAt(name, 4);
    assert forall i :: 0 <= i < |SENSITIVE_NAMES| ==> |SENSITIVE_NAMES[i]| < 5 || SENSITIVE_NAMES[i][4] != '.';
  }

  ghost predicate AllSaml(pending: seq<Pending>) {
    forall p :: p in pending ==> SamlNamed(p.name)
  }

  /** In the open, under a SAML name, and within the bound on values. */
  predicate SoundFact(f: Fact) {
    !f.status.Redacted? && SamlNamed(f.name) && ByteLength(Content(f.status)) <= SAML_MAX_TEXT_BYTES
  }

  ghost predicate Sound(facts: seq<Fact>) {
    |facts| <= IAM_MAX_FACTS && forall f :: f in facts ==> SoundFact(f)
  }

  lemma {:induction false} PushingKeepsSound(facts: seq<Fact>, pending: seq<Pending>)
    requires Sound(facts) && AllSaml(pending)
    ensures PushAll(facts, pending).Ok? ==> Sound(PushAll(facts, pending).value)
    decreases |pending|
  {
    if pending != [] && Push(facts, pending[0]).Ok? {
      SamlNamesAreNotSensitive(pending[0].name);
      hide IsSensitiveName, ByteLength;
      PushingKeepsSound(Push(facts, pending[0]).value, pending[1..]);
    }
  }

  predicate SamlTargets(targets: seq<(string, string)>) {
    targets == [] || (SamlNamed(targets[0].1) && SamlTargets(targets[1..]))
  }

  lemma {:induction false} AttributeFactsAreSaml(attributes: seq<Attr>, targets: seq<(string, string)>)
    requires SamlTargets(targets)
    ensures AllSaml(FromAttributes(attributes, targets))
    decreases |targets|
  {
    if targets != [] {
      AttributeFactsAreSaml(attributes, targets[1..]);
    }
  }

  lemma TwoFactsAreSaml(attributes: seq<Attr>, first: (string, string), second: (string, string))
    requires SamlNamed(first.1) && SamlNamed(second.1)
    ensures AllSaml(FromAttributes(attributes, [first, second]))
  {
    hide SamlNamed;
    assert SamlTargets([second]);
    assert [first, second][1..] == [second];
    AttributeFactsAreSaml(attributes, [first, second]);
  }

  lemma ResponseFactsAreSaml(attributes: seq<Attr>)
    ensures AllSaml(TagFacts(Response, attributes))
  {
    hide FromAttributes;
    AttributeFactsAreSaml(attributes, [("ID", "saml.response.id"), ("Destination", "saml.response.destination"),
                                       ("Version", "saml.response.version")]);
  }

  lemma TagFactsAreSaml(kind: Kind, attributes: seq<Attr>)
    ensures AllSaml(TagFacts(kind, attributes))
  {
    hide FromAttributes;
    match kind
    case Response => ResponseFactsAreSaml(attributes);
    case Assertion =>
      TwoFactsAreSaml(attributes, ("ID", "saml.assertion.id"), ("IssueInstant", "saml.assertion.issue_instant"));
    case Conditions =>
      TwoFactsAreSaml(attributes, ("NotBefore", "saml.conditions.not_before"),
                      ("NotOnOrAfter", "saml.conditions.not_on_or_after"));
    case StatusCode => AttributeFactsAreSaml(attributes, [("Value", "saml.status.code")]);
    case NameId => AttributeFactsAreSaml(attributes, [("Format", "saml.name_id.format")]);
    case Attribute => AttributeFactsAreSaml(attributes, [("Name", "saml.attribute.name")]);
    case _ =>
  }

  lemma TextFactsAreSaml(kind: Kind, attributeName: Option<string>, text: string)
    ensures AllSaml(CapturedFact(kind, attributeName, text))
  {
  }

  lemma CaptureKeepsSound(pr: Progress, kind: Kind, attributeName: Option<string>, text: string)
    requires Sound(pr.facts)
    ensures EndCapture(pr, kind, attributeName, text).Ok? ==>
            Sound(EndCapture(pr, kind, attributeName, text).value.facts)
  {
    TextFactsAreSaml(kind, attributeName, text);
    hide CapturedFact;
    PushingKeepsSound(pr.facts, CapturedFact(kind, attributeName, text));
  }

  lemma TagKeepsSound(w: Walker, tag: Tag, empty: bool)
    requires Sound(w.progress.facts) && AllSaml(tag.facts)
    ensures OnTag(w, tag, empty).Ok? ==> Sound(OnTag(w, tag, empty).value.progress.facts)
  {
    hide EndCapture;
    var entered := Open(w.progress, tag, |w.stack|, Assertion in w.stack);
    PushingKeepsSound(w.progress.facts, tag.facts);
    if entered.Ok? {
      var name := if tag.kind.Attribute? then tag.name else w.attributeName;
      CaptureKeepsSound(BeginCapture(entered.value, tag.kind), tag.kind, name, "");
    }
  }

  lemma EndKeepsSound(w: Walker, kind: Kind)
    requires Sound(w.progress.facts)
    ensures OnEnd(w, kind).Ok? ==> Sound(OnEnd(w, kind).value.progress.facts)
  {
    hide EndCapture;
    if w.capture.Some? {
      CaptureKeepsSound(w.progress, w.capture.value.kind, w.capture.value.attributeName, w.capture.value.buffer);
    }
  }

  lemma EventKeepsSound(w: Walker, e: XmlEvent)
    requires Sound(w.progress.facts)
    ensures OnEvent(w, Classified(e)).Ok? ==> Sound(OnEvent(w, Classified(e)).value.progress.facts)
  {
    hide OnTag, OnEnd, TagFacts, Classify;
    match e
    case StartTag(local, attributes) =>
      TagFactsAreSaml(Classify(local), attributes);
      TagKeepsSound(w, TagOf(local, attributes), false);
    case EmptyTag(local, attributes) =>
      TagFactsAreSaml(Classify(local), attributes);
      TagKeepsSound(w, TagOf(local, attributes), true);
    case EndTag(local) => EndKeepsSound(w, Classify(local));
    case _ =>
  }

  lemma {:induction false} RunKeepsSound(w: Walker, events: seq<XmlEvent>)
    requires Sound(w.progress.facts)
    ensures Run(w, ClassifiedAll(events)).Ok? ==> Sound(Run(w, ClassifiedAll(events)).value.progress.facts)
    decreases |events|
  {
    hide OnEvent, Classified;
    if events != [] {
      EventKeepsSound(w, events[0]);
      assert ClassifiedAll(events)[1..] == ClassifiedAll(events[1..]);
      if OnEvent(w, Classified(events[0])).Ok? {
        RunKeepsSound(OnEvent(w, Classified(events[0])).value, events[1..]);
      }
    }
  }

  lemma ConclusionIsSound(pr: Progress)
    ensures forall i :: |pr.facts| <= i < |pr.facts| + 3 ==> SoundFact(Conclude(pr)[i])
  {
    hide SoundFact, SamlNamed, BoolText;
    SignatureFactsAreSound(pr.responseSigned, pr.assertionSigned);
    LastFactIsSound();
    LastThree(pr.facts, Fact("saml.response.signature.present", Observed(BoolText(pr.responseSigned))),
              Fact("saml.assertion.signature.present", Observed(BoolText(pr.assertionSigned))),
              Fact("saml.signature.verification", NotValidated("not_attempted")));
  }

  lemma LastThree(facts: seq<Fact>, a: Fact, b: Fact, c: Fact)
    requires SoundFact(a) && SoundFact(b) && SoundFact(c)
    ensures forall i :: |facts| <= i < |facts| + 3 ==> SoundFact((facts + [a, b, c])[i])
  {
    hide SoundFact;
  }

  lemma SignatureFactsAreSound(response: bool, assertion: bool)
    ensures SoundFact(Fact("saml.response.signature.present", Observed(BoolText(response))))
    ensures SoundFact(Fact("saml.assertion.signature.present", Observed(BoolText(assertion))))
  {
    BoolFactIsSound("saml.response.signature.present", response);
    BoolFactIsSound("saml.assertion.signature.present", assertion);
    hide SoundFact;
  }

  lemma BoolFactIsSound(name: string, b: bool)
    requires SamlNamed(name)
    ensures SoundFact(Fact(name, Observed(BoolText(b))))
  {
    hide SamlNamed, ByteLength, BoolText;
    BoolLength(b);
  }

  lemma LastFactIsSound()
    ensures SoundFact(Fact("saml.signature.verification", NotValidated("not_attempted")))
  {
    hide ByteLength;
    AsciiLength("not_attempted");
  }

  lemma BoolLength(b: bool)
    ensures ByteLength(BoolText(b)) <= 5
  {
    hide ByteLength;
    AsciiLength(BoolText(b));
  }

  lemma {:induction false} AsciiLength(s: string)
    requires forall i :: 0 <= i < |s| ==> s[i] < '\U{80}'
    ensures ByteLength(s) == |s|
    decreases |s|
  {
    if s != "" {
      AsciiLength(s[1..]);
    }
  }

  /** What every accepted document gives: at most the limit and the three concluding facts, each
      within the bound on values; and the sensitive-name check never fires: whatever its
      attributes are called, no fact is redacted. */
  lemma SamlFactsAreSound(events: seq<XmlEvent>)
    requires Parse(ClassifiedAll(events)).Ok?
    ensures var facts := Parse(ClassifiedAll(events)).value;
            |facts| <= IAM_MAX_FACTS + 3 && forall f :: f in facts ==> SoundFact(f)
  {
    RunKeepsSound(INITIAL, events);
    var w := Run(INITIAL, ClassifiedAll(events)).value;
    ConclusionIsSound(w.progress);
    hide Conclude, SoundFact, Run, ClassifiedAll;
    var facts := Parse(ClassifiedAll(events)).value;
    ConclusionAdds(w.progress);
    forall f | f in facts
      ensures SoundFact(f)
    {
      var i :| 0 <= i < |facts| && facts[i] == f;
      if i < |w.progress.facts| {
        assert f in w.progress.facts;
      }
    }
  }

  lemma ConclusionAdds(pr: Progress)
    ensures |Conclude(pr)| == |pr.facts| + 3 && Conclude(pr)[..|pr.facts|] == pr.facts
  {
  }
}
