/** What a document must keep to so as to be accepted, which facts it can give at all, and what its
    signature facts say, by the names in the reader's events. */
module SamlLimits {
  import opened Results
  import opened IamFacts
  import opened Utf8
  import opened SamlMarkup
  import opened SamlWalker
  import opened SamlNames
  import opened SamlTexts

  // ----- Limits -----

  /** The largest number of elements open at one time. */
  function Highest(events: seq<XmlEvent>, depth: nat): nat {
    if events == [] then depth
    else
      var later := Highest(events[1..], DepthAfter(events[0], depth));
      if depth > later then depth else later
  }

  function CountOf(events: seq<XmlEvent>, local: string): nat {
    if events == [] then 0 else (if Opens(events[0], local) then 1 else 0) + CountOf(events[1..], local)
  }

  /** The bytes of all its texts. */
  function TextBytes(events: seq<XmlEvent>): nat {
    if events == [] then 0
    else
      var e := events[0];
      (if e.CharacterData? && e.decoded.Some? then ByteLength(e.decoded.value) else 0) + TextBytes(events[1..])
  }

  /** An attribute with a long value. */
  predicate HasLongValue(e: XmlEvent) {
    (e.StartTag? || e.EmptyTag?)
    && exists i :: 0 <= i < |e.attributes| && e.attributes[i].value.Some?
                   && ByteLength(e.attributes[i].value.value) > 16384
  }

  ghost predicate Fails(error: string, events: seq<XmlEvent>, depth: nat, attributes: nat, bytes: nat) {
    || (error == "malformed_xml" && (ReadError in events || CharacterData(None) in events))
    || (error == "excessive_nesting" && Highest(events, depth) > 32)
    || (error == "too_many_attributes" && attributes + CountOf(events, "Attribute") > 32)
    || (error == "oversized_text_value"
        && (bytes + TextBytes(events) > 16384 || exists e :: e in events && HasLongValue(e)))
    || error == "too_many_facts"
  }

  function Buffered(w: Walker): nat {
    if w.capture.Some? then ByteLength(w.capture.value.buffer) else 0
  }

  /** One event. */
  ghost predicate StepKeepsTo(w: Walker, r: Result<Walker, string>, e: XmlEvent) {
    match r
    case Ok(next) =>
      && e != ReadError
      && |next.stack| == DepthAfter(e, |w.stack|) <= 32
      && next.progress.attributeCount
         == w.progress.attributeCount + (if Opens(e, "Attribute") then 1 else 0) <= 32
      && Buffered(next) <= Buffered(w) + TextBytes([e]) && Buffered(next) <= 16384
    case Err(error) => Fails(error, [e], |w.stack|, w.progress.attributeCount, Buffered(w))
  }

  ghost predicate WithinLimits(w: Walker) {
    |w.stack| <= 32 && w.progress.attributeCount <= 32 && Buffered(w) <= 16384
  }

  lemma {:induction false} LongValue(attributes: seq<Attr>, local: string)
    requires ValueOf(attributes, local).Some?
    ensures exists i :: 0 <= i < |attributes| && attributes[i] == Attr(local, ValueOf(attributes, local))
    decreases |attributes|
  {
    if attributes[0].local != local || attributes[0].value.None? {
      LongValue(attributes[1..], local);
      var i :| 0 <= i < |attributes| - 1 && attributes[1..][i] == Attr(local, ValueOf(attributes, local));
      assert attributes[i + 1] == attributes[1..][i];
    } else {
      assert attributes[0] == Attr(local, ValueOf(attributes, local));
    }
  }

  /** Every fact of a tag has the value of one of its attributes. */
  ghost predicate FromValues(pending: seq<Pending>, attributes: seq<Attr>) {
    forall p :: p in pending ==> Some(p.value) in Values(attributes)
  }

  function Values(attributes: seq<Attr>): seq<Option<string>> {
    seq(|attributes|, i requires 0 <= i < |attributes| => attributes[i].value)
  }

  lemma {:induction false} AttributesGiveValues(attributes: seq<Attr>, targets: seq<(string, string)>)
    ensures FromValues(FromAttributes(attributes, targets), attributes)
    decreases |targets|
  {
    hide ValueOf;
    if targets != [] {
      OneGivesValue(attributes, targets[0].0, targets[0].1, false);
      AttributesGiveValues(attributes, targets[1..]);
    }
  }

  lemma OneGivesValue(attributes: seq<Attr>, local: string, name: string, correlation: bool)
    ensures ValueOf(attributes, local).Some? ==>
              FromValues([Pending(name, ValueOf(attributes, local).value, correlation)], attributes)
  {
    if ValueOf(attributes, local).Some? {
      LongValue(attributes, local);
      var i :| 0 <= i < |attributes| && attributes[i] == Attr(local, ValueOf(attributes, local));
      assert Values(attributes)[i] == ValueOf(attributes, local);
    }
  }

  lemma TagGivesValues(kind: Kind, attributes: seq<Attr>)
    ensures FromValues(TagFacts(kind, attributes), attributes)
  {
    hide FromAttributes, ValueOf;
    match kind
    case Response =>
      AttributesGiveValues(attributes, [("ID", "saml.response.id"), ("Destination", "saml.response.destination"),
                                        ("Version", "saml.response.version")]);
      OneGivesValue(attributes, "InResponseTo", "saml.response.in_response_to", true);
    case Assertion =>
      AttributesGiveValues(attributes, [("ID", "saml.assertion.id"), ("IssueInstant", "saml.assertion.issue_instant")]);
    case Conditions =>
      AttributesGiveValues(attributes, [("NotBefore", "saml.conditions.not_before"),
                                        ("NotOnOrAfter", "saml.conditions.not_on_or_after")]);
    case StatusCode => AttributesGiveValues(attributes, [("Value", "saml.status.code")]);
    case NameId => AttributesGiveValues(attributes, [("Format", "saml.name_id.format")]);
    case Attribute => AttributesGiveValues(attributes, [("Name", "saml.attribute.name")]);
    case _ =>
  }

  /** Pushing fails for its number or for a long value. */
  lemma {:induction false} PushingFails(facts: seq<Fact>, pending: seq<Pending>)
    requires PushAll(facts, pending).Err?
    ensures var error := PushAll(facts, pending).error;
            || error == "too_many_facts"
            || (error == "oversized_text_value" && exists p :: p in pending && ByteLength(p.value) > 16384)
    decreases |pending|
  {
    hide IsSensitiveName, ByteLength;
    assert pending != [];
    if Push(facts, pending[0]).Ok? {
      PushingFails(Push(facts, pending[0]).value, pending[1..]);
    } else {
      assert pending[0] in pending;
    }
  }

  /** What an inspected tag pushes fails for its number or for a long value of its own. */
  lemma TagPushFails(facts: seq<Fact>, e: XmlEvent)
    requires e.StartTag? || e.EmptyTag?
    requires PushAll(facts, TagFacts(Classify(e.local), e.attributes)).Err?
    ensures var error := PushAll(facts, TagFacts(Classify(e.local), e.attributes)).error;
            error == "too_many_facts" || (error == "oversized_text_value" && HasLongValue(e))
  {
    hide TagFacts, PushAll, ByteLength, Classify;
    var pending := TagFacts(Classify(e.local), e.attributes);
    TagGivesValues(Classify(e.local), e.attributes);
    PushingFails(facts, pending);
    if p :| p in pending && ByteLength(p.value) > 16384 {
      var i :| 0 <= i < |e.attributes| && Values(e.attributes)[i] == Some(p.value);
      assert e.attributes[i].value == Some(p.value);
    }
  }

  lemma CountOfOne(e: XmlEvent)
    ensures CountOf([e], "Attribute") == if Opens(e, "Attribute") then 1 else 0
  {
    hide Opens;
    assert [e][1..] == [] && CountOf([], "Attribute") == 0;
  }

  lemma OpenFails(pr: Progress, e: XmlEvent, depth: nat, under: bool, bytes: nat)
    requires (e.StartTag? || e.EmptyTag?) && pr.attributeCount <= 32
    ensures var r := Open(pr, TagOf(e.local, e.attributes), depth, under);
            match r
            case Ok(next) => next.attributeCount == pr.attributeCount + (if Opens(e, "Attribute") then 1 else 0) <= 32
            case Err(error) => Fails(error, [e], depth, pr.attributeCount, bytes)
  {
    hide TagFacts, PushAll, HasLongValue, Highest, CountOf, TextBytes, Inspects;
    CountOfOne(e);
    assert e in [e];
    if PushAll(pr.facts, TagFacts(Classify(e.local), e.attributes)).Err? {
      TagPushFails(pr.facts, e);
    }
  }

  lemma CaptureFails(pr: Progress, kind: Kind, attributeName: Option<string>, text: string)
    requires ByteLength(text) <= 16384
    ensures match EndCapture(pr, kind, attributeName, text)
            case Ok(next) => next.attributeCount == pr.attributeCount
            case Err(error) => error == "too_many_facts"
  {
    hide PushAll, ByteLength, TextName;
    if PushAll(pr.facts, CapturedFact(kind, attributeName, text)).Err? {
      PushingFails(pr.facts, CapturedFact(kind, attributeName, text));
    }
  }

  lemma HighestOfOne(e: XmlEvent, depth: nat)
    ensures Highest([e], depth) >= DepthAfter(e, depth)
  {
    assert [e][1..] == [];
    assert Highest([], DepthAfter(e, depth)) == DepthAfter(e, depth);
  }

  lemma TagKeepsTo(w: Walker, e: XmlEvent)
    requires WithinLimits(w) && (e.StartTag? || e.EmptyTag?)
    ensures StepKeepsTo(w, OnTag(w, TagOf(e.local, e.attributes), e.EmptyTag?), e)
  {
    hide Open, EndCapture, ByteLength, Highest, CountOf, TextBytes, TagFacts;
    var tag, under := TagOf(e.local, e.attributes), Assertion in w.stack;
    OpenFails(w.progress, e, |w.stack|, under, Buffered(w));
    HighestOfOne(e, |w.stack|);
    NoBytes();
    var entered := Open(w.progress, tag, |w.stack|, under);
    if entered.Ok? {
      var name := if tag.kind.Attribute? then tag.name else w.attributeName;
      CaptureFails(BeginCapture(entered.value, tag.kind), tag.kind, name, "");
    }
  }

  lemma NoBytes()
    ensures ByteLength("") == 0
  {
  }

  lemma TextKeepsTo(w: Walker, decoded: Option<string>)
    requires WithinLimits(w)
    ensures StepKeepsTo(w, OnText(w, decoded), CharacterData(decoded))
  {
    hide Highest, CountOf, ByteLength;
    var e := CharacterData(decoded);
    assert [e][1..] == [];
    assert TextBytes([]) == 0;
    assert TextBytes([e]) == if decoded.Some? then ByteLength(decoded.value) else 0;
    if w.capture.Some? && decoded.Some? {
      BytesConcat(w.capture.value.buffer, decoded.value);
    }
  }

  lemma {:induction false} BytesConcat(a: string, b: string)
    ensures ByteLength(a + b) == ByteLength(a) + ByteLength(b)
    decreases |a|
  {
    if a == "" {
      assert a + b == b;
    } else {
      assert (a + b)[1..] == a[1..] + b;
      BytesConcat(a[1..], b);
    }
  }

  lemma EndKeepsTo(w: Walker, local: string)
    requires WithinLimits(w)
    ensures StepKeepsTo(w, OnEnd(w, Classify(local)), EndTag(local))
  {
    hide EndCapture, ByteLength, Highest, CountOf, TextBytes, Classify;
    if w.capture.Some? {
      var c := w.capture.value;
      CaptureFails(w.progress, c.kind, c.attributeName, c.buffer);
    }
  }

  lemma EventKeepsTo(w: Walker, e: XmlEvent)
    requires WithinLimits(w)
    ensures StepKeepsTo(w, OnEvent(w, Classified(e)), e)
  {
    hide OnTag, OnEnd, OnText, TagOf, Classify, ByteLength, Highest, CountOf, TextBytes;
    match e
    case StartTag(local, attributes) => TagKeepsTo(w, e);
    case EmptyTag(local, attributes) => TagKeepsTo(w, e);
    case EndTag(local) => EndKeepsTo(w, local);
    case CharacterData(decoded) => TextKeepsTo(w, decoded);
    case _ =>
  }

  ghost predicate RunKeepsTo(w: Walker, r: Result<Walker, string>, events: seq<XmlEvent>) {
    match r
    case Ok(_) =>
      && ReadError !in events
      && Highest(events, |w.stack|) <= 32
      && w.progress.attributeCount + CountOf(events, "Attribute") <= 32
    case Err(error) => Fails(error, events, |w.stack|, w.progress.attributeCount, Buffered(w))
  }

  lemma OneOf(e: XmlEvent)
    ensures TextBytes([e]) == if e.CharacterData? && e.decoded.Some? then ByteLength(e.decoded.value) else 0
    ensures CountOf([e], "Attribute") == if Opens(e, "Attribute") then 1 else 0
    ensures forall depth: nat :: Highest([e], depth)
                                 == if depth > DepthAfter(e, depth) then depth else DepthAfter(e, depth)
  {
    hide ByteLength, Opens;
    assert [e][1..] == [];
    forall depth: nat
      ensures Highest([e], depth) == if depth > DepthAfter(e, depth) then depth else DepthAfter(e, depth)
    {
      assert Highest([], DepthAfter(e, depth)) == DepthAfter(e, depth);
    }
    assert TextBytes([]) == 0 && CountOf([], "Attribute") == 0;
  }

  lemma AtLeastHere(events: seq<XmlEvent>, depth: nat)
    ensures Highest(events, depth) >= depth
  {
  }

  lemma {:induction false} RunMustKeepTo(w: Walker, events: seq<XmlEvent>)
    requires WithinLimits(w)
    ensures RunKeepsTo(w, Run(w, ClassifiedAll(events)), events)
    decreases |events|
  {
    hide OnEvent, Classified, ByteLength, Opens, HasLongValue;
    if events != [] {
      var e, rest := events[0], events[1..];
      assert ClassifiedAll(events)[1..] == ClassifiedAll(rest);
      EventKeepsTo(w, e);
      OneOf(e);
      var next := OnEvent(w, Classified(e));
      if next.Ok? {
        RunMustKeepTo(next.value, rest);
        var r := Run(next.value, ClassifiedAll(rest));
        if r.Err? {
          FailsEarlier(r.error, w, next.value, e, rest, events);
        }
      } else {
        FailsLater(next.error, w, e, rest, events);
      }
    }
  }

  lemma FailsEarlier(error: string, w: Walker, next: Walker, e: XmlEvent, rest: seq<XmlEvent>, events: seq<XmlEvent>)
    requires events != [] && e == events[0] && rest == events[1..]
    requires Fails(error, rest, |next.stack|, next.progress.attributeCount, Buffered(next))
    requires |next.stack| == DepthAfter(e, |w.stack|) && Buffered(next) <= Buffered(w) + TextBytes([e])
    requires next.progress.attributeCount == w.progress.attributeCount + CountOf([e], "Attribute")
    ensures Fails(error, events, |w.stack|, w.progress.attributeCount, Buffered(w))
  {
    hide ByteLength, HasLongValue, Opens, Buffered;
    OneOf(e);
    assert forall x :: x in rest ==> x in events;
    assert Highest(events, |w.stack|) >= Highest(rest, DepthAfter(e, |w.stack|));
    assert CountOf(events, "Attribute") == CountOf([e], "Attribute") + CountOf(rest, "Attribute");
    assert TextBytes(events) == TextBytes([e]) + TextBytes(rest);
  }

  lemma FailsLater(error: string, w: Walker, e: XmlEvent, rest: seq<XmlEvent>, events: seq<XmlEvent>)
    requires events != [] && e == events[0] && rest == events[1..]
    requires Fails(error, [e], |w.stack|, w.progress.attributeCount, Buffered(w))
    ensures Fails(error, events, |w.stack|, w.progress.attributeCount, Buffered(w))
  {
    hide ByteLength, HasLongValue, Opens, Buffered;
    OneOf(e);
    assert forall x :: x in [e] ==> x in events;
    AtLeastHere(rest, DepthAfter(e, |w.stack|));
    assert Highest(events, |w.stack|) >= Highest([e], |w.stack|);
    assert CountOf(events, "Attribute") == CountOf([e], "Attribute") + CountOf(rest, "Attribute");
    assert TextBytes(events) == TextBytes([e]) + TextBytes(rest);
  }

  /** For every list of events: one that is accepted has no reading error, never more than 32 elements
      open and no more than 32 elements called Attribute; and each error that names such a limit, or
      a size, is only given where it is passed. */
  lemma VerdictsHaveCauses(events: seq<XmlEvent>)
    ensures var r := Parse(ClassifiedAll(events));
            && (r.Ok? ==>
                  && ReadError !in events && Highest(events, 0) <= 32 && CountOf(events, "Attribute") <= 32)
            && (r.Err? ==>
                  || (r.error == "malformed_xml" && (ReadError in events || CharacterData(None) in events))
                  || (r.error == "excessive_nesting" && Highest(events, 0) > 32)
                  || (r.error == "too_many_attributes" && CountOf(events, "Attribute") > 32)
                  || (r.error == "oversized_text_value"
                      && (TextBytes(events) > 16384 || exists e :: e in events && HasLongValue(e)))
                  || r.error == "too_many_facts")
  {
    hide Run, ClassifiedAll, HasLongValue;
    RunMustKeepTo(INITIAL, events);
  }

  // ----- No other names -----

  ghost predicate KnownName(name: string) {
    (exists row :: row in TABLE && row.name == name) || IsTextName(name)
  }

  ghost predicate KnownPending(pending: seq<Pending>) {
    forall p :: p in pending ==> KnownName(p.name)
  }

  ghost predicate KnownFacts(facts: seq<Fact>) {
    forall f :: f in facts ==> KnownName(f.name)
  }

  lemma {:induction false} AttributesAreKnown(attributes: seq<Attr>, targets: seq<(string, string)>)
    requires forall j :: 0 <= j < |targets| ==> KnownName(targets[j].1)
    ensures KnownPending(FromAttributes(attributes, targets))
    decreases |targets|
  {
    hide ValueOf, KnownName;
    if targets != [] {
      assert KnownName(targets[0].1);
      AttributesAreKnown(attributes, targets[1..]);
    }
  }

  lemma RowIsKnown(i: nat)
    requires i < |TABLE|
    ensures KnownName(TABLE[i].name)
  {
    assert TABLE[i] in TABLE;
  }

  lemma RowsAreKnown(attributes: seq<Attr>, targets: seq<(string, string)>, from: nat)
    requires from + |targets| <= |TABLE|
    requires forall j :: 0 <= j < |targets| ==> targets[j].1 == TABLE[from + j].name
    ensures KnownPending(FromAttributes(attributes, targets))
  {
    hide KnownName;
    forall j | 0 <= j < |targets| ensures KnownName(targets[j].1) {
      RowIsKnown(from + j);
    }
    AttributesAreKnown(attributes, targets);
  }

  lemma TagIsKnown(kind: Kind, attributes: seq<Attr>)
    ensures KnownPending(TagFacts(kind, attributes))
  {
    hide FromAttributes, ValueOf, KnownName;
    match kind
    case Response =>
      RowsAreKnown(attributes, [("ID", "saml.response.id"), ("Destination", "saml.response.destination"),
                                ("Version", "saml.response.version")], 0);
      RowIsKnown(3);
    case Assertion =>
      RowsAreKnown(attributes, [("ID", "saml.assertion.id"), ("IssueInstant", "saml.assertion.issue_instant")], 4);
    case Conditions =>
      RowsAreKnown(attributes, [("NotBefore", "saml.conditions.not_before"),
                                ("NotOnOrAfter", "saml.conditions.not_on_or_after")], 6);
    case StatusCode => RowsAreKnown(attributes, [("Value", "saml.status.code")], 8);
    case NameId => RowsAreKnown(attributes, [("Format", "saml.name_id.format")], 9);
    case Attribute => RowsAreKnown(attributes, [("Name", "saml.attribute.name")], 10);
    case _ =>
  }

  lemma TextIsKnown(kind: Kind, attributeName: Option<string>, text: string)
    ensures KnownPending(CapturedFact(kind, attributeName, text))
  {
    if CarriesText(kind) {
      assert IsTextName(TextName(kind, attributeName));
    }
  }

  lemma {:induction false} PushingKnown(facts: seq<Fact>, pending: seq<Pending>)
    requires KnownFacts(facts) && KnownPending(pending) && PushAll(facts, pending).Ok?
    ensures KnownFacts(PushAll(facts, pending).value)
    decreases |pending|
  {
    hide KnownName, IsSensitiveName, ByteLength;
    if pending != [] {
      assert KnownName(pending[0].name);
      PushingKnown(Push(facts, pending[0]).value, pending[1..]);
    }
  }

  lemma CaptureIsKnown(pr: Progress, kind: Kind, attributeName: Option<string>, text: string)
    requires KnownFacts(pr.facts)
    ensures EndCapture(pr, kind, attributeName, text).Ok? ==>
              KnownFacts(EndCapture(pr, kind, attributeName, text).value.facts)
  {
    TextIsKnown(kind, attributeName, text);
    hide CapturedFact, KnownFacts, KnownPending;
    if PushAll(pr.facts, CapturedFact(kind, attributeName, text)).Ok? {
      PushingKnown(pr.facts, CapturedFact(kind, attributeName, text));
    }
  }

  lemma TagStepIsKnown(w: Walker, tag: Tag, empty: bool)
    requires KnownFacts(w.progress.facts) && KnownPending(tag.facts)
    ensures OnTag(w, tag, empty).Ok? ==> KnownFacts(OnTag(w, tag, empty).value.progress.facts)
  {
    hide EndCapture, KnownFacts, KnownPending;
    var entered := Open(w.progress, tag, |w.stack|, Assertion in w.stack);
    if PushAll(w.progress.facts, tag.facts).Ok? {
      PushingKnown(w.progress.facts, tag.facts);
    }
    if entered.Ok? {
      var name := if tag.kind.Attribute? then tag.name else w.attributeName;
      CaptureIsKnown(BeginCapture(entered.value, tag.kind), tag.kind, name, "");
    }
  }

  lemma EventIsKnown(w: Walker, e: XmlEvent)
    requires KnownFacts(w.progress.facts)
    ensures OnEvent(w, Classified(e)).Ok? ==> KnownFacts(OnEvent(w, Classified(e)).value.progress.facts)
  {
    hide OnTag, TagFacts, Classify, EndCapture, KnownFacts, KnownPending;
    match e
    case StartTag(local, attributes) =>
      TagIsKnown(Classify(local), attributes);
      TagStepIsKnown(w, TagOf(local, attributes), false);
    case EmptyTag(local, attributes) =>
      TagIsKnown(Classify(local), attributes);
      TagStepIsKnown(w, TagOf(local, attributes), true);
    case EndTag(local) =>
      if w.capture.Some? {
        CaptureIsKnown(w.progress, w.capture.value.kind, w.capture.value.attributeName, w.capture.value.buffer);
      }
    case _ =>
  }

  lemma {:induction false} RunIsKnown(w: Walker, events: seq<XmlEvent>)
    requires KnownFacts(w.progress.facts)
    ensures Run(w, ClassifiedAll(events)).Ok? ==> KnownFacts(Run(w, ClassifiedAll(events)).value.progress.facts)
    decreases |events|
  {
    hide OnEvent, Classified, KnownFacts;
    if events != [] {
      EventIsKnown(w, events[0]);
      assert ClassifiedAll(events)[1..] == ClassifiedAll(events[1..]);
      if OnEvent(w, Classified(events[0])).Ok? {
        RunIsKnown(OnEvent(w, Classified(events[0])).value, events[1..]);
      }
    }
  }

  /** An accepted document gives no facts but the concluding ones, those of the attributes in the
      table, and those of texts. */
  lemma NamesAreKnown(events: seq<XmlEvent>, f: Fact)
    requires Parse(ClassifiedAll(events)).Ok? && f in Parse(ClassifiedAll(events)).value
    ensures || (exists row :: row in TABLE && row.name == f.name)
            || IsTextName(f.name)
            || f.name in ["saml.response.signature.present", "saml.assertion.signature.present",
                          "saml.signature.verification"]
  {
    hide Run, ClassifiedAll, BoolText, IsTextName, SamlNames.TABLE;
    RunIsKnown(INITIAL, events);
  }

  // ----- Signatures -----

  /** Is there an element called Signature inside one called Assertion (`inside`), or outside of all? */
  predicate Signed(d: Document, under: bool, inside: bool) {
    match d
    case Finished => false
    case Node(local, _, content, after) =>
      || (local == "Signature" && under == inside)
      || Signed(content, under || local == "Assertion", inside)
      || Signed(after, under, inside)
    case Leaf(local, _, after) => (local == "Signature" && under == inside) || Signed(after, under, inside)
    case Words(_, after) => Signed(after, under, inside)
    case Comment(after) => Signed(after, under, inside)
  }

  lemma KindIs(local: string, attributes: seq<Attr>)
    ensures TagOf(local, attributes).kind.Signature? <==> local == "Signature"
    ensures TagOf(local, attributes).kind.Assertion? <==> local == "Assertion"
  {
    hide TagFacts, ValueOf;
  }

  lemma {:induction false} SignedIsRead(d: Document, under: bool, inside: bool)
    ensures Signed(d, under, inside) == HasSignature(Read(d), under, inside)
  {
    hide TagOf;
    match d
    case Finished =>
    case Node(local, attributes, content, after) =>
      KindIs(local, attributes);
      SignedIsRead(content, under || local == "Assertion", inside);
      SignedIsRead(after, under, inside);
    case Leaf(local, attributes, after) =>
      KindIs(local, attributes);
      SignedIsRead(after, under, inside);
    case Words(_, after) => SignedIsRead(after, under, inside);
    case Comment(after) => SignedIsRead(after, under, inside);
  }

  /** The facts that conclude every accepted document say whether a Signature stands outside of all
      Assertions, whether one stands inside one, and that none was verified. */
  lemma SignaturesAreTold(d: Document)
    requires Parse(ClassifiedAll(Spelled(d))).Ok?
    ensures var facts := Parse(ClassifiedAll(Spelled(d))).value;
            |facts| >= 3
            && facts[|facts| - 3..] == [
                 Fact("saml.response.signature.present", Observed(if Signed(d, false, false) then "true" else "false")),
                 Fact("saml.assertion.signature.present", Observed(if Signed(d, false, true) then "true" else "false")),
                 Fact("saml.signature.verification", NotValidated("not_attempted"))]
  {
    hide Parse, HasSignature, Signed, ClassifiedAll, Spelled, Events;
    SpelledIsRead(d);
    SignaturesAreScoped(Read(d));
    SignedIsRead(d, false, false);
    SignedIsRead(d, false, true);
  }
}
