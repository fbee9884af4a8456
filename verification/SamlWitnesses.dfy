/** Documents on which the event walker and the reference part: a leaked name, a forgotten name,
    a lost fact and a document only the walker accepts. Each is given as the reader's events too. */
module SamlWitnesses {
  import opened Results
  import opened IamFacts
  import opened Utf8
  import opened SamlMarkup
  import opened SamlWalker
  import opened SamlPolicy
  import opened SamlReference
  import SamlAgreement
  import opened SamlVerdicts

  const VALUE := Tag(AttributeValue, None, [])

  function Named(name: string): Tag {
    Tag(Attribute, Some(name), [Pending("saml.attribute.name", name, false)])
  }

  lemma ValueTagIs()
    ensures TagOf("AttributeValue", []) == VALUE && Classify("AttributeValue") == AttributeValue
  {
  }

  lemma NamedTagIs(name: string)
    ensures TagOf("Attribute", [Attr("Name", Some(name))]) == Named(name) && Classify("Attribute") == Attribute
  {
    var attributes := [Attr("Name", Some(name))];
    assert ValueOf(attributes, "Name") == Some(name);
    NamedFacts(attributes, name);
  }

  lemma NamedFacts(attributes: seq<Attr>, name: string)
    requires ValueOf(attributes, "Name") == Some(name)
    ensures TagFacts(Attribute, attributes) == [Pending("saml.attribute.name", name, false)]
  {
    hide ValueOf;
    var targets := [("Name", "saml.attribute.name")];
    assert targets[1..] == [];
    assert FromAttributes(attributes, targets) == FromAttribute(attributes, "Name", "saml.attribute.name");
  }

  lemma {:induction false} ClassifiedConcat(a: seq<XmlEvent>, b: seq<XmlEvent>)
    ensures ClassifiedAll(a + b) == ClassifiedAll(a) + ClassifiedAll(b)
  {
    hide Classified;
    if a == [] {
      assert a + b == b;
    } else {
      assert (a + b)[1..] == a[1..] + b;
      ClassifiedConcat(a[1..], b);
    }
  }

  lemma ClassifiedCons(e: XmlEvent, rest: seq<XmlEvent>)
    ensures ClassifiedAll([e] + rest) == [Classified(e)] + ClassifiedAll(rest)
  {
    hide Classified;
    assert ([e] + rest)[1..] == rest;
  }

  lemma ClassifiedTwo(e: XmlEvent, f: XmlEvent)
    ensures ClassifiedAll([e, f]) == [Classified(e), Classified(f)]
  {
    ClassifiedCons(e, [f]);
    ClassifiedCons(f, []);
    hide Classified;
    assert [e] + [f] == [e, f] && [f] + [] == [f];
  }

  /** The start of an Attribute adds its name to the facts. */
  function WithName(pr: Progress, name: string): Progress {
    pr.(facts := pr.facts + [Fact("saml.attribute.name", Observed(name))], attributeCount := pr.attributeCount + 1)
  }

  lemma ObservedPushed(facts: seq<Fact>, p: Pending)
    requires |facts| < IAM_MAX_FACTS && ByteLength(p.value) <= SAML_MAX_TEXT_BYTES
    requires "saml." <= p.name && !p.correlation
    ensures PushAll(facts, [p]) == Ok(facts + [Fact(p.name, Observed(p.value))])
  {
    hide IsSensitiveName, ByteLength, PushAll;
    SamlNamesAreNotSensitive(p.name);
    SamlAgreement.PushOne(facts, p);
  }

  lemma NamePushed(facts: seq<Fact>, name: string)
    requires |facts| < IAM_MAX_FACTS && ByteLength(name) <= SAML_MAX_TEXT_BYTES
    ensures PushAll(facts, Named(name).facts) == Ok(facts + [Fact("saml.attribute.name", Observed(name))])
  {
    var p := Pending("saml.attribute.name", name, false);
    assert Named(name).facts == [p] && "saml." <= p.name;
    hide PushAll, ByteLength;
    ObservedPushed(facts, p);
  }

  lemma AttributeCounts(pr: Progress, tag: Tag, depth: nat, facts: seq<Fact>)
    requires tag.kind.Attribute? && pr.attributeCount < SAML_MAX_ATTRIBUTES && PushAll(pr.facts, tag.facts) == Ok(facts)
    ensures Open(pr, tag, depth, false) == Ok(pr.(facts := facts, attributeCount := pr.attributeCount + 1))
  {
    hide PushAll;
  }

  lemma AttributeOpens(pr: Progress, name: string, depth: nat)
    requires |pr.facts| < IAM_MAX_FACTS && pr.attributeCount < SAML_MAX_ATTRIBUTES
    requires ByteLength(name) <= SAML_MAX_TEXT_BYTES
    ensures Open(pr, Named(name), depth, false) == Ok(WithName(pr, name))
  {
    hide Open, PushAll, ByteLength;
    NamePushed(pr.facts, name);
    AttributeCounts(pr, Named(name), depth, WithName(pr, name).facts);
  }

  function Leaking(name: string, text: string): Markup {
    EmptyElement(Named(name), Element(VALUE, Chars(Some(text), Nothing), Nothing))
  }

  function LeakingEvents(name: string, text: string): seq<XmlEvent> {
    [EmptyTag("Attribute", [Attr("Name", Some(name))]), StartTag("AttributeValue", []), CharacterData(Some(text)),
     EndTag("AttributeValue")]
  }

  lemma LeakingIsRead(name: string, text: string)
    ensures ClassifiedAll(LeakingEvents(name, text)) == Events(Leaking(name, text))
  {
    ValueTagIs();
    NamedTagIs(name);
    hide TagOf, Classify;
    var head := [EmptyTag("Attribute", [Attr("Name", Some(name))]), StartTag("AttributeValue", [])];
    var tail := [CharacterData(Some(text)), EndTag("AttributeValue")];
    ClassifiedTwo(head[0], head[1]);
    ClassifiedTwo(tail[0], tail[1]);
    ClassifiedConcat(head, tail);
    assert LeakingEvents(name, text) == head + tail;
    assert Events(Chars(Some(text), Nothing)) == [Text(Some(text))];
  }

  lemma ValueCaptured(pr: Progress, name: Option<string>, text: string)
    requires |pr.facts| < IAM_MAX_FACTS && ByteLength(text) <= SAML_MAX_TEXT_BYTES
    ensures EndCapture(pr, AttributeValue, name, text)
            == Ok(pr.(facts := pr.facts + [Fact(TextName(AttributeValue, name), Observed(text))]))
  {
    hide TextName;
    var pending := CapturedFact(AttributeValue, name, text);
    TextFactsAreSaml(AttributeValue, name, text);
    assert pending[0] in pending;
    SamlNamesAreNotSensitive(pending[0].name);
    assert PushAll(pr.facts, pending) == PushAll(pr.facts + [Fact(pending[0].name, Observed(text))], pending[1..]);
  }

  lemma TextExtendsNothing(text: string)
    requires ByteLength(text) <= SAML_MAX_TEXT_BYTES
    ensures Extend("", Some(text)) == Ok(text)
  {
    assert "" + text == text;
  }

  /** A lone attribute value with text, walked with no capture live. */
  lemma ValueWalked(pr: Progress, closed: Progress, name: Option<string>, text: string)
    requires ByteLength(text) <= SAML_MAX_TEXT_BYTES && EndCapture(pr, AttributeValue, name, text) == Ok(closed)
    ensures Walk(Element(VALUE, Chars(Some(text), Nothing), Nothing), 0, false,
                 Scan(pr, name, None)) == Ok(Scan(closed, name, None))
  {
    hide EndCapture;
    var inside, live := Chars(Some(text), Nothing), Scan(pr, name, Some(""));
    TextExtendsNothing(text);
    assert Walk(inside, 1, false, live) == Ok(live.(text := Some(text)));
    assert Enter(live.(text := None), VALUE, 0, false) == Ok((live, true)) by {
      assert PushAll(pr.facts, []) == Ok(pr.facts);
    }
    assert Walk(Element(VALUE, inside, Nothing), 0, false, live.(text := None))
           == WalkEntered(Ok((live, true)), VALUE, inside, Nothing, 0, false)
           == WalkLeft(Ok(live.(text := Some(text))), AttributeValue, true, name, Nothing, 0, false);
    assert Leave(live.(text := Some(text)), AttributeValue, true, name) == Ok(Scan(closed, name, None));
    assert WalkLeft(Ok(live.(text := Some(text))), AttributeValue, true, name, Nothing, 0, false)
           == WalkOn(Ok(Scan(closed, name, None)), Nothing, 0, false)
             == Walk(Nothing, 0, false, Scan(closed, name, None));
  }

  lemma ValueRecited(pr: Progress, closed: Progress, scope: Option<string>, text: string)
    requires ByteLength(text) <= SAML_MAX_TEXT_BYTES && EndCapture(pr, AttributeValue, scope, text) == Ok(closed)
    ensures Recite(Element(VALUE, Chars(Some(text), Nothing), Nothing), 0, false, scope, State(pr, None, false))
            == Ok(State(closed, None, false))
  {
    hide EndCapture;
    var inside, live := Chars(Some(text), Nothing), State(pr, Some(""), false);
    TextExtendsNothing(text);
    assert Recite(inside, 1, false, scope, live) == Ok(live.(held := Some(text)));
    assert text + "" == text && TextOf(inside) == text;
    assert Begin(live.(held := None), VALUE, 0, false) == Ok((live, true)) by {
      assert PushAll(pr.facts, []) == Ok(pr.facts);
    }
    assert Recite(Element(VALUE, inside, Nothing), 0, false, scope, live.(held := None))
           == ReciteBegun(None, Ok((live, true)), VALUE, inside, Nothing, 0, false, scope)
           == ReciteLeft(Ok(live.(held := Some(text))), None, VALUE, true, text, Nothing, 0, false, scope);
    assert Finish(None, live.(held := Some(text)), AttributeValue, true, scope, text) == Ok(State(closed, None, false));
    assert ReciteLeft(Ok(live.(held := Some(text))), None, VALUE, true, text, Nothing, 0, false, scope)
           == ReciteOn(Ok(State(closed, None, false)), Nothing, 0, false, scope)
             == Recite(Nothing, 0, false, scope, State(closed, None, false));
  }

  lemma EmptyAttributeWalked(name: string, after: Markup)
    requires ByteLength(name) <= SAML_MAX_TEXT_BYTES
    ensures var m, pr := EmptyElement(Named(name), after), WithName(NO_PROGRESS, name);
            && Walk(m, 0, false, START_SCAN) == Walk(after, 0, false, Scan(pr, Some(name), None))
            && Recite(m, 0, false, None, START) == Recite(after, 0, false, None, State(pr, None, false))
  {
    AttributeOpens(NO_PROGRESS, name, 0);
    assert Named(name).kind == Attribute && Named(name).name == Some(name);
    hide Open, WithName, Named, Walk, Recite, ByteLength;
    EmptyAttributePassed(Named(name), after, START_SCAN, START, WithName(NO_PROGRESS, name));
  }

  lemma EmptyAttributePassed(tag: Tag, after: Markup, s: Scan, q: State, pr: Progress)
    requires tag.kind.Attribute? && s.progress == q.progress && Open(s.progress, tag, 0, false) == Ok(pr)
    ensures Walk(EmptyElement(tag, after), 0, false, s)
            == Walk(after, 0, false, s.(progress := pr, attributeName := tag.name))
    ensures Recite(EmptyElement(tag, after), 0, false, None, q) == Recite(after, 0, false, None, q.(progress := pr))
  {
    hide Open;
    assert Enter(s, tag, 0, false) == Ok((s.(progress := pr, attributeName := tag.name), false));
    assert Begin(q, tag, 0, false) == Ok((q.(progress := pr), false));
    EmptyPassed(tag, after, s, s.(progress := pr, attributeName := tag.name), q, q.(progress := pr));
  }

  lemma EmptyPassed(tag: Tag, after: Markup, s: Scan, s': Scan, q: State, q': State)
    requires Enter(s, tag, 0, false) == Ok((s', false)) && Begin(q, tag, 0, false) == Ok((q', false))
    ensures Walk(EmptyElement(tag, after), 0, false, s) == Walk(after, 0, false, s')
    ensures Recite(EmptyElement(tag, after), 0, false, None, q) == Recite(after, 0, false, None, q')
  {
    hide Enter, Begin;
  }

  lemma LeakedAndKept(pr: Progress, name: string, text: string, leaked: Progress, kept: Progress)
    requires ByteLength(name) <= SAML_MAX_TEXT_BYTES && ByteLength(text) <= SAML_MAX_TEXT_BYTES
    requires pr == WithName(NO_PROGRESS, name)
    requires EndCapture(pr, AttributeValue, Some(name), text) == Ok(leaked)
    requires EndCapture(pr, AttributeValue, None, text) == Ok(kept)
    ensures Walk(Leaking(name, text), 0, false, START_SCAN) == Ok(Scan(leaked, Some(name), None))
    ensures Recite(Leaking(name, text), 0, false, None, START) == Ok(State(kept, None, false))
  {
    hide EndCapture, WithName, Named;
    EmptyAttributeWalked(name, Element(VALUE, Chars(Some(text), Nothing), Nothing));
    ValueWalked(pr, leaked, Some(name), text);
    ValueRecited(pr, kept, None, text);
  }

  /** `<Attribute Name="n"/><AttributeValue>t</AttributeValue>`: an empty Attribute has no end
      event to forget its name, so a value outside it is filed under it. */
  lemma EmptyAttributeLeaksItsName(name: string, text: string)
    requires ByteLength(name) <= SAML_MAX_TEXT_BYTES && ByteLength(text) <= SAML_MAX_TEXT_BYTES
    ensures ClassifiedAll(LeakingEvents(name, text)) == Events(Leaking(name, text))
    ensures var walked, reference := Parse(ClassifiedAll(LeakingEvents(name, text))), Reference(Leaking(name, text));
            && walked.Ok? && reference.Ok? && |walked.value| == |reference.value| == 5
            && walked.value[0] == reference.value[0] == Fact("saml.attribute.name", Observed(name))
            && walked.value[1] == Fact(TextName(AttributeValue, Some(name)), Observed(text))
            && reference.value[1] == Fact(TextName(AttributeValue, None), Observed(text))
  {
    hide TextName, EndCapture, Walk, Recite, Events, Run, Leaking, LeakingEvents, ClassifiedAll;
    LeakingIsRead(name, text);
    ParseWalksTree(Leaking(name, text));
    var pr := WithName(NO_PROGRESS, name);
    ValueCaptured(pr, Some(name), text);
    ValueCaptured(pr, None, text);
    LeakedAndKept(pr, name, text, EndCapture(pr, AttributeValue, Some(name), text).value,
                  EndCapture(pr, AttributeValue, None, text).value);
  }

  /** One element of a recitation, given its start, its inside and its end. */
  lemma ElementRecited(tag: Tag, inside: Markup, after: Markup, depth: nat, scope: Option<string>, s: State,
                       begun: (State, bool), inner: State, left: State)
    requires depth + 1 <= SAML_MAX_XML_DEPTH && Begin(s, tag, depth, false) == Ok(begun)
    requires Recite(inside, depth + 1, tag.kind.Assertion?, Scope(tag, scope), begun.0) == Ok(inner)
    requires Finish(s.held, inner, tag.kind, begun.1, Scope(tag, scope), TextOf(inside)) == Ok(left)
    ensures Recite(Element(tag, inside, after), depth, false, scope, s) == Recite(after, depth, false, scope, left)
  {
    hide Begin, Finish, EndCapture;
    assert ReciteBegun(s.held, Ok(begun), tag, inside, after, depth, false, scope)
           == ReciteLeft(Ok(inner), s.held, tag, begun.1, TextOf(inside), after, depth, false, scope)
           == ReciteOn(Ok(left), after, depth, false, scope);
  }

  function ValueState(s: State): State {
    State(s.progress, Some(""), s.overlap || s.held.Some?)
  }

  lemma ValueBegins(s: State, depth: nat)
    ensures Begin(s, VALUE, depth, false) == Ok((ValueState(s), true))
  {
    assert PushAll(s.progress.facts, []) == Ok(s.progress.facts);
  }

  function WithFact(pr: Progress, scope: Option<string>): Progress {
    pr.(facts := pr.facts + [Fact(TextName(AttributeValue, scope), Observed(""))])
  }

  /** An empty pair of value tags. */
  lemma BareValueRecited(after: Markup, depth: nat, scope: Option<string>, s: State)
    requires depth + 1 <= SAML_MAX_XML_DEPTH && |s.progress.facts| < IAM_MAX_FACTS
    ensures Recite(Element(VALUE, Nothing, after), depth, false, scope, s)
            == Recite(after, depth, false, scope, State(WithFact(s.progress, scope), s.held, s.overlap || s.held.Some?))
  {
    ValueCaptured(s.progress, scope, "");
    ValueBegins(s, depth);
    hide EndCapture, TextName, Begin, Open, WithFact;
    var left := State(WithFact(s.progress, scope), s.held, s.overlap || s.held.Some?);
    assert EndCapture(s.progress, AttributeValue, scope, "") == Ok(WithFact(s.progress, scope)) by {
      WithFactIs(s.progress, scope);
    }
    assert s.held.Some? ==> s.held.value + "" == s.held.value;
    ElementRecited(VALUE, Nothing, after, depth, scope, s, (ValueState(s), true), ValueState(s), left);
  }

  lemma WithFactIs(pr: Progress, scope: Option<string>)
    ensures WithFact(pr, scope) == pr.(facts := pr.facts + [Fact(TextName(AttributeValue, scope), Observed(""))])
  {
    hide TextName;
  }

  const NESTED_VALUES := Element(VALUE, Element(VALUE, Nothing, Nothing), Nothing)

  lemma NestedValuesAccepted()
    ensures Reference(NESTED_VALUES).Ok?
  {
    var inside := Element(VALUE, Nothing, Nothing);
    hide EndCapture, TextName, Begin, Open;
    ValueBegins(START, 0);
    BareValueRecited(Nothing, 1, None, ValueState(START));
    var inner := State(WithFact(NO_PROGRESS, None), Some(""), true);
    assert Recite(inside, 1, false, None, ValueState(START)) == Recite(Nothing, 1, false, None, inner) == Ok(inner);
    ValueCaptured(inner.progress, None, "");
    var left := State(WithFact(inner.progress, None), None, true);
    assert TextOf(inside) == "";
    ElementRecited(VALUE, inside, Nothing, 0, None, START, (ValueState(START), true), inner, left);
    assert Recite(NESTED_VALUES, 0, false, None, START) == Recite(Nothing, 0, false, None, left) == Ok(left);
  }

  const NESTED_VALUES_EVENTS := [StartTag("AttributeValue", []), StartTag("AttributeValue", []),
                                 EndTag("AttributeValue"), EndTag("AttributeValue")]

  lemma NestedValuesAreRead()
    ensures ClassifiedAll(NESTED_VALUES_EVENTS) == Events(NESTED_VALUES)
  {
    ValueTagIs();
    hide TagOf, Classify;
  }

  /** One AttributeValue inside another, both without text: a fact is lost. */
  lemma NestedValuesLoseAFact()
    ensures ClassifiedAll(NESTED_VALUES_EVENTS) == Events(NESTED_VALUES) && Nests(NESTED_VALUES)
    ensures var walked, reference := Parse(ClassifiedAll(NESTED_VALUES_EVENTS)), Reference(NESTED_VALUES);
            walked.Ok? && reference.Ok? && |walked.value| < |reference.value|
  {
    assert Nests(NESTED_VALUES);
    NestedValuesAreRead();
    hide Parse, Events, Reference, NamesHold, Nests, ClassifiedAll;
    NestedValuesAccepted();
    NestingAndNamesDecide(NESTED_VALUES);
  }

  lemma AttributeRecited(name: string, inside: Markup, after: Markup, depth: nat, scope: Option<string>, s: State,
                         inner: State)
    requires depth + 1 <= SAML_MAX_XML_DEPTH && ByteLength(name) <= SAML_MAX_TEXT_BYTES
    requires |s.progress.facts| < IAM_MAX_FACTS && s.progress.attributeCount < SAML_MAX_ATTRIBUTES
    requires Recite(inside, depth + 1, false, Some(name), s.(progress := WithName(s.progress, name))) == Ok(inner)
    ensures Recite(Element(Named(name), inside, after), depth, false, scope, s)
            == Recite(after, depth, false, scope, inner)
  {
    var begun, tag := s.(progress := WithName(s.progress, name)), Named(name);
    AttributeOpens(s.progress, name, depth);
    assert tag.kind == Attribute && tag.name == Some(name);
    hide Open, WithName, Named, Recite, ByteLength;
    AttributeBegins(s, tag, depth, begun.progress);
    hide Begin;
    ElementRecited(tag, inside, after, depth, scope, s, (begun, false), inner, inner);
  }

  lemma AttributeBegins(s: State, tag: Tag, depth: nat, pr: Progress)
    requires tag.kind.Attribute? && Open(s.progress, tag, depth, false) == Ok(pr)
    ensures Begin(s, tag, depth, false) == Ok((s.(progress := pr), false))
  {
    hide Open;
  }

  function NestedAttributes(outer: string, nested: string): Markup {
    Element(Named(outer), Element(Named(nested), Nothing, Element(VALUE, Nothing, Nothing)), Nothing)
  }

  function NestedAttributesEvents(outer: string, nested: string): seq<XmlEvent> {
    [StartTag("Attribute", [Attr("Name", Some(outer))]), StartTag("Attribute", [Attr("Name", Some(nested))]),
     EndTag("Attribute"), StartTag("AttributeValue", []), EndTag("AttributeValue"), EndTag("Attribute")]
  }

  lemma NestedAttributesAreRead(outer: string, nested: string)
    ensures ClassifiedAll(NestedAttributesEvents(outer, nested)) == Events(NestedAttributes(outer, nested))
  {
    ValueTagIs();
    NamedTagIs(outer);
    NamedTagIs(nested);
    assert Named(outer).kind == Named(nested).kind == Attribute;
    hide TagOf, Classify, Named;
    var starts := [StartTag("Attribute", [Attr("Name", Some(outer))]),
                   StartTag("Attribute", [Attr("Name", Some(nested))])];
    var middle := [EndTag("Attribute"), StartTag("AttributeValue", [])];
    var ends := [EndTag("AttributeValue"), EndTag("Attribute")];
    ClassifiedTwo(starts[0], starts[1]);
    ClassifiedTwo(middle[0], middle[1]);
    ClassifiedTwo(ends[0], ends[1]);
    ClassifiedConcat(middle, ends);
    ClassifiedConcat(starts, middle + ends);
    assert NestedAttributesEvents(outer, nested) == starts + (middle + ends);
    assert Events(Element(VALUE, Nothing, Nothing)) == [Start(VALUE), End(AttributeValue)];
    assert Events(Element(Named(nested), Nothing, Element(VALUE, Nothing, Nothing)))
           == [Start(Named(nested)), End(Attribute), Start(VALUE), End(AttributeValue)];
  }

  /** Behind the inner Attribute no name is remembered. */
  lemma NestedAttributesMisname(outer: string, nested: string)
    requires outer != "saml.attribute.value"
    ensures !NamesHold(NestedAttributes(outer, nested), None, None)
  {
    var value := Element(VALUE, Nothing, Nothing);
    assert NameAfter(Nothing, Some(nested)) == Some(nested);
    assert !NamesHold(value, Some(outer), None);
    assert !NamesHold(Element(Named(nested), Nothing, value), Some(outer), Some(outer));
  }

  lemma NestedAttributesDoNotNestTexts(outer: string, nested: string)
    ensures !Nests(NestedAttributes(outer, nested))
  {
    var inside := Element(Named(nested), Nothing, Element(VALUE, Nothing, Nothing));
    assert TextsApart(inside, false);
    assert TextsApart(NestedAttributes(outer, nested), false);
    hide TextsApart, TextsNest, NestedAttributes;
    ApartTextsDoNotNest(NestedAttributes(outer, nested), false, false, Seen(false, false));
  }

  lemma NestedAttributesAccepted(outer: string, nested: string)
    requires ByteLength(outer) <= SAML_MAX_TEXT_BYTES && ByteLength(nested) <= SAML_MAX_TEXT_BYTES
    ensures Reference(NestedAttributes(outer, nested)).Ok?
  {
    hide EndCapture, TextName, Begin, Open, WithFact, Named, ByteLength;
    var value := Element(VALUE, Nothing, Nothing);
    var one := State(WithName(NO_PROGRESS, outer), None, false);
    var two := State(WithName(one.progress, nested), None, false);
    var left := State(WithFact(two.progress, Some(outer)), None, false);
    assert Recite(Nothing, 2, false, Some(nested), two) == Ok(two);
    AttributeRecited(nested, Nothing, value, 1, Some(outer), one, two);
    BareValueRecited(Nothing, 1, Some(outer), two);
    assert Recite(Nothing, 1, false, Some(outer), left) == Ok(left);
    AttributeRecited(outer, Element(Named(nested), Nothing, value), Nothing, 0, None, START, left);
    assert Recite(Nothing, 0, false, None, left) == Ok(left);
  }

  /** An Attribute inside another: the value that follows it in the outer one is misfiled. */
  lemma NestedAttributesForgetTheName(outer: string, nested: string)
    requires outer != "saml.attribute.value"
    requires ByteLength(outer) <= SAML_MAX_TEXT_BYTES && ByteLength(nested) <= SAML_MAX_TEXT_BYTES
    ensures ClassifiedAll(NestedAttributesEvents(outer, nested)) == Events(NestedAttributes(outer, nested))
    ensures var m := NestedAttributes(outer, nested);
            && Reference(m).Ok? && !Nests(m)
            && Parse(ClassifiedAll(NestedAttributesEvents(outer, nested))) != Reference(m)
  {
    hide Parse, Events, Reference, NamesHold, Nests, NestedAttributes, ClassifiedAll, NestedAttributesEvents;
    NestedAttributesAreRead(outer, nested);
    NestedAttributesMisname(outer, nested);
    NestedAttributesDoNotNestTexts(outer, nested);
    NestedAttributesAccepted(outer, nested);
    NestingAndNamesDecide(NestedAttributes(outer, nested));
  }

  // ----- A document only the walker accepts -----

  /** `n` times one empty AttributeValue in another. */
  function Pairs(n: nat): Markup {
    if n == 0 then Nothing else Element(VALUE, EmptyElement(VALUE, Nothing), Pairs(n - 1))
  }

  function PairsEvents(n: nat): seq<XmlEvent> {
    if n == 0 then []
    else [StartTag("AttributeValue", [])] + ([EmptyTag("AttributeValue", [])]
                                             + ([EndTag("AttributeValue")] + PairsEvents(n - 1)))
  }

  lemma {:induction false} PairsAreRead(n: nat)
    ensures ClassifiedAll(PairsEvents(n)) == Events(Pairs(n))
  {
    if n > 0 {
      ValueTagIs();
      hide TagOf, Classify, ClassifiedAll;
      PairsAreRead(n - 1);
      var rest := PairsEvents(n - 1);
      ClassifiedCons(EndTag("AttributeValue"), rest);
      ClassifiedCons(EmptyTag("AttributeValue", []), [EndTag("AttributeValue")] + rest);
      ClassifiedCons(StartTag("AttributeValue", []), [EmptyTag("AttributeValue", [])]
                                                     + ([EndTag("AttributeValue")] + rest));
    }
  }

  function Filled(n: nat): (pr: Progress)
    ensures |pr.facts| == n
  {
    if n == 0 then NO_PROGRESS else WithFact(Filled(n - 1), None)
  }

  lemma ValueEnters(s: Scan, depth: nat)
    ensures Enter(s, VALUE, depth, false) == Ok((s.(text := Some("")), true))
  {
    assert PushAll(s.progress.facts, []) == Ok(s.progress.facts);
  }

  lemma EmptyValue(n: nat)
    ensures n < IAM_MAX_FACTS ==> EndCapture(Filled(n), AttributeValue, None, "") == Ok(Filled(n + 1))
    ensures n >= IAM_MAX_FACTS ==> EndCapture(Filled(n), AttributeValue, None, "") == Err("too_many_facts")
  {
    if n < IAM_MAX_FACTS {
      ValueCaptured(Filled(n), None, "");
    }
  }

  lemma PairWalked(n: nat, after: Markup)
    requires n < IAM_MAX_FACTS
    ensures Walk(Element(VALUE, EmptyElement(VALUE, Nothing), after), 0, false, Scan(Filled(n), None, None))
            == Walk(after, 0, false, Scan(Filled(n + 1), None, None))
  {
    EmptyValue(n);
    hide EndCapture, Filled, Enter;
    var s, live, next := Scan(Filled(n), None, None), Scan(Filled(n), None, Some("")), Scan(Filled(n + 1), None, None);
    ValueEnters(s, 0);
    ValueEnters(live, 1);
    assert LeaveEmpty(Ok((live, true)), AttributeValue) == Ok(next);
    assert Walk(EmptyElement(VALUE, Nothing), 1, false, live) == WalkOn(Ok(next), Nothing, 1, false) == Ok(next);
    assert Leave(next, AttributeValue, true, None) == Ok(next);
    assert Walk(Element(VALUE, EmptyElement(VALUE, Nothing), after), 0, false, s)
           == WalkEntered(Ok((live, true)), VALUE, EmptyElement(VALUE, Nothing), after, 0, false)
           == WalkLeft(Ok(next), AttributeValue, true, None, after, 0, false)
           == WalkOn(Ok(next), after, 0, false);
  }

  lemma {:induction false} PairsWalked(n: nat, k: nat)
    requires k + n <= IAM_MAX_FACTS
    ensures Walk(Pairs(n), 0, false, Scan(Filled(k), None, None)) == Ok(Scan(Filled(k + n), None, None))
    decreases n
  {
    if n > 0 {
      hide Walk, Filled;
      PairWalked(k, Pairs(n - 1));
      PairsWalked(n - 1, k + 1);
    }
  }

  /** The empty value keeps the text around it, so its fact and the outer one are both told. */
  lemma PairRecited(n: nat, after: Markup, overlap: bool)
    ensures var r := Recite(Element(VALUE, EmptyElement(VALUE, Nothing), after), 0, false, None,
                            State(Filled(n), None, overlap));
            && (n + 2 <= IAM_MAX_FACTS ==> r == Recite(after, 0, false, None, State(Filled(n + 2), None, true)))
            && (n >= IAM_MAX_FACTS ==> r == Err("too_many_facts"))
  {
    var s, live := State(Filled(n), None, overlap), State(Filled(n), Some(""), overlap);
    var pair := EmptyElement(VALUE, Nothing);
    hide EndCapture, Filled, Begin, Finish;
    PairFinished(n);
    ValueBegins(s, 0);
    ValueBegins(live, 1);
    var within := live.(overlap := true);
    var ended := Finish(Some(""), within, AttributeValue, true, None, "");
    assert FinishEmpty(Some(""), Ok((within, true)), AttributeValue, None) == ended;
    assert Recite(pair, 1, false, None, live) == ReciteOn(ended, Nothing, 1, false, None) == ended;
    PairReciting(s, live, pair, ended, after);
  }

  lemma EmptyFinished(inner: State, held: Option<string>, closed: Result<Progress, string>)
    requires EndCapture(inner.progress, AttributeValue, None, "") == closed
    ensures Finish(held, inner, AttributeValue, true, None, "")
            == if closed.Err? then Err(closed.error) else Ok(State(closed.value, held, inner.overlap))
  {
    hide EndCapture;
    assert held.Some? ==> held.value + "" == held.value;
  }

  lemma PairFinished(n: nat)
    ensures var within := State(Filled(n), Some(""), true);
            var ended := Finish(Some(""), within, AttributeValue, true, None, "");
            && (n >= IAM_MAX_FACTS ==> ended == Err("too_many_facts"))
            && (n + 2 <= IAM_MAX_FACTS ==>
                  && ended.Ok?
                  && Finish(None, ended.value, AttributeValue, true, None, "") == Ok(State(Filled(n + 2), None, true)))
  {
    hide EndCapture, Filled, Finish;
    EmptyValue(n);
    EmptyValue(n + 1);
    var within := State(Filled(n), Some(""), true);
    EmptyFinished(within, Some(""), EndCapture(Filled(n), AttributeValue, None, ""));
    if n + 2 <= IAM_MAX_FACTS {
      var second := State(Filled(n + 1), Some(""), true);
      EmptyFinished(second, None, EndCapture(Filled(n + 1), AttributeValue, None, ""));
    }
  }

  lemma PairReciting(s: State, live: State, pair: Markup, ended: StateResult, after: Markup)
    requires Begin(s, VALUE, 0, false) == Ok((live, true)) && s.held.None? && TextOf(pair) == ""
    requires Recite(pair, 1, false, None, live) == ended
    ensures Recite(Element(VALUE, pair, after), 0, false, None, s)
            == if ended.Err? then ended
               else ReciteOn(Finish(None, ended.value, AttributeValue, true, None, ""), after, 0, false, None)
  {
    hide Begin, Finish;
    assert Recite(Element(VALUE, pair, after), 0, false, None, s)
           == ReciteBegun(None, Ok((live, true)), VALUE, pair, after, 0, false, None)
           == ReciteLeft(ended, None, VALUE, true, "", after, 0, false, None);
  }

  lemma {:induction false} PairsRecited(n: nat, k: nat, overlap: bool)
    requires 2 * k <= IAM_MAX_FACTS < 2 * (k + n)
    ensures Recite(Pairs(n), 0, false, None, State(Filled(2 * k), None, overlap)) == Err("too_many_facts")
    decreases n
  {
    hide Recite, Filled;
    PairRecited(2 * k, Pairs(n - 1), overlap);
    if 2 * k < IAM_MAX_FACTS {
      PairsRecited(n - 1, k + 1, true);
    }
  }

  /** Between 33 and 64 such pairs are too many facts for the reference; the walker loses one of
      each pair and accepts the rest. */
  lemma LostFactsAreNotCounted(n: nat)
    requires IAM_MAX_FACTS < 2 * n && n <= IAM_MAX_FACTS
    ensures ClassifiedAll(PairsEvents(n)) == Events(Pairs(n))
    ensures Reference(Pairs(n)) == Err("too_many_facts")
    ensures Parse(ClassifiedAll(PairsEvents(n))).Ok? && |Parse(ClassifiedAll(PairsEvents(n))).value| == n + 3
  {
    assert Filled(0) == NO_PROGRESS;
    hide Recite, Walk, Pairs, PairsEvents, Filled, Events, ClassifiedAll, Run;
    PairsAreRead(n);
    PairsRecited(n, 0, false);
    PairsWalked(n, 0);
    ParseWalksTree(Pairs(n));
  }
}
