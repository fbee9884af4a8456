/** XML as scorpion_app/src/iam.rs sees it: a stream of reader events, or the tree it spells;
    and what one opened tag or one finished text contributes to the facts. */
module SamlMarkup {
  import opened Results
  import opened IamFacts
  import opened Utf8

  const SAML_MAX_XML_DEPTH: nat := 32
  const SAML_MAX_ATTRIBUTES: nat := 32
  const SAML_MAX_TEXT_BYTES: nat := IAM_MAX_VALUE_BYTES

  /** An XML attribute by local name; no value when it does not decode. */
  datatype Attr = Attr(local: string, value: Option<string>)

  /** What the reader delivers. `Passed` stands for everything the walker skips: declarations,
      comments, CDATA, processing instructions, entity references and DOCTYPE. */
  datatype XmlEvent =
    | StartTag(local: string, attributes: seq<Attr>)
    | EmptyTag(local: string, attributes: seq<Attr>)
    | EndTag(local: string)
    | CharacterData(decoded: Option<string>)
    | Passed
    | ReadError

  datatype Kind =
    | Response | Issuer | StatusCode | StatusMessage | Assertion | NameId | Conditions
    | Audience | Attribute | AttributeValue | Signature | Other

  function Classify(local: string): Kind {
    if local == "Response" then Response
    else if local == "Issuer" then Issuer
    else if local == "StatusCode" then StatusCode
    else if local == "StatusMessage" then StatusMessage
    else if local == "Assertion" then Assertion
    else if local == "NameID" then NameId
    else if local == "Conditions" then Conditions
    else if local == "Audience" then Audience
    else if local == "Attribute" then Attribute
    else if local == "AttributeValue" then AttributeValue
    else if local == "Signature" then Signature
    else Other
  }

  /** The first attribute of that local name whose value decodes. */
  function ValueOf(attributes: seq<Attr>, local: string): Option<string> {
    if attributes == [] then None
    else if attributes[0].local == local && attributes[0].value.Some? then attributes[0].value
    else ValueOf(attributes[1..], local)
  }

  /** A fact on its way in; a correlation token is marked not validated. */
  datatype Pending = Pending(name: string, value: string, correlation: bool)

  function FromAttribute(attributes: seq<Attr>, local: string, name: string): seq<Pending> {
    var value := ValueOf(attributes, local);
    if value.Some? then [Pending(name, value.value, false)] else []
  }

  function FromAttributes(attributes: seq<Attr>, targets: seq<(string, string)>): seq<Pending>
    decreases |targets|
  {
    if targets == [] then []
    else FromAttribute(attributes, targets[0].0, targets[0].1) + FromAttributes(attributes, targets[1..])
  }

  function Correlation(attributes: seq<Attr>, local: string, name: string): seq<Pending> {
    var value := ValueOf(attributes, local);
    if value.Some? then [Pending(name, value.value, true)] else []
  }

  /** The facts the attributes of one element give, when it is inspected. */
  function TagFacts(kind: Kind, attributes: seq<Attr>): seq<Pending> {
    match kind
    case Response =>
      FromAttributes(attributes, [("ID", "saml.response.id"), ("Destination", "saml.response.destination"),
                                  ("Version", "saml.response.version")])
      + Correlation(attributes, "InResponseTo", "saml.response.in_response_to")
    case Assertion =>
      FromAttributes(attributes, [("ID", "saml.assertion.id"), ("IssueInstant", "saml.assertion.issue_instant")])
    case Conditions =>
      FromAttributes(attributes, [("NotBefore", "saml.conditions.not_before"),
                                  ("NotOnOrAfter", "saml.conditions.not_on_or_after")])
    case StatusCode => FromAttributes(attributes, [("Value", "saml.status.code")])
    case NameId => FromAttributes(attributes, [("Format", "saml.name_id.format")])
    case Attribute => FromAttributes(attributes, [("Name", "saml.attribute.name")])
    case _ => []
  }

  /** All that matters of a start tag: its kind, its `Name` and its facts. */
  datatype Tag = Tag(kind: Kind, name: Option<string>, facts: seq<Pending>)

  function TagOf(local: string, attributes: seq<Attr>): Tag {
    Tag(Classify(local), ValueOf(attributes, "Name"), TagFacts(Classify(local), attributes))
  }

  datatype Event =
    | Start(tag: Tag) | Empty(tag: Tag) | Text(decoded: Option<string>) | End(kind: Kind)
    | Ignored | Unreadable

  function Classified(e: XmlEvent): Event {
    match e
    case StartTag(local, attributes) => Start(TagOf(local, attributes))
    case EmptyTag(local, attributes) => Empty(TagOf(local, attributes))
    case EndTag(local) => End(Classify(local))
    case CharacterData(decoded) => Text(decoded)
    case Passed => Ignored
    case ReadError => Unreadable
  }

  function ClassifiedAll(events: seq<XmlEvent>): seq<Event> {
    if events == [] then [] else [Classified(events[0])] + ClassifiedAll(events[1..])
  }

  /** Sibling nodes in document order. */
  datatype Markup =
    | Nothing
    | Element(tag: Tag, inside: Markup, after: Markup)
    | EmptyElement(tag: Tag, after: Markup)
    | Chars(decoded: Option<string>, after: Markup)
    | Skipped(after: Markup)

  function Events(m: Markup): seq<Event> {
    match m
    case Nothing => []
    case Element(tag, inside, after) => [Start(tag)] + Events(inside) + [End(tag.kind)] + Events(after)
    case EmptyElement(tag, after) => [Empty(tag)] + Events(after)
    case Chars(decoded, after) => [Text(decoded)] + Events(after)
    case Skipped(after) => [Ignored] + Events(after)
  }

  // ----- Facts -----

  /** `push_saml_text_fact` */
  function Push(facts: seq<Fact>, p: Pending): Result<seq<Fact>, string> {
    if |facts| >= IAM_MAX_FACTS then Err("too_many_facts")
    else if ByteLength(p.value) > SAML_MAX_TEXT_BYTES then Err("oversized_text_value")
    else
      var status := if IsSensitiveName(p.name) then Redacted(Sha256(p.value))
                    else if p.correlation then NotValidated(p.value) else Observed(p.value);
      Ok(facts + [Fact(p.name, status)])
  }

  function PushAll(facts: seq<Fact>, pending: seq<Pending>): Result<seq<Fact>, string>
    decreases |pending|
  {
    if pending == [] then Ok(facts)
    else
      var pushed :- Push(facts, pending[0]);
      PushAll(pushed, pending[1..])
  }

  /** What the walk has established so far. */
  datatype Progress = Progress(
    facts: seq<Fact>, sawIssuer: bool, sawNameId: bool, sawAudience: bool, sawStatusCode: bool,
    attributeCount: nat, responseSigned: bool, assertionSigned: bool)

  const NO_PROGRESS := Progress([], false, false, false, false, 0, false, false)

  /** A Response counts at the top only, a StatusCode and a NameID the first time only. */
  predicate Inspects(pr: Progress, kind: Kind, depth: nat) {
    && (kind.Response? ==> depth == 0)
    && (kind.StatusCode? ==> !pr.sawStatusCode)
    && (kind.NameId? ==> !pr.sawNameId)
  }

  /** An element opens, `underAssertion` telling whether an Assertion is open around it. */
  function Open(pr: Progress, tag: Tag, depth: nat, underAssertion: bool): Result<Progress, string> {
    var kind := tag.kind;
    if kind.Attribute? && pr.attributeCount + 1 > SAML_MAX_ATTRIBUTES then Err("too_many_attributes")
    else
      var facts :- if Inspects(pr, kind, depth) then PushAll(pr.facts, tag.facts) else Ok(pr.facts);
      Ok(Progress(
        facts, pr.sawIssuer, pr.sawNameId || kind.NameId?, pr.sawAudience, pr.sawStatusCode || kind.StatusCode?,
        if kind.Attribute? then pr.attributeCount + 1 else pr.attributeCount,
        pr.responseSigned || (kind.Signature? && !underAssertion),
        pr.assertionSigned || (kind.Signature? && underAssertion)))
  }

  /** Only the first Issuer and the first Audience are captured. */
  predicate Captures(pr: Progress, kind: Kind) {
    match kind
    case Issuer => !pr.sawIssuer
    case Audience => !pr.sawAudience
    case StatusMessage => true
    case NameId => true
    case AttributeValue => true
    case _ => false
  }

  function BeginCapture(pr: Progress, kind: Kind): Progress {
    pr.(sawIssuer := pr.sawIssuer || kind.Issuer?, sawAudience := pr.sawAudience || kind.Audience?)
  }

  predicate CarriesText(kind: Kind) {
    kind.Issuer? || kind.StatusMessage? || kind.NameId? || kind.Audience? || kind.AttributeValue?
  }

  function TextName(kind: Kind, attributeName: Option<string>): string {
    match kind
    case Issuer => "saml.issuer"
    case StatusMessage => "saml.status.message"
    case NameId => "saml.name_id"
    case Audience => "saml.audience"
    case _ =>
      "saml.attribute.value[" + (if attributeName.Some? then attributeName.value else "saml.attribute.value") + "]"
  }

  /** `finalize_saml_capture` */
  function CapturedFact(kind: Kind, attributeName: Option<string>, text: string): seq<Pending> {
    if CarriesText(kind) then [Pending(TextName(kind, attributeName), text, false)] else []
  }

  function EndCapture(pr: Progress, kind: Kind, attributeName: Option<string>, text: string): Result<Progress, string> {
    var facts :- PushAll(pr.facts, CapturedFact(kind, attributeName, text));
    Ok(pr.(facts := facts))
  }

  function BoolText(b: bool): string {
    if b then "true" else "false"
  }

  /** The facts of a document walked to its end. */
  function Conclude(pr: Progress): seq<Fact> {
    pr.facts + [
      Fact("saml.response.signature.present", Observed(BoolText(pr.responseSigned))),
      Fact("saml.assertion.signature.present", Observed(BoolText(pr.assertionSigned))),
      Fact("saml.signature.verification", NotValidated("not_attempted"))]
  }
}
