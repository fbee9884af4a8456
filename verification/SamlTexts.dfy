/** Which texts of a document end up under which names, for documents given by the names in the
    reader's events, however their elements nest. */
module SamlTexts {
  import opened Results
  import opened IamFacts
  import opened Utf8
  import opened SamlMarkup
  import opened SamlWalker
  import opened SamlPolicy
  import opened SamlNames
  import SamlAgreement
  import SamlReference

  /** Sibling nodes in document order, elements by their local names. */
  datatype Document =
    | Finished
    | Node(local: string, attributes: seq<Attr>, inside: Document, after: Document)
    | Leaf(local: string, attributes: seq<Attr>, after: Document)
    | Words(decoded: Option<string>, after: Document)
    | Comment(after: Document)

  /** The reader's events. */
  function Spelled(d: Document): seq<XmlEvent> {
    match d
    case Finished => []
    case Node(local, attributes, inside, after) =>
      [StartTag(local, attributes)] + Spelled(inside) + [EndTag(local)] + Spelled(after)
    case Leaf(local, attributes, after) => [EmptyTag(local, attributes)] + Spelled(after)
    case Words(decoded, after) => [CharacterData(decoded)] + Spelled(after)
    case Comment(after) => [Passed] + Spelled(after)
  }

  // ----- What is kept of it -----

  /** The elements whose text is taken; of Issuer and Audience only the first, `met` being the local
      names that have gone by. */
  predicate Taken(met: set<string>, local: string) {
    match local
    case "Issuer" => "Issuer" !in met
    case "Audience" => "Audience" !in met
    case "StatusMessage" => true
    case "NameID" => true
    case "AttributeValue" => true
    case _ => false
  }

  function Met(d: Document, met: set<string>): set<string>
    decreases d
  {
    match d
    case Finished => met
    case Node(local, _, inside, after) => Met(after, Met(inside, met + {local}))
    case Leaf(local, _, after) => Met(after, met + {local})
    case Words(_, after) => Met(after, met)
    case Comment(after) => Met(after, met)
  }

  /** No element whose text is taken. */
  predicate Quiet(d: Document, met: set<string>)
    decreases d
  {
    match d
    case Finished => true
    case Node(local, _, inside, after) =>
      !Taken(met, local) && Quiet(inside, met + {local}) && Quiet(after, Met(inside, met + {local}))
    case Leaf(local, _, after) => !Taken(met, local) && Quiet(after, met + {local})
    case Words(_, after) => Quiet(after, met)
    case Comment(after) => Quiet(after, met)
  }

  /** All text in document order. */
  function AllText(d: Document): string {
    match d
    case Finished => ""
    case Node(_, _, inside, after) => AllText(inside) + AllText(after)
    case Leaf(_, _, after) => AllText(after)
    case Words(decoded, after) => (if decoded.Some? then decoded.value else "") + AllText(after)
    case Comment(after) => AllText(after)
  }

  /** The attribute name in force from the start tag on. */
  function NameIn(local: string, attributes: seq<Attr>, current: Option<string>): Option<string> {
    if local == "Attribute" then ValueOf(attributes, "Name") else current
  }

  /** The attribute name in force behind a document; only the end tag of an Attribute ends one. */
  function NameBehind(d: Document, current: Option<string>): Option<string>
    decreases d
  {
    match d
    case Finished => current
    case Node(local, attributes, inside, after) =>
      NameBehind(after, if local == "Attribute" then None else NameBehind(inside, NameIn(local, attributes, current)))
    case Leaf(local, attributes, after) => NameBehind(after, NameIn(local, attributes, current))
    case Words(_, after) => NameBehind(after, current)
    case Comment(after) => NameBehind(after, current)
  }

  /** The name of the fact a text becomes. */
  function FactName(local: string, current: Option<string>): string {
    match local
    case "Issuer" => "saml.issuer"
    case "StatusMessage" => "saml.status.message"
    case "NameID" => "saml.name_id"
    case "Audience" => "saml.audience"
    case _ =>
      if current.Some? then "saml.attribute.value[" + current.value + "]"
      else "saml.attribute.value[saml.attribute.value]"
  }

  predicate IsTextName(name: string) {
    || name == "saml.issuer" || name == "saml.status.message" || name == "saml.name_id" || name == "saml.audience"
    || "saml.attribute.value[" <= name
  }

  /** The texts that go under `name`: of each element whose text is taken and inside which no other
      such element begins, all the text inside it. */
  function Kept(d: Document, name: string, met: set<string>, current: Option<string>): seq<string>
    decreases d
  {
    match d
    case Finished => []
    case Words(_, after) => Kept(after, name, met, current)
    case Comment(after) => Kept(after, name, met, current)
    case Leaf(local, attributes, after) =>
      KeptHere(local, NameIn(local, attributes, current), Taken(met, local), name, "")
      + Kept(after, name, met + {local}, NameIn(local, attributes, current))
    case Node(local, attributes, inside, after) =>
      var within, open := NameIn(local, attributes, current), met + {local};
      Kept(inside, name, open, within)
      + KeptHere(local, within, Taken(met, local) && Quiet(inside, open), name, AllText(inside))
      + Kept(after, name, Met(inside, open), if local == "Attribute" then None else NameBehind(inside, within))
  }

  function KeptHere(local: string, current: Option<string>, taken: bool, name: string, text: string): seq<string> {
    if taken && FactName(local, current) == name then [text] else []
  }

  function InTheOpen(texts: seq<string>): seq<Status> {
    seq(|texts|, i requires 0 <= i < |texts| => Observed(texts[i]))
  }

  // ----- The tree of kinds -----

  function Read(d: Document): Markup {
    match d
    case Finished => Nothing
    case Node(local, attributes, inside, after) => Element(TagOf(local, attributes), Read(inside), Read(after))
    case Leaf(local, attributes, after) => EmptyElement(TagOf(local, attributes), Read(after))
    case Words(decoded, after) => Chars(decoded, Read(after))
    case Comment(after) => Skipped(Read(after))
  }

  lemma ClassifiedCons(e: XmlEvent, rest: seq<XmlEvent>)
    ensures ClassifiedAll([e] + rest) == [Classified(e)] + ClassifiedAll(rest)
  {
    assert ([e] + rest)[1..] == rest;
  }

  lemma {:induction false} ClassifiedConcat(a: seq<XmlEvent>, b: seq<XmlEvent>)
    ensures ClassifiedAll(a + b) == ClassifiedAll(a) + ClassifiedAll(b)
  {
    hide Classified;
    if a == [] {
      assert a + b == b;
    } else {
      assert (a + b)[1..] == a[1..] + b;
      ClassifiedConcat(a[1..], b);
    }
  }

  lemma {:induction false} SpelledIsRead(d: Document)
    ensures ClassifiedAll(Spelled(d)) == Events(Read(d))
  {
    hide TagOf, ClassifiedAll, Classify;
    match d
    case Finished => NothingClassified();
    case Node(local, attributes, inside, after) =>
      SpelledIsRead(inside);
      SpelledIsRead(after);
      var start, end := StartTag(local, attributes), EndTag(local);
      assert Spelled(d) == [start] + (Spelled(inside) + ([end] + Spelled(after)));
      ClassifiedCons(start, Spelled(inside) + ([end] + Spelled(after)));
      ClassifiedConcat(Spelled(inside), [end] + Spelled(after));
      ClassifiedCons(end, Spelled(after));
      TagKind(local, attributes);
    case Leaf(local, attributes, after) =>
      SpelledIsRead(after);
      ClassifiedCons(EmptyTag(local, attributes), Spelled(after));
    case Words(decoded, after) =>
      SpelledIsRead(after);
      ClassifiedCons(CharacterData(decoded), Spelled(after));
    case Comment(after) =>
      SpelledIsRead(after);
      ClassifiedCons(Passed, Spelled(after));
  }

  lemma TagKind(local: string, attributes: seq<Attr>)
    ensures TagOf(local, attributes).kind == Classify(local)
  {
  }

  lemma NothingClassified()
    ensures ClassifiedAll([]) == []
  {
  }

  lemma AllTextIsRead(d: Document)
    ensures AllText(d) == SamlReference.TextOf(Read(d))
  {
  }

  // ----- Tags and texts -----

  lemma TextNamesAreNoRows(name: string, i: nat)
    requires IsTextName(name) && i < |TABLE|
    ensures name != TABLE[i].name
  {
    var row, prefix := TABLE[i].name, "saml.attribute.value[";
    if prefix <= name {
      assert name[5] == prefix[5] && name[6] == prefix[6] && name[15] == prefix[15];
      assert |row| > 15 ==> row[5] != prefix[5] || row[6] != prefix[6] || row[15] != prefix[15];
    }
    var message := "saml.status.message";
    assert |row| == 19 ==> row[5] != message[5];
  }

  lemma RowsSayNoText(attributes: seq<Attr>, targets: seq<(string, string)>, from: nat, name: string)
    requires IsTextName(name) && from + |targets| <= |TABLE|
    requires forall j :: 0 <= j < |targets| ==> targets[j].1 == TABLE[from + j].name
    ensures Pushed(FromAttributes(attributes, targets), name) == []
  {
    hide IsTextName;
    forall j | 0 <= j < |targets| ensures targets[j].1 != name {
      TextNamesAreNoRows(name, from + j);
    }
    NoTarget(attributes, targets, name);
  }

  /** No attribute goes under the name of a text. */
  lemma TagSaysNoText(kind: Kind, attributes: seq<Attr>, name: string)
    requires IsTextName(name)
    ensures Pushed(TagFacts(kind, attributes), name) == []
  {
    hide FromAttributes, ValueOf, Pushed, IsTextName;
    match kind
    case Response => ResponseSaysNoText(attributes, name);
    case Assertion =>
      RowsSayNoText(attributes, [("ID", "saml.assertion.id"), ("IssueInstant", "saml.assertion.issue_instant")], 4,
                    name);
    case Conditions =>
      RowsSayNoText(attributes, [("NotBefore", "saml.conditions.not_before"),
                                 ("NotOnOrAfter", "saml.conditions.not_on_or_after")], 6, name);
    case StatusCode => RowsSayNoText(attributes, [("Value", "saml.status.code")], 8, name);
    case NameId => RowsSayNoText(attributes, [("Format", "saml.name_id.format")], 9, name);
    case Attribute => RowsSayNoText(attributes, [("Name", "saml.attribute.name")], 10, name);
    case _ => NothingSaid(name);
  }

  lemma ResponseSaysNoText(attributes: seq<Attr>, name: string)
    requires IsTextName(name)
    ensures Pushed(TagFacts(Response, attributes), name) == []
  {
    hide FromAttributes, IsTextName;
    var targets := [("ID", "saml.response.id"), ("Destination", "saml.response.destination"),
                    ("Version", "saml.response.version")];
    RowsSayNoText(attributes, targets, 0, name);
    PushedConcat(FromAttributes(attributes, targets),
                 Correlation(attributes, "InResponseTo", "saml.response.in_response_to"), name);
    TextNamesAreNoRows(name, 3);
  }

  /** The walker's record of what has gone by. */
  ghost predicate SawAs(pr: Progress, met: set<string>) {
    (pr.sawIssuer <==> "Issuer" in met) && (pr.sawAudience <==> "Audience" in met)
  }

  ghost predicate EntersAs(s: Scan, r: Result<(Scan, bool), string>, local: string, attributes: seq<Attr>,
                           met: set<string>, name: string) {
    r.Ok? ==>
      var (entered, captures) := r.value;
      && captures == Taken(met, local)
      && Statuses(entered.progress.facts, name) == Statuses(s.progress.facts, name)
      && SawAs(entered.progress, met + {local})
      && entered.attributeName == NameIn(local, attributes, s.attributeName)
      && entered.text == if captures then Some("") else s.text
  }

  lemma OpenSaysNoText(pr: Progress, local: string, attributes: seq<Attr>, depth: nat, under: bool, name: string)
    requires IsTextName(name) && Open(pr, TagOf(local, attributes), depth, under).Ok?
    ensures var next := Open(pr, TagOf(local, attributes), depth, under).value;
            && Statuses(next.facts, name) == Statuses(pr.facts, name)
            && next.sawIssuer == pr.sawIssuer && next.sawAudience == pr.sawAudience
  {
    TagSaysNoText(Classify(local), attributes, name);
    TagFactsAreSaml(Classify(local), attributes);
    hide TagFacts, Statuses, Pushed, AllSaml, Classify;
    var kind := Classify(local);
    if Inspects(pr, kind, depth) {
      PushingSays(pr.facts, TagFacts(kind, attributes), name);
    }
  }

  lemma StartTagIs(s: Scan, local: string, attributes: seq<Attr>, depth: nat, under: bool, met: set<string>,
                   name: string)
    requires IsTextName(name) && SawAs(s.progress, met)
    ensures EntersAs(s, Enter(s, TagOf(local, attributes), depth, under), local, attributes, met, name)
  {
    hide TagFacts, Statuses, Open, IsTextName;
    if Open(s.progress, TagOf(local, attributes), depth, under).Ok? {
      OpenSaysNoText(s.progress, local, attributes, depth, under, name);
    }
  }

  lemma NameOfText(local: string, attributeName: Option<string>, met: set<string>)
    requires Taken(met, local)
    ensures CarriesText(Classify(local)) && TextName(Classify(local), attributeName) == FactName(local, attributeName)
  {
    assert "saml.attribute.value[" + "saml.attribute.value" + "]" == "saml.attribute.value[saml.attribute.value]";
  }

  /** The end of an element whose text was taken and kept. */
  lemma TextIsFiled(pr: Progress, local: string, current: Option<string>, met: set<string>, text: string, name: string)
    requires Taken(met, local) && EndCapture(pr, Classify(local), current, text).Ok?
    ensures var next := EndCapture(pr, Classify(local), current, text).value;
            && Statuses(next.facts, name)
               == Statuses(pr.facts, name) + InTheOpen(KeptHere(local, current, true, name, text))
            && next.sawIssuer == pr.sawIssuer && next.sawAudience == pr.sawAudience
  {
    NameOfText(local, current, met);
    TextFactsAreSaml(Classify(local), current, text);
    hide Statuses, TextName, FactName, Classify, SamlNamed, PushAll;
    var pending := CapturedFact(Classify(local), current, text);
    assert pending == [Pending(FactName(local, current), text, false)];
    PushingSays(pr.facts, pending, name);
    assert pending[1..] == [];
    assert Pushed(pending, name) == InTheOpen(KeptHere(local, current, true, name, text));
  }

  // ----- The walk -----

  /** What walking `d` from `before` comes to. */
  ghost predicate WalksAs(before: Scan, r: Result<Scan, string>, name: string, kept: seq<string>, met: set<string>,
                          current: Option<string>, quiet: bool) {
    r.Ok? ==>
      && Statuses(r.value.progress.facts, name) == Statuses(before.progress.facts, name) + InTheOpen(kept)
      && SawAs(r.value.progress, met)
      && r.value.attributeName == current
      && (r.value.text.Some? <==> before.text.Some? && quiet)
  }

  lemma OpenConcat(a: seq<string>, b: seq<string>)
    ensures InTheOpen(a + b) == InTheOpen(a) + InTheOpen(b) && InTheOpen([]) == []
  {
  }

  lemma Chained(before: Scan, middle: Scan, r: Result<Scan, string>, name: string, first: seq<string>,
                second: seq<string>, met: set<string>, current: Option<string>, quiet: bool, quietAfter: bool)
    requires Statuses(middle.progress.facts, name) == Statuses(before.progress.facts, name) + InTheOpen(first)
    requires middle.text.Some? <==> before.text.Some? && quiet
    requires WalksAs(middle, r, name, second, met, current, quietAfter)
    ensures WalksAs(before, r, name, first + second, met, current, quiet && quietAfter)
  {
    hide Statuses, SawAs;
    OpenConcat(first, second);
  }

  lemma {:induction false} DocumentWalks(d: Document, depth: nat, under: bool, s: Scan, met: set<string>, name: string)
    requires IsTextName(name) && SawAs(s.progress, met)
    ensures WalksAs(s, Walk(Read(d), depth, under, s), name, Kept(d, name, met, s.attributeName), Met(d, met),
                    NameBehind(d, s.attributeName), Quiet(d, met))
    decreases d, 1
  {
    hide Statuses, IsTextName, TagOf, Enter, Taken, NameIn, FactName;
    match d
    case Finished => OpenConcat([], []);
    case Words(decoded, after) =>
      if s.text.None? {
        DocumentWalks(after, depth, under, s, met, name);
      } else if Extend(s.text.value, decoded).Ok? {
        DocumentWalks(after, depth, under, s.(text := Some(Extend(s.text.value, decoded).value)), met, name);
      }
    case Comment(after) => DocumentWalks(after, depth, under, s, met, name);
    case Leaf(local, attributes, after) =>
      TagKind(local, attributes);
      StartTagIs(s, local, attributes, depth, under, met, name);
      LeafWalks(s, Enter(s, TagOf(local, attributes), depth, under), local, attributes, after, depth, under, met, name);
    case Node(local, attributes, inside, after) =>
      StartTagIs(s, local, attributes, depth, under, met, name);
      NodeWalks(s, Enter(s, TagOf(local, attributes), depth, under), local, attributes, inside, after, depth, under,
                met, name);
  }

  lemma LeafLeaves(s: Scan, entered: (Scan, bool), local: string, attributes: seq<Attr>, met: set<string>,
                   name: string)
    requires EntersAs(s, Ok(entered), local, attributes, met, name)
    ensures var left := LeaveEmpty(Ok(entered), Classify(local));
            WalksAs(s, left, name,
                    KeptHere(local, NameIn(local, attributes, s.attributeName), Taken(met, local), name, ""),
                    met + {local}, NameIn(local, attributes, s.attributeName), !Taken(met, local))
  {
    hide Statuses, Taken, NameIn, FactName, Classify, EndCapture;
    OpenConcat([], []);
    var current := NameIn(local, attributes, s.attributeName);
    if entered.1 && EndCapture(entered.0.progress, Classify(local), current, "").Ok? {
      TextIsFiled(entered.0.progress, local, current, met, "", name);
    }
  }

  lemma {:induction false} LeafWalks(s: Scan, r: Result<(Scan, bool), string>, local: string, attributes: seq<Attr>,
                                     after: Document, depth: nat, under: bool, met: set<string>, name: string)
    requires IsTextName(name) && EntersAs(s, r, local, attributes, met, name)
    ensures var d := Leaf(local, attributes, after);
            WalksAs(s, WalkOn(LeaveEmpty(r, Classify(local)), Read(after), depth, under), name,
                    Kept(d, name, met, s.attributeName), Met(d, met), NameBehind(d, s.attributeName), Quiet(d, met))
    decreases Leaf(local, attributes, after), 0
  {
    hide Statuses, IsTextName, Taken, NameIn, FactName, Classify, KeptHere, LeaveEmpty;
    if r.Ok? {
      assert r == Ok(r.value);
      LeafLeaves(s, r.value, local, attributes, met, name);
      var left, current := LeaveEmpty(r, Classify(local)), NameIn(local, attributes, s.attributeName);
      if left.Ok? {
        DocumentWalks(after, depth, under, left.value, met + {local}, name);
        Chained(s, left.value, Walk(Read(after), depth, under, left.value), name,
                KeptHere(local, current, Taken(met, local), name, ""), Kept(after, name, met + {local}, current),
                Met(after, met + {local}), NameBehind(after, current), !Taken(met, local), Quiet(after, met + {local}));
      }
    } else {
      assert LeaveEmpty(r, Classify(local)).Err? by {
        LeavesError(r, Classify(local));
      }
    }
  }

  lemma LeavesError(r: Result<(Scan, bool), string>, kind: Kind)
    requires r.Err?
    ensures LeaveEmpty(r, kind).Err?
  {
  }

  /** The inside of an element, and its end tag. */
  lemma NodeLeaves(s: Scan, entered: (Scan, bool), inner: Result<Scan, string>, local: string, attributes: seq<Attr>,
                   inside: Document, met: set<string>, name: string)
    requires EntersAs(s, Ok(entered), local, attributes, met, name)
    requires var current, open := NameIn(local, attributes, s.attributeName), met + {local};
             WalksAs(entered.0, inner, name, Kept(inside, name, open, current), Met(inside, open),
                     NameBehind(inside, current), Quiet(inside, open))
    requires entered.1 && inner.Ok? && inner.value.text.Some? ==> inner.value.text == Some(AllText(inside))
    ensures var current, open := NameIn(local, attributes, s.attributeName), met + {local};
            var here := KeptHere(local, current, Taken(met, local) && Quiet(inside, open), name, AllText(inside));
            inner.Ok? ==>
              WalksAs(s, Leave(inner.value, Classify(local), entered.1, entered.0.attributeName), name,
                      Kept(inside, name, open, current) + here, Met(inside, open),
                      if local == "Attribute" then None else NameBehind(inside, current),
                      !Taken(met, local) && Quiet(inside, open))
  {
    hide Statuses, Taken, NameIn, FactName, EndCapture, Kept, Quiet, Met, NameBehind, AllText;
    if inner.Ok? {
      var current, open := NameIn(local, attributes, s.attributeName), met + {local};
      var kept, text := Kept(inside, name, open, current), AllText(inside);
      OpenConcat(kept, KeptHere(local, current, true, name, text));
      OpenConcat(kept, []);
      if entered.1 && inner.value.text.Some? && EndCapture(inner.value.progress, Classify(local), current, text).Ok? {
        TextIsFiled(inner.value.progress, local, current, met, text, name);
      }
      assert kept + [] == kept;
    }
  }

  lemma EnteredIsLeft(r: Result<(Scan, bool), string>, tag: Tag, inside: Markup, after: Markup, depth: nat, under: bool)
    requires r.Ok? && depth + 1 <= SAML_MAX_XML_DEPTH
    ensures var inner := Walk(inside, depth + 1, under || tag.kind.Assertion?, r.value.0);
            WalkEntered(r, tag, inside, after, depth, under)
            == if inner.Err? then inner
               else
                 var left := Leave(inner.value, tag.kind, r.value.1, r.value.0.attributeName);
                 if left.Err? then left else Walk(after, depth, under, left.value)
  {
    hide Leave;
    var inner := Walk(inside, depth + 1, under || tag.kind.Assertion?, r.value.0);
    assert WalkEntered(r, tag, inside, after, depth, under)
           == WalkLeft(inner, tag.kind, r.value.1, r.value.0.attributeName, after, depth, under);
    if inner.Ok? {
      assert WalkLeft(inner, tag.kind, r.value.1, r.value.0.attributeName, after, depth, under)
             == WalkOn(Leave(inner.value, tag.kind, r.value.1, r.value.0.attributeName), after, depth, under);
    }
  }

  /** What follows an element that was left. */
  lemma {:induction false} AfterWalks(s: Scan, left: Scan, after: Document, depth: nat, under: bool, name: string,
                                      kept: seq<string>, met: set<string>, current: Option<string>, quiet: bool)
    requires IsTextName(name) && WalksAs(s, Ok(left), name, kept, met, current, quiet)
    ensures WalksAs(s, Walk(Read(after), depth, under, left), name, kept + Kept(after, name, met, current),
                    Met(after, met), NameBehind(after, current), quiet && Quiet(after, met))
    decreases after, 2
  {
    hide Statuses, IsTextName, Walk, Read, Kept, Met, NameBehind, Quiet, SawAs;
    DocumentWalks(after, depth, under, left, met, name);
    Chained(s, left, Walk(Read(after), depth, under, left), name, kept, Kept(after, name, met, current),
            Met(after, met), NameBehind(after, current), quiet, Quiet(after, met));
  }

  /** What a node comes to, by its parts. */
  lemma NodeIs(local: string, attributes: seq<Attr>, inside: Document, after: Document, met: set<string>, name: string,
               attributeName: Option<string>)
    ensures var d := Node(local, attributes, inside, after);
            var current, open := NameIn(local, attributes, attributeName), met + {local};
            var behind := if local == "Attribute" then None else NameBehind(inside, current);
            && Kept(d, name, met, attributeName)
               == Kept(inside, name, open, current)
                  + KeptHere(local, current, Taken(met, local) && Quiet(inside, open), name, AllText(inside))
                  + Kept(after, name, Met(inside, open), behind)
            && Met(d, met) == Met(after, Met(inside, open))
            && NameBehind(d, attributeName) == NameBehind(after, behind)
            && Quiet(d, met) == (!Taken(met, local) && Quiet(inside, open) && Quiet(after, Met(inside, open)))
  {
    hide Taken, NameIn, KeptHere, AllText;
  }

  lemma {:induction false} NodeWalks(s: Scan, r: Result<(Scan, bool), string>, local: string, attributes: seq<Attr>,
                                     inside: Document, after: Document, depth: nat, under: bool, met: set<string>,
                                     name: string)
    requires IsTextName(name) && EntersAs(s, r, local, attributes, met, name)
    ensures var d := Node(local, attributes, inside, after);
            WalksAs(s, WalkEntered(r, TagOf(local, attributes), Read(inside), Read(after), depth, under), name,
                    Kept(d, name, met, s.attributeName), Met(d, met), NameBehind(d, s.attributeName), Quiet(d, met))
    decreases Node(local, attributes, inside, after), 0
  {
    if r.Ok? && depth + 1 <= SAML_MAX_XML_DEPTH {
      TagKind(local, attributes);
      NodeIs(local, attributes, inside, after, met, name, s.attributeName);
      EnteredIsLeft(r, TagOf(local, attributes), Read(inside), Read(after), depth, under);
      hide Statuses, IsTextName, Taken, NameIn, FactName, TagFacts, KeptHere, Leave, Walk, WalkEntered, Kept, Met,
           NameBehind, Quiet, Read, TagOf, Classify, SawAs;
      var tag := TagOf(local, attributes);
      var entered, below := r.value, under || tag.kind.Assertion?;
      var current, open := NameIn(local, attributes, s.attributeName), met + {local};
      var inner := Walk(Read(inside), depth + 1, below, entered.0);
      DocumentWalks(inside, depth + 1, below, entered.0, open, name);
      if entered.1 {
        SamlAgreement.CaptureGathersAll(Read(inside), depth + 1, below, entered.0);
        AllTextIsRead(inside);
      }
      assert r == Ok(entered);
      NodeLeaves(s, entered, inner, local, attributes, inside, met, name);
      if inner.Ok? {
        var left := Leave(inner.value, Classify(local), entered.1, entered.0.attributeName);
        if left.Ok? {
          var behind := if local == "Attribute" then None else NameBehind(inside, current);
          var kept := Kept(inside, name, open, current)
                      + KeptHere(local, current, Taken(met, local) && Quiet(inside, open), name, AllText(inside));
          assert left == Ok(left.value);
          AfterWalks(s, left.value, after, depth, under, name, kept, Met(inside, open), behind,
                     !Taken(met, local) && Quiet(inside, open));
        }
      }
    }
  }

  lemma ConclusionIsNoText(pr: Progress, name: string)
    requires IsTextName(name)
    ensures Statuses(Conclude(pr), name) == Statuses(pr.facts, name)
  {
    hide BoolText, Statuses;
    var a := Fact("saml.response.signature.present", Observed(BoolText(pr.responseSigned)));
    var b := Fact("saml.assertion.signature.present", Observed(BoolText(pr.assertionSigned)));
    var c := Fact("saml.signature.verification", NotValidated("not_attempted"));
    if "saml.attribute.value[" <= name {
      assert name[5] == 'a' && name[6] == 't';
    }
    hide IsTextName, Conclude;
    ConclusionIs(pr, a, b, c);
    StatusesConcat(pr.facts, [a, b, c], name);
    ThreeOthers(a, b, c, name);
  }

  /** For every document that is accepted, however its elements nest, and every name a text can go
      under: the facts of that name say, in order, exactly the texts that are kept under it. */
  lemma TextsAreFiled(d: Document, name: string)
    requires IsTextName(name) && Parse(ClassifiedAll(Spelled(d))).Ok?
    ensures Statuses(Parse(ClassifiedAll(Spelled(d))).value, name) == InTheOpen(Kept(d, name, {}, None))
  {
    hide Statuses, IsTextName, Parse, Walk, ClassifiedAll, Spelled, Kept, Events, Conclude;
    SpelledIsRead(d);
    ParseWalksTree(Read(d));
    DocumentWalks(d, 0, false, START_SCAN, {}, name);
    ConclusionIsNoText(Walk(Read(d), 0, false, START_SCAN).value.progress, name);
    NoStatuses(name);
    var kept := InTheOpen(Kept(d, name, {}, None));
    assert [] + kept == kept;
  }
}
