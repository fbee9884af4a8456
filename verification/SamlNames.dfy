/** Under which name each attribute of a document ends up, by the names in the reader's events. */
module SamlNames {
  import opened Results
  import opened IamFacts
  import opened Utf8
  import opened SamlMarkup
  import opened SamlWalker
  import opened SamlPolicy

  /** An attribute of the elements of one local name, and the fact it becomes; a correlation token
      is reported as not validated. */
  datatype Row = Row(local: string, attribute: string, name: string, correlation: bool)

  const TABLE: seq<Row> := [
    Row("Response", "ID", "saml.response.id", false),
    Row("Response", "Destination", "saml.response.destination", false),
    Row("Response", "Version", "saml.response.version", false),
    Row("Response", "InResponseTo", "saml.response.in_response_to", true),
    Row("Assertion", "ID", "saml.assertion.id", false),
    Row("Assertion", "IssueInstant", "saml.assertion.issue_instant", false),
    Row("Conditions", "NotBefore", "saml.conditions.not_before", false),
    Row("Conditions", "NotOnOrAfter", "saml.conditions.not_on_or_after", false),
    Row("StatusCode", "Value", "saml.status.code", false),
    Row("NameID", "Format", "saml.name_id.format", false),
    Row("Attribute", "Name", "saml.attribute.name", false)]

  /** Of the elements of that name, in order, the attributes of those that are inspected: a Response
      with nothing open around it, the first StatusCode, the first NameID, and any other. */
  function Inspected(events: seq<XmlEvent>, local: string, depth: nat, seen: bool): seq<seq<Attr>> {
    if events == [] then []
    else
      var e := events[0];
      (if Opens(e, local) && IsInspected(local, depth, seen) then [e.attributes] else [])
      + Inspected(events[1..], local, DepthAfter(e, depth), seen || Opens(e, local))
  }

  predicate Opens(e: XmlEvent, local: string) {
    (e.StartTag? || e.EmptyTag?) && e.local == local
  }

  function DepthAfter(e: XmlEvent, depth: nat): nat {
    if e.StartTag? then depth + 1 else if e.EndTag? && depth > 0 then depth - 1 else depth
  }

  predicate IsInspected(local: string, depth: nat, seen: bool) {
    && (local == "Response" ==> depth == 0)
    && (local == "StatusCode" || local == "NameID" ==> !seen)
  }

  /** What those say: of each, the first value that decodes, if there is one. */
  function Said(elements: seq<seq<Attr>>, row: Row): seq<Status> {
    if elements == [] then []
    else
      var value := ValueOf(elements[0], row.attribute);
      (if value.Some? then [StatusOf(value.value, row.correlation)] else []) + Said(elements[1..], row)
  }

  function StatusOf(value: string, correlation: bool): Status {
    if correlation then NotValidated(value) else Observed(value)
  }

  /** What the facts of one name say, in order. */
  function Statuses(facts: seq<Fact>, name: string): seq<Status> {
    if facts == [] then [] else (if facts[0].name == name then [facts[0].status] else []) + Statuses(facts[1..], name)
  }

  /** The value of an attribute is the first that decodes, whatever else is called the same. */
  lemma {:induction false} ValueOfIsFirst(attributes: seq<Attr>, local: string, value: string)
    ensures ValueOf(attributes, local) == Some(value) <==>
            exists i :: 0 <= i < |attributes| && attributes[i] == Attr(local, Some(value))
                        && forall j :: 0 <= j < i && attributes[j].local == local ==> attributes[j].value.None?
    decreases |attributes|
  {
    if attributes != [] {
      var rest := attributes[1..];
      ValueOfIsFirst(rest, local, value);
      if i :| 0 <= i < |rest| && rest[i] == Attr(local, Some(value))
              && forall j :: 0 <= j < i && rest[j].local == local ==> rest[j].value.None? {
        assert attributes[i + 1] == rest[i];
        if attributes[0].local == local ==> attributes[0].value.None? {
          assert forall j :: 0 < j < i + 1 ==> attributes[j] == rest[j - 1];
        }
      }
      if i :| 0 <= i < |attributes| && attributes[i] == Attr(local, Some(value))
              && forall j :: 0 <= j < i && attributes[j].local == local ==> attributes[j].value.None? {
        if i > 0 {
          assert rest[i - 1] == attributes[i];
          assert forall j :: 0 <= j < i - 1 ==> rest[j] == attributes[j + 1];
        }
      }
    }
  }

  lemma StatusesHead(facts: seq<Fact>, name: string)
    requires facts != []
    ensures Statuses(facts, name) == Statuses(facts[..1], name) + Statuses(facts[1..], name)
  {
    assert facts[..1][1..] == [];
  }

  lemma {:induction false} StatusesConcat(a: seq<Fact>, b: seq<Fact>, name: string)
    ensures Statuses(a + b, name) == Statuses(a, name) + Statuses(b, name)
    decreases |a|
  {
    if a == [] {
      assert a + b == b;
    } else {
      assert (a + b)[..1] == a[..1] && (a + b)[1..] == a[1..] + b;
      StatusesHead(a + b, name);
      StatusesHead(a, name);
      hide Statuses;
      StatusesConcat(a[1..], b, name);
    }
  }

  /** What facts on their way in will say under one name. */
  function Pushed(pending: seq<Pending>, name: string): seq<Status> {
    if pending == [] then []
    else
      (if pending[0].name == name then [StatusOf(pending[0].value, pending[0].correlation)] else [])
      + Pushed(pending[1..], name)
  }

  lemma PushedHead(pending: seq<Pending>, name: string)
    requires pending != []
    ensures Pushed(pending, name) == Pushed(pending[..1], name) + Pushed(pending[1..], name)
  {
    hide StatusOf;
    assert pending[..1][1..] == [];
  }

  lemma {:induction false} PushedConcat(a: seq<Pending>, b: seq<Pending>, name: string)
    ensures Pushed(a + b, name) == Pushed(a, name) + Pushed(b, name)
    decreases |a|
  {
    if a == [] {
      assert a + b == b;
    } else {
      assert (a + b)[..1] == a[..1] && (a + b)[1..] == a[1..] + b;
      PushedHead(a + b, name);
      PushedHead(a, name);
      hide Pushed;
      PushedConcat(a[1..], b, name);
    }
  }

  lemma StatusesOne(f: Fact, name: string)
    ensures Statuses([f], name) == if f.name == name then [f.status] else []
  {
    assert [f][1..] == [];
  }

  lemma {:induction false} PushingSays(facts: seq<Fact>, pending: seq<Pending>, name: string)
    requires PushAll(facts, pending).Ok? && AllSaml(pending)
    ensures Statuses(PushAll(facts, pending).value, name) == Statuses(facts, name) + Pushed(pending, name)
    decreases |pending|
  {
    if pending != [] {
      SamlNamesAreNotSensitive(pending[0].name);
      hide IsSensitiveName, ByteLength, Statuses;
      var p := pending[0];
      var f := Fact(p.name, StatusOf(p.value, p.correlation));
      assert Push(facts, p).value == facts + [f];
      StatusesConcat(facts, [f], name);
      StatusesOne(f, name);
      PushingSays(facts + [f], pending[1..], name);
    }
  }

  // ----- The facts of one tag, row by row -----

  lemma {:induction false} NoTarget(attributes: seq<Attr>, targets: seq<(string, string)>, name: string)
    requires forall j :: 0 <= j < |targets| ==> targets[j].1 != name
    ensures Pushed(FromAttributes(attributes, targets), name) == []
    decreases |targets|
  {
    hide ValueOf;
    if targets != [] {
      NoTarget(attributes, targets[1..], name);
      PushedConcat(FromAttribute(attributes, targets[0].0, targets[0].1), FromAttributes(attributes, targets[1..]),
                   name);
    }
  }

  /** One of the targets has the name. */
  lemma {:induction false} OneTarget(attributes: seq<Attr>, targets: seq<(string, string)>, k: nat, row: Row)
    requires k < |targets| && targets[k] == (row.attribute, row.name) && !row.correlation
    requires forall j :: 0 <= j < |targets| && j != k ==> targets[j].1 != row.name
    ensures Pushed(FromAttributes(attributes, targets), row.name) == Said([attributes], row)
    decreases |targets|
  {
    hide ValueOf;
    assert [attributes][1..] == [];
    PushedConcat(FromAttribute(attributes, targets[0].0, targets[0].1), FromAttributes(attributes, targets[1..]),
                 row.name);
    if k == 0 {
      NoTarget(attributes, targets[1..], row.name);
    } else {
      OneTarget(attributes, targets[1..], k - 1, row);
    }
  }

  /** No two rows have the same name: those of one length differ in their sixth letter. */
  lemma NamesApart(i: nat, j: nat)
    requires i < |TABLE| && j < |TABLE| && i != j
    ensures TABLE[i].name != TABLE[j].name
  {
    assert |TABLE[i].name| == |TABLE[j].name| ==> TABLE[i].name[5] != TABLE[j].name[5];
  }

  lemma ResponseSays(attributes: seq<Attr>, i: nat)
    requires i < |TABLE|
    ensures Pushed(TagFacts(Response, attributes), TABLE[i].name) == if i < 4 then Said([attributes], TABLE[i]) else []
  {
    hide FromAttributes, ValueOf, Said;
    var targets := [("ID", "saml.response.id"), ("Destination", "saml.response.destination"),
                    ("Version", "saml.response.version")];
    var correlation := Correlation(attributes, "InResponseTo", "saml.response.in_response_to");
    PushedConcat(FromAttributes(attributes, targets), correlation, TABLE[i].name);
    assert forall j :: 0 <= j < 3 ==> targets[j] == (TABLE[j].attribute, TABLE[j].name);
    forall j | 0 <= j < 4 && j != i ensures TABLE[j].name != TABLE[i].name {
      NamesApart(i, j);
    }
    CorrelationSays(attributes, TABLE[i].name);
    if i < 3 {
      OneTarget(attributes, targets, i, TABLE[i]);
    } else {
      NoTarget(attributes, targets, TABLE[i].name);
    }
  }

  lemma CorrelationSays(attributes: seq<Attr>, name: string)
    ensures Pushed(Correlation(attributes, "InResponseTo", "saml.response.in_response_to"), name)
            == if name == TABLE[3].name then Said([attributes], TABLE[3]) else []
  {
    hide ValueOf;
    assert [attributes][1..] == [];
  }

  /** The kinds with two rows, or one, and nothing else. */
  lemma RowsSay(attributes: seq<Attr>, targets: seq<(string, string)>, from: nat, i: nat)
    requires from + |targets| <= |TABLE| && i < |TABLE|
    requires forall j :: 0 <= j < |targets| ==>
               targets[j] == (TABLE[from + j].attribute, TABLE[from + j].name) && !TABLE[from + j].correlation
    ensures Pushed(FromAttributes(attributes, targets), TABLE[i].name)
            == if from <= i < from + |targets| then Said([attributes], TABLE[i]) else []
  {
    forall j | 0 <= j < |targets| && from + j != i ensures targets[j].1 != TABLE[i].name {
      NamesApart(i, from + j);
    }
    if from <= i < from + |targets| {
      assert targets[i - from] == (TABLE[i].attribute, TABLE[i].name);
      OneTarget(attributes, targets, i - from, TABLE[i]);
    } else {
      NoTarget(attributes, targets, TABLE[i].name);
    }
  }

  /** One inspected tag gives every row of its own local name what it says, and no other. */
  lemma TagSays(local: string, attributes: seq<Attr>, i: nat)
    requires i < |TABLE|
    ensures Pushed(TagFacts(Classify(local), attributes), TABLE[i].name)
            == if local == TABLE[i].local then Said([attributes], TABLE[i]) else []
  {
    hide FromAttributes, ValueOf, Said, Pushed;
    match Classify(local)
    case Response => ResponseSays(attributes, i);
    case Assertion =>
      RowsSay(attributes, [("ID", "saml.assertion.id"), ("IssueInstant", "saml.assertion.issue_instant")], 4, i);
    case Conditions =>
      RowsSay(attributes, [("NotBefore", "saml.conditions.not_before"),
                           ("NotOnOrAfter", "saml.conditions.not_on_or_after")], 6, i);
    case StatusCode => RowsSay(attributes, [("Value", "saml.status.code")], 8, i);
    case NameId => RowsSay(attributes, [("Format", "saml.name_id.format")], 9, i);
    case Attribute => RowsSay(attributes, [("Name", "saml.attribute.name")], 10, i);
    case _ => NothingSaid(TABLE[i].name);
  }

  lemma NothingSaid(name: string)
    ensures Pushed([], name) == []
  {
  }

  // ----- Event by event -----

  lemma ValueNameIsNoRow(inner: string, i: nat)
    requires i < |TABLE|
    ensures "saml.attribute.value[" + inner + "]" != TABLE[i].name
  {
    var prefix, name := "saml.attribute.value[", TABLE[i].name;
    var whole := prefix + inner + "]";
    assert whole[5] == prefix[5] && whole[6] == prefix[6] && whole[15] == prefix[15];
    assert |name| > 15 ==> name[5] != prefix[5] || name[6] != prefix[6] || name[15] != prefix[15];
  }

  /** No captured text goes under the name of a row. */
  lemma TextSaysNothing(kind: Kind, attributeName: Option<string>, text: string, i: nat)
    requires i < |TABLE|
    ensures Pushed(CapturedFact(kind, attributeName, text), TABLE[i].name) == []
  {
    ValueNameIsNoRow(if attributeName.Some? then attributeName.value else "saml.attribute.value", i);
    var name := TABLE[i].name;
    assert |name| == 19 ==> name[5] != "saml.status.message"[5];
  }

  lemma CaptureSaysNothing(pr: Progress, kind: Kind, attributeName: Option<string>, text: string, i: nat)
    requires i < |TABLE| && EndCapture(pr, kind, attributeName, text).Ok?
    ensures Statuses(EndCapture(pr, kind, attributeName, text).value.facts, TABLE[i].name)
            == Statuses(pr.facts, TABLE[i].name)
  {
    TextFactsAreSaml(kind, attributeName, text);
    TextSaysNothing(kind, attributeName, text, i);
    hide CapturedFact, Statuses, Pushed;
    PushingSays(pr.facts, CapturedFact(kind, attributeName, text), TABLE[i].name);
  }

  lemma OpenSays(pr: Progress, local: string, attributes: seq<Attr>, depth: nat, under: bool, i: nat)
    requires i < |TABLE| && Open(pr, TagOf(local, attributes), depth, under).Ok?
    ensures var row, kind := TABLE[i], Classify(local);
            Statuses(Open(pr, TagOf(local, attributes), depth, under).value.facts, row.name)
            == Statuses(pr.facts, row.name)
               + if local == row.local && Inspects(pr, kind, depth) then Said([attributes], row) else []
  {
    TagSays(local, attributes, i);
    TagFactsAreSaml(Classify(local), attributes);
    hide TagFacts, Statuses, Pushed, Said, AllSaml;
    var kind := Classify(local);
    if Inspects(pr, kind, depth) {
      PushingSays(pr.facts, TagFacts(kind, attributes), TABLE[i].name);
    }
  }

  /** `seen` is what the walker remembers of elements of that name. */
  ghost predicate Remembers(pr: Progress, local: string, seen: bool) {
    && (local == "StatusCode" ==> pr.sawStatusCode == seen)
    && (local == "NameID" ==> pr.sawNameId == seen)
  }

  lemma KindOfRow(pr: Progress, local: string, depth: nat, seen: bool, i: nat)
    requires i < |TABLE| && Remembers(pr, TABLE[i].local, seen)
    ensures local == TABLE[i].local ==>
              (Inspects(pr, Classify(local), depth) <==> IsInspected(TABLE[i].local, depth, seen))
  {
  }

  /** A start or empty tag. */
  lemma StartSays(w: Walker, local: string, attributes: seq<Attr>, empty: bool, seen: bool, i: nat)
    requires i < |TABLE| && OnTag(w, TagOf(local, attributes), empty).Ok?
    requires Remembers(w.progress, TABLE[i].local, seen)
    ensures var next, row := OnTag(w, TagOf(local, attributes), empty).value, TABLE[i];
            && Statuses(next.progress.facts, row.name)
               == Statuses(w.progress.facts, row.name)
                  + (if local == row.local && IsInspected(row.local, |w.stack|, seen) then Said([attributes], row)
                     else [])
            && Remembers(next.progress, row.local, seen || local == row.local)
            && |next.stack| == if empty then |w.stack| else |w.stack| + 1
  {
    hide TagFacts, Statuses, Said, EndCapture, IsInspected, Inspects;
    var tag, under := TagOf(local, attributes), Assertion in w.stack;
    OpenSays(w.progress, local, attributes, |w.stack|, under, i);
    KindOfRow(w.progress, local, |w.stack|, seen, i);
    var entered := Open(w.progress, tag, |w.stack|, under).value;
    var name := if tag.kind.Attribute? then tag.name else w.attributeName;
    var begun := BeginCapture(entered, tag.kind);
    OpenRemembers(w.progress, local, attributes, |w.stack|, under, seen, i);
    if EndCapture(begun, tag.kind, name, "").Ok? {
      CaptureSaysNothing(begun, tag.kind, name, "", i);
      CaptureRemembers(begun, tag.kind, name, "", i);
    }
  }

  lemma OpenRemembers(pr: Progress, local: string, attributes: seq<Attr>, depth: nat, under: bool, seen: bool, i: nat)
    requires i < |TABLE| && Open(pr, TagOf(local, attributes), depth, under).Ok? && Remembers(pr, TABLE[i].local, seen)
    ensures Remembers(Open(pr, TagOf(local, attributes), depth, under).value, TABLE[i].local,
                      seen || local == TABLE[i].local)
  {
    hide TagFacts, PushAll, Inspects;
  }

  lemma CaptureRemembers(pr: Progress, kind: Kind, name: Option<string>, text: string, i: nat)
    requires EndCapture(pr, kind, name, text).Ok?
    ensures EndCapture(pr, kind, name, text).value.sawStatusCode == pr.sawStatusCode
    ensures EndCapture(pr, kind, name, text).value.sawNameId == pr.sawNameId
  {
    hide PushAll;
  }

  lemma EndSays(w: Walker, kind: Kind, seen: bool, i: nat)
    requires i < |TABLE| && OnEnd(w, kind).Ok? && Remembers(w.progress, TABLE[i].local, seen)
    ensures var next := OnEnd(w, kind).value;
            && Statuses(next.progress.facts, TABLE[i].name) == Statuses(w.progress.facts, TABLE[i].name)
            && Remembers(next.progress, TABLE[i].local, seen)
            && |next.stack| == if |w.stack| == 0 then 0 else |w.stack| - 1
  {
    hide Statuses, EndCapture;
    if w.capture.Some? {
      var c := w.capture.value;
      if EndCapture(w.progress, c.kind, c.attributeName, c.buffer).Ok? {
        CaptureSaysNothing(w.progress, c.kind, c.attributeName, c.buffer, i);
        CaptureRemembers(w.progress, c.kind, c.attributeName, c.buffer, i);
      }
    }
  }

  lemma EventSays(w: Walker, e: XmlEvent, seen: bool, i: nat)
    requires i < |TABLE| && OnEvent(w, Classified(e)).Ok? && Remembers(w.progress, TABLE[i].local, seen)
    ensures var next, row := OnEvent(w, Classified(e)).value, TABLE[i];
            && Statuses(next.progress.facts, row.name)
               == Statuses(w.progress.facts, row.name)
                  + (if Opens(e, row.local) && IsInspected(row.local, |w.stack|, seen) then Said([e.attributes], row)
                     else [])
            && Remembers(next.progress, row.local, seen || Opens(e, row.local))
            && |next.stack| == DepthAfter(e, |w.stack|)
  {
    hide OnTag, OnEnd, TagOf, Classify, Statuses, IsInspected, Remembers, Said;
    match e
    case StartTag(local, attributes) => StartSays(w, local, attributes, false, seen, i);
    case EmptyTag(local, attributes) => StartSays(w, local, attributes, true, seen, i);
    case EndTag(local) => EndSays(w, Classify(local), seen, i);
    case _ =>
  }

  lemma {:induction false} RunSays(w: Walker, events: seq<XmlEvent>, seen: bool, i: nat)
    requires i < |TABLE| && Run(w, ClassifiedAll(events)).Ok? && Remembers(w.progress, TABLE[i].local, seen)
    ensures Statuses(Run(w, ClassifiedAll(events)).value.progress.facts, TABLE[i].name)
            == Statuses(w.progress.facts, TABLE[i].name)
               + Said(Inspected(events, TABLE[i].local, |w.stack|, seen), TABLE[i])
    decreases |events|
  {
    hide OnEvent, Classified, Statuses, IsInspected, Remembers, Said;
    if events == [] {
      NothingIsSaid(TABLE[i]);
    } else {
      var e, rest, row := events[0], events[1..], TABLE[i];
      assert ClassifiedAll(events)[1..] == ClassifiedAll(rest);
      var next := OnEvent(w, Classified(e)).value;
      EventSays(w, e, seen, i);
      RunSays(next, rest, seen || Opens(e, row.local), i);
      NothingIsSaid(row);
      SaidConcat(if Opens(e, row.local) && IsInspected(row.local, |w.stack|, seen) then [e.attributes] else [],
                 Inspected(rest, row.local, |next.stack|, seen || Opens(e, row.local)), row);
    }
  }

  lemma NothingIsSaid(row: Row)
    ensures Said([], row) == []
  {
  }

  lemma {:induction false} SaidConcat(a: seq<seq<Attr>>, b: seq<seq<Attr>>, row: Row)
    ensures Said(a + b, row) == Said(a, row) + Said(b, row)
    decreases |a|
  {
    hide ValueOf;
    if a == [] {
      assert a + b == b;
    } else {
      assert (a + b)[1..] == a[1..] + b;
      SaidConcat(a[1..], b, row);
    }
  }

  lemma ConclusionSaysNothing(pr: Progress, i: nat)
    requires i < |TABLE|
    ensures Statuses(Conclude(pr), TABLE[i].name) == Statuses(pr.facts, TABLE[i].name)
  {
    hide BoolText;
    var name := TABLE[i].name;
    var a := Fact("saml.response.signature.present", Observed(BoolText(pr.responseSigned)));
    var b := Fact("saml.assertion.signature.present", Observed(BoolText(pr.assertionSigned)));
    var c := Fact("saml.signature.verification", NotValidated("not_attempted"));
    assert |name| == 31 ==> name[5] != a.name[5];
    hide Statuses, Conclude;
    ConclusionIs(pr, a, b, c);
    StatusesConcat(pr.facts, [a, b, c], name);
    ThreeOthers(a, b, c, name);
  }

  lemma ThreeOthers(a: Fact, b: Fact, c: Fact, name: string)
    requires a.name != name && b.name != name && c.name != name
    ensures Statuses([a, b, c], name) == []
  {
    hide Statuses;
    StatusesOne(a, name);
    StatusesOne(b, name);
    StatusesOne(c, name);
    StatusesConcat([a], [b], name);
    StatusesConcat([a] + [b], [c], name);
    assert [a] + [b] + [c] == [a, b, c];
  }

  lemma ConclusionIs(pr: Progress, a: Fact, b: Fact, c: Fact)
    requires a == Fact("saml.response.signature.present", Observed(BoolText(pr.responseSigned)))
    requires b == Fact("saml.assertion.signature.present", Observed(BoolText(pr.assertionSigned)))
    requires c == Fact("saml.signature.verification", NotValidated("not_attempted"))
    ensures Conclude(pr) == pr.facts + [a, b, c]
  {
  }

  /** For every list of events that is accepted, and every row: the facts of its name say, in order,
      exactly what the first decoding values of that attribute are in the inspected elements of that
      local name; `InResponseTo` alone is not validated. */
  lemma AttributesAreFiled(events: seq<XmlEvent>, row: Row)
    requires row in TABLE && Parse(ClassifiedAll(events)).Ok?
    ensures Statuses(Parse(ClassifiedAll(events)).value, row.name)
            == Said(Inspected(events, row.local, 0, false), row)
  {
    var i :| 0 <= i < |TABLE| && TABLE[i] == row;
    hide Statuses, Run, ClassifiedAll, Said;
    RunSays(INITIAL, events, false, i);
    ConclusionSaysNothing(Run(INITIAL, ClassifiedAll(events)).value.progress, i);
    NoStatuses(row.name);
    var said := Said(Inspected(events, row.local, 0, false), row);
    assert [] + said == said;
  }

  lemma NoStatuses(name: string)
    ensures Statuses([], name) == []
  {
  }
}
