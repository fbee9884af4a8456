/** The single-pass event walker `parse_saml_xml`, and the structural walk it amounts to. */
module SamlWalker {
  import opened Results
  import opened IamFacts
  import opened Utf8
  import opened SamlMarkup

  /** The one live text capture: whose text, opened at which stack depth. */
  datatype Capture = Capture(kind: Kind, depth: nat, buffer: string, attributeName: Option<string>)

  datatype Walker = Walker(progress: Progress, attributeName: Option<string>, stack: seq<Kind>,
                           capture: Option<Capture>)

  const INITIAL := Walker(NO_PROGRESS, None, [], None)

  /** An opened element may begin a capture; an empty one ends it at once. */
  function StartText(w: Walker, kind: Kind, empty: bool): Result<Walker, string> {
    if !Captures(w.progress, kind) then Ok(w)
    else
      var begun := BeginCapture(w.progress, kind);
      if empty then
        var closed :- EndCapture(begun, kind, w.attributeName, "");
        Ok(w.(progress := closed, capture := None))
      else Ok(w.(progress := begun, capture := Some(Capture(kind, |w.stack|, "", w.attributeName))))
  }

  function PushElement(w: Walker, kind: Kind): Result<Walker, string> {
    if |w.stack| + 1 > SAML_MAX_XML_DEPTH then Err("excessive_nesting")
    else Ok(w.(stack := w.stack + [kind]))
  }

  function OnTag(w: Walker, tag: Tag, empty: bool): Result<Walker, string> {
    var kind := tag.kind;
    var entered :- Open(w.progress, tag, |w.stack|, Assertion in w.stack);
    var name := if kind.Attribute? then tag.name else w.attributeName;
    var begun :- StartText(w.(progress := entered, attributeName := name), kind, empty);
    if empty then Ok(begun) else PushElement(begun, kind)
  }

  /** A text piece joins the live buffer. */
  function Extend(buffer: string, decoded: Option<string>): Result<string, string> {
    if decoded.None? then Err("malformed_xml")
    else if ByteLength(buffer) + ByteLength(decoded.value) > SAML_MAX_TEXT_BYTES then Err("oversized_text_value")
    else Ok(buffer + decoded.value)
  }

  function OnText(w: Walker, decoded: Option<string>): Result<Walker, string> {
    if w.capture.None? then Ok(w)
    else
      var buffer :- Extend(w.capture.value.buffer, decoded);
      Ok(w.(capture := Some(w.capture.value.(buffer := buffer))))
  }

  function OnEnd(w: Walker, kind: Kind): Result<Walker, string> {
    var w1 :- if w.capture.Some? && w.capture.value.kind == kind
                 && w.capture.value.depth == (if w.stack == [] then 0 else |w.stack| - 1) then
                var c := w.capture.value;
                var closed :- EndCapture(w.progress, c.kind, c.attributeName, c.buffer);
                Ok(w.(progress := closed, capture := None))
              else Ok(w);
    Ok(w1.(attributeName := if kind.Attribute? then None else w1.attributeName,
           stack := if w1.stack == [] then [] else w1.stack[..|w1.stack| - 1]))
  }

  function OnEvent(w: Walker, e: Event): Result<Walker, string> {
    match e
    case Start(tag) => OnTag(w, tag, false)
    case Empty(tag) => OnTag(w, tag, true)
    case Text(decoded) => OnText(w, decoded)
    case End(kind) => OnEnd(w, kind)
    case Ignored => Ok(w)
    case Unreadable => Err("malformed_xml")
  }

  function Run(w: Walker, events: seq<Event>): Result<Walker, string>
    decreases |events|
  {
    if events == [] then Ok(w)
    else
      var next :- OnEvent(w, events[0]);
      Run(next, events[1..])
  }

  function Parse(events: seq<Event>): Result<seq<Fact>, string> {
    var w :- Run(INITIAL, events);
    Ok(Conclude(w.progress))
  }

  // ----- The structural walk -----

  /** The walk over a tree needs no stack: only the state that flows in document order. */
  datatype Scan = Scan(progress: Progress, attributeName: Option<string>, text: Option<string>)

  /** The start tag of an element: what it adds, and whether it begins a capture. */
  function Enter(s: Scan, tag: Tag, depth: nat, underAssertion: bool): Result<(Scan, bool), string> {
    var entered :- Open(s.progress, tag, depth, underAssertion);
    Ok(Entered(s, entered, tag))
  }

  function Entered(s: Scan, entered: Progress, tag: Tag): (Scan, bool) {
    var name := if tag.kind.Attribute? then tag.name else s.attributeName;
    if Captures(entered, tag.kind) then (Scan(BeginCapture(entered, tag.kind), name, Some("")), true)
    else (Scan(entered, name, s.text), false)
  }

  /** The end of an element that began a capture under `name`, if its text is still live. */
  function FinishCapture(s: Scan, kind: Kind, name: Option<string>): Result<Scan, string> {
    if s.text.None? then Ok(s)
    else
      var closed :- EndCapture(s.progress, kind, name, s.text.value);
      Ok(Scan(closed, s.attributeName, None))
  }

  /** Walk sibling nodes at `depth`. An element that begins a capture drops the one that was
      live, and none is live after it. */
  function Walk(m: Markup, depth: nat, underAssertion: bool, s: Scan): (r: Result<Scan, string>)
    ensures r.Ok? && r.value.text.Some? ==> s.text.Some?
    decreases m, 1
  {
    match m
    case Nothing => Ok(s)
    case Skipped(after) => Walk(after, depth, underAssertion, s)
    case Chars(decoded, after) =>
      if s.text.None? then Walk(after, depth, underAssertion, s)
      else
        var text :- Extend(s.text.value, decoded);
        Walk(after, depth, underAssertion, s.(text := Some(text)))
    case EmptyElement(tag, after) =>
      WalkOn(LeaveEmpty(Enter(s, tag, depth, underAssertion), tag.kind), after, depth, underAssertion)
    case Element(tag, inside, after) =>
      WalkEntered(Enter(s, tag, depth, underAssertion), tag, inside, after, depth, underAssertion)
  }

  function WalkOn(left: Result<Scan, string>, after: Markup, depth: nat, underAssertion: bool):
    (r: Result<Scan, string>)
    ensures r.Ok? && r.value.text.Some? ==> left.Ok? && left.value.text.Some?
    decreases after, 2
  {
    if left.Err? then left else Walk(after, depth, underAssertion, left.value)
  }

  function WalkEntered(entered: Result<(Scan, bool), string>, tag: Tag, inside: Markup, after: Markup, depth: nat,
                       underAssertion: bool):
    (r: Result<Scan, string>)
    ensures r.Ok? && r.value.text.Some? ==> entered.Ok? && !entered.value.1 && entered.value.0.text.Some?
    decreases Element(tag, inside, after), 0
  {
    var (s, captures) :- entered;
    if depth + 1 > SAML_MAX_XML_DEPTH then Err("excessive_nesting")
    else WalkLeft(Walk(inside, depth + 1, underAssertion || tag.kind.Assertion?, s), tag.kind, captures,
                  s.attributeName,
                  after, depth, underAssertion)
  }

  /** The end tag of an element whose inside gave `inner`, and what follows. */
  function WalkLeft(inner: Result<Scan, string>, kind: Kind, captures: bool, name: Option<string>,
                    after: Markup, depth: nat, underAssertion: bool): (r: Result<Scan, string>)
    ensures r.Ok? && r.value.text.Some? ==> inner.Ok? && !captures && inner.value.text.Some?
    decreases after, 3
  {
    if inner.Err? then inner else WalkOn(Leave(inner.value, kind, captures, name), after, depth, underAssertion)
  }

  function LeaveEmpty(entered: Result<(Scan, bool), string>, kind: Kind): Result<Scan, string> {
    var (s, captures) :- entered;
    if captures then FinishCapture(s, kind, s.attributeName) else Ok(s)
  }

  /** The end tag of an element. */
  function Leave(inner: Scan, kind: Kind, captures: bool, name: Option<string>): Result<Scan, string> {
    var left :- if captures then FinishCapture(inner, kind, name) else Ok(inner);
    Ok(left.(attributeName := if kind.Attribute? then None else left.attributeName))
  }

  // ----- The walker is the structural walk -----

  /** The live capture belongs to an element that is still open. */
  ghost predicate OwnerOpen(w: Walker) {
    w.capture.Some? ==> w.capture.value.depth < |w.stack| && w.stack[w.capture.value.depth] == w.capture.value.kind
  }

  function ScanOf(w: Walker): Scan {
    Scan(w.progress, w.attributeName, if w.capture.Some? then Some(w.capture.value.buffer) else None)
  }

  /** `w` after a tree has been walked at its stack. */
  function Rejoin(w: Walker, s: Scan): Walker
    requires s.text.Some? ==> w.capture.Some?
  {
    Walker(s.progress, s.attributeName, w.stack,
           if s.text.None? then None else Some(w.capture.value.(buffer := s.text.value)))
  }

  /** Reading `rest` once a tree walked from `w` has given `r`. */
  function Resume(w: Walker, r: Result<Scan, string>, rest: seq<Event>): Result<Walker, string>
    requires r.Ok? && r.value.text.Some? ==> w.capture.Some?
  {
    if r.Err? then Err(r.error) else Run(Rejoin(w, r.value), rest)
  }

  function Walked(w: Walker, m: Markup): (r: Result<Scan, string>)
    ensures r.Ok? && r.value.text.Some? ==> w.capture.Some?
  {
    Walk(m, |w.stack|, Assertion in w.stack, ScanOf(w))
  }

  function RunOn(r: Result<Walker, string>, rest: seq<Event>): Result<Walker, string> {
    if r.Err? then r else Run(r.value, rest)
  }

  lemma RunCons(w: Walker, e: Event, rest: seq<Event>)
    ensures Run(w, [e] + rest) == RunOn(OnEvent(w, e), rest)
  {
    assert ([e] + rest)[1..] == rest;
  }

  /** The stack is the path of open elements, and a capture ends at the end of its own
      element: reading the events of any balanced markup, whatever nests in whatever, is
      walking the tree. */
  lemma {:induction false} WalkerWalksTree(w: Walker, m: Markup, rest: seq<Event>)
    requires OwnerOpen(w)
    ensures Run(w, Events(m) + rest) == Resume(w, Walked(w, m), rest)
    decreases m, 1
  {
    match m
    case Nothing =>
      assert Events(m) + rest == rest;
    case Skipped(after) =>
      assert Events(m) + rest == [Ignored] + (Events(after) + rest);
      RunCons(w, Ignored, Events(after) + rest);
      WalkerWalksTree(w, after, rest);
    case Chars(decoded, after) =>
      WalkerReadsText(w, decoded, after, rest);
    case EmptyElement(tag, after) =>
      assert Events(m) + rest == [Empty(tag)] + (Events(after) + rest);
      RunCons(w, Empty(tag), Events(after) + rest);
      EmptyTagIsWalked(w, tag);
      WalkerGoesOn(w, LeaveEmpty(Enter(ScanOf(w), tag, |w.stack|, Assertion in w.stack), tag.kind), after, rest);
    case Element(tag, inside, after) =>
      WalkerWalksElement(w, tag, inside, after, rest);
  }

  lemma {:induction false} WalkerReadsText(w: Walker, decoded: Option<string>, after: Markup, rest: seq<Event>)
    requires OwnerOpen(w)
    ensures Run(w, Events(Chars(decoded, after)) + rest) == Resume(w, Walked(w, Chars(decoded, after)), rest)
    decreases Chars(decoded, after), 0
  {
    assert Events(Chars(decoded, after)) + rest == [Text(decoded)] + (Events(after) + rest);
    RunCons(w, Text(decoded), Events(after) + rest);
    if OnText(w, decoded).Ok? {
      WalkerWalksTree(OnText(w, decoded).value, after, rest);
    }
  }

  lemma EmptyTagIsWalked(w: Walker, tag: Tag)
    requires OwnerOpen(w)
    ensures var left := LeaveEmpty(Enter(ScanOf(w), tag, |w.stack|, Assertion in w.stack), tag.kind);
            (left.Ok? && left.value.text.Some? ==> w.capture.Some?) && OnEvent(w, Empty(tag)) == Rejoined(w, left)
  {
  }

  /** The walker's start tag is the walk's. */
  lemma StartTagEnters(w: Walker, tag: Tag)
    requires OwnerOpen(w)
    ensures var entered := Enter(ScanOf(w), tag, |w.stack|, Assertion in w.stack);
            var r := OnTag(w, tag, false);
            if entered.Err? then r == Err(entered.error)
            else if |w.stack| + 1 > SAML_MAX_XML_DEPTH then r == Err("excessive_nesting")
            else
              && r.Ok? && OwnerOpen(r.value) && r.value.stack == w.stack + [tag.kind]
              && ScanOf(r.value) == entered.value.0
              && r.value.capture ==
                 if entered.value.1 then Some(Capture(tag.kind, |w.stack|, "", entered.value.0.attributeName))
                 else w.capture
  {
  }

  /** The walker's end tag is the walk's: it closes a capture that its own element began. */
  lemma EndTagLeaves(w: Walker, tag: Tag, captures: bool, name: Option<string>, w1: Walker, inner: Scan)
    requires OwnerOpen(w) && w1.stack == w.stack + [tag.kind]
    requires w1.capture == if captures then Some(Capture(tag.kind, |w.stack|, "", name)) else w.capture
    requires inner.text.Some? ==> w1.capture.Some?
    ensures var left := Leave(inner, tag.kind, captures, name);
            var r := OnEvent(Rejoin(w1, inner), End(tag.kind));
            (left.Ok? && left.value.text.Some? ==> w.capture.Some?) && r == Rejoined(w, left)
  {
    assert w1.stack[..|w1.stack| - 1] == w.stack;
  }

  function Rejoined(w: Walker, left: Result<Scan, string>): Result<Walker, string>
    requires left.Ok? && left.value.text.Some? ==> w.capture.Some?
  {
    if left.Err? then Err(left.error) else Ok(Rejoin(w, left.value))
  }

  lemma {:induction false} WalkerGoesOn(w: Walker, left: Result<Scan, string>, after: Markup, rest: seq<Event>)
    requires OwnerOpen(w) && (left.Ok? && left.value.text.Some? ==> w.capture.Some?)
    ensures RunOn(Rejoined(w, left), Events(after) + rest)
            == Resume(w, WalkOn(left, after, |w.stack|, Assertion in w.stack), rest)
    decreases after, 2
  {
    if left.Ok? {
      var w' := Rejoin(w, left.value);
      assert ScanOf(w') == left.value;
      assert Walked(w', after) == WalkOn(left, after, |w.stack|, Assertion in w.stack);
      WalkerWalksTree(w', after, rest);
    }
  }

  lemma {:induction false} WalkerLeavesElement(w: Walker, tag: Tag, captures: bool, name: Option<string>, w1: Walker,
                                               inner: Scan, after: Markup, rest: seq<Event>)
    requires OwnerOpen(w) && w1.stack == w.stack + [tag.kind]
    requires w1.capture == if captures then Some(Capture(tag.kind, |w.stack|, "", name)) else w.capture
    requires inner.text.Some? ==> w1.capture.Some?
    ensures var left := Leave(inner, tag.kind, captures, name);
            && (left.Ok? && left.value.text.Some? ==> w.capture.Some?)
            && Run(Rejoin(w1, inner), [End(tag.kind)] + (Events(after) + rest))
               == Resume(w, WalkOn(left, after, |w.stack|, Assertion in w.stack), rest)
    decreases after, 3
  {
    EndTagLeaves(w, tag, captures, name, w1, inner);
    RunCons(Rejoin(w1, inner), End(tag.kind), Events(after) + rest);
    WalkerGoesOn(w, Leave(inner, tag.kind, captures, name), after, rest);
  }

  lemma ElementEvents(tag: Tag, inside: Markup, after: Markup, rest: seq<Event>)
    ensures Events(Element(tag, inside, after)) + rest
            == [Start(tag)] + (Events(inside) + ([End(tag.kind)] + (Events(after) + rest)))
  {
  }

  lemma {:induction false} WalkerWalksInside(w: Walker, tag: Tag, entered: Scan, captures: bool, w1: Walker,
                                             inside: Markup, after: Markup, rest: seq<Event>)
    requires |w.stack| + 1 <= SAML_MAX_XML_DEPTH
    requires OwnerOpen(w) && OwnerOpen(w1) && w1.stack == w.stack + [tag.kind] && ScanOf(w1) == entered
    requires w1.capture == if captures then Some(Capture(tag.kind, |w.stack|, "", entered.attributeName)) else w.capture
    ensures Run(w1, Events(inside) + ([End(tag.kind)] + (Events(after) + rest)))
            == Resume(w, WalkEntered(Ok((entered, captures)), tag, inside, after, |w.stack|, Assertion in w.stack),
                      rest)
    decreases Element(tag, inside, after), 0, 0
  {
    WalkerWalksTree(w1, inside, [End(tag.kind)] + (Events(after) + rest));
    var inner := Walk(inside, |w.stack| + 1, Assertion in w.stack || tag.kind.Assertion?, entered);
    assert Walked(w1, inside) == inner;
    if inner.Ok? {
      WalkerLeavesElement(w, tag, captures, entered.attributeName, w1, inner.value, after, rest);
    }
  }

  lemma {:induction false} WalkerWalksElement(w: Walker, tag: Tag, inside: Markup, after: Markup, rest: seq<Event>)
    requires OwnerOpen(w)
    ensures Run(w, Events(Element(tag, inside, after)) + rest)
            == Resume(w, Walked(w, Element(tag, inside, after)), rest)
    decreases Element(tag, inside, after), 0, 1
  {
    var rest1 := [End(tag.kind)] + (Events(after) + rest);
    var entered := Enter(ScanOf(w), tag, |w.stack|, Assertion in w.stack);
    assert Walked(w, Element(tag, inside, after))
           == WalkEntered(entered, tag, inside, after, |w.stack|, Assertion in w.stack);
    ElementEvents(tag, inside, after, rest);
    RunCons(w, Start(tag), Events(inside) + rest1);
    StartTagEnters(w, tag);
    if OnTag(w, tag, false).Ok? {
      assert entered == Ok((entered.value.0, entered.value.1));
      WalkerWalksInside(w, tag, entered.value.0, entered.value.1, OnTag(w, tag, false).value, inside, after, rest);
    }
  }

  const START_SCAN := Scan(NO_PROGRESS, None, None)

  /** The facts of a balanced document are those of the structural walk over its tree. */
  lemma ParseWalksTree(m: Markup)
    ensures var r := Walk(m, 0, false, START_SCAN);
            Parse(Events(m)) == if r.Err? then Err(r.error) else Ok(Conclude(r.value.progress))
  {
    assert Events(m) + [] == Events(m);
    assert ScanOf(INITIAL) == START_SCAN;
    WalkerWalksTree(INITIAL, m, []);
  }

  // ----- Signatures and depth -----

  /** Is there a Signature with an Assertion above it (`inAssertion`), or with none? */
  predicate HasSignature(m: Markup, underAssertion: bool, inAssertion: bool) {
    match m
    case Nothing => false
    case Skipped(after) => HasSignature(after, underAssertion, inAssertion)
    case Chars(_, after) => HasSignature(after, underAssertion, inAssertion)
    case EmptyElement(tag, after) =>
      (tag.kind.Signature? && underAssertion == inAssertion) || HasSignature(after, underAssertion, inAssertion)
    case Element(tag, inside, after) =>
      || (tag.kind.Signature? && underAssertion == inAssertion)
      || HasSignature(inside, underAssertion || tag.kind.Assertion?, inAssertion)
      || HasSignature(after, underAssertion, inAssertion)
  }

  /** How deep elements nest. */
  function Height(m: Markup): nat {
    match m
    case Nothing => 0
    case Skipped(after) => Height(after)
    case Chars(_, after) => Height(after)
    case EmptyElement(_, after) => Height(after)
    case Element(_, inside, after) =>
      if Height(inside) + 1 > Height(after) then Height(inside) + 1 else Height(after)
  }

  /** A walk that succeeds adds to the signature flags what the tree has, and stayed in depth. */
  ghost predicate Found(before: Progress, r: Result<Scan, string>, response: bool, assertion: bool, height: nat,
                        depth: nat) {
    r.Ok? ==>
      && r.value.progress.responseSigned == (before.responseSigned || response)
      && r.value.progress.assertionSigned == (before.assertionSigned || assertion)
      && (height > 0 ==> depth + height <= SAML_MAX_XML_DEPTH)
  }

  lemma {:induction false} WalkFinds(m: Markup, depth: nat, underAssertion: bool, s: Scan)
    ensures Found(s.progress, Walk(m, depth, underAssertion, s), HasSignature(m, underAssertion, false),
                  HasSignature(m, underAssertion, true), Height(m), depth)
    decreases m, 1
  {
    hide PushAll, Inspects;
    match m
    case Nothing =>
    case Skipped(after) => WalkFinds(after, depth, underAssertion, s);
    case Chars(decoded, after) =>
      if s.text.None? {
        WalkFinds(after, depth, underAssertion, s);
      } else if Extend(s.text.value, decoded).Ok? {
        WalkFinds(after, depth, underAssertion, s.(text := Some(Extend(s.text.value, decoded).value)));
      }
    case EmptyElement(tag, after) =>
      var left := LeaveEmpty(Enter(s, tag, depth, underAssertion), tag.kind);
      if left.Ok? {
        WalkFinds(after, depth, underAssertion, left.value);
      }
    case Element(tag, inside, after) =>
      ElementFinds(s.progress, Enter(s, tag, depth, underAssertion), tag, inside, after, depth, underAssertion);
  }

  lemma {:induction false} ElementFinds(before: Progress, entered: Result<(Scan, bool), string>, tag: Tag,
                                        inside: Markup, after: Markup,
                                        depth: nat, underAssertion: bool)
    requires entered.Ok? ==>
               var entry := entered.value.0.progress;
               && entry.responseSigned == (before.responseSigned || (tag.kind.Signature? && !underAssertion))
               && entry.assertionSigned == (before.assertionSigned || (tag.kind.Signature? && underAssertion))
    ensures var m := Element(tag, inside, after);
            Found(before, WalkEntered(entered, tag, inside, after, depth, underAssertion),
                  HasSignature(m, underAssertion, false),
                  HasSignature(m, underAssertion, true), Height(m), depth)
    decreases Element(tag, inside, after), 0
  {
    if entered.Ok? && depth + 1 <= SAML_MAX_XML_DEPTH {
      var s, under := entered.value.0, underAssertion || tag.kind.Assertion?;
      WalkFinds(inside, depth + 1, under, s);
      LeftFinds(Walk(inside, depth + 1, under, s), tag.kind, entered.value.1, s.attributeName, after, depth,
                underAssertion);
    }
  }

  lemma LeaveKeepsSignatures(inner: Scan, kind: Kind, captures: bool, name: Option<string>)
    ensures var left := Leave(inner, kind, captures, name);
            left.Ok? ==> left.value.progress.responseSigned == inner.progress.responseSigned
                         && left.value.progress.assertionSigned == inner.progress.assertionSigned
  {
  }

  lemma {:induction false} LeftFinds(inner: Result<Scan, string>, kind: Kind, captures: bool, name: Option<string>,
                                     after: Markup, depth: nat, underAssertion: bool)
    ensures inner.Ok? ==>
              Found(inner.value.progress, WalkLeft(inner, kind, captures, name, after, depth, underAssertion),
                    HasSignature(after, underAssertion, false), HasSignature(after, underAssertion, true),
                    Height(after), depth)
    decreases after, 3
  {
    if inner.Ok? {
      LeaveKeepsSignatures(inner.value, kind, captures, name);
      OnFinds(inner.value.progress, Leave(inner.value, kind, captures, name), after, depth, underAssertion);
    }
  }

  lemma {:induction false} OnFinds(before: Progress, left: Result<Scan, string>, after: Markup, depth: nat,
                                   underAssertion: bool)
    requires left.Ok? ==> left.value.progress.responseSigned == before.responseSigned
                          && left.value.progress.assertionSigned == before.assertionSigned
    ensures Found(before, WalkOn(left, after, depth, underAssertion),
                  HasSignature(after, underAssertion, false), HasSignature(after, underAssertion, true),
                    Height(after), depth)
    decreases after, 2
  {
    if left.Ok? {
      WalkFinds(after, depth, underAssertion, left.value);
    }
  }

  /** The two signature facts say whether a Signature stands outside, and inside, every
      Assertion; and a document nested too deep yields no facts at all. */
  lemma SignaturesAreScoped(m: Markup)
    requires Parse(Events(m)).Ok?
    ensures var facts := Parse(Events(m)).value;
            && |facts| >= 3
            && facts[|facts| - 3] == Fact("saml.response.signature.present",
                                          Observed(BoolText(HasSignature(m, false, false))))
            && facts[|facts| - 2] == Fact("saml.assertion.signature.present",
                                          Observed(BoolText(HasSignature(m, false, true))))
            && facts[|facts| - 1] == Fact("saml.signature.verification", NotValidated("not_attempted"))
    ensures Height(m) <= SAML_MAX_XML_DEPTH
  {
    ParseWalksTree(m);
    WalkFinds(m, 0, false, START_SCAN);
  }

  // ----- Input that ends early -----

  lemma {:induction false} RunSplits(w: Walker, events: seq<Event>, more: seq<Event>)
    ensures Run(w, events + more) == RunOn(Run(w, events), more)
    decreases |events|
  {
    hide OnEvent;
    if events == [] {
      assert events + more == more;
    } else {
      assert (events + more)[1..] == events[1..] + more;
      if OnEvent(w, events[0]).Ok? {
        RunSplits(OnEvent(w, events[0]).value, events[1..], more);
      }
    }
  }

  lemma {:induction false} PushAllGrows(facts: seq<Fact>, pending: seq<Pending>)
    requires PushAll(facts, pending).Ok?
    ensures facts <= PushAll(facts, pending).value
    decreases |pending|
  {
    if pending != [] {
      assert facts <= Push(facts, pending[0]).value;
      PushAllGrows(Push(facts, pending[0]).value, pending[1..]);
    }
  }

  lemma EndCaptureGrows(pr: Progress, kind: Kind, name: Option<string>, text: string)
    requires EndCapture(pr, kind, name, text).Ok?
    ensures pr.facts <= EndCapture(pr, kind, name, text).value.facts
  {
    PushAllGrows(pr.facts, CapturedFact(kind, name, text));
  }

  lemma OpenGrows(pr: Progress, tag: Tag, depth: nat, under: bool)
    requires Open(pr, tag, depth, under).Ok?
    ensures pr.facts <= Open(pr, tag, depth, under).value.facts
  {
    if Inspects(pr, tag.kind, depth) && PushAll(pr.facts, tag.facts).Ok? {
      PushAllGrows(pr.facts, tag.facts);
    }
  }

  lemma TagGrows(w: Walker, tag: Tag, empty: bool)
    requires OnTag(w, tag, empty).Ok?
    ensures w.progress.facts <= OnTag(w, tag, empty).value.progress.facts
  {
    hide Open, EndCapture;
    var under := Assertion in w.stack;
    OpenGrows(w.progress, tag, |w.stack|, under);
    var begun := BeginCapture(Open(w.progress, tag, |w.stack|, under).value, tag.kind);
    var name := if tag.kind.Attribute? then tag.name else w.attributeName;
    if EndCapture(begun, tag.kind, name, "").Ok? {
      EndCaptureGrows(begun, tag.kind, name, "");
    }
  }

  lemma EventGrows(w: Walker, e: Event)
    requires OnEvent(w, e).Ok?
    ensures w.progress.facts <= OnEvent(w, e).value.progress.facts
  {
    hide OnTag, EndCapture;
    match e
    case Start(tag) => TagGrows(w, tag, false);
    case Empty(tag) => TagGrows(w, tag, true);
    case End(kind) =>
      if w.capture.Some? {
        var c := w.capture.value;
        if EndCapture(w.progress, c.kind, c.attributeName, c.buffer).Ok? {
          EndCaptureGrows(w.progress, c.kind, c.attributeName, c.buffer);
        }
      }
    case _ =>
  }

  lemma {:induction false} RunGrows(w: Walker, events: seq<Event>)
    requires Run(w, events).Ok?
    ensures w.progress.facts <= Run(w, events).value.progress.facts
    decreases |events|
  {
    hide OnEvent;
    if events != [] {
      EventGrows(w, events[0]);
      RunGrows(OnEvent(w, events[0]).value, events[1..]);
    }
  }

  /** The facts without the three that conclude them. */
  function Gathered(facts: seq<Fact>): seq<Fact> {
    if |facts| < 3 then [] else facts[..|facts| - 3]
  }

  /** The walker does not ask whether what was opened was closed. Where a document it accepts is
      cut off, it accepts the part too, and has gathered there a prefix of the facts of the whole. */
  lemma CutDocumentsAreAccepted(events: seq<Event>, n: nat)
    requires n <= |events| && Parse(events).Ok?
    ensures Parse(events[..n]).Ok? && Gathered(Parse(events[..n]).value) <= Gathered(Parse(events).value)
  {
    hide Run;
    assert events[..n] + events[n..] == events;
    RunSplits(INITIAL, events[..n], events[n..]);
    RunGrows(Run(INITIAL, events[..n]).value, events[n..]);
    ConcludedIsGathered(Run(INITIAL, events[..n]).value.progress);
    ConcludedIsGathered(Run(INITIAL, events).value.progress);
  }

  lemma ConcludedIsGathered(pr: Progress)
    ensures Gathered(Conclude(pr)) == pr.facts
  {
  }

  /** Text makes no fact before its element ends: a capture live at the cut is dropped. */
  lemma UnendedTextIsDropped(events: seq<Event>, texts: seq<Event>)
    requires Parse(events + texts).Ok? && forall i :: 0 <= i < |texts| ==> texts[i].Text?
    ensures Parse(events + texts) == Parse(events)
  {
    hide Run;
    RunSplits(INITIAL, events, texts);
    TextsKeepProgress(Run(INITIAL, events).value, texts);
  }

  lemma {:induction false} TextsKeepProgress(w: Walker, texts: seq<Event>)
    requires Run(w, texts).Ok? && forall i :: 0 <= i < |texts| ==> texts[i].Text?
    ensures Run(w, texts).value.progress == w.progress
    decreases |texts|
  {
    if texts != [] {
      var next := OnText(w, texts[0].decoded);
      assert OnEvent(w, texts[0]) == next && next.value.progress == w.progress;
      hide OnEvent, OnText;
      TextsKeepProgress(next.value, texts[1..]);
    }
  }
}
