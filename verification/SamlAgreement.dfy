/** Walk and reference side by side, where no element whose text is taken lies inside another. */
module SamlAgreement {
  import opened Results
  import opened IamFacts
  import opened Utf8
  import opened SamlMarkup
  import opened SamlWalker
  import opened SamlReference

  // ----- Text -----

  ghost predicate Gathered(before: Option<string>, r: ScanResult, text: string) {
    r.Ok? && r.value.text.Some? ==> before.Some? && r.value.text.value == before.value + text
  }

  /** As long as a capture stays live, what it gathers is the text walked over. */
  lemma {:induction false} WalkGathersText(m: Markup, depth: nat, under: bool, s: Scan)
    ensures Gathered(s.text, Walk(m, depth, under, s), TextOf(m))
    decreases m, 1
  {
    match m
    case Nothing =>
    case Skipped(after) => WalkGathersText(after, depth, under, s);
    case Chars(decoded, after) =>
      if s.text.Some? && Extend(s.text.value, decoded).Ok? {
        WalkGathersText(after, depth, under, s.(text := Some(s.text.value + decoded.value)));
      }
    case EmptyElement(tag, after) =>
      var left := LeaveEmpty(Enter(s, tag, depth, under), tag.kind);
      if left.Ok? {
        WalkGathersText(after, depth, under, left.value);
      }
    case Element(tag, inside, after) =>
      EnteredGathersText(Enter(s, tag, depth, under), tag, inside, after, depth, under);
  }

  lemma {:induction false} EnteredGathersText(entered: ScanStart, tag: Tag, inside: Markup, after: Markup,
                                              depth: nat, under: bool)
    ensures var r := WalkEntered(entered, tag, inside, after, depth, under);
            r.Ok? && r.value.text.Some? ==> Gathered(entered.value.0.text, r, TextOf(inside) + TextOf(after))
    decreases Element(tag, inside, after), 0
  {
    if entered.Ok? && !entered.value.1 && depth + 1 <= SAML_MAX_XML_DEPTH {
      var s, below := entered.value.0, under || tag.kind.Assertion?;
      WalkGathersText(inside, depth + 1, below, s);
      LeftGathersText(Walk(inside, depth + 1, below, s), s.text, TextOf(inside), tag.kind, s.attributeName, after,
                      depth, under);
    }
  }

  lemma {:induction false} LeftGathersText(inner: ScanResult, before: Option<string>, text: string, kind: Kind,
                                           name: Option<string>,
                                           after: Markup, depth: nat, under: bool)
    requires Gathered(before, inner, text)
    ensures Gathered(before, WalkLeft(inner, kind, false, name, after, depth, under), text + TextOf(after))
    decreases after, 2
  {
    if inner.Ok? {
      var left := Leave(inner.value, kind, false, name);
      WalkGathersText(after, depth, under, left.value);
      if inner.value.text.Some? {
        assert (before.value + text) + TextOf(after) == before.value + (text + TextOf(after));
      }
    }
  }

  lemma CaptureGathersAll(inside: Markup, depth: nat, under: bool, s: Scan)
    requires s.text == Some("")
    ensures var r := Walk(inside, depth, under, s);
            r.Ok? && r.value.text.Some? ==> r.value.text == Some(TextOf(inside))
  {
    WalkGathersText(inside, depth, under, s);
    assert "" + TextOf(inside) == TextOf(inside);
  }

  // ----- Where texts do not nest the walk is the reference, but for names -----

  /** Equal but for the facts, of which the first has no more. */
  ghost predicate Fewer(p: Progress, q: Progress) {
    && |p.facts| <= |q.facts|
    && p.sawIssuer == q.sawIssuer && p.sawNameId == q.sawNameId && p.sawAudience == q.sawAudience
    && p.sawStatusCode == q.sawStatusCode && p.attributeCount == q.attributeCount
    && p.responseSigned == q.responseSigned && p.assertionSigned == q.assertionSigned
  }

  /** Equal but for the names of facts. */
  ghost predicate Alike(s: Scan, q: State) {
    Fewer(s.progress, q.progress) && |s.progress.facts| == |q.progress.facts| && s.text == q.held
  }

  ghost predicate Same(s: Scan, q: State) {
    s.progress.facts == q.progress.facts
  }

  /** The same error, or alike states, which have the same facts if those before had, `same`,
      and the names hold. */
  ghost predicate AgreeOn(same: bool, r: ScanResult, e: StateResult, holds: bool, name: Option<string>) {
    if r.Err? then e == Err(r.error)
    else
      && e.Ok? && Alike(r.value, e.value) && r.value.attributeName == name
      && (Same(r.value, e.value) <==> same && holds)
  }

  ghost predicate AgreeOnStart(same: bool, r: ScanStart, e: StateStart, name: Option<string>) {
    if r.Err? then e == Err(r.error)
    else
      && e.Ok? && r.value.1 == e.value.1 && Alike(r.value.0, e.value.0) && r.value.0.attributeName == name
      && (Same(r.value.0, e.value.0) <==> same)
  }

  lemma {:induction false} PushAlike(facts: seq<Fact>, others: seq<Fact>, pending: seq<Pending>)
    requires |facts| == |others|
    ensures var r, e := PushAll(facts, pending), PushAll(others, pending);
            if r.Err? then e == Err(r.error)
            else e.Ok? && |r.value| == |e.value| && (r.value == e.value <==> facts == others)
    decreases |pending|
  {
    hide IsSensitiveName, ByteLength;
    if pending != [] && Push(facts, pending[0]).Ok? {
      var f, g := Push(facts, pending[0]).value, Push(others, pending[0]).value;
      assert facts == f[..|facts|] && others == g[..|others|];
      PushAlike(f, g, pending[1..]);
    }
  }

  lemma OpenAlike(p: Progress, q: Progress, tag: Tag, depth: nat, under: bool)
    requires Fewer(p, q) && |p.facts| == |q.facts|
    ensures var r, e := Open(p, tag, depth, under), Open(q, tag, depth, under);
            if r.Err? then e == Err(r.error)
            else e.Ok? && Fewer(r.value, e.value) && |r.value.facts| == |e.value.facts|
                 && (r.value.facts == e.value.facts <==> p.facts == q.facts)
  {
    PushAlike(p.facts, q.facts, tag.facts);
  }

  lemma EnteredAlike(s: Scan, q: State, p: Progress, entered: Progress, tag: Tag)
    requires Alike(s, q) && Fewer(p, entered) && |p.facts|
            == |entered.facts| && (p.facts == entered.facts <==> Same(s, q))
    ensures var r, e := Entered(s, p, tag), Begun(q, entered, tag);
            r.1 == e.1 && Alike(r.0, e.0) && r.0.attributeName
              == Scope(tag, s.attributeName) && (Same(r.0, e.0) <==> Same(s, q))
  {
    assert Captures(p, tag.kind) == Captures(entered, tag.kind);
  }

  lemma EnterAgrees(s: Scan, q: State, tag: Tag, depth: nat, under: bool)
    requires Alike(s, q)
    ensures AgreeOnStart(Same(s, q), Enter(s, tag, depth, under), Begin(q, tag, depth, under),
                         Scope(tag, s.attributeName))
  {
    hide Open, Fewer, Entered, Begun;
    OpenAlike(s.progress, q.progress, tag, depth, under);
    var p, e := Open(s.progress, tag, depth, under), Open(q.progress, tag, depth, under);
    if p.Ok? {
      EnteredAlike(s, q, p.value, e.value, tag);
    }
  }

  lemma TextNamesDiffer(kind: Kind, name: Option<string>, scope: Option<string>)
    requires CarriesText(kind)
    ensures TextName(kind, name) == TextName(kind, scope) <==> Filed(kind, name, scope)
  {
    if kind.AttributeValue? && NameShown(name) != NameShown(scope) {
      var a, b := TextName(kind, name), TextName(kind, scope);
      var prefix := "saml.attribute.value[";
      assert a == prefix + NameShown(name) + "]" && b == prefix + NameShown(scope) + "]";
      assert a[|prefix|..|a| - 1] == NameShown(name) && b[|prefix|..|b| - 1] == NameShown(scope);
    }
  }

  lemma CaptureAgrees(p: Progress, q: Progress, kind: Kind, name: Option<string>, scope: Option<string>, text: string)
    requires Fewer(p, q) && |p.facts| == |q.facts| && CarriesText(kind)
    ensures var r, e := EndCapture(p, kind, name, text), EndCapture(q, kind, scope, text);
            if r.Err? then e == Err(r.error)
            else e.Ok? && Fewer(r.value, e.value) && |r.value.facts| == |e.value.facts|
                 && (r.value.facts == e.value.facts <==> p.facts == q.facts && Filed(kind, name, scope))
  {
    TextNamesDiffer(kind, name, scope);
    hide TextName, IsSensitiveName, Filed;
    var one, other := Pending(TextName(kind, name), text, false), Pending(TextName(kind, scope), text, false);
    assert CapturedFact(kind, name, text) == [one] && CapturedFact(kind, scope, text) == [other];
    PushOne(p.facts, one);
    PushOne(q.facts, other);
    if Push(p.facts, one).Ok? {
      var f, g := Push(p.facts, one).value, Push(q.facts, other).value;
      assert f[..|p.facts|] == p.facts && g[..|q.facts|] == q.facts;
      assert f[|p.facts|].name == one.name && g[|q.facts|].name == other.name;
    }
  }

  lemma PushOne(facts: seq<Fact>, p: Pending)
    ensures PushAll(facts, [p]) == Push(facts, p)
  {
    hide Push;
    assert [p][1..] == [];
  }

  /** Only the facts of attribute values carry the attribute's name. */
  lemma FinishAgrees(held: Option<string>, s: Scan, q: State, kind: Kind, captures: bool, name: Option<string>,
                     scope: Option<string>, text: string)
    requires Alike(s, q) && (kind.AttributeValue? ==> captures)
    requires captures ==> CarriesText(kind) && held.None? && s.text == Some(text)
    ensures AgreeOn(Same(s, q), if captures then FinishCapture(s, kind, name) else Ok(s),
                    Finish(held, q, kind, captures, scope, text),
                    Filed(kind, name, scope), s.attributeName)
  {
    if captures {
      CaptureAgrees(s.progress, q.progress, kind, name, scope, text);
    }
    hide EndCapture;
  }

  lemma BeginsIn(q: State, tag: Tag, depth: nat, under: bool)
    ensures BegunIn(q, Begin(q, tag, depth, under), tag.kind)
  {
  }

  lemma {:induction false} WalkAgrees(m: Markup, depth: nat, under: bool, scope: Option<string>, s: Scan, q: State)
    requires Alike(s, q) && !TextsNest(m, q.held.Some?, SeenIn(q.progress))
    ensures AgreeOn(Same(s, q), Walk(m, depth, under, s), Recite(m, depth, under, scope, q),
                    NamesHold(m, scope, s.attributeName), NameAfter(m, s.attributeName))
    decreases m, 1
  {
    hide Filed, Fewer, Enter, Begin, BegunIn, EndCapture;
    match m
    case Nothing =>
    case Skipped(after) => WalkAgrees(after, depth, under, scope, s, q);
    case Chars(decoded, after) =>
      if q.held.None? {
        WalkAgrees(after, depth, under, scope, s, q);
      } else if Extend(q.held.value, decoded).Ok? {
        var text := Some(q.held.value + decoded.value);
        WalkAgrees(after, depth, under, scope, s.(text := text), q.(held := text));
      }
    case EmptyElement(tag, after) =>
      EnterAgrees(s, q, tag, depth, under);
      BeginsIn(q, tag, depth, under);
      EmptyAgrees(Same(s, q), s.attributeName, Enter(s, tag, depth, under), q, Begin(q, tag, depth, under), tag, after,
                  depth, under, scope);
    case Element(tag, inside, after) =>
      EnterAgrees(s, q, tag, depth, under);
      BeginsIn(q, tag, depth, under);
      EnteredAgrees(Same(s, q), s.attributeName, Enter(s, tag, depth, under), q, Begin(q, tag, depth, under), tag,
                    inside, after,
                    depth, under, scope);
  }

  lemma {:induction false} EmptyAgrees(same: bool, current: Option<string>, r: ScanStart, q: State, e: StateStart,
                                       tag: Tag, after: Markup, depth: nat, under: bool, scope: Option<string>)
    requires AgreeOnStart(same, r, e, Scope(tag, current)) && BegunIn(q, e, tag.kind)
    requires !TextsNest(EmptyElement(tag, after), q.held.Some?, SeenIn(q.progress))
    ensures var m := EmptyElement(tag, after);
            AgreeOn(same, WalkOn(LeaveEmpty(r, tag.kind), after, depth, under),
                    ReciteOn(FinishEmpty(q.held, e, tag.kind, Scope(tag, scope)), after, depth, under, scope),
                    NamesHold(m, scope, current), NameAfter(m, current))
    decreases EmptyElement(tag, after), 0
  {
    hide Filed, EndCapture, Fewer, Same, Walk, Recite;
    if r.Ok? {
      FinishAgrees(q.held, r.value.0, e.value.0, tag.kind, r.value.1, Scope(tag, current), Scope(tag, scope), "");
      FinishSeen(q.held, e.value.0, tag.kind, e.value.1, Scope(tag, scope), "");
      var left := LeaveEmpty(r, tag.kind);
      if left.Ok? {
        WalkAgrees(after, depth, under, scope, left.value, FinishEmpty(q.held, e, tag.kind, Scope(tag, scope)).value);
      }
    }
  }

  /** The end of an element adds a fact, and gives the text around it back. */
  lemma FinishSeen(held: Option<string>, inner: State, kind: Kind, captures: bool, name: Option<string>, text: string)
    requires !captures ==> inner.held.Some? == held.Some?
    ensures var left := Finish(held, inner, kind, captures, name, text);
            left.Ok? ==> SeenIn(left.value.progress) == SeenIn(inner.progress) && left.value.held.Some? == held.Some?
  {
  }

  lemma {:induction false} InsideAgrees(r: (Scan, bool), e: (State, bool), inside: Markup, depth: nat, under: bool,
                                        scope: Option<string>)
    requires r.1 == e.1 && Alike(r.0, e.0) && (r.1 ==> e.0.held == Some(""))
    requires !TextsNest(inside, e.0.held.Some?, SeenIn(e.0.progress))
    ensures var inner := Walk(inside, depth, under, r.0);
            && AgreeOn(Same(r.0, e.0), inner, Recite(inside, depth, under, scope, e.0),
                       NamesHold(inside, scope, r.0.attributeName), NameAfter(inside, r.0.attributeName))
            && (r.1 && inner.Ok? ==> inner.value.text == Some(TextOf(inside)))
    decreases inside, 2
  {
    WalkAgrees(inside, depth, under, scope, r.0, e.0);
    if r.1 {
      CaptureGathersAll(inside, depth, under, r.0);
    }
  }

  lemma NamesOfElement(tag: Tag, inside: Markup, after: Markup, scope: Option<string>, current: Option<string>)
    ensures var m, name := Element(tag, inside, after), Scope(tag, current);
            var left := NameLeft(tag.kind, NameAfter(inside, name));
            && NameAfter(m, current) == NameAfter(after, left)
            && (NamesHold(m, scope, current) <==>
                  && Filed(tag.kind, name, Scope(tag, scope))
                  && NamesHold(inside, Scope(tag, scope), name) && NamesHold(after, scope, left))
  {
    hide Filed;
  }

  /** What it means for an element not to nest texts. */
  lemma NestOfElement(q: State, e: (State, bool), tag: Tag, inside: Markup, after: Markup)
    requires BegunIn(q, Ok(e), tag.kind) && !TextsNest(Element(tag, inside, after), q.held.Some?, SeenIn(q.progress))
    ensures e.1 ==> q.held.None?
    ensures !TextsNest(inside, e.0.held.Some?, SeenIn(e.0.progress))
    ensures !TextsNest(after, q.held.Some?, PastAll(SeenIn(e.0.progress), inside))
  {
  }

  /** An element within the depth, from its start tag on. */
  lemma {:induction false} WithinAgrees(same: bool, current: Option<string>, r: (Scan, bool), q: State,
                                        e: (State, bool), tag: Tag,
                                        inside: Markup, after: Markup, depth: nat, under: bool, scope: Option<string>)
    requires AgreeOnStart(same, Ok(r), Ok(e), Scope(tag, current)) && BegunIn(q, Ok(e), tag.kind)
    requires !TextsNest(Element(tag, inside, after), q.held.Some?, SeenIn(q.progress))
    ensures var m, name, below := Element(tag, inside, after), Scope(tag, current), under || tag.kind.Assertion?;
            AgreeOn(same, WalkLeft(Walk(inside, depth + 1, below, r.0), tag.kind, r.1, name, after, depth, under),
                    ReciteLeft(Recite(inside, depth + 1, below, Scope(tag, scope), e.0), q.held, tag, r.1,
                               TextOf(inside),
                               after, depth, under, scope),
                    NamesHold(m, scope, current), NameAfter(m, current))
    decreases Element(tag, inside, after), 0, 0
  {
    NamesOfElement(tag, inside, after, scope, current);
    NestOfElement(q, e, tag, inside, after);
    hide TextsNest, PastAll, Past, Takes, CarriesText, TextOf, Walk, Recite, WalkLeft, ReciteLeft, Filed, Alike, Same,
         NameLeft, NamesHold,
         NameAfter, AgreeOn;
    var below, name := under || tag.kind.Assertion?, Scope(tag, current);
    InsideAgrees(r, e, inside, depth + 1, below, Scope(tag, scope));
    OverlapIsNesting(inside, depth + 1, below, Scope(tag, scope), e.0);
    var inner, innerE := Walk(inside, depth + 1, below, r.0), Recite(inside, depth + 1, below, Scope(tag, scope), e.0);
    var holds, left := NamesHold(inside, Scope(tag, scope), name), NameAfter(inside, name);
    InsideLeftAgrees(same, holds, left, inner, q.held, innerE, tag, r.1, name, after, depth, under, scope,
                     TextOf(inside));
  }

  /** The end of an element whose inside agreed as far as its names hold. */
  lemma {:induction false} InsideLeftAgrees(same: bool, holds: bool, current: Option<string>, inner: ScanResult,
                                            held: Option<string>, innerE: StateResult, tag: Tag, captures: bool,
                                            name: Option<string>, after: Markup, depth: nat, under: bool,
                                            scope: Option<string>, text: string)
    requires AgreeOn(same, inner, innerE, holds, current) && (tag.kind.AttributeValue? ==> captures)
    requires captures ==> CarriesText(tag.kind) && held.None? && (inner.Ok? ==> inner.value.text == Some(text))
    requires innerE.Ok? ==>
               && (!captures ==> innerE.value.held.Some? == held.Some?)
               && !TextsNest(after, held.Some?, SeenIn(innerE.value.progress))
    ensures AgreeOn(same, WalkLeft(inner, tag.kind, captures, name, after, depth, under),
                    ReciteLeft(innerE, held, tag, captures, text, after, depth, under, scope),
                    holds && Filed(tag.kind, name, Scope(tag, scope))
                    && NamesHold(after, scope, NameLeft(tag.kind, current)),
                    NameAfter(after, NameLeft(tag.kind, current)))
    decreases after, 5
  {
    hide AgreeOn, TextsNest, CarriesText, Filed, NamesHold, NameAfter, NameLeft, WalkLeft, ReciteLeft, SeenIn;
    Regroup(same, inner, innerE, holds, true, current);
    BothLeftAgree(same && holds, current, inner, held, innerE, tag, captures, name, after, depth, under, scope, text);
    Regroup(same, WalkLeft(inner, tag.kind, captures, name, after, depth, under),
            ReciteLeft(innerE, held, tag, captures, text, after, depth, under, scope), holds,
            Filed(tag.kind, name, Scope(tag, scope)) && NamesHold(after, scope, NameLeft(tag.kind, current)),
            NameAfter(after, NameLeft(tag.kind, current)));
  }

  lemma {:induction false} EnteredAgrees(same: bool, current: Option<string>, r: ScanStart, q: State, e: StateStart,
                                         tag: Tag,
                                         inside: Markup, after: Markup, depth: nat, under: bool, scope: Option<string>)
    requires AgreeOnStart(same, r, e, Scope(tag, current)) && BegunIn(q, e, tag.kind)
    requires !TextsNest(Element(tag, inside, after), q.held.Some?, SeenIn(q.progress))
    ensures var m := Element(tag, inside, after);
            AgreeOn(same, WalkEntered(r, tag, inside, after, depth, under),
                    ReciteBegun(q.held, e, tag, inside, after, depth, under, scope),
                    NamesHold(m, scope, current), NameAfter(m, current))
    decreases Element(tag, inside, after), 0, 1
  {
    hide TextsNest, TextOf, Walk, Recite, WalkLeft, ReciteLeft, Alike, Same, NamesHold, NameAfter;
    if r.Ok? && depth + 1 <= SAML_MAX_XML_DEPTH {
      assert r == Ok(r.value) && e == Ok(e.value);
      WithinAgrees(same, current, r.value, q, e.value, tag, inside, after, depth, under, scope);
    }
  }

  lemma Regroup(same: bool, r: ScanResult, e: StateResult, first: bool, second: bool, name: Option<string>)
    ensures AgreeOn(same && first, r, e, second, name) <==> AgreeOn(same, r, e, first && second, name)
  {
  }

  lemma {:induction false} BothLeftAgree(same: bool, current: Option<string>, inner: ScanResult, held: Option<string>,
                                         innerE: StateResult, tag: Tag, captures: bool, name: Option<string>,
                                         after: Markup, depth: nat, under: bool, scope: Option<string>, text: string)
    requires AgreeOn(same, inner, innerE, true, current) && (tag.kind.AttributeValue? ==> captures)
    requires captures ==> CarriesText(tag.kind) && held.None? && (inner.Ok? ==> inner.value.text == Some(text))
    requires innerE.Ok? ==>
               && (!captures ==> innerE.value.held.Some? == held.Some?)
               && !TextsNest(after, held.Some?, SeenIn(innerE.value.progress))
    ensures AgreeOn(same, WalkLeft(inner, tag.kind, captures, name, after, depth, under),
                    ReciteLeft(innerE, held, tag, captures, text, after, depth, under, scope),
                    Filed(tag.kind, name, Scope(tag, scope)) && NamesHold(after, scope, NameLeft(tag.kind, current)),
                    NameAfter(after, NameLeft(tag.kind, current)))
    decreases after, 4
  {
    hide Finish, Leave, TextsNest, Filed, Fewer, CarriesText;
    if inner.Ok? {
      assert inner == Ok(inner.value) && innerE == Ok(innerE.value);
      LeftAgrees(inner.value, held, innerE.value, tag, captures, name, after, depth, under, scope, text);
    }
  }

  lemma {:induction false} OnAgrees(left: Scan, leftQ: State, after: Markup, depth: nat, under: bool,
                                    scope: Option<string>)
    requires Alike(left, leftQ) && !TextsNest(after, leftQ.held.Some?, SeenIn(leftQ.progress))
    ensures AgreeOn(Same(left, leftQ), WalkOn(Ok(left), after, depth, under),
                    ReciteOn(Ok(leftQ), after, depth, under, scope),
                    NamesHold(after, scope, left.attributeName), NameAfter(after, left.attributeName))
    decreases after, 2
  {
    WalkAgrees(after, depth, under, scope, left, leftQ);
  }

  lemma LeaveAgrees(inner: Scan, held: Option<string>, innerQ: State, kind: Kind, captures: bool, name: Option<string>,
                    scope: Option<string>, text: string)
    requires Alike(inner, innerQ) && (captures ==> CarriesText(kind) && held.None? && inner.text == Some(text))
    requires kind.AttributeValue? ==> captures
    ensures AgreeOn(Same(inner, innerQ), Leave(inner, kind, captures, name),
                    Finish(held, innerQ, kind, captures, scope, text),
                    Filed(kind, name, scope), NameLeft(kind, inner.attributeName))
  {
    FinishAgrees(held, inner, innerQ, kind, captures, name, scope, text);
    hide FinishCapture, Finish, Filed, Fewer;
  }

  lemma {:induction false} LeftAgrees(inner: Scan, held: Option<string>, innerQ: State, tag: Tag, captures: bool,
                                      name: Option<string>,
                                      after: Markup, depth: nat, under: bool, scope: Option<string>, text: string)
    requires Alike(inner, innerQ) && (captures ==> CarriesText(tag.kind) && held.None? && inner.text == Some(text))
    requires (tag.kind.AttributeValue? ==> captures) && (!captures ==> innerQ.held.Some? == held.Some?)
    requires !TextsNest(after, held.Some?, SeenIn(innerQ.progress))
    ensures AgreeOn(Same(inner, innerQ), WalkLeft(Ok(inner), tag.kind, captures, name, after, depth, under),
                    ReciteLeft(Ok(innerQ), held, tag, captures, text, after, depth, under, scope),
                    Filed(tag.kind, name, Scope(tag, scope))
                      && NamesHold(after, scope, NameLeft(tag.kind, inner.attributeName)),
                    NameAfter(after, NameLeft(tag.kind, inner.attributeName)))
    decreases after, 3
  {
    hide Finish, Leave, TextsNest, Filed, Fewer, CarriesText, NameLeft;
    LeaveAgrees(inner, held, innerQ, tag.kind, captures, name, Scope(tag, scope), text);
    FinishSeen(held, innerQ, tag.kind, captures, Scope(tag, scope), text);
    var left := Leave(inner, tag.kind, captures, name);
    var leftQ := Finish(held, innerQ, tag.kind, captures, Scope(tag, scope), text);
    assert ReciteLeft(Ok(innerQ), held, tag, captures, text, after, depth, under, scope)
           == ReciteOn(leftQ, after, depth, under, scope);
    if left.Ok? {
      assert left == Ok(left.value) && leftQ == Ok(leftQ.value);
      OnAgrees(left.value, leftQ.value, after, depth, under, scope);
    }
  }
}
