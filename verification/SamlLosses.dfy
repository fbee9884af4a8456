/** Walk and reference side by side, where texts nest: the walk falls behind. */
module SamlLosses {
  import opened Results
  import opened IamFacts
  import opened SamlMarkup
  import opened SamlWalker
  import opened SamlReference
  import opened SamlAgreement

  /** The walk is no further along than the reference. */
  ghost predicate Behind(s: Scan, q: State) {
    && Fewer(s.progress, q.progress)
    && (s.text.Some? ==> s.text == q.held)
  }

  function Missing(s: Scan, q: State): int {
    |q.progress.facts| - |s.progress.facts|
  }

  /** From `s` and `q` to results: nothing is caught up, and if an overlap was met, then what
      was being captured is dropped, or if nothing was a fact is. */
  ghost predicate Lags(before: int, held: bool, overlap: bool, r: ScanResult, e: State) {
    && r.Ok? && Behind(r.value, e) && before <= Missing(r.value, e)
    && (!overlap && e.overlap ==> if held then r.value.text.None? else before < Missing(r.value, e))
  }

  lemma {:induction false} PushFewer(fewer: seq<Fact>, facts: seq<Fact>, some: seq<Pending>, all: seq<Pending>)
    requires |fewer| <= |facts| && |some| == |all| && forall i :: 0 <= i < |all| ==> some[i].value == all[i].value
    requires PushAll(facts, all).Ok?
    ensures PushAll(fewer, some).Ok? && |PushAll(fewer, some).value| == |fewer| + |all|
    ensures |PushAll(facts, all).value| == |facts| + |all|
    decreases |all|
  {
    if all != [] {
      PushFewer(Push(fewer, some[0]).value, Push(facts, all[0]).value, some[1..], all[1..]);
    }
  }

  lemma OpenFewer(p: Progress, q: Progress, tag: Tag, depth: nat, under: bool)
    requires Fewer(p, q) && Open(q, tag, depth, under).Ok?
    ensures var r, e := Open(p, tag, depth, under), Open(q, tag, depth, under).value;
            r.Ok? && Fewer(r.value, e) && |e.facts| - |r.value.facts| == |q.facts| - |p.facts|
  {
    if Inspects(q, tag.kind, depth) {
      PushFewer(p.facts, q.facts, tag.facts, tag.facts);
    }
  }

  lemma EndCaptureFewer(p: Progress, q: Progress, kind: Kind, name: Option<string>, scope: Option<string>, text: string)
    requires Fewer(p, q) && CarriesText(kind) && EndCapture(q, kind, scope, text).Ok?
    ensures var r, e := EndCapture(p, kind, name, text), EndCapture(q, kind, scope, text).value;
            && r.Ok? && Fewer(r.value, e) && |e.facts| - |r.value.facts| == |q.facts| - |p.facts|
            && e.(facts := q.facts) == q && |e.facts| == |q.facts| + 1
  {
    PushFewer(p.facts, q.facts, CapturedFact(kind, name, text), CapturedFact(kind, scope, text));
  }

  ghost predicate StartLags(s: Scan, q: State, r: (Scan, bool), e: (State, bool)) {
    && Behind(r.0, e.0) && r.1 == e.1 && Missing(r.0, e.0) == Missing(s, q)
    && (e.1 ==> r.0.text == Some("") == e.0.held && e.0.overlap == (q.overlap || q.held.Some?))
    && (!e.1 ==> e.0.held == q.held && e.0.overlap == q.overlap && r.0.text == s.text)
  }

  lemma EnteredLags(s: Scan, q: State, p: Progress, entered: Progress, tag: Tag)
    requires Behind(s, q) && Fewer(p, entered) && |entered.facts| - |p.facts| == Missing(s, q)
    ensures StartLags(s, q, Entered(s, p, tag), Begun(q, entered, tag))
  {
    assert Captures(p, tag.kind) == Captures(entered, tag.kind);
  }

  lemma EnterLags(s: Scan, q: State, tag: Tag, depth: nat, under: bool)
    requires Behind(s, q) && Begin(q, tag, depth, under).Ok?
    ensures var r, e := Enter(s, tag, depth, under), Begin(q, tag, depth, under);
            r.Ok? && StartLags(s, q, r.value, e.value)
  {
    OpenFewer(s.progress, q.progress, tag, depth, under);
    EnteredLags(s, q, Open(s.progress, tag, depth, under).value, Open(q.progress, tag, depth, under).value, tag);
  }

  /** Whether or not the walk still has the text, the reference finishes with one fact more. */
  lemma FinishLags(s: Scan, q: State, kind: Kind, name: Option<string>, scope: Option<string>, held: Option<string>,
                   text: string)
    requires Behind(s, q) && Finish(held, q, kind, true, scope, text).Ok? && CarriesText(kind)
    requires s.text.Some? ==> s.text.value == text
    ensures var r, e := FinishCapture(s, kind, name), Finish(held, q, kind, true, scope, text).value;
            && r.Ok? && Behind(r.value, e) && r.value.text.None? && e.overlap == q.overlap
            && Missing(r.value, e) == Missing(s, q) + if s.text.Some? then 0 else 1
  {
    EndCaptureFewer(s.progress, q.progress, kind, name, scope, text);
  }

  lemma {:induction false} WalkLags(m: Markup, depth: nat, under: bool, scope: Option<string>, s: Scan, q: State)
    requires Behind(s, q) && Recite(m, depth, under, scope, q).Ok?
    ensures Lags(Missing(s, q), q.held.Some?, q.overlap, Walk(m, depth, under, s),
                 Recite(m, depth, under, scope, q).value)
    decreases m, 1
  {
    match m
    case Nothing =>
    case Skipped(after) => WalkLags(after, depth, under, scope, s, q);
    case Chars(decoded, after) =>
      TextLags(decoded, after, depth, under, scope, s, q);
    case EmptyElement(tag, after) =>
      EnterLags(s, q, tag, depth, under);
      EmptyLags(s, q, Enter(s, tag, depth, under).value, Begin(q, tag, depth, under).value, tag, after, depth,
                under, scope);
    case Element(tag, inside, after) =>
      EnterLags(s, q, tag, depth, under);
      ElementLags(s, q, Enter(s, tag, depth, under).value, Begin(q, tag, depth, under).value, tag, inside, after, depth,
                  under, scope);
  }

  lemma {:induction false} TextLags(decoded: Option<string>, after: Markup, depth: nat, under: bool,
                                    scope: Option<string>,
                                    s: Scan, q: State)
    requires Behind(s, q) && Recite(Chars(decoded, after), depth, under, scope, q).Ok?
    ensures Lags(Missing(s, q), q.held.Some?, q.overlap, Walk(Chars(decoded, after), depth, under, s),
                 Recite(Chars(decoded, after), depth, under, scope, q).value)
    decreases Chars(decoded, after), 0
  {
    var q' := q.(held := Hold(q.held, decoded).value);
    if s.text.Some? {
      WalkLags(after, depth, under, scope, s.(text := Some(s.text.value + decoded.value)), q');
    } else {
      WalkLags(after, depth, under, scope, s, q');
    }
  }

  lemma {:induction false} OnLags(left: Scan, leftQ: State, after: Markup, depth: nat, under: bool,
                                  scope: Option<string>,
                                  before: int, held: bool, overlap: bool)
    requires ReciteOn(Ok(leftQ), after, depth, under, scope).Ok?
    requires Lags(before, held, overlap, Ok(left), leftQ) && leftQ.held.Some? == held && (overlap ==> leftQ.overlap)
    ensures Lags(before, held, overlap, WalkOn(Ok(left), after, depth, under),
                 ReciteOn(Ok(leftQ), after, depth, under, scope).value)
    decreases after, 2
  {
    WalkLags(after, depth, under, scope, left, leftQ);
  }

  lemma {:induction false} EmptyLags(s: Scan, q: State, r: (Scan, bool), e: (State, bool), tag: Tag, after: Markup,
                                     depth: nat, under: bool, scope: Option<string>)
    requires Behind(s, q) && StartLags(s, q, r, e) && (e.1 ==> CarriesText(tag.kind))
    requires ReciteOn(FinishEmpty(q.held, Ok(e), tag.kind, Scope(tag, scope)), after, depth, under, scope).Ok?
    ensures Lags(Missing(s, q), q.held.Some?, q.overlap, WalkOn(LeaveEmpty(Ok(r), tag.kind), after, depth, under),
                 ReciteOn(FinishEmpty(q.held, Ok(e), tag.kind, Scope(tag, scope)), after, depth, under, scope).value)
    decreases EmptyElement(tag, after), 0
  {
    if e.1 {
      FinishLags(r.0, e.0, tag.kind, r.0.attributeName, Scope(tag, scope), q.held, "");
    }
    var left, leftQ := LeaveEmpty(Ok(r), tag.kind).value, FinishEmpty(q.held, Ok(e), tag.kind, Scope(tag, scope)).value;
    OnLags(left, leftQ, after, depth, under, scope, Missing(s, q), q.held.Some?, q.overlap);
  }

  /** The end of an element, its inside having been walked to `inner` and recited to `innerQ`. */
  lemma LeaveLags(before: int, held: Option<string>, overlap: bool, inner: Scan, innerQ: State, kind: Kind,
                  captures: bool,
                  name: Option<string>, scope: Option<string>, text: string)
    requires Lags(before, captures || held.Some?, overlap || (captures && held.Some?), Ok(inner), innerQ)
    requires overlap || (captures && held.Some?) ==> innerQ.overlap
    requires captures ==> CarriesText(kind) && (inner.text.Some? ==> inner.text.value == text)
    requires !captures ==> innerQ.held.Some? == held.Some?
    requires Finish(held, innerQ, kind, captures, scope, text).Ok?
    ensures Leave(inner, kind, captures, name).Ok?
    ensures var leftQ := Finish(held, innerQ, kind, captures, scope, text).value;
            && Lags(before, held.Some?, overlap, Leave(inner, kind, captures, name), leftQ)
            && leftQ.held.Some? == held.Some? && (overlap ==> leftQ.overlap)
  {
    if captures {
      FinishLags(inner, innerQ, kind, name, scope, held, text);
    }
  }

  lemma {:induction false} LeftLags(before: int, held: Option<string>, overlap: bool, inner: Scan, innerQ: State,
                                    tag: Tag, captures: bool, name: Option<string>, text: string,
                                    after: Markup, depth: nat, under: bool, scope: Option<string>)
    requires Lags(before, captures || held.Some?, overlap || (captures && held.Some?), Ok(inner), innerQ)
    requires overlap || (captures && held.Some?) ==> innerQ.overlap
    requires captures ==> CarriesText(tag.kind) && (inner.text.Some? ==> inner.text.value == text)
    requires !captures ==> innerQ.held.Some? == held.Some?
    requires ReciteLeft(Ok(innerQ), held, tag, captures, text, after, depth, under, scope).Ok?
    ensures Lags(before, held.Some?, overlap, WalkLeft(Ok(inner), tag.kind, captures, name, after, depth, under),
                 ReciteLeft(Ok(innerQ), held, tag, captures, text, after, depth, under, scope).value)
    decreases after, 3
  {
    LeaveLags(before, held, overlap, inner, innerQ, tag.kind, captures, name, Scope(tag, scope), text);
    OnLags(Leave(inner, tag.kind, captures, name).value,
           Finish(held, innerQ, tag.kind, captures, Scope(tag, scope), text).value,
           after, depth, under, scope, before, held.Some?, overlap);
  }

  lemma {:induction false} ElementLags(s: Scan, q: State, r: (Scan, bool), e: (State, bool), tag: Tag, inside: Markup,
                                       after: Markup,
                                       depth: nat, under: bool, scope: Option<string>)
    requires Behind(s, q) && StartLags(s, q, r, e) && (e.1 ==> CarriesText(tag.kind))
    requires ReciteBegun(q.held, Ok(e), tag, inside, after, depth, under, scope).Ok?
    ensures Lags(Missing(s, q), q.held.Some?, q.overlap, WalkEntered(Ok(r), tag, inside, after, depth, under),
                 ReciteBegun(q.held, Ok(e), tag, inside, after, depth, under, scope).value)
    decreases Element(tag, inside, after), 0
  {
    hide Finish, Leave, CarriesText, TextOf, Walk, Recite, WalkLeft, ReciteLeft;
    var below := under || tag.kind.Assertion?;
    WalkLags(inside, depth + 1, below, Scope(tag, scope), r.0, e.0);
    if e.1 {
      CaptureGathersAll(inside, depth + 1, below, r.0);
    }
    LeftLags(Missing(s, q), q.held, q.overlap, Walk(inside, depth + 1, below, r.0).value,
             Recite(inside, depth + 1, below, Scope(tag, scope),
                    e.0).value, tag, e.1, r.0.attributeName, TextOf(inside),
             after, depth, under, scope);
  }
}
