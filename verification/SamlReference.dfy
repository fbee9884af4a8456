/** What the facts of a SAML document should be, by recursion over its tree: each captured
    text is all the text inside its own element, and an attribute value is named by the
    Attribute around it. When and only when does the event walker give that? */
module SamlReference {
  import opened Results
  import opened IamFacts
  import opened SamlMarkup
  import opened SamlWalker

  /** All text inside, in document order. */
  function TextOf(m: Markup): string {
    match m
    case Nothing => ""
    case Skipped(after) => TextOf(after)
    case Chars(decoded, after) => (if decoded.Some? then decoded.value else "") + TextOf(after)
    case EmptyElement(_, after) => TextOf(after)
    case Element(_, inside, after) => TextOf(inside) + TextOf(after)
  }

  /** `held` is the text captured so far by the element in progress; `overlap` records that a
      capture began inside another. */
  datatype State = State(progress: Progress, held: Option<string>, overlap: bool)

  type ScanResult = Result<Scan, string>
  type StateResult = Result<State, string>

  /** What a start tag gives, and whether it begins a capture. */
  type ScanStart = Result<(Scan, bool), string>
  type StateStart = Result<(State, bool), string>

  /** The element's own name for its attribute values, or the one it inherits. */
  function Scope(tag: Tag, scope: Option<string>): Option<string> {
    if tag.kind.Attribute? then tag.name else scope
  }

  function Hold(held: Option<string>, decoded: Option<string>): Result<Option<string>, string> {
    if held.None? then Ok(None)
    else
      var text :- Extend(held.value, decoded);
      Ok(Some(text))
  }

  /** The start tag of an element, and whether the element's text is wanted. */
  function Begin(s: State, tag: Tag, depth: nat, under: bool): StateStart {
    var entered :- Open(s.progress, tag, depth, under);
    Ok(Begun(s, entered, tag))
  }

  function Begun(s: State, entered: Progress, tag: Tag): (State, bool) {
    if Captures(entered, tag.kind) then (State(BeginCapture(entered, tag.kind), Some(""), s.overlap || s.held.Some?),
                                         true)
    else (s.(progress := entered), false)
  }

  /** The end of an element with text `text`; what surrounds it keeps its own text. */
  function Finish(held: Option<string>, inner: State, kind: Kind, captures: bool, name: Option<string>,
                  text: string): StateResult {
    if !captures then Ok(inner)
    else
      var closed :- EndCapture(inner.progress, kind, name, text);
      Ok(State(closed, if held.Some? then Some(held.value + text) else None, inner.overlap))
  }

  function FinishEmpty(held: Option<string>, begun: StateStart, kind: Kind, name: Option<string>): StateResult {
    var (s, captures) :- begun;
    Finish(held, s, kind, captures, name, "")
  }

  function Recite(m: Markup, depth: nat, under: bool, scope: Option<string>, s: State): (r: StateResult)
    ensures r.Ok? ==> (s.overlap ==> r.value.overlap) && (r.value.held.Some? <==> s.held.Some?)
    decreases m, 1
  {
    match m
    case Nothing => Ok(s)
    case Skipped(after) => Recite(after, depth, under, scope, s)
    case Chars(decoded, after) =>
      var held :- Hold(s.held, decoded);
      Recite(after, depth, under, scope, s.(held := held))
    case EmptyElement(tag, after) =>
      ReciteOn(FinishEmpty(s.held, Begin(s, tag, depth, under), tag.kind, Scope(tag, scope)),
               after, depth, under, scope)
    case Element(tag, inside, after) =>
      ReciteBegun(s.held, Begin(s, tag, depth, under), tag, inside, after, depth, under, scope)
  }

  function ReciteOn(left: StateResult, after: Markup, depth: nat, under: bool, scope: Option<string>):
    (r: StateResult)
    ensures r.Ok? ==> left.Ok? && (left.value.overlap ==> r.value.overlap)
    ensures r.Ok? ==> (r.value.held.Some? <==> left.value.held.Some?)
    decreases after, 2
  {
    if left.Err? then left else Recite(after, depth, under, scope, left.value)
  }

  function ReciteBegun(held: Option<string>, begun: StateStart, tag: Tag, inside: Markup, after: Markup,
                       depth: nat, under: bool, scope: Option<string>): (r: StateResult)
    ensures r.Ok? ==> begun.Ok? && (begun.value.0.overlap ==> r.value.overlap)
    ensures r.Ok? ==> (r.value.held.Some? <==> if begun.value.1 then held.Some? else begun.value.0.held.Some?)
    decreases Element(tag, inside, after), 0
  {
    var (s, captures) :- begun;
    if depth + 1 > SAML_MAX_XML_DEPTH then Err("excessive_nesting")
    else ReciteLeft(Recite(inside, depth + 1, under || tag.kind.Assertion?, Scope(tag, scope), s), held, tag, captures,
                    TextOf(inside), after, depth, under, scope)
  }

  function ReciteLeft(inner: StateResult, held: Option<string>, tag: Tag, captures: bool, text: string, after: Markup,
                      depth: nat, under: bool, scope: Option<string>): (r: StateResult)
    ensures r.Ok? ==> inner.Ok? && (inner.value.overlap ==> r.value.overlap)
    ensures r.Ok? ==> (r.value.held.Some? <==> if captures then held.Some? else inner.value.held.Some?)
    decreases after, 3
  {
    if inner.Err? then inner
    else ReciteOn(Finish(held, inner.value, tag.kind, captures, Scope(tag, scope), text), after, depth, under, scope)
  }

  const START := State(NO_PROGRESS, None, false)

  function Reference(m: Markup): Result<seq<Fact>, string> {
    var s :- Recite(m, 0, false, None, START);
    Ok(Conclude(s.progress))
  }

  /** No text-carrying element inside another. */
  predicate TextsApart(m: Markup, insideText: bool) {
    match m
    case Nothing => true
    case Skipped(after) => TextsApart(after, insideText)
    case Chars(_, after) => TextsApart(after, insideText)
    case EmptyElement(tag, after) =>
      (CarriesText(tag.kind) ==> !insideText) && TextsApart(after, insideText)
    case Element(tag, inside, after) =>
      && (CarriesText(tag.kind) ==> !insideText)
      && TextsApart(inside, insideText || CarriesText(tag.kind))
      && TextsApart(after, insideText)
  }

  predicate KindPlaced(kind: Kind, insideAttribute: bool) {
    && (kind.AttributeValue? ==> insideAttribute)
    && (kind.Attribute? ==> !insideAttribute)
  }

  /** Every AttributeValue is inside an Attribute, and no Attribute is. */
  predicate ValuesPlaced(m: Markup, insideAttribute: bool) {
    match m
    case Nothing => true
    case Skipped(after) => ValuesPlaced(after, insideAttribute)
    case Chars(_, after) => ValuesPlaced(after, insideAttribute)
    case EmptyElement(tag, after) =>
      KindPlaced(tag.kind, insideAttribute) && ValuesPlaced(after, insideAttribute)
    case Element(tag, inside, after) =>
      && KindPlaced(tag.kind, insideAttribute)
      && ValuesPlaced(inside, insideAttribute || tag.kind.Attribute?)
      && ValuesPlaced(after, insideAttribute)
  }

  /** The attribute name the walker remembers behind markup, having come to it with `current`. */
  function NameAfter(m: Markup, current: Option<string>): Option<string>
    decreases m
  {
    match m
    case Nothing => current
    case Skipped(after) => NameAfter(after, current)
    case Chars(_, after) => NameAfter(after, current)
    case EmptyElement(tag, after) => NameAfter(after, Scope(tag, current))
    case Element(tag, inside, after) => NameAfter(after, NameLeft(tag.kind, NameAfter(inside, Scope(tag, current))))
  }

  function NameLeft(kind: Kind, current: Option<string>): Option<string> {
    if kind.Attribute? then None else current
  }

  function NameShown(name: Option<string>): string {
    if name.Some? then name.value else "saml.attribute.value"
  }

  /** An attribute value is filed as under its own scope. */
  predicate Filed(kind: Kind, current: Option<string>, scope: Option<string>) {
    kind.AttributeValue? ==> NameShown(current) == NameShown(scope)
  }

  /** At every attribute value the remembered name is the name of the Attribute around it. */
  predicate NamesHold(m: Markup, scope: Option<string>, current: Option<string>)
    decreases m
  {
    match m
    case Nothing => true
    case Skipped(after) => NamesHold(after, scope, current)
    case Chars(_, after) => NamesHold(after, scope, current)
    case EmptyElement(tag, after) =>
      Filed(tag.kind, Scope(tag, current), Scope(tag, scope)) && NamesHold(after, scope, Scope(tag, current))
    case Element(tag, inside, after) =>
      && Filed(tag.kind, Scope(tag, current), Scope(tag, scope))
      && NamesHold(inside, Scope(tag, scope), Scope(tag, current))
      && NamesHold(after, scope, NameLeft(tag.kind, NameAfter(inside, Scope(tag, current))))
  }

  lemma {:induction false} PlacedNamesHold(m: Markup, insideAttribute: bool, scope: Option<string>,
                                           current: Option<string>)
    requires ValuesPlaced(m, insideAttribute) && (insideAttribute ==> current == scope)
    ensures NamesHold(m, scope, current) && (insideAttribute ==> NameAfter(m, current) == current)
  {
    match m
    case Nothing =>
    case Skipped(after) => PlacedNamesHold(after, insideAttribute, scope, current);
    case Chars(_, after) => PlacedNamesHold(after, insideAttribute, scope, current);
    case EmptyElement(tag, after) => PlacedNamesHold(after, insideAttribute, scope, Scope(tag, current));
    case Element(tag, inside, after) =>
      PlacedNamesHold(inside, insideAttribute || tag.kind.Attribute?, Scope(tag, scope), Scope(tag, current));
      PlacedNamesHold(after, insideAttribute, scope, NameLeft(tag.kind, NameAfter(inside, Scope(tag, current))));
  }

  // ----- Overlap, read off the tree -----

  /** Which first occurrences have gone by. */
  datatype Seen = Seen(issuer: bool, audience: bool)

  predicate Takes(seen: Seen, kind: Kind) {
    CarriesText(kind) && !(kind.Issuer? && seen.issuer) && !(kind.Audience? && seen.audience)
  }

  function Past(seen: Seen, kind: Kind): Seen {
    Seen(seen.issuer || kind.Issuer?, seen.audience || kind.Audience?)
  }

  function PastAll(seen: Seen, m: Markup): Seen
    decreases m
  {
    match m
    case Nothing => seen
    case Skipped(after) => PastAll(seen, after)
    case Chars(_, after) => PastAll(seen, after)
    case EmptyElement(tag, after) => PastAll(Past(seen, tag.kind), after)
    case Element(tag, inside, after) => PastAll(PastAll(Past(seen, tag.kind), inside), after)
  }

  /** Does some element whose text is taken lie inside another one? */
  predicate TextsNest(m: Markup, inside: bool, seen: Seen) {
    match m
    case Nothing => false
    case Skipped(after) => TextsNest(after, inside, seen)
    case Chars(_, after) => TextsNest(after, inside, seen)
    case EmptyElement(tag, after) => (inside && Takes(seen, tag.kind)) || TextsNest(after, inside, Past(seen, tag.kind))
    case Element(tag, content, after) =>
      || (inside && Takes(seen, tag.kind))
      || TextsNest(content, inside || Takes(seen, tag.kind), Past(seen, tag.kind))
      || TextsNest(after, inside, PastAll(Past(seen, tag.kind), content))
  }

  function SeenIn(pr: Progress): Seen {
    Seen(pr.sawIssuer, pr.sawAudience)
  }

  ghost predicate Overlapped(before: State, r: StateResult, nests: bool, seen: Seen) {
    r.Ok? ==> r.value.overlap == (before.overlap || nests) && SeenIn(r.value.progress) == seen
  }

  lemma {:induction false} OverlapIsNesting(m: Markup, depth: nat, under: bool, scope: Option<string>, s: State)
    ensures Overlapped(s, Recite(m, depth, under, scope, s), TextsNest(m, s.held.Some?, SeenIn(s.progress)),
                       PastAll(SeenIn(s.progress), m))
    decreases m, 1
  {
    match m
    case Nothing =>
    case Skipped(after) => OverlapIsNesting(after, depth, under, scope, s);
    case Chars(decoded, after) =>
      if Hold(s.held, decoded).Ok? {
        OverlapIsNesting(after, depth, under, scope, s.(held := Hold(s.held, decoded).value));
      }
    case EmptyElement(tag, after) =>
      EmptyOverlap(s, Begin(s, tag, depth, under), tag, after, depth, under, scope);
    case Element(tag, inside, after) =>
      ElementOverlap(s, Begin(s, tag, depth, under), tag, inside, after, depth, under, scope);
  }

  ghost predicate BegunIn(s: State, begun: StateStart, kind: Kind) {
    begun.Ok? ==>
      && begun.value.1 == Takes(SeenIn(s.progress), kind)
      && SeenIn(begun.value.0.progress) == Past(SeenIn(s.progress), kind)
      && begun.value.0.overlap == (s.overlap || (begun.value.1 && s.held.Some?))
      && begun.value.0.held == (if begun.value.1 then Some("") else s.held)
  }

  lemma {:induction false} EmptyOverlap(s: State, begun: StateStart, tag: Tag, after: Markup,
                                        depth: nat, under: bool, scope: Option<string>)
    requires BegunIn(s, begun, tag.kind)
    ensures var m := EmptyElement(tag, after);
            Overlapped(s, ReciteOn(FinishEmpty(s.held, begun, tag.kind, Scope(tag, scope)), after, depth, under, scope),
                       TextsNest(m, s.held.Some?, SeenIn(s.progress)), PastAll(SeenIn(s.progress), m))
    decreases EmptyElement(tag, after), 0
  {
    var left := FinishEmpty(s.held, begun, tag.kind, Scope(tag, scope));
    if left.Ok? {
      OverlapIsNesting(after, depth, under, scope, left.value);
    }
  }

  lemma {:induction false} ElementOverlap(s: State, begun: StateStart, tag: Tag, inside: Markup, after: Markup,
                                          depth: nat, under: bool, scope: Option<string>)
    requires BegunIn(s, begun, tag.kind)
    ensures var m := Element(tag, inside, after);
            Overlapped(s, ReciteBegun(s.held, begun, tag, inside, after, depth, under, scope),
                       TextsNest(m, s.held.Some?, SeenIn(s.progress)), PastAll(SeenIn(s.progress), m))
    decreases Element(tag, inside, after), 0
  {
    hide Finish, TextOf, EndCapture, Recite, ReciteLeft;
    if begun.Ok? && depth + 1 <= SAML_MAX_XML_DEPTH {
      var below := under || tag.kind.Assertion?;
      OverlapIsNesting(inside, depth + 1, below, Scope(tag, scope), begun.value.0);
      LeftOverlap(s.held, Recite(inside, depth + 1, below, Scope(tag, scope), begun.value.0), tag, begun.value.1,
                  TextOf(inside),
                  after, depth, under, scope);
    }
  }

  lemma {:induction false} LeftOverlap(held: Option<string>, inner: StateResult, tag: Tag, captures: bool, text: string,
                                       after: Markup, depth: nat, under: bool, scope: Option<string>)
    requires inner.Ok? && !captures ==> inner.value.held.Some? == held.Some?
    ensures inner.Ok? ==>
              Overlapped(inner.value, ReciteLeft(inner, held, tag, captures, text, after, depth, under, scope),
                         TextsNest(after, held.Some?,
                                   SeenIn(inner.value.progress)), PastAll(SeenIn(inner.value.progress), after))
    decreases after, 2
  {
    if inner.Ok? {
      var left := Finish(held, inner.value, tag.kind, captures, Scope(tag, scope), text);
      if left.Ok? {
        OverlapIsNesting(after, depth, under, scope, left.value);
      }
    }
  }
}
