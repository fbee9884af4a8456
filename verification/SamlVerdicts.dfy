/** When and only when the event walker gives the facts of the reference. */
module SamlVerdicts {
  import opened Results
  import opened SamlMarkup
  import opened SamlWalker
  import opened SamlReference
  import opened SamlAgreement
  import opened SamlLosses

  lemma SameFactsSameConclusion(p: Progress, q: Progress)
    requires Fewer(p, q) && |p.facts| == |q.facts|
    ensures Conclude(p) == Conclude(q) <==> p.facts == q.facts
  {
    if Conclude(p) == Conclude(q) {
      assert p.facts == Conclude(p)[..|p.facts|] && q.facts == Conclude(q)[..|q.facts|];
    }
  }

  predicate Nests(m: Markup) {
    TextsNest(m, false, Seen(false, false))
  }

  /** For every document in which no element whose text is taken lies inside another, the event
      walker fails with the same first error as the reference or succeeds as it does; and it gives
      the reference facts exactly when each attribute value is met under the name of the Attribute
      around it. */
  lemma NamesDecide(m: Markup)
    requires !Nests(m)
    ensures var walked, reference := Parse(Events(m)), Reference(m);
            if reference.Err? then walked == reference
            else
              && walked.Ok? && |walked.value| == |reference.value|
              && (walked == reference <==> NamesHold(m, None, None))
  {
    ParseWalksTree(m);
    WalkAgrees(m, 0, false, None, START_SCAN, START);
    hide Conclude, Walk, Recite, NamesHold, NameAfter, Events, TextsNest;
    var r, e := Walk(m, 0, false, START_SCAN), Recite(m, 0, false, None, START);
    if r.Ok? {
      SameFactsSameConclusion(r.value.progress, e.value.progress);
      ConcludeAdds(r.value.progress);
      ConcludeAdds(e.value.progress);
    }
  }

  lemma ConcludeAdds(pr: Progress)
    ensures |Conclude(pr)| == |pr.facts| + 3
  {
  }

  lemma {:induction false} ApartTextsDoNotNest(m: Markup, insideText: bool, inside: bool, seen: Seen)
    requires TextsApart(m, insideText) && (inside ==> insideText)
    ensures !TextsNest(m, inside, seen)
  {
    match m
    case Nothing =>
    case Skipped(after) => ApartTextsDoNotNest(after, insideText, inside, seen);
    case Chars(_, after) => ApartTextsDoNotNest(after, insideText, inside, seen);
    case EmptyElement(tag, after) => ApartTextsDoNotNest(after, insideText, inside, Past(seen, tag.kind));
    case Element(tag, content, after) =>
      var past := Past(seen, tag.kind);
      ApartTextsDoNotNest(content, insideText || CarriesText(tag.kind), inside || Takes(seen, tag.kind), past);
      ApartTextsDoNotNest(after, insideText, inside, PastAll(past, content));
  }

  /** In particular if text elements do not nest at all, attribute values are in attributes, and
      attributes not in each other. */
  lemma WalkerMeetsReference(m: Markup)
    requires TextsApart(m, false) && ValuesPlaced(m, false)
    ensures Parse(Events(m)) == Reference(m)
  {
    hide NamesHold, Parse, Reference, TextsNest;
    ApartTextsDoNotNest(m, false, false, Seen(false, false));
    NamesDecide(m);
    PlacedNamesHold(m, false, None, None);
  }

  /** Exactly when the walker agrees, for documents the reference accepts: when texts do not nest
      and names hold. It always succeeds, and it loses facts exactly where texts nest. */
  lemma NestingAndNamesDecide(m: Markup)
    requires Reference(m).Ok?
    ensures Parse(Events(m)).Ok?
    ensures Parse(Events(m)) == Reference(m) <==> !Nests(m) && NamesHold(m, None, None)
    ensures Nests(m) <==> |Parse(Events(m)).value| < |Reference(m).value|
  {
    hide Conclude, Walk, Recite, NamesHold, NameAfter, Events, TextsNest;
    var r, e := Walk(m, 0, false, START_SCAN), Recite(m, 0, false, None, START);
    if Nests(m) {
      ParseWalksTree(m);
      OverlapIsNesting(m, 0, false, None, START);
      WalkLags(m, 0, false, None, START_SCAN, START);
      ConcludeAdds(r.value.progress);
      ConcludeAdds(e.value.progress);
    } else {
      NamesDecide(m);
    }
  }

  /** Of all documents: the walker rejects none that the reference accepts, and accepts one that
      the reference rejects only where texts nest. */
  lemma OnlyNestingIsLenient(m: Markup)
    ensures Parse(Events(m)).Err? ==> Reference(m).Err?
    ensures Parse(Events(m)).Ok? && Reference(m).Err? ==> Nests(m)
  {
    hide Parse, Reference, NamesHold, Events, Nests;
    if Reference(m).Ok? {
      NestingAndNamesDecide(m);
    } else if !Nests(m) {
      NamesDecide(m);
    }
  }
}
