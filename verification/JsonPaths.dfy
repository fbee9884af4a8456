/** What a JSON body comes to, by its keys and indices alone: which of its values become facts, under
    which names, and when names tell values apart. */
module JsonPaths {
  import opened Results
  import opened IamFacts
  import opened Utf8
  import opened Strings
  import opened JsonFacts

  /** A key, and the index of the element taken of the array behind it. */
  datatype Segment = Segment(key: string, index: Option<nat>)

  /** A value that becomes a fact, and how it is reached. */
  datatype Leaf = Leaf(path: seq<Segment>, value: Json, secret: bool)

  /** Key k1 to key kn, with an index in brackets behind the keys of arrays. */
  function Texts(path: seq<Segment>): seq<string> {
    seq(|path|, i requires 0 <= i < |path| =>
      path[i].key + if path[i].index.Some? then "[" + Decimal(path[i].index.value) + "]" else "")
  }

  /** Empty texts at the front leave no dot. */
  function WithoutEmpty(texts: seq<string>): seq<string> {
    if texts != [] && texts[0] == "" then WithoutEmpty(texts[1..]) else texts
  }

  function PathName(path: seq<Segment>): string {
    Join(WithoutEmpty(Texts(path)), ".")
  }

  /** The same letters, but for ASCII case. */
  predicate SameLetters(a: string, b: string) {
    && |a| == |b|
    && forall i :: 0 <= i < |a| ==> a[i] == b[i] || ('a' <= b[i] <= 'z' && a[i] as int + 32 == b[i] as int)
  }

  predicate IsSecret(key: string) {
    || SameLetters(key, "code") || SameLetters(key, "access_token") || SameLetters(key, "refresh_token")
    || SameLetters(key, "id_token") || SameLetters(key, "client_secret") || SameLetters(key, "password")
    || SameLetters(key, "authorization") || SameLetters(key, "cookie") || SameLetters(key, "set-cookie")
    || SameLetters(key, "samlresponse") || SameLetters(key, "samlrequest")
  }

  /** All of an object, in order: the whole value of a secret key; of any other key the leaves of its
      object, the elements of its array, with the leaves of those that are objects, or its value. */
  function Leaves(v: Json): seq<Leaf>
    decreases v, 2, 0
  {
    if v.Object? then LeavesFrom(v, 0) else []
  }

  function LeavesFrom(v: Json, i: nat): seq<Leaf>
    requires v.Object? && i <= |v.fields|
    decreases v, 1, |v.fields| - i
  {
    if i == |v.fields| then [] else LeavesOf(v.fields[i]) + LeavesFrom(v, i + 1)
  }

  function LeavesOf(f: Field): seq<Leaf>
    decreases f, 0, 0
  {
    var here := Segment(f.key, None);
    if IsSecret(f.key) then [Leaf([here], f.value, true)]
    else
      match f.value
      case Object(_) => Behind(here, Leaves(f.value))
      case Array(_) => ElementLeaves(f.key, f.value, 0)
      case _ => [Leaf([here], f.value, false)]
  }

  function ElementLeaves(key: string, v: Json, i: nat): seq<Leaf>
    requires v.Array? && i <= |v.items|
    decreases v, 1, |v.items| - i
  {
    if i == |v.items| then []
    else
      var here := Segment(key, Some(i));
      (if v.items[i].Object? then Behind(here, Leaves(v.items[i])) else [Leaf([here], v.items[i], false)])
      + ElementLeaves(key, v, i + 1)
  }

  function Behind(here: Segment, leaves: seq<Leaf>): seq<Leaf> {
    seq(|leaves|, i requires 0 <= i < |leaves| => leaves[i].(path := [here] + leaves[i].path))
  }

  function LeafFact(name: string, leaf: Leaf): Fact {
    var text := if leaf.value.Text? then leaf.value.text else Render(leaf.value);
    Fact(name, if leaf.secret then Redacted(Sha256(text)) else Observed(text))
  }

  // ----- Names step by step -----

  function NamedBehind(prefix: string, path: seq<Segment>): string {
    Join(WithoutEmpty([prefix] + Texts(path)), ".")
  }

  function FactsBehind(prefix: string, leaves: seq<Leaf>): seq<Fact> {
    seq(|leaves|, i requires 0 <= i < |leaves| => LeafFact(NamedBehind(prefix, leaves[i].path), leaves[i]))
  }

  function StepText(prefix: string, here: Segment): string {
    if here.index.Some? then ItemName(FieldName(prefix, here.key), here.index.value) else FieldName(prefix, here.key)
  }

  lemma TextsOne(here: Segment)
    ensures Texts([here]) == [StepText("", here)]
  {
    hide Decimal;
    if here.index.Some? {
      assert here.key + "[" + Decimal(here.index.value) + "]" == here.key + ("[" + Decimal(here.index.value) + "]");
    } else {
      assert here.key + "" == here.key;
    }
  }

  lemma StepTextIs(prefix: string, here: Segment)
    ensures StepText(prefix, here) == if prefix == "" then StepText("", here) else prefix + "." + StepText("", here)
  {
    hide Decimal;
    if prefix != "" && here.index.Some? {
      var index := "[" + Decimal(here.index.value) + "]";
      assert prefix + "." + here.key + "[" + Decimal(here.index.value) + "]" == prefix + "." + (here.key + index);
      assert here.key + "[" + Decimal(here.index.value) + "]" == here.key + index;
    }
  }

  lemma JoinFirstTwo(a: string, b: string, more: seq<string>)
    ensures Join([a, b] + more, ".") == Join([a + "." + b] + more, ".")
  {
    assert ([a, b] + more)[1..] == [b] + more;
    assert ([b] + more)[1..] == more && ([a + "." + b] + more)[1..] == more;
    if more == [] {
      assert [a, b] + more == [a, b] && [b] + more == [b] && [a + "." + b] + more == [a + "." + b];
    } else {
      assert Join([a, b] + more, ".") == a + "." + (b + "." + Join(more, "."));
    }
  }

  lemma StepsAreNamed(prefix: string, here: Segment, rest: seq<Segment>)
    ensures NamedBehind(prefix, [here] + rest) == NamedBehind(StepText(prefix, here), rest)
  {
    hide StepText, Join;
    var text, more := StepText("", here), Texts(rest);
    TextsOne(here);
    assert Texts([here] + rest) == Texts([here]) + more;
    StepTextIs(prefix, here);
    var texts := [prefix] + Texts([here] + rest);
    assert texts == [prefix, text] + more && texts[1..] == [text] + more;
    if prefix != "" {
      assert WithoutEmpty(texts) == texts;
      JoinFirstTwo(prefix, text, more);
      assert WithoutEmpty([prefix + "." + text] + more) == [prefix + "." + text] + more;
    }
  }

  lemma LastStepIsNamed(prefix: string, here: Segment)
    ensures NamedBehind(prefix, [here]) == StepText(prefix, here)
  {
    hide StepText;
    var text := StepText(prefix, here);
    StepsAreNamed(prefix, here, []);
    assert [here] + [] == [here];
    assert Texts([]) == [];
    assert [text] + Texts([]) == [text];
    assert [text][1..] == [];
    assert WithoutEmpty([text]) == if text == "" then [] else [text];
    assert Join(WithoutEmpty([text]), ".") == text;
  }

  lemma FactsBehindStep(prefix: string, here: Segment, leaves: seq<Leaf>)
    ensures FactsBehind(prefix, Behind(here, leaves)) == FactsBehind(StepText(prefix, here), leaves)
  {
    hide StepText, NamedBehind, LeafFact;
    forall i | 0 <= i < |leaves|
      ensures NamedBehind(prefix, Behind(here, leaves)[i].path) == NamedBehind(StepText(prefix, here), leaves[i].path)
    {
      StepsAreNamed(prefix, here, leaves[i].path);
    }
    forall i | 0 <= i < |leaves|
      ensures LeafFact(NamedBehind(prefix, Behind(here, leaves)[i].path), Behind(here, leaves)[i])
              == LeafFact(NamedBehind(StepText(prefix, here), leaves[i].path), leaves[i])
    {
      SameFact(NamedBehind(StepText(prefix, here), leaves[i].path), Behind(here, leaves)[i], leaves[i]);
    }
  }

  lemma SameFact(name: string, a: Leaf, b: Leaf)
    requires a.value == b.value && a.secret == b.secret
    ensures LeafFact(name, a) == LeafFact(name, b)
  {
  }

  lemma FactsBehindConcat(prefix: string, a: seq<Leaf>, b: seq<Leaf>)
    ensures FactsBehind(prefix, a + b) == FactsBehind(prefix, a) + FactsBehind(prefix, b)
  {
    hide NamedBehind, LeafFact;
  }

  // ----- Sensitive names -----

  lemma LettersAreLowered(a: string, b: string)
    requires forall i :: 0 <= i < |b| ==> !('A' <= b[i] <= 'Z')
    ensures SameLetters(a, b) <==> ToAsciiLower(a) == b
  {
    forall i | 0 <= i < |a|
      ensures |ToAsciiLower(a)| == |a|
      ensures ToAsciiLower(a)[i] == if 'A' <= a[i] <= 'Z' then a[i] - 'A' + 'a' else a[i]
    {
      LowerAt(a, i);
    }
    assert a == "" ==> ToAsciiLower(a) == "";
    if SameLetters(a, b) {
      forall i | 0 <= i < |a| ensures ToAsciiLower(a)[i] == b[i] {
        assert a[i] == b[i] || ('a' <= b[i] <= 'z' && a[i] as int + 32 == b[i] as int);
      }
    }
  }

  lemma NamesAreLower(k: nat)
    requires k < |SENSITIVE_NAMES|
    ensures forall i :: 0 <= i < |SENSITIVE_NAMES[k]| ==> !('A' <= SENSITIVE_NAMES[k][i] <= 'Z')
  {
  }

  lemma SomeOfEleven(key: string)
    ensures IsSecret(key) <==> exists k :: 0 <= k < |SENSITIVE_NAMES| && SameLetters(key, SENSITIVE_NAMES[k])
  {
    hide SameLetters;
    if IsSecret(key) {
      var names := SENSITIVE_NAMES;
      assert || SameLetters(key, names[0]) || SameLetters(key, names[1]) || SameLetters(key, names[2])
             || SameLetters(key, names[3]) || SameLetters(key, names[4]) || SameLetters(key, names[5])
             || SameLetters(key, names[6]) || SameLetters(key, names[7]) || SameLetters(key, names[8])
             || SameLetters(key, names[9]) || SameLetters(key, names[10]);
    }
  }

  /** The sensitive names are those eleven, whatever the case of their letters. */
  lemma SecretsAreSensitive(key: string)
    ensures IsSecret(key) <==> IsSensitiveName(key)
  {
    hide SameLetters, ToAsciiLower, IsSecret, Contains;
    ContainsIsIn(SENSITIVE_NAMES, ToAsciiLower(key));
    SomeOfEleven(key);
    forall k | 0 <= k < |SENSITIVE_NAMES|
      ensures SameLetters(key, SENSITIVE_NAMES[k]) <==> ToAsciiLower(key) == SENSITIVE_NAMES[k]
    {
      NamesAreLower(k);
      LettersAreLowered(key, SENSITIVE_NAMES[k]);
    }
    hide SENSITIVE_NAMES;
  }

  // ----- The flattening -----

  lemma ValueFact(name: string, value: Json, secret: bool, path: seq<Segment>)
    ensures LeafFact(name, Leaf(path, value, secret)) == FactOf(name, Plain(value), secret)
  {
  }

  lemma OneLeaf(prefix: string, here: Segment, value: Json, secret: bool)
    ensures FactsBehind(prefix, [Leaf([here], value, secret)])
            == [FactOf(StepText(prefix, here), Plain(value), secret)]
  {
    hide NamedBehind, StepText, LeafFact, Plain;
    LastStepIsNamed(prefix, here);
    ValueFact(StepText(prefix, here), value, secret, [here]);
  }

  lemma {:induction false} LeavesAreFlattened(v: Json, prefix: string)
    ensures Flatten(v, prefix) == FactsBehind(prefix, Leaves(v))
    decreases v, 2, 0
  {
    if v.Object? {
      FieldsAreFlattened(v, 0, prefix);
    }
  }

  lemma {:induction false} FieldsAreFlattened(v: Json, i: nat, prefix: string)
    requires v.Object? && i <= |v.fields|
    ensures FlattenFields(v, i, prefix) == FactsBehind(prefix, LeavesFrom(v, i))
    decreases v, 1, |v.fields| - i
  {
    hide FlattenField, LeavesOf, FieldName, NamedBehind, LeafFact;
    if i < |v.fields| {
      FieldIsFlattened(v.fields[i], prefix);
      FieldsAreFlattened(v, i + 1, prefix);
      FactsBehindConcat(prefix, LeavesOf(v.fields[i]), LeavesFrom(v, i + 1));
    }
  }

  lemma {:induction false} FieldIsFlattened(f: Field, prefix: string)
    ensures FlattenField(f, FieldName(prefix, f.key)) == FactsBehind(prefix, LeavesOf(f))
    decreases f, 0, 0
  {
    hide IsSensitiveName, IsSecret, FieldName, FactsBehind, Plain, Behind, FactOf;
    SecretsAreSensitive(f.key);
    var here := Segment(f.key, None);
    assert StepText(prefix, here) == FieldName(prefix, f.key);
    if IsSecret(f.key) {
      OneLeaf(prefix, here, f.value, true);
    } else if f.value.Object? {
      LeavesAreFlattened(f.value, FieldName(prefix, f.key));
      FactsBehindStep(prefix, here, Leaves(f.value));
    } else if f.value.Array? {
      ElementsAreFlattened(f.key, f.value, 0, prefix);
    } else {
      OneLeaf(prefix, here, f.value, false);
    }
  }

  lemma {:induction false} ElementsAreFlattened(key: string, v: Json, i: nat, prefix: string)
    requires v.Array? && i <= |v.items|
    ensures FlattenItems(v, i, FieldName(prefix, key)) == FactsBehind(prefix, ElementLeaves(key, v, i))
    decreases v, 1, |v.items| - i
  {
    hide FieldName, NamedBehind, LeafFact, Plain, Behind, FactOf, ItemName;
    if i < |v.items| {
      var here, item := Segment(key, Some(i)), v.items[i];
      assert StepText(prefix, here) == ItemName(FieldName(prefix, key), i);
      ElementsAreFlattened(key, v, i + 1, prefix);
      if item.Object? {
        LeavesAreFlattened(item, StepText(prefix, here));
        FactsBehindStep(prefix, here, Leaves(item));
        FactsBehindConcat(prefix, Behind(here, Leaves(item)), ElementLeaves(key, v, i + 1));
      } else {
        OneLeaf(prefix, here, item, false);
        FactsBehindConcat(prefix, [Leaf([here], item, false)], ElementLeaves(key, v, i + 1));
      }
    }
  }

  /** The facts of a body are its leaves, in order, each under the keys to it joined by dots, with the
      index in brackets at each array, and redacted if it is the value of a secret key. */
  lemma LeavesAreNamedByPath(v: Json)
    ensures var leaves, facts := Leaves(v), Flatten(v, "");
            && |facts| == |leaves|
            && forall i :: 0 <= i < |leaves| ==> facts[i] == LeafFact(PathName(leaves[i].path), leaves[i])
  {
    hide LeafFact;
    LeavesAreFlattened(v, "");
    var leaves := Leaves(v);
    forall i | 0 <= i < |leaves| ensures NamedBehind("", leaves[i].path) == PathName(leaves[i].path) {
      hide Join;
      assert ([""] + Texts(leaves[i].path))[1..] == Texts(leaves[i].path);
    }
  }

  /** Two keys, one inside the other. */
  lemma KeysAreJoined(a: string, b: string, text: string)
    requires a != "" && !IsSecret(a) && !IsSecret(b)
    ensures Flatten(Object([Field(a, Object([Field(b, Text(text))]))]), "") == [Fact(a + "." + b, Observed(text))]
  {
    hide IsSecret, Flatten;
    var inner := Object([Field(b, Text(text))]);
    var v, leaf := Object([Field(a, inner)]), Leaf([Segment(a, None), Segment(b, None)], Text(text), false);
    assert LeavesFrom(inner, 1) == [];
    assert Leaves(inner) == LeavesFrom(inner, 0) == [Leaf([Segment(b, None)], Text(text), false)];
    assert LeavesFrom(v, 1) == [];
    assert [Segment(a, None)] + [Segment(b, None)] == leaf.path;
    assert Behind(Segment(a, None), Leaves(inner)) == [leaf];
    assert Leaves(v) == LeavesFrom(v, 0) == [leaf];
    LeavesAreNamedByPath(v);
    assert a + "" == a && b + "" == b;
    assert Texts(leaf.path) == [a, b];
    assert [a, b][1..] == [b];
    assert Join([a, b], ".") == a + "." + b;
  }

  // ----- Names that tell apart -----

  /** No key has a dot or an opening bracket, and the first is not empty, or has an index. */
  predicate Clear(path: seq<Segment>) {
    && path != [] && (path[0].key != "" || path[0].index.Some?)
    && forall i :: 0 <= i < |path| ==> '.' !in path[i].key && '[' !in path[i].key
  }

  lemma TextsAreApart(a: Segment, b: Segment)
    requires '[' !in a.key && '[' !in b.key && Texts([a]) == Texts([b])
    ensures a == b
  {
    var s := Texts([a])[0];
    assert s == Texts([b])[0];
    TextSplits(a);
    TextSplits(b);
    assert a.index.None? ==> s == a.key + "" == a.key;
    assert b.index.None? ==> s == b.key + "" == b.key;
    if a.index.Some? && b.index.Some? {
      DecimalDigits(a.index.value);
      DecimalDigits(b.index.value);
      var d, e := Decimal(a.index.value), Decimal(b.index.value);
      assert d + "]" == e + "]" && |d + "]"| == |e + "]"|;
      assert (d + "]")[..|d|] == d && (e + "]")[..|e|] == e;
    }
  }

  lemma TextSplits(a: Segment)
    requires '[' !in a.key
    ensures SplitOnce(Texts([a])[0], '[')
            == if a.index.Some? then Some((a.key, Decimal(a.index.value) + "]")) else None
  {
    if a.index.Some? {
      var d := Decimal(a.index.value);
      assert Texts([a])[0] == a.key + ['['] + (d + "]");
      SplitOnceFinds(a.key, '[', d + "]");
    } else {
      assert Texts([a])[0] == a.key;
      SplitOnceMisses(a.key, '[');
    }
  }

  lemma NoDots(path: seq<Segment>)
    requires Clear(path)
    ensures forall t :: t in Texts(path) ==> '.' !in t
  {
    forall i | 0 <= i < |path| ensures '.' !in Texts(path)[i] {
      if path[i].index.Some? {
        DecimalDigits(path[i].index.value);
      }
    }
  }

  /** Different ways through a body have different names, for keys without dots and brackets. */
  lemma PathsAreToldApart(p: seq<Segment>, q: seq<Segment>)
    requires Clear(p) && Clear(q) && PathName(p) == PathName(q)
    ensures p == q
  {
    NoDots(p);
    NoDots(q);
    assert WithoutEmpty(Texts(p)) == Texts(p) && WithoutEmpty(Texts(q)) == Texts(q);
    SplitJoin(Texts(p), '.');
    SplitJoin(Texts(q), '.');
    forall i | 0 <= i < |p| ensures p[i] == q[i] {
      assert Texts(p)[i] == Texts(q)[i];
      assert Texts([p[i]]) == [Texts(p)[i]] && Texts([q[i]]) == [Texts(q)[i]];
      TextsAreApart(p[i], q[i]);
    }
    assert |Texts(p)| == |p| && |Texts(q)| == |q|;
  }

  /** A key with a dot is named like two keys, for any two, and an empty key in front is not seen. */
  lemma NamesCanClash(a: string, b: string)
    requires a != ""
    ensures PathName([Segment(a + "." + b, None)]) == PathName([Segment(a, None), Segment(b, None)]) == a + "." + b
    ensures PathName([Segment("", None), Segment(a, None)]) == PathName([Segment(a, None)]) == a
  {
    var whole := a + "." + b;
    assert whole + "" == whole && a + "" == a && b + "" == b && "" + "" == "";
    assert Texts([Segment(whole, None)]) == [whole] && Texts([Segment(a, None), Segment(b, None)]) == [a, b];
    assert Texts([Segment("", None), Segment(a, None)]) == ["", a] && Texts([Segment(a, None)]) == [a];
    assert ["", a][1..] == [a] && [a, b][1..] == [b];
    assert WithoutEmpty([a]) == [a] == WithoutEmpty(["", a]);
    assert Join([a, b], ".") == a + "." + b;
  }

  // ----- No two leaves in one place -----

  /** No object has two fields of the same key, wherever it is followed. */
  predicate KeysDiffer(v: Json) {
    match v
    case Object(fields) =>
      && (forall i, j :: 0 <= i < j < |fields| ==> fields[i].key != fields[j].key)
      && forall i :: 0 <= i < |fields| ==> KeysDiffer(fields[i].value)
    case Array(items) => forall i :: 0 <= i < |items| ==> KeysDiffer(items[i])
    case _ => true
  }

  ghost predicate AllApart(leaves: seq<Leaf>) {
    forall i, j :: 0 <= i < j < |leaves| ==> leaves[i].path != leaves[j].path
  }

  /** They begin with that key, with an index of at least `low` or none. */
  ghost predicate Start(leaves: seq<Leaf>, keys: set<string>, low: nat) {
    forall i :: 0 <= i < |leaves| ==>
      && leaves[i].path != [] && leaves[i].path[0].key in keys
      && (leaves[i].path[0].index.Some? ==> leaves[i].path[0].index.value >= low)
  }

  lemma BehindApart(here: Segment, leaves: seq<Leaf>)
    requires AllApart(leaves)
    ensures AllApart(Behind(here, leaves))
  {
    var behind := Behind(here, leaves);
    forall i, j | 0 <= i < j < |leaves| ensures behind[i].path != behind[j].path {
      assert behind[i].path[1..] == leaves[i].path && behind[j].path[1..] == leaves[j].path;
    }
  }

  function KeysFrom(v: Json, i: nat): set<string>
    requires v.Object? && i <= |v.fields|
  {
    set k | i <= k < |v.fields| :: v.fields[k].key
  }

  lemma {:induction false} LeavesApart(v: Json)
    requires KeysDiffer(v)
    ensures AllApart(Leaves(v))
    decreases v, 2, 0
  {
    if v.Object? {
      FieldLeavesApart(v, 0);
    }
  }

  lemma {:induction false} FieldLeavesApart(v: Json, i: nat)
    requires v.Object? && i <= |v.fields| && KeysDiffer(v)
    ensures AllApart(LeavesFrom(v, i)) && Start(LeavesFrom(v, i), KeysFrom(v, i), 0)
    decreases v, 1, |v.fields| - i
  {
    hide LeavesOf;
    if i < |v.fields| {
      OneFieldApart(v.fields[i]);
      FieldLeavesApart(v, i + 1);
      assert v.fields[i].key !in KeysFrom(v, i + 1);
      var a, b := LeavesOf(v.fields[i]), LeavesFrom(v, i + 1);
      forall k, l | 0 <= k < |a| && 0 <= l < |b| ensures a[k].path != b[l].path {
        assert a[k].path[0].key != b[l].path[0].key;
      }
    }
  }

  lemma {:induction false} OneFieldApart(f: Field)
    requires KeysDiffer(f.value)
    ensures AllApart(LeavesOf(f)) && Start(LeavesOf(f), {f.key}, 0)
    decreases f, 0, 0
  {
    hide IsSecret;
    if !IsSecret(f.key) {
      if f.value.Object? {
        LeavesApart(f.value);
        BehindApart(Segment(f.key, None), Leaves(f.value));
      } else if f.value.Array? {
        ElementLeavesApart(f.key, f.value, 0);
      }
    }
  }

  lemma {:induction false} ElementLeavesApart(key: string, v: Json, i: nat)
    requires v.Array? && i <= |v.items| && KeysDiffer(v)
    ensures AllApart(ElementLeaves(key, v, i)) && Start(ElementLeaves(key, v, i), {key}, i)
    ensures forall k :: 0 <= k < |ElementLeaves(key, v, i)| ==> ElementLeaves(key, v, i)[k].path[0].index.Some?
    decreases v, 1, |v.items| - i
  {
    if i < |v.items| {
      ElementLeavesApart(key, v, i + 1);
      var here := Segment(key, Some(i));
      if v.items[i].Object? {
        LeavesApart(v.items[i]);
        BehindApart(here, Leaves(v.items[i]));
      }
      var a := if v.items[i].Object? then Behind(here, Leaves(v.items[i])) else [Leaf([here], v.items[i], false)];
      var b := ElementLeaves(key, v, i + 1);
      forall k, l | 0 <= k < |a| && 0 <= l < |b| ensures a[k].path != b[l].path {
        assert a[k].path[0].index == Some(i);
        assert b[l].path[0].index.value >= i + 1;
      }
    }
  }

  /** In a body whose objects do not repeat a key, no two facts have the same name, if no key on the
      way to them has a dot or a bracket. */
  lemma NamesAreDistinct(v: Json, i: nat, j: nat)
    requires KeysDiffer(v) && i < j < |Flatten(v, "")|
    requires forall k :: 0 <= k < |Leaves(v)| ==> Clear(Leaves(v)[k].path)
    ensures Flatten(v, "")[i].name != Flatten(v, "")[j].name
  {
    LeavesAreNamedByPath(v);
    LeavesApart(v);
    hide PathName, Leaves, Flatten, KeysDiffer;
    var leaves := Leaves(v);
    assert leaves[i].path != leaves[j].path;
    if PathName(leaves[i].path) == PathName(leaves[j].path) {
      PathsAreToldApart(leaves[i].path, leaves[j].path);
    }
  }

  // ----- What is rendered -----

  /** The character that a hex digit stands for is of value 0 to 15. */
  function DigitOf(c: char): nat {
    if '0' <= c <= '9' then c as int - 48 else if 'a' <= c <= 'f' then c as int - 87 else 0
  }

  /** A string of section 7 of RFC 8259, from behind its opening quote: what it says and what follows
      its closing quote. */
  function ReadString(s: string): Option<(string, string)>
    decreases |s|
  {
    if s == "" then None
    else if s[0] == '\"' then Some(("", s[1..]))
    else if s[0] != '\\' then Then(s[0], ReadString(s[1..]))
    else if |s| < 2 then None
    else if s[1] == 'u' then
      if |s| < 6 || s[2] != '0' || s[3] != '0' then None
      else Then((DigitOf(s[4]) * 16 + DigitOf(s[5])) as char, ReadString(s[6..]))
    else if Short(s[1]).Some? then Then(Short(s[1]).value, ReadString(s[2..]))
    else None
  }

  /** What a backslash makes of the character behind it. */
  function Short(c: char): Option<char> {
    match c
    case 'n' => Some('\n')
    case 'r' => Some('\r')
    case 't' => Some('\t')
    case 'b' => Some('\U{8}')
    case 'f' => Some('\U{C}')
    case '\"' => Some('\"')
    case '\\' => Some('\\')
    case _ => None
  }

  function Then(c: char, rest: Option<(string, string)>): Option<(string, string)> {
    if rest.None? then None else Some(([c] + rest.value.0, rest.value.1))
  }

  /** An escape is of one of three forms. */
  lemma EscapeIs(c: char)
    ensures var e := EscapeChar(c);
            || (e == [c] && c != '\"' && c != '\\')
            || (|e| == 2 && e[0] == '\\' && e[1] != 'u' && Short(e[1]) == Some(c))
            || (c < ' ' && e == "\\u00" + [HEX[c as int / 16], HEX[c as int % 16]])
  {
    hide HEX;
  }

  lemma CharIsRead(c: char, more: string)
    ensures ReadString(EscapeChar(c) + more) == Then(c, ReadString(more))
  {
    EscapeIs(c);
    var e := EscapeChar(c);
    if c < ' ' && e == "\\u00" + [HEX[c as int / 16], HEX[c as int % 16]] {
      ControlIsRead(c, e, more);
    } else if |e| == 2 {
      ShortIsRead(c, e, more);
    } else {
      hide EscapeChar, Short, HEX;
      assert (e + more)[1..] == more;
    }
  }

  lemma ShortIsRead(c: char, e: string, more: string)
    requires |e| == 2 && e[0] == '\\' && e[1] != 'u' && Short(e[1]) == Some(c)
    ensures ReadString(e + more) == Then(c, ReadString(more))
  {
    hide Short;
    var s := e + more;
    assert s[0] == '\\' && s[1] == e[1] && s[2..] == more;
  }

  lemma ControlIsRead(c: char, e: string, more: string)
    requires c < ' ' && e == "\\u00" + [HEX[c as int / 16], HEX[c as int % 16]]
    ensures ReadString(e + more) == Then(c, ReadString(more))
  {
    ControlIsHex(c);
    hide HEX, DigitOf, Short;
    var s := e + more;
    assert s[0] == '\\' && s[1] == 'u' && s[2] == '0' && s[3] == '0' && s[6..] == more;
    assert s[4] == e[4] && s[5] == e[5];
  }

  lemma ControlIsHex(c: char)
    requires c < ' '
    ensures DigitOf(HEX[c as int / 16]) * 16 + DigitOf(HEX[c as int % 16]) == c as int
  {
    DigitOfHex(c as int / 16);
    DigitOfHex(c as int % 16);
  }

  lemma DigitOfHex(n: nat)
    requires n < 16
    ensures DigitOf(HEX[n]) == n
  {
  }

  /** Every text can be read back from its quoted form, whatever follows. */
  lemma {:induction false} QuotedIsRead(text: string, rest: string)
    ensures Quoted(text) == "\"" + Quoted(text)[1..] && ReadString(Quoted(text)[1..] + rest) == Some((text, rest))
    decreases |text|
  {
    hide EscapeChar;
    assert Quoted(text)[1..] == Escape(text) + "\"";
    if text == "" {
      assert Escape(text) + "\"" + rest == "\"" + rest;
      assert ("\"" + rest)[1..] == rest;
    } else {
      var more := Escape(text[1..]) + "\"" + rest;
      assert Quoted(text[1..])[1..] == Escape(text[1..]) + "\"";
      QuotedIsRead(text[1..], rest);
      assert Escape(text) + "\"" + rest == EscapeChar(text[0]) + more;
      CharIsRead(text[0], more);
      assert [text[0]] + text[1..] == text;
    }
  }

  function Rendered(items: seq<Json>): seq<string> {
    seq(|items|, i requires 0 <= i < |items| => Render(items[i]))
  }

  function RenderedFields(fields: seq<Field>): seq<string> {
    seq(|fields|, i requires 0 <= i < |fields| => Quoted(fields[i].key) + ":" + Render(fields[i].value))
  }

  lemma JoinLater(pieces: seq<string>)
    requires |pieces| > 1
    ensures Join(pieces, ",") == pieces[0] + ("," + Join(pieces[1..], ","))
  {
  }

  lemma {:induction false} ItemsAreJoined(v: Json, i: nat)
    requires v.Array? && i < |v.items|
    ensures RenderItems(v, i) == (if i == 0 then "" else ",") + Join(Rendered(v.items)[i..], ",")
    decreases |v.items| - i
  {
    hide Render, Join;
    var pieces := Rendered(v.items)[i..];
    assert pieces[1..] == Rendered(v.items)[i + 1..];
    if i + 1 < |v.items| {
      ItemsAreJoined(v, i + 1);
      JoinLater(pieces);
    } else {
      assert RenderItems(v, i + 1) == "";
      JoinOne(pieces);
    }
  }

  lemma {:induction false} FieldsAreJoined(v: Json, i: nat)
    requires v.Object? && i < |v.fields|
    ensures RenderFields(v, i) == (if i == 0 then "" else ",") + Join(RenderedFields(v.fields)[i..], ",")
    decreases |v.fields| - i
  {
    hide Render, Join, Quoted;
    var pieces := RenderedFields(v.fields)[i..];
    assert pieces[1..] == RenderedFields(v.fields)[i + 1..];
    if i + 1 < |v.fields| {
      FieldsAreJoined(v, i + 1);
      JoinLater(pieces);
    } else {
      assert RenderFields(v, i + 1) == "";
      JoinOne(pieces);
    }
  }

  lemma JoinOne(pieces: seq<string>)
    requires |pieces| == 1
    ensures Join(pieces, ",") == pieces[0]
  {
  }

  lemma ArrayIsJoined(items: seq<Json>)
    ensures RenderItems(Array(items), 0) == Join(Rendered(items), ",")
  {
    hide Join, Render;
    if items != [] {
      ItemsAreJoined(Array(items), 0);
      assert Rendered(items)[0..] == Rendered(items);
    } else {
      JoinNone(Rendered(items));
    }
  }

  lemma ObjectIsJoined(fields: seq<Field>)
    ensures RenderFields(Object(fields), 0) == Join(RenderedFields(fields), ",")
  {
    hide Join, Render, Quoted;
    if fields != [] {
      FieldsAreJoined(Object(fields), 0);
      assert RenderedFields(fields)[0..] == RenderedFields(fields);
    } else {
      JoinNone(RenderedFields(fields));
    }
  }

  /** Arrays and objects are rendered as their parts with commas between them. */
  lemma PartsAreJoined(items: seq<Json>, fields: seq<Field>)
    ensures Render(Array(items)) == "[" + Join(Rendered(items), ",") + "]"
    ensures Render(Object(fields)) == "{" + Join(RenderedFields(fields), ",") + "}"
  {
    hide Join, RenderItems, RenderFields;
    ArrayIsJoined(items);
    ObjectIsJoined(fields);
  }

  lemma JoinNone(pieces: seq<string>)
    requires pieces == []
    ensures Join(pieces, ",") == ""
  {
  }

  // ----- What is accepted -----

  /** How many objects deep the objects that are followed go, below the outermost. */
  function Depth(v: Json): nat
    decreases v, 2, 0
  {
    if v.Object? then DepthFrom(v, 0) else 0
  }

  function DepthFrom(v: Json, i: nat): nat
    requires v.Object? && i <= |v.fields|
    decreases v, 1, |v.fields| - i
  {
    if i == |v.fields| then 0 else Deeper(DepthOf(v.fields[i]), DepthFrom(v, i + 1))
  }

  function DepthOf(f: Field): nat
    decreases f, 0, 0
  {
    if IsSecret(f.key) then 0
    else
      match f.value
      case Object(_) => 1 + Depth(f.value)
      case Array(_) => DepthInArray(f.value, 0)
      case _ => 0
  }

  function DepthInArray(v: Json, i: nat): nat
    requires v.Array? && i <= |v.items|
    decreases v, 1, |v.items| - i
  {
    if i == |v.items| then 0
    else Deeper(if v.items[i].Object? then 1 + Depth(v.items[i]) else 0, DepthInArray(v, i + 1))
  }

  function Deeper(a: nat, b: nat): nat {
    if a > b then a else b
  }

  lemma {:induction false} DepthIsBounded(v: Json, depth: nat)
    ensures Shallow(v, depth) <==> depth + Depth(v) <= 8
    decreases v, 2, 0
  {
    if v.Object? && depth <= 8 {
      FieldsAreBounded(v, 0, depth);
    }
  }

  lemma {:induction false} FieldsAreBounded(v: Json, i: nat, depth: nat)
    requires v.Object? && i <= |v.fields| && depth <= 8
    ensures ShallowFields(v, i, depth) <==> depth + DepthFrom(v, i) <= 8
    decreases v, 1, |v.fields| - i
  {
    hide ShallowField, DepthOf;
    if i < |v.fields| {
      FieldIsBounded(v.fields[i], depth);
      FieldsAreBounded(v, i + 1, depth);
    }
  }

  lemma {:induction false} FieldIsBounded(f: Field, depth: nat)
    requires depth <= 8
    ensures ShallowField(f, depth) <==> depth + DepthOf(f) <= 8
    decreases f, 0, 0
  {
    hide IsSecret, IsSensitiveName;
    SecretsAreSensitive(f.key);
    match f.value
    case Object(_) => DepthIsBounded(f.value, depth + 1);
    case Array(_) => ItemsAreBounded(f.value, 0, depth);
    case _ =>
  }

  lemma {:induction false} ItemsAreBounded(v: Json, i: nat, depth: nat)
    requires v.Array? && i <= |v.items| && depth <= 8
    ensures ShallowItems(v, i, depth) <==> depth + DepthInArray(v, i) <= 8
    decreases v, 1, |v.items| - i
  {
    if i < |v.items| {
      ItemsAreBounded(v, i + 1, depth);
      if v.items[i].Object? {
        DepthIsBounded(v.items[i], depth + 1);
      }
    }
  }

  function LeafText(leaf: Leaf): string {
    if leaf.value.Text? then leaf.value.text else Render(leaf.value)
  }

  lemma LeafIsBounded(leaf: Leaf)
    ensures Bounded(LeafFact(PathName(leaf.path), leaf)) <==>
            ByteLength(PathName(leaf.path)) <= 256 && ByteLength(LeafText(leaf)) <= 16384
  {
    hide PathName, ByteLength;
  }

  /** A body is accepted exactly if no object that is followed is more than eight below the outermost,
      it has at most 64 leaves, and no name of one takes more than 256 bytes, and no value more than
      16384. */
  lemma BodiesAreAccepted(v: Json)
    ensures Accepted(0, Flatten(v, ""), Shallow(v, 0)) <==>
            && Depth(v) <= 8 && |Leaves(v)| <= 64
            && forall i :: 0 <= i < |Leaves(v)| ==>
                 ByteLength(PathName(Leaves(v)[i].path)) <= 256 && ByteLength(LeafText(Leaves(v)[i])) <= 16384
  {
    DepthIsBounded(v, 0);
    LeavesAreNamedByPath(v);
    var leaves, facts := Leaves(v), Flatten(v, "");
    forall i | 0 <= i < |leaves|
      ensures Bounded(facts[i]) <==>
              ByteLength(PathName(leaves[i].path)) <= 256 && ByteLength(LeafText(leaves[i])) <= 16384
    {
      LeafIsBounded(leaves[i]);
    }
    hide Bounded, PathName, LeafText, ByteLength, Leaves, Flatten, Shallow, Depth;
    assert forall f :: f in facts ==> exists i :: 0 <= i < |facts| && facts[i] == f;
    assert forall i :: 0 <= i < |facts| ==> facts[i] in facts;
  }
}
