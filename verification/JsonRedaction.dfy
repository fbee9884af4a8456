/** What the redaction in `flatten_json_facts` does to the sensitive fields of a body, and what it
    lets be seen of them. */
module JsonRedaction {
  import opened Utf8
  import opened Strings
  import opened IamFacts
  import opened JsonFacts

  /** `v` with `mask` for the value of every sensitive field. */
  function Scrub(v: Json, mask: Json): Json
    decreases v, 1
  {
    match v
    case Object(fields) => Object(seq(|fields|, i requires 0 <= i < |fields| => ScrubField(fields[i], mask)))
    case Array(items) => Array(seq(|items|, i requires 0 <= i < |items| => Scrub(items[i], mask)))
    case _ => v
  }

  function ScrubField(f: Field, mask: Json): Field
    decreases f, 0
  {
    Field(f.key, if IsSensitiveName(f.key) then mask else Scrub(f.value, mask))
  }

  /** The sensitive fields anywhere in `v`, those inside a sensitive field's value apart. */
  function Secrets(v: Json): nat
    decreases v, 2, 0
  {
    match v
    case Object(_) => FieldSecrets(v, 0)
    case Array(_) => ItemSecrets(v, 0)
    case _ => 0
  }

  function FieldSecrets(v: Json, i: nat): nat
    requires v.Object? && i <= |v.fields|
    decreases v, 1, |v.fields| - i
  {
    if i == |v.fields| then 0
    else (if IsSensitiveName(v.fields[i].key) then 1 else Secrets(v.fields[i].value)) + FieldSecrets(v, i + 1)
  }

  function ItemSecrets(v: Json, i: nat): nat
    requires v.Array? && i <= |v.items|
    decreases v, 1, |v.items| - i
  {
    if i == |v.items| then 0 else Secrets(v.items[i]) + ItemSecrets(v, i + 1)
  }

  /** The sensitive fields inside an array that is itself an element of an array. */
  function Exposed(v: Json): nat
    decreases v, 2, 0
  {
    match v
    case Object(_) => FieldsExposed(v, 0)
    case Array(_) => ItemsExposed(v, 0)
    case _ => 0
  }

  function FieldsExposed(v: Json, i: nat): nat
    requires v.Object? && i <= |v.fields|
    decreases v, 1, |v.fields| - i
  {
    if i == |v.fields| then 0
    else (if IsSensitiveName(v.fields[i].key) then 0 else Exposed(v.fields[i].value)) + FieldsExposed(v, i + 1)
  }

  function ItemsExposed(v: Json, i: nat): nat
    requires v.Array? && i <= |v.items|
    decreases v, 1, |v.items| - i
  {
    if i == |v.items| then 0
    else (if v.items[i].Array? then Secrets(v.items[i]) else Exposed(v.items[i])) + ItemsExposed(v, i + 1)
  }

  /** No array is an element of an array. */
  predicate ArraysApart(v: Json) {
    match v
    case Object(fields) => forall i :: 0 <= i < |fields| ==> ArraysApart(fields[i].value)
    case Array(items) => forall i :: 0 <= i < |items| ==> !items[i].Array? && ArraysApart(items[i])
    case _ => true
  }

  // ----- Every secret is redacted once, or exposed -----

  datatype PathStep = Key(key: string) | Index(index: nat)

  /** A sensitive field, by where it is and what it says. */
  datatype Secret = Secret(path: seq<PathStep>, value: string)

  function StepName(name: string, step: PathStep): string {
    match step
    case Key(key) => FieldName(name, key)
    case Index(index) => ItemName(name, index)
  }

  function NameAt(name: string, path: seq<PathStep>): string
    decreases |path|
  {
    if path == [] then name else NameAt(StepName(name, path[0]), path[1..])
  }

  function Under(step: PathStep, secrets: seq<Secret>): seq<Secret> {
    seq(|secrets|, i requires 0 <= i < |secrets| => Secret([step] + secrets[i].path, secrets[i].value))
  }

  /** The sensitive fields of `v` in order, those inside a sensitive field's value apart, and
      those in arrays inside arrays only on demand. */
  function SecretFields(v: Json, nested: bool): seq<Secret>
    decreases v, 2, 0
  {
    match v
    case Object(_) => SecretsInFields(v, 0, nested)
    case Array(_) => SecretsInItems(v, 0, nested)
    case _ => []
  }

  function SecretsInFields(v: Json, i: nat, nested: bool): seq<Secret>
    requires v.Object? && i <= |v.fields|
    decreases v, 1, |v.fields| - i
  {
    if i == |v.fields| then []
    else SecretsInField(v.fields[i], nested) + SecretsInFields(v, i + 1, nested)
  }

  function SecretsInField(f: Field, nested: bool): seq<Secret>
    decreases f, 0, 0
  {
    if IsSensitiveName(f.key) then [Secret([Key(f.key)], Plain(f.value))]
    else Under(Key(f.key), SecretFields(f.value, nested))
  }

  function SecretsInItems(v: Json, i: nat, nested: bool): seq<Secret>
    requires v.Array? && i <= |v.items|
    decreases v, 1, |v.items| - i
  {
    if i == |v.items| then []
    else
      var here := if v.items[i].Array? && !nested then [] else Under(Index(i), SecretFields(v.items[i], nested));
      here + SecretsInItems(v, i + 1, nested)
  }

  /** The redacted facts among `facts`, in order. */
  function RedactedOnly(facts: seq<Fact>): seq<Fact> {
    if facts == [] then [] else (if facts[0].status.Redacted? then [facts[0]] else []) + RedactedOnly(facts[1..])
  }

  /** Each secret as a redacted fact, named by its path. */
  function SecretFacts(name: string, secrets: seq<Secret>): seq<Fact> {
    seq(|secrets|, i requires 0 <= i < |secrets| => FactOf(NameAt(name, secrets[i].path), secrets[i].value, true))
  }

  lemma {:induction false} RedactedConcat(a: seq<Fact>, b: seq<Fact>)
    ensures RedactedOnly(a + b) == RedactedOnly(a) + RedactedOnly(b)
    decreases |a|
  {
    if a == [] {
      assert a + b == b;
    } else {
      assert (a + b)[1..] == a[1..] + b;
      RedactedConcat(a[1..], b);
      var first := if a[0].status.Redacted? then [a[0]] else [];
      assert first + (RedactedOnly(a[1..]) + RedactedOnly(b)) == first + RedactedOnly(a[1..]) + RedactedOnly(b);
    }
  }

  lemma SecretFactsConcat(name: string, a: seq<Secret>, b: seq<Secret>)
    ensures SecretFacts(name, a + b) == SecretFacts(name, a) + SecretFacts(name, b)
  {
    hide NameAt;
  }

  lemma SecretFactsUnder(name: string, step: PathStep, secrets: seq<Secret>)
    ensures SecretFacts(name, Under(step, secrets)) == SecretFacts(StepName(name, step), secrets)
  {
    hide StepName;
    forall i | 0 <= i < |secrets|
      ensures NameAt(name, Under(step, secrets)[i].path) == NameAt(StepName(name, step), secrets[i].path)
    {
      assert ([step] + secrets[i].path)[1..] == secrets[i].path;
    }
  }

  lemma {:induction false} ValueRedacts(v: Json, name: string)
    ensures RedactedOnly(FlattenValue(v, name)) == SecretFacts(name, SecretFields(v, false))
    decreases v, 2, 0
  {
    match v
    case Object(_) => FieldsRedact(v, 0, name);
    case Array(_) => ItemsRedact(v, 0, name);
    case _ =>
  }

  lemma {:induction false} FieldsRedact(v: Json, i: nat, prefix: string)
    requires v.Object? && i <= |v.fields|
    ensures RedactedOnly(FlattenFields(v, i, prefix)) == SecretFacts(prefix, SecretsInFields(v, i, false))
    decreases v, 1, |v.fields| - i
  {
    hide IsSensitiveName, FieldName, FlattenField, SecretFacts, SecretsInField;
    if i < |v.fields| {
      var f := v.fields[i];
      RedactedConcat(FlattenField(f, FieldName(prefix, f.key)), FlattenFields(v, i + 1, prefix));
      SecretFactsConcat(prefix, SecretsInField(f, false), SecretsInFields(v, i + 1, false));
      FieldRedacts(f, prefix);
      FieldsRedact(v, i + 1, prefix);
    } else {
      NoSecretNoFact(prefix);
    }
  }

  lemma NoSecretNoFact(name: string)
    ensures SecretFacts(name, []) == []
  {
  }

  lemma {:induction false} FieldRedacts(f: Field, prefix: string)
    ensures RedactedOnly(FlattenField(f, FieldName(prefix, f.key))) == SecretFacts(prefix, SecretsInField(f, false))
    decreases f, 0, 0
  {
    hide IsSensitiveName, FieldName, Plain;
    if IsSensitiveName(f.key) {
      assert [Key(f.key)][1..] == [];
      assert NameAt(prefix, [Key(f.key)]) == NameAt(FieldName(prefix, f.key), []);
    } else {
      SecretFactsUnder(prefix, Key(f.key), SecretFields(f.value, false));
      ValueRedacts(f.value, FieldName(prefix, f.key));
    }
  }

  lemma {:induction false} ItemsRedact(v: Json, i: nat, name: string)
    requires v.Array? && i <= |v.items|
    ensures RedactedOnly(FlattenItems(v, i, name)) == SecretFacts(name, SecretsInItems(v, i, false))
    decreases v, 1, |v.items| - i
  {
    hide SecretFacts, ItemName, Plain;
    NoSecretNoFact(name);
    if i < |v.items| {
      var item, itemName := v.items[i], ItemName(name, i);
      var here := if item.Array? then [] else Under(Index(i), SecretFields(item, false));
      RedactedConcat(FlattenItem(item, itemName), FlattenItems(v, i + 1, name));
      SecretFactsConcat(name, here, SecretsInItems(v, i + 1, false));
      ItemsRedact(v, i + 1, name);
      if item.Array? {
        assert RedactedOnly([FactOf(itemName, Plain(item), false)]) == [];
      } else {
        SecretFactsUnder(name, Index(i), SecretFields(item, false));
        ValueRedacts(item, itemName);
      }
    }
  }

  /** Counting them: every secret is listed, and those not exposed are those followed. */
  lemma {:induction false} SecretsAreListed(v: Json)
    ensures |SecretFields(v, true)| == Secrets(v) && |SecretFields(v, false)| + Exposed(v) == Secrets(v)
    ensures Exposed(v) == 0 ==> SecretFields(v, false) == SecretFields(v, true)
    decreases v, 2, 0
  {
    match v
    case Object(_) => FieldSecretsAreListed(v, 0);
    case Array(_) => ItemSecretsAreListed(v, 0);
    case _ =>
  }

  lemma {:induction false} FieldSecretsAreListed(v: Json, i: nat)
    requires v.Object? && i <= |v.fields|
    ensures |SecretsInFields(v, i, true)| == FieldSecrets(v, i)
    ensures |SecretsInFields(v, i, false)| + FieldsExposed(v, i) == FieldSecrets(v, i)
    ensures FieldsExposed(v, i) == 0 ==> SecretsInFields(v, i, false) == SecretsInFields(v, i, true)
    decreases v, 1, |v.fields| - i
  {
    hide IsSensitiveName, Plain;
    if i < |v.fields| {
      SecretsAreListed(v.fields[i].value);
      FieldSecretsAreListed(v, i + 1);
    }
  }

  lemma {:induction false} ItemSecretsAreListed(v: Json, i: nat)
    requires v.Array? && i <= |v.items|
    ensures |SecretsInItems(v, i, true)| == ItemSecrets(v, i)
    ensures |SecretsInItems(v, i, false)| + ItemsExposed(v, i) == ItemSecrets(v, i)
    ensures ItemsExposed(v, i) == 0 ==> SecretsInItems(v, i, false) == SecretsInItems(v, i, true)
    decreases v, 1, |v.items| - i
  {
    if i < |v.items| {
      SecretsAreListed(v.items[i]);
      ItemSecretsAreListed(v, i + 1);
      if v.items[i].Array? && Secrets(v.items[i]) == 0 {
        assert Under(Index(i), SecretFields(v.items[i], true)) == [];
      }
    }
  }

  // ----- What can be seen of a secret -----

  function BlankFact(f: Fact): Fact {
    if f.status.Redacted? then f.(status := Redacted(Sha256(""))) else f
  }

  /** The facts with every digest blotted out. */
  function Blank(facts: seq<Fact>): seq<Fact> {
    seq(|facts|, i requires 0 <= i < |facts| => BlankFact(facts[i]))
  }

  lemma BlankConcat(a: seq<Fact>, b: seq<Fact>)
    ensures Blank(a + b) == Blank(a) + Blank(b)
  {
  }

  lemma {:induction false} NothingToScrub(v: Json, mask: Json)
    requires Secrets(v) == 0
    ensures Scrub(v, mask) == v
    decreases v, 2, 0
  {
    match v
    case Object(fields) =>
      NoFieldToScrub(v, 0, mask);
      assert Scrub(v, mask).fields == fields;
    case Array(items) =>
      NoItemToScrub(v, 0, mask);
      assert Scrub(v, mask).items == items;
    case _ =>
  }

  lemma {:induction false} NoFieldToScrub(v: Json, i: nat, mask: Json)
    requires v.Object? && i <= |v.fields| && FieldSecrets(v, i) == 0
    ensures forall k :: i <= k < |v.fields| ==> ScrubField(v.fields[k], mask) == v.fields[k]
    decreases v, 1, |v.fields| - i
  {
    if i < |v.fields| {
      NothingToScrub(v.fields[i].value, mask);
      NoFieldToScrub(v, i + 1, mask);
    }
  }

  lemma {:induction false} NoItemToScrub(v: Json, i: nat, mask: Json)
    requires v.Array? && i <= |v.items| && ItemSecrets(v, i) == 0
    ensures forall k :: i <= k < |v.items| ==> Scrub(v.items[k], mask) == v.items[k]
    decreases v, 1, |v.items| - i
  {
    if i < |v.items| {
      NothingToScrub(v.items[i], mask);
      NoItemToScrub(v, i + 1, mask);
    }
  }

  lemma {:induction false} ValueHides(v: Json, name: string, mask: Json)
    requires Exposed(v) == 0
    ensures Blank(FlattenValue(v, name)) == Blank(FlattenValue(Scrub(v, mask), name))
    decreases v, 2, 0
  {
    match v
    case Object(_) => FieldsHide(v, 0, name, mask);
    case Array(_) => ItemsHide(v, 0, name, mask);
    case _ =>
  }

  lemma {:induction false} FieldHides(f: Field, name: string, mask: Json)
    requires !IsSensitiveName(f.key) ==> Exposed(f.value) == 0
    ensures Blank(FlattenField(f, name)) == Blank(FlattenField(ScrubField(f, mask), name))
    decreases f, 0, 0
  {
    hide IsSensitiveName, Plain;
    if !IsSensitiveName(f.key) {
      ValueHides(f.value, name, mask);
    }
  }

  lemma {:induction false} FieldsHide(v: Json, i: nat, prefix: string, mask: Json)
    requires v.Object? && i <= |v.fields| && FieldsExposed(v, i) == 0
    ensures Blank(FlattenFields(v, i, prefix)) == Blank(FlattenFields(Scrub(v, mask), i, prefix))
    decreases v, 1, |v.fields| - i
  {
    hide IsSensitiveName, FieldName, FlattenField, Blank;
    if i < |v.fields| {
      var f := v.fields[i];
      var name := FieldName(prefix, f.key);
      FieldHides(f, name, mask);
      FieldsHide(v, i + 1, prefix, mask);
      BlankConcat(FlattenField(f, name), FlattenFields(v, i + 1, prefix));
      BlankConcat(FlattenField(ScrubField(f, mask), name), FlattenFields(Scrub(v, mask), i + 1, prefix));
    }
  }

  lemma {:induction false} ItemsHide(v: Json, i: nat, name: string, mask: Json)
    requires v.Array? && i <= |v.items| && ItemsExposed(v, i) == 0
    ensures Blank(FlattenItems(v, i, name)) == Blank(FlattenItems(Scrub(v, mask), i, name))
    decreases v, 1, |v.items| - i
  {
    if i < |v.items| {
      var item, itemName := v.items[i], ItemName(name, i);
      if item.Array? {
        NothingToScrub(item, mask);
      } else {
        ValueHides(item, itemName, mask);
      }
      ItemsHide(v, i + 1, name, mask);
      BlankConcat(FlattenItem(item, itemName), FlattenItems(v, i + 1, name));
      BlankConcat(FlattenItem(Scrub(item, mask), itemName), FlattenItems(Scrub(v, mask), i + 1, name));
    }
  }

  /** How much text is in the open. */
  function Openly(facts: seq<Fact>): nat {
    if facts == [] then 0
    else (if facts[0].status.Redacted? then 0 else |Content(facts[0].status)|) + Openly(facts[1..])
  }

  lemma {:induction false} OpenlyConcat(a: seq<Fact>, b: seq<Fact>)
    ensures Openly(a + b) == Openly(a) + Openly(b)
    decreases |a|
  {
    if a == [] {
      assert a + b == b;
    } else {
      assert (a + b)[1..] == a[1..] + b;
      OpenlyConcat(a[1..], b);
    }
  }

  lemma {:induction false} BlankingShowsAsMuch(facts: seq<Fact>)
    ensures Openly(Blank(facts)) == Openly(facts)
    decreases |facts|
  {
    if facts != [] {
      assert Blank(facts)[1..] == Blank(facts[1..]);
      BlankingShowsAsMuch(facts[1..]);
    }
  }

  const SHORT := Text("")
  const LONGER := Text("x")

  lemma QuotedLengths()
    ensures |Quoted("x")| == |Quoted("")| + 1
  {
    assert Escape("x") == EscapeChar('x') + Escape("x"[1..]) == "x" + "";
  }

  /** Rendering shows every secret. */
  lemma {:induction false} RenderShows(v: Json)
    ensures |Render(Scrub(v, LONGER))| == |Render(Scrub(v, SHORT))| + Secrets(v)
    decreases v, 2, 0
  {
    match v
    case Object(_) => RenderFieldsShows(v, 0);
    case Array(_) => RenderItemsShows(v, 0);
    case _ =>
  }

  lemma {:induction false} RenderFieldsShows(v: Json, i: nat)
    requires v.Object? && i <= |v.fields|
    ensures |RenderFields(Scrub(v, LONGER), i)| == |RenderFields(Scrub(v, SHORT), i)| + FieldSecrets(v, i)
    decreases v, 1, |v.fields| - i
  {
    hide IsSensitiveName, Quoted;
    if i < |v.fields| {
      if IsSensitiveName(v.fields[i].key) {
        QuotedLengths();
      } else {
        RenderShows(v.fields[i].value);
      }
      RenderFieldsShows(v, i + 1);
    }
  }

  lemma {:induction false} RenderItemsShows(v: Json, i: nat)
    requires v.Array? && i <= |v.items|
    ensures |RenderItems(Scrub(v, LONGER), i)| == |RenderItems(Scrub(v, SHORT), i)| + ItemSecrets(v, i)
    decreases v, 1, |v.items| - i
  {
    if i < |v.items| {
      RenderShows(v.items[i]);
      RenderItemsShows(v, i + 1);
    }
  }

  lemma OpenlyOne(f: Fact)
    ensures Openly([f]) == if f.status.Redacted? then 0 else |Content(f.status)|
  {
    assert [f][1..] == [];
  }

  lemma {:induction false} ValueShows(v: Json, name: string)
    ensures Openly(FlattenValue(Scrub(v, LONGER), name)) == Openly(FlattenValue(Scrub(v, SHORT), name)) + Exposed(v)
    decreases v, 2, 0
  {
    match v
    case Object(_) => FieldsShow(v, 0, name);
    case Array(_) => ItemsShow(v, 0, name);
    case _ =>
  }

  lemma {:induction false} FieldShows(f: Field, name: string)
    ensures Openly(FlattenField(ScrubField(f, LONGER), name))
            == Openly(FlattenField(ScrubField(f, SHORT), name))
               + if IsSensitiveName(f.key) then 0 else Exposed(f.value)
    decreases f, 0, 0
  {
    hide Openly, FlattenValue, Render, IsSensitiveName;
    if IsSensitiveName(f.key) {
      OpenlyOne(FactOf(name, "x", true));
      OpenlyOne(FactOf(name, "", true));
    } else {
      ValueShows(f.value, name);
    }
  }

  lemma {:induction false} FieldsShow(v: Json, i: nat, prefix: string)
    requires v.Object? && i <= |v.fields|
    ensures Openly(FlattenFields(Scrub(v, LONGER), i, prefix))
            == Openly(FlattenFields(Scrub(v, SHORT), i, prefix)) + FieldsExposed(v, i)
    decreases v, 1, |v.fields| - i
  {
    hide Openly, FlattenField, FieldName, IsSensitiveName;
    if i < |v.fields| {
      var f := v.fields[i];
      var name := FieldName(prefix, f.key);
      FieldShows(f, name);
      FieldsShow(v, i + 1, prefix);
      OpenlyConcat(FlattenField(ScrubField(f, LONGER), name), FlattenFields(Scrub(v, LONGER), i + 1, prefix));
      OpenlyConcat(FlattenField(ScrubField(f, SHORT), name), FlattenFields(Scrub(v, SHORT), i + 1, prefix));
    }
  }

  /** An array inside an array shows all its secrets. */
  lemma {:induction false} ItemShows(item: Json, name: string)
    ensures Openly(FlattenItem(Scrub(item, LONGER), name))
            == Openly(FlattenItem(Scrub(item, SHORT), name)) + if item.Array? then Secrets(item) else Exposed(item)
    decreases item, 3, 0
  {
    hide Openly, Render;
    if item.Array? {
      RenderShows(item);
      OpenlyOne(FactOf(name, Render(Scrub(item, LONGER)), false));
      OpenlyOne(FactOf(name, Render(Scrub(item, SHORT)), false));
    } else {
      ValueShows(item, name);
    }
  }

  lemma {:induction false} ItemsShow(v: Json, i: nat, name: string)
    requires v.Array? && i <= |v.items|
    ensures Openly(FlattenItems(Scrub(v, LONGER), i, name))
            == Openly(FlattenItems(Scrub(v, SHORT), i, name)) + ItemsExposed(v, i)
    decreases v, 1, |v.items| - i
  {
    hide Openly, FlattenItem, Secrets, Exposed;
    if i < |v.items| {
      var item, itemName := v.items[i], ItemName(name, i);
      ItemShows(item, itemName);
      ItemsShow(v, i + 1, name);
      OpenlyConcat(FlattenItem(Scrub(item, LONGER), itemName), FlattenItems(Scrub(v, LONGER), i + 1, name));
      OpenlyConcat(FlattenItem(Scrub(item, SHORT), itemName), FlattenItems(Scrub(v, SHORT), i + 1, name));
    } else {
      assert FlattenItems(Scrub(v, LONGER), i, name) == FlattenItems(Scrub(v, SHORT), i, name) == [];
    }
  }

  // ----- Whole bodies -----

  /** Putting anything in the place of the sensitive values shows nowhere, digests apart. */
  ghost predicate SecretsHidden(v: Json, prefix: string) {
    forall mask :: Blank(Flatten(v, prefix)) == Blank(Flatten(Scrub(v, mask), prefix))
  }

  /** The redacted facts of a body are its sensitive fields, one each, in order, under their
      paths, those in arrays inside arrays apart; and the values of sensitive fields stay hidden
      exactly when there are none of those. */
  lemma RedactionIsExact(v: Json, prefix: string)
    requires v.Object?
    ensures RedactedOnly(Flatten(v, prefix)) == SecretFacts(prefix, SecretFields(v, false))
    ensures |SecretFields(v, false)| + Exposed(v) == |SecretFields(v, true)|
    ensures SecretsHidden(v, prefix) <==> Exposed(v) == 0
  {
    ValueRedacts(v, prefix);
    SecretsAreListed(v);
    if Exposed(v) == 0 {
      forall mask {
        ValueHides(v, prefix, mask);
      }
    } else {
      ValueShows(v, prefix);
      BlankingShowsAsMuch(Flatten(Scrub(v, LONGER), prefix));
      BlankingShowsAsMuch(Flatten(Scrub(v, SHORT), prefix));
    }
  }

  /** Bodies that differ only in the values of sensitive fields, each in its own way. */
  ghost predicate DifferInSecrets(v: Json, w: Json) {
    Scrub(v, Null) == Scrub(w, Null)
  }

  lemma {:induction false} ScrubKeepsCounts(v: Json, mask: Json)
    ensures Secrets(Scrub(v, mask)) == Secrets(v) && Exposed(Scrub(v, mask)) == Exposed(v)
    decreases v, 2, 0
  {
    match v
    case Object(_) => ScrubKeepsFieldCounts(v, 0, mask);
    case Array(_) => ScrubKeepsItemCounts(v, 0, mask);
    case _ =>
  }

  lemma {:induction false} ScrubKeepsFieldCounts(v: Json, i: nat, mask: Json)
    requires v.Object? && i <= |v.fields|
    ensures FieldSecrets(Scrub(v, mask), i) == FieldSecrets(v, i) && FieldsExposed(Scrub(v, mask), i)
            == FieldsExposed(v, i)
    decreases v, 1, |v.fields| - i
  {
    hide IsSensitiveName;
    if i < |v.fields| {
      ScrubKeepsCounts(v.fields[i].value, mask);
      ScrubKeepsFieldCounts(v, i + 1, mask);
    }
  }

  lemma {:induction false} ScrubKeepsItemCounts(v: Json, i: nat, mask: Json)
    requires v.Array? && i <= |v.items|
    ensures ItemSecrets(Scrub(v, mask), i) == ItemSecrets(v, i) && ItemsExposed(Scrub(v, mask), i) == ItemsExposed(v, i)
    decreases v, 1, |v.items| - i
  {
    if i < |v.items| {
      ScrubKeepsCounts(v.items[i], mask);
      ScrubKeepsItemCounts(v, i + 1, mask);
    }
  }

  /** Where none is exposed, what is shown does not depend on the secrets. */
  lemma SecretsDoNotMatter(v: Json, w: Json, prefix: string)
    requires v.Object? && DifferInSecrets(v, w) && Exposed(v) == 0
    ensures Blank(Flatten(v, prefix)) == Blank(Flatten(w, prefix))
  {
    ScrubKeepsCounts(v, Null);
    ScrubKeepsCounts(w, Null);
    assert w.Object?;
    ValueHides(v, prefix, Null);
    ValueHides(w, prefix, Null);
  }

  const NESTED_SECRET := Object([Field("a", Array([Array([Object([Field("code", Text("s"))])])]))])

  lemma NestedSecretCounts()
    ensures Exposed(NESTED_SECRET) == 1
  {
    hide IsSensitiveName;
    CodeIsSensitive();
    ShortNamesAreNotSensitive("a");
    var body := Object([Field("code", Text("s"))]);
    assert FieldSecrets(body, 1) == 0;
    assert Secrets(body) == FieldSecrets(body, 0) == 1;
    var inner := Array([body]);
    assert ItemSecrets(inner, 1) == 0;
    assert Secrets(inner) == ItemSecrets(inner, 0) == 1;
    var outer := Array([inner]);
    assert ItemsExposed(outer, 1) == 0;
    assert Exposed(outer) == ItemsExposed(outer, 0) == 1;
    assert FieldsExposed(NESTED_SECRET, 1) == 0;
  }

  const CODE_BODY := Object([Field("code", Text("s"))])

  lemma CodeBodyRendered()
    ensures Render(CODE_BODY) == "{\"code\":\"s\"}"
  {
    assert Escape("s") == "s" + Escape("") == "s";
    CodeEscaped();
    assert RenderFields(CODE_BODY, 1) == "";
  }

  lemma CodeEscaped()
    ensures Escape("code") == "code"
  {
    assert "code"[1..] == "ode" && "ode"[1..] == "de" && "de"[1..] == "e" && "e"[1..] == "";
    assert Escape("e") == "e" + Escape("") == "e";
    assert Escape("de") == "d" + Escape("e");
    assert Escape("ode") == "o" + Escape("de");
    assert Escape("code") == "c" + Escape("ode");
  }

  lemma InnerRendered()
    ensures Render(Array([CODE_BODY])) == "[{\"code\":\"s\"}]"
  {
    CodeBodyRendered();
    assert RenderItems(Array([CODE_BODY]), 1) == "";
    hide RenderFields;
  }

  /** An array in an array is one fact. */
  lemma InnerArrayFlattened(key: string, inner: Json)
    requires inner.Array? && !IsSensitiveName(key)
    ensures var v := Object([Field(key, Array([inner]))]);
            Flatten(v, "") == [FactOf(ItemName(key, 0), Render(inner), false)] && Shallow(v, 0)
  {
    hide IsSensitiveName, Render, ItemName, FactOf;
    var v, outer := Object([Field(key, Array([inner]))]), Array([inner]);
    OneItem(inner, key);
    assert FlattenFields(v, 1, "") == [] && ShallowFields(v, 1, 0);
    hide FlattenItems, ShallowItems;
    assert FlattenField(v.fields[0], key) == FlattenItems(outer, 0, key);
    assert ShallowField(v.fields[0], 0) == ShallowItems(outer, 0, 0);
  }

  lemma OneItem(inner: Json, name: string)
    requires inner.Array?
    ensures var outer := Array([inner]);
            && FlattenItems(outer, 0, name) == [FactOf(ItemName(name, 0), Render(inner), false)]
            && ShallowItems(outer, 0, 0)
  {
    hide Render, ItemName, FactOf;
    assert FlattenItems(Array([inner]), 1, name) == [] && ShallowItems(Array([inner]), 1, 0);
  }

  lemma FirstOf(name: string)
    ensures ItemName(name, 0) == name + "[0]"
  {
    assert Decimal(0) == "0";
    assert "[" + "0" + "]" == "[0]";
    assert name + "[" + "0" + "]" == name + ("[" + "0" + "]");
  }

  lemma ShortFactIsAccepted(name: string, value: string)
    requires Ascii(name) && Ascii(value) && |name| <= IAM_MAX_KEY_BYTES && |value| <= IAM_MAX_VALUE_BYTES
    ensures Accepted(0, [Fact(name, Observed(value))], true)
  {
    AsciiLength(name);
    AsciiLength(value);
  }

  /** `{"a":[[{"code":"s"}]]}` is accepted, and its one fact shows the code. */
  lemma NestedSecretShows()
    ensures Exposed(NESTED_SECRET) == 1 && !SecretsHidden(NESTED_SECRET, "")
    ensures Flatten(NESTED_SECRET, "") == [Fact("a[0]", Observed("[{\"code\":\"s\"}]"))]
    ensures Accepted(0, Flatten(NESTED_SECRET, ""), Shallow(NESTED_SECRET, 0))
  {
    hide SecretsHidden, Exposed, Flatten, Shallow, Render, Accepted, Ascii, ItemName, IsSensitiveName;
    NestedSecretCounts();
    RedactionIsExact(NESTED_SECRET, "");
    assert ItemName("a", 0) == "a[0]" by {
      FirstOf("a");
    }
    ShortNamesAreNotSensitive("a");
    InnerArrayFlattened("a", Array([CODE_BODY]));
    InnerRendered();
    WitnessIsAscii();
    ShortFactIsAccepted("a[0]", "[{\"code\":\"s\"}]");
  }

  lemma WitnessIsAscii()
    ensures Ascii("a[0]") && Ascii("[{\"code\":\"s\"}]") && |"[{\"code\":\"s\"}]"| == 14
  {
  }

  lemma {:induction false} ArraysApartExposeNothing(v: Json)
    requires ArraysApart(v)
    ensures Exposed(v) == 0
    decreases v, 2, 0
  {
    match v
    case Object(_) => ApartFieldsExposeNothing(v, 0);
    case Array(_) => ApartItemsExposeNothing(v, 0);
    case _ =>
  }

  lemma {:induction false} ApartFieldsExposeNothing(v: Json, i: nat)
    requires v.Object? && i <= |v.fields| && ArraysApart(v)
    ensures FieldsExposed(v, i) == 0
    decreases v, 1, |v.fields| - i
  {
    if i < |v.fields| {
      ArraysApartExposeNothing(v.fields[i].value);
      ApartFieldsExposeNothing(v, i + 1);
    }
  }

  lemma {:induction false} ApartItemsExposeNothing(v: Json, i: nat)
    requires v.Array? && i <= |v.items| && ArraysApart(v)
    ensures ItemsExposed(v, i) == 0
    decreases v, 1, |v.items| - i
  {
    if i < |v.items| {
      ArraysApartExposeNothing(v.items[i]);
      ApartItemsExposeNothing(v, i + 1);
    }
  }

  /** A body in which no array is an element of an array: one redacted fact for each of its
      sensitive fields, and nothing of any of their values anywhere else. */
  lemma PlainBodiesAreRedacted(v: Json, prefix: string)
    requires v.Object? && ArraysApart(v)
    ensures RedactedOnly(Flatten(v, prefix)) == SecretFacts(prefix, SecretFields(v, true))
    ensures SecretsHidden(v, prefix)
  {
    ArraysApartExposeNothing(v);
    RedactionIsExact(v, prefix);
    SecretsAreListed(v);
  }
}
