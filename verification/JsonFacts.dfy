/** `flatten_json_facts`: a JSON body becomes named facts, stopping at the first bound that is
    passed; and what its redaction of sensitive fields does and does not hide. */
module JsonFacts {
  import opened Utf8
  import opened IamFacts
  import opened Strings

  /** `Literal` is a number or a boolean, by its rendering. */
  datatype Json =
    | Null | Literal(rendering: string) | Text(text: string)
    | Array(items: seq<Json>) | Object(fields: seq<Field>)

  datatype Field = Field(key: string, value: Json)

  // ----- Rendering -----

  const HEX: string := "0123456789abcdef"

  function EscapeChar(c: char): string {
    if c == '\"' then "\\\""
    else if c == '\\' then "\\\\"
    else if c == '\n' then "\\n"
    else if c == '\r' then "\\r"
    else if c == '\t' then "\\t"
    else if c == '\U{8}' then "\\b"
    else if c == '\U{C}' then "\\f"
    else if c < ' ' then "\\u00" + [HEX[c as int / 16], HEX[c as int % 16]]
    else [c]
  }

  function Escape(s: string): string {
    if s == "" then "" else EscapeChar(s[0]) + Escape(s[1..])
  }

  function Quoted(s: string): string {
    "\"" + Escape(s) + "\""
  }

  /** serde_json's compact form. */
  function Render(v: Json): string
    decreases v, 1, 0
  {
    match v
    case Null => "null"
    case Literal(rendering) => rendering
    case Text(text) => Quoted(text)
    case Array(_) => "[" + RenderItems(v, 0) + "]"
    case Object(_) => "{" + RenderFields(v, 0) + "}"
  }

  function RenderItems(v: Json, i: nat): string
    requires v.Array? && i <= |v.items|
    decreases v, 0, |v.items| - i
  {
    if i == |v.items| then ""
    else (if i == 0 then "" else ",") + Render(v.items[i]) + RenderItems(v, i + 1)
  }

  function RenderFields(v: Json, i: nat): string
    requires v.Object? && i <= |v.fields|
    decreases v, 0, |v.fields| - i
  {
    if i == |v.fields| then ""
    else
      var field := Quoted(v.fields[i].key) + ":" + Render(v.fields[i].value);
      (if i == 0 then "" else ",") + field + RenderFields(v, i + 1)
  }

  /** `json_scalar_to_string`: a string is taken bare. */
  function Plain(v: Json): string {
    if v.Text? then v.text else Render(v)
  }

  function FieldName(prefix: string, key: string): string {
    if prefix == "" then key else prefix + "." + key
  }

  function ItemName(name: string, index: nat): string {
    name + "[" + Decimal(index) + "]"
  }

  // ----- The facts of a body, without its bounds -----

  function FactOf(name: string, value: string, sensitive: bool): Fact {
    Fact(name, if sensitive then Redacted(Sha256(value)) else Observed(value))
  }

  function Flatten(v: Json, prefix: string): seq<Fact>
    decreases v, 2, 0
  {
    if v.Object? then FlattenFields(v, 0, prefix) else []
  }

  function FlattenFields(v: Json, i: nat, prefix: string): seq<Fact>
    requires v.Object? && i <= |v.fields|
    decreases v, 1, |v.fields| - i
  {
    if i == |v.fields| then []
    else FlattenField(v.fields[i], FieldName(prefix, v.fields[i].key)) + FlattenFields(v, i + 1, prefix)
  }

  function FlattenField(f: Field, name: string): seq<Fact>
    decreases f, 0, 0
  {
    if IsSensitiveName(f.key) then [FactOf(name, Plain(f.value), true)] else FlattenValue(f.value, name)
  }

  /** A value under a name that is not sensitive. */
  function FlattenValue(v: Json, name: string): seq<Fact>
    decreases v, 3, 0
  {
    if v.Object? then Flatten(v, name)
    else if v.Array? then FlattenItems(v, 0, name)
    else [FactOf(name, Plain(v), false)]
  }

  function FlattenItems(v: Json, i: nat, name: string): seq<Fact>
    requires v.Array? && i <= |v.items|
    decreases v, 1, |v.items| - i
  {
    if i == |v.items| then [] else FlattenItem(v.items[i], ItemName(name, i)) + FlattenItems(v, i + 1, name)
  }

  /** Only an object inside an array is followed; an array there is rendered whole. */
  function FlattenItem(item: Json, name: string): seq<Fact>
    decreases item, 3, 0
  {
    if item.Object? then Flatten(item, name) else [FactOf(name, Plain(item), false)]
  }

  // ----- The bounds -----

  /** No object that is followed lies deeper than the limit. */
  predicate Shallow(v: Json, depth: nat)
    decreases v, 2, 0
  {
    depth <= IAM_MAX_JSON_DEPTH && (v.Object? ==> ShallowFields(v, 0, depth))
  }

  predicate ShallowFields(v: Json, i: nat, depth: nat)
    requires v.Object? && i <= |v.fields|
    decreases v, 1, |v.fields| - i
  {
    i < |v.fields| ==> ShallowField(v.fields[i], depth) && ShallowFields(v, i + 1, depth)
  }

  predicate ShallowField(f: Field, depth: nat)
    decreases f, 0, 0
  {
    IsSensitiveName(f.key) || ShallowValue(f.value, depth)
  }

  predicate ShallowValue(v: Json, depth: nat)
    decreases v, 3, 0
  {
    if v.Object? then Shallow(v, depth + 1) else v.Array? ==> ShallowItems(v, 0, depth)
  }

  predicate ShallowItems(v: Json, i: nat, depth: nat)
    requires v.Array? && i <= |v.items|
    decreases v, 1, |v.items| - i
  {
    i < |v.items| ==> (v.items[i].Object? ==> Shallow(v.items[i], depth + 1)) && ShallowItems(v, i + 1, depth)
  }

  predicate Bounded(f: Fact) {
    ByteLength(f.name) <= IAM_MAX_KEY_BYTES && ByteLength(Content(f.status)) <= IAM_MAX_VALUE_BYTES
  }

  /** `flat` can join `count` facts. */
  ghost predicate Accepted(count: nat, flat: seq<Fact>, shallow: bool) {
    && shallow
    && (flat != [] ==> count + |flat| <= IAM_MAX_FACTS)
    && (forall f :: f in flat ==> Bounded(f))
  }

  lemma AcceptedConcat(count: nat, a: seq<Fact>, shallowA: bool, b: seq<Fact>, shallowB: bool)
    ensures Accepted(count, a + b, shallowA && shallowB) <==>
            Accepted(count, a, shallowA) && Accepted(count + |a|, b, shallowB)
  {
    assert forall f :: f in a + b <==> f in a || f in b;
  }

  // ----- The code -----

  /** The growing `Vec<IamFact>`. */
  class FactSink {
    var facts: seq<Fact>

    constructor ()
      ensures facts == []
    {
      facts := [];
    }

    method PushFact(name: string, value: string, sensitive: bool) returns (ok: bool)
      modifies this
      ensures ok <==> Accepted(old(|facts|), [FactOf(name, value, sensitive)], true)
      ensures facts == if ok then old(facts) + [FactOf(name, value, sensitive)] else old(facts)
    {
      assert FactOf(name, value, sensitive) in [FactOf(name, value, sensitive)];
      if |facts| >= IAM_MAX_FACTS {
        return false;
      }
      if ByteLength(name) > IAM_MAX_KEY_BYTES || ByteLength(value) > IAM_MAX_VALUE_BYTES {
        return false;
      }
      if sensitive {
        facts := facts + [Fact(name, Redacted(Sha256(value)))];
      } else {
        facts := facts + [Fact(name, Observed(value))];
      }
      return true;
    }

    /** Pushing until a bound is passed succeeds exactly when everything there is to push is
        within the bounds, and then it has pushed exactly that. */
    method FlattenJsonFacts(value: Json, prefix: string, depth: nat) returns (ok: bool)
      modifies this
      ensures ok <==> Accepted(old(|facts|), Flatten(value, prefix), Shallow(value, depth))
      ensures ok ==> facts == old(facts) + Flatten(value, prefix)
      decreases value, 2
    {
      hide IsSensitiveName, FieldName, FlattenField, ShallowField, Bounded;
      if depth > IAM_MAX_JSON_DEPTH {
        return false;
      }
      if !value.Object? {
        return true;
      }
      for i := 0 to |value.fields|
        invariant facts + FlattenFields(value, i, prefix) == old(facts) + Flatten(value, prefix)
        invariant Accepted(|facts|, FlattenFields(value, i, prefix), ShallowFields(value, i, depth))
                  <==> Accepted(old(|facts|), Flatten(value, prefix), Shallow(value, depth))
      {
        var f := value.fields[i];
        AcceptedConcat(|facts|, FlattenField(f, FieldName(prefix, f.key)), ShallowField(f, depth),
                       FlattenFields(value, i + 1, prefix), ShallowFields(value, i + 1, depth));
        ok := FlattenOneField(f, FieldName(prefix, f.key), depth);
        if !ok {
          return;
        }
      }
      return true;
    }

    /** The body of the loop over an object's fields. */
    method FlattenOneField(f: Field, name: string, depth: nat) returns (ok: bool)
      modifies this
      ensures ok <==> Accepted(old(|facts|), FlattenField(f, name), ShallowField(f, depth))
      ensures ok ==> facts == old(facts) + FlattenField(f, name)
      decreases f, 0
    {
      hide IsSensitiveName, ItemName, Plain, Flatten, Shallow, Bounded;
      if IsSensitiveName(f.key) {
        ok := PushFact(name, Plain(f.value), true);
        return;
      }
      match f.value {
        case Object(_) =>
          ok := FlattenJsonFacts(f.value, name, depth + 1);
        case Array(items) =>
          for i := 0 to |items|
            invariant facts + FlattenItems(f.value, i, name) == old(facts) + FlattenField(f, name)
            invariant Accepted(|facts|, FlattenItems(f.value, i, name), ShallowItems(f.value, i, depth))
                      <==> Accepted(old(|facts|), FlattenField(f, name), ShallowField(f, depth))
          {
            AcceptedConcat(|facts|, FlattenItem(items[i], ItemName(name, i)),
                           items[i].Object? ==> Shallow(items[i], depth + 1),
                           FlattenItems(f.value, i + 1, name), ShallowItems(f.value, i + 1, depth));
            if items[i].Object? {
              ok := FlattenJsonFacts(items[i], ItemName(name, i), depth + 1);
            } else {
              ok := PushFact(ItemName(name, i), Plain(items[i]), false);
            }
            if !ok {
              return;
            }
          }
          return true;
        case _ =>
          ok := PushFact(name, Plain(f.value), false);
      }
    }
  }
}
