/**
JSON values, JSON Schemas as the lowering sees them, and what a schema means: the set of values
it accepts (JSON Schema Validation draft-07, sections 6.1 to 6.7). Formats and patterns are
parameters.
 */
module Schemas {
  import opened Wrappers

  datatype Json =
    | Null
    | Bool(b: bool)
    | Number(n: real)
    | Str(s: string)
    | Array(elems: seq<Json>)
    | Object(members: map<string, Json>)

  datatype SchemaType = Empty | TObject | TArray | TInteger | TNumber | TString | TBoolean | TNull

  // A number keeps its literal, which determines the value: the source first compares literals.
  datatype Num = Num(literal: string, value: real)

  datatype Property = Property(name: string, schema: Schema, required: bool)

  datatype PatternProperty = PatternProperty(pattern: string, schema: Schema)

  // The keywords that hold no schema and look at the value alone, with the annotations that are
  // merged among them. An empty string, list or type is an absent keyword, as in Go.
  datatype Scalars = Scalars(
    typ: SchemaType,
    format: string,
    enum: seq<Json>,
    dflt: Option<Json>,
    constant: Option<Json>,
    discriminator: Option<string>,
    maxLength: Option<nat>,
    minLength: Option<nat>,
    pattern: string,
    maximum: Option<Num>,
    exclusiveMaximum: bool,
    minimum: Option<Num>,
    exclusiveMinimum: bool,
    multipleOf: Option<Num>)

  const NO_SCALARS := Scalars(Empty, "", [], None, None, None, None, None, "", None, false, None, false, None)

  // `item` is the element schema of an array, or the schema of additional properties when
  // `additionalProperties` is set. `extensions` stands for the x-ogen keywords.
  datatype Schema = Schema(
    nullable: bool,
    scalars: Scalars,
    xml: Option<string>,
    extensions: seq<string>,
    item: Option<Schema>,
    items: seq<Schema>,
    maxItems: Option<nat>,
    minItems: Option<nat>,
    uniqueItems: bool,
    additionalProperties: Option<bool>,
    patternProperties: seq<PatternProperty>,
    maxProperties: Option<nat>,
    minProperties: Option<nat>,
    properties: seq<Property>,
    required: seq<string>,
    oneOf: seq<Schema>,
    anyOf: seq<Schema>,
    allOf: seq<Schema>)

  const EMPTY := Schema(
    false, NO_SCALARS, None, [], None, [], None, None, false,
    None, [], None, None, [], [], [], [], [])

  // The two keyword checks that are not decided here.
  datatype Env = Env(format: (string, Json) -> bool, pattern: (string, string) -> bool)

  function Names(ps: seq<Property>): set<string> {
    set p | p in ps :: p.name
  }

  predicate TypeOk(typ: SchemaType, v: Json) {
    match typ
    case Empty => true
    case TObject => v.Object?
    case TArray => v.Array?
    case TInteger => v.Number? && v.n == v.n.Floor as real
    case TNumber => v.Number?
    case TString => v.Str?
    case TBoolean => v.Bool?
    case TNull => v.Null?
  }

  predicate AtMost(bound: Option<nat>, n: nat) {
    bound.Some? ==> n <= bound.value
  }

  predicate AtLeast(bound: Option<nat>, n: nat) {
    bound.Some? ==> n >= bound.value
  }

  predicate BelowMaximum(bound: Option<Num>, exclusive: bool, x: real) {
    bound.Some? ==> if exclusive then x < bound.value.value else x <= bound.value.value
  }

  predicate AboveMinimum(bound: Option<Num>, exclusive: bool, x: real) {
    bound.Some? ==> if exclusive then x > bound.value.value else x >= bound.value.value
  }

  predicate MultipleOk(m: Option<Num>, x: real) {
    m.Some? && m.value.value != 0.0 ==>
      x / m.value.value == (x / m.value.value).Floor as real
  }

  predicate NumberOk(s: Scalars, x: real) {
    && BelowMaximum(s.maximum, s.exclusiveMaximum, x)
    && AboveMinimum(s.minimum, s.exclusiveMinimum, x)
    && MultipleOk(s.multipleOf, x)
  }

  ghost predicate ScalarsOk(env: Env, s: Scalars, v: Json) {
    && TypeOk(s.typ, v)
    && (s.format != "" ==> env.format(s.format, v))
    && (s.enum != [] ==> v in s.enum)
    && (s.constant.Some? ==> v == s.constant.value)
    && (v.Str? ==>
          && AtMost(s.maxLength, |v.s|)
          && AtLeast(s.minLength, |v.s|)
          && (s.pattern != "" ==> env.pattern(s.pattern, v.s)))
    && (v.Number? ==> NumberOk(s, v.n))
  }

  ghost predicate PropertyOk(env: Env, p: Property, members: map<string, Json>)
    decreases p
  {
    && (p.required ==> p.name in members)
    && (p.name in members ==> Accepts(env, p.schema, members[p.name]))
  }

  ghost predicate ItemOk(env: Env, item: Option<Schema>, v: Json)
    decreases item
  {
    item.Some? ==> Accepts(env, item.value, v)
  }

  ghost predicate ArrayOk(env: Env, s: Schema, elems: seq<Json>)
    decreases s, 0
  {
    && AtMost(s.maxItems, |elems|)
    && AtLeast(s.minItems, |elems|)
    && (s.uniqueItems ==> forall i, j :: 0 <= i < j < |elems| ==> elems[i] != elems[j])
    && (s.items == [] && s.additionalProperties.None? ==> forall e :: e in elems ==> ItemOk(env, s.item, e))
    && (forall i :: 0 <= i < |s.items| && i < |elems| ==> Accepts(env, s.items[i], elems[i]))
  }

  ghost predicate Extra(env: Env, s: Schema, key: string) {
    key !in Names(s.properties) && forall p :: p in s.patternProperties ==> !env.pattern(p.pattern, key)
  }

  ghost predicate ObjectOk(env: Env, s: Schema, members: map<string, Json>)
    decreases s, 0
  {
    && AtMost(s.maxProperties, |members|)
    && AtLeast(s.minProperties, |members|)
    && (forall name :: name in s.required ==> name in members)
    && (forall p :: p in s.properties ==> PropertyOk(env, p, members))
    && (forall p, key :: p in s.patternProperties && key in members && env.pattern(p.pattern, key) ==>
                           Accepts(env, p.schema, members[key]))
    && (s.additionalProperties.Some? ==>
          forall key :: key in members && Extra(env, s, key) ==>
                          && s.additionalProperties.value
                          && ItemOk(env, s.item, members[key]))
  }

  ghost predicate SumsOk(env: Env, s: Schema, v: Json)
    decreases s, 0
  {
    && (s.oneOf != [] ==>
          exists i :: 0 <= i < |s.oneOf| && Accepts(env, s.oneOf[i], v) &&
                      forall j :: 0 <= j < |s.oneOf| && j != i ==> !Accepts(env, s.oneOf[j], v))
    && (s.anyOf != [] ==> exists i :: 0 <= i < |s.anyOf| && Accepts(env, s.anyOf[i], v))
  }

  // Every keyword except allOf and nullable.
  ghost predicate KeywordsOk(env: Env, s: Schema, v: Json)
    decreases s, 1
  {
    && ScalarsOk(env, s.scalars, v)
    && (v.Array? ==> ArrayOk(env, s, v.elems))
    && (v.Object? ==> ObjectOk(env, s, v.members))
    && SumsOk(env, s, v)
  }

  // The meaning of a schema: whether it accepts a value.
  ghost predicate Accepts(env: Env, s: Schema, v: Json)
    decreases s, 2
  {
    || (s.nullable && v.Null?)
    || (KeywordsOk(env, s, v) && forall i :: 0 <= i < |s.allOf| ==> Accepts(env, s.allOf[i], v))
  }

  // The nodes a merge can walk into: allOf members, elements, tuple elements and properties.
  function Size(s: Schema): (n: nat)
    ensures n > 0
    decreases s, 0
  {
    1 + (if s.item.Some? then Size(s.item.value) else 0)
      + SizeAll(s.items) + SizeProperties(s.properties) + SizeAll(s.allOf)
  }

  function SizeAll(ss: seq<Schema>): nat
    decreases ss, 1
  {
    if ss == [] then 0 else Size(ss[0]) + SizeAll(ss[1..])
  }

  function SizeProperties(ps: seq<Property>): nat
    decreases ps, 1
  {
    if ps == [] then 0 else Size(ps[0].schema) + SizeProperties(ps[1..])
  }

  lemma {:induction false} SizePropertiesConcat(a: seq<Property>, b: seq<Property>)
    ensures SizeProperties(a + b) == SizeProperties(a) + SizeProperties(b)
  {
    if a == [] {
      assert a + b == b;
    } else {
      assert (a + b)[1..] == a[1..] + b;
      SizePropertiesConcat(a[1..], b);
    }
  }

  lemma SizePropertiesSplit(ps: seq<Property>, i: nat)
    requires i < |ps|
    ensures SizeProperties(ps) == SizeProperties(ps[..i]) + Size(ps[i].schema) + SizeProperties(ps[i + 1..])
  {
    assert ps == ps[..i] + ([ps[i]] + ps[i + 1..]);
    SizePropertiesConcat(ps[..i], [ps[i]] + ps[i + 1..]);
    assert ([ps[i]] + ps[i + 1..])[1..] == ps[i + 1..];
  }

  lemma SizePropertiesUpdate(ps: seq<Property>, i: nat, q: Property)
    requires i < |ps|
    ensures SizeProperties(ps[i := q]) + Size(ps[i].schema) == SizeProperties(ps) + Size(q.schema)
  {
    SizePropertiesSplit(ps, i);
    SizePropertiesSplit(ps[i := q], i);
    assert ps[i := q][..i] == ps[..i] && ps[i := q][i + 1..] == ps[i + 1..];
  }
}
