/**
allOf merging (internal/lowering/schema_gen_sum.go): how several schemas become one. The
functions are the specification; the loops of the source are the methods of AllOfLoops.dfy.
 */
module AllOf {
  import opened Wrappers
  import opened Schemas

  datatype MergeError =
    | TypeMismatch | FormatMismatch | EnumsDisjoint | DefaultMismatch | ConstMismatch
    | TwoDiscriminators | PatternMismatch | MultipleOfMismatch | TupleLengthMismatch
    | TupleAgainstList | PatternProperties | AdditionalProperties | TwoSums
    | IndexPanic  // a property listed twice on the left: the source panics on its result slice

  // The keywords that make mergeSchemes keep a side.
  predicate ContainsValidators(s: Schema) {
    || s.nullable || s.scalars != NO_SCALARS
    || s.item.Some? || s.items != [] || s.additionalProperties.Some? || s.patternProperties != []
    || s.properties != [] || s.required != []
    || s.oneOf != [] || s.anyOf != [] || s.allOf != []
    || s.xml.Some?
    || s.maxItems.Some? || s.minItems.Some? || s.uniqueItems
    || s.maxProperties.Some? || s.minProperties.Some?
  }

  // The keywords that make flattenAllOfSchema merge the parent itself: not its type.
  predicate HasSiblingConstraints(s: Schema) {
    || s.properties != [] || s.required != [] || s.additionalProperties.Some? || s.patternProperties != []
    || s.maxProperties.Some? || s.minProperties.Some?
    || s.scalars.(typ := Empty) != NO_SCALARS
    || s.oneOf != [] || s.anyOf != []
    || s.item.Some? || s.items != [] || s.maxItems.Some? || s.minItems.Some? || s.uniqueItems
    || s.xml.Some? || s.extensions != []
  }

  function SomeMax(a: Option<nat>, b: Option<nat>): Option<nat> {
    if a.None? then b else if b.None? then a else Some(if a.value > b.value then a.value else b.value)
  }

  function SomeMin(a: Option<nat>, b: Option<nat>): Option<nat> {
    if a.None? then b else if b.None? then a else Some(if a.value < b.value then a.value else b.value)
  }

  function LowerNum(a: Option<Num>, b: Option<Num>): Option<Num> {
    if a.None? then b
    else if b.None? || a == b || a.value.value < b.value.value then a
    else b
  }

  function HigherNum(a: Option<Num>, b: Option<Num>): Option<Num> {
    if a.None? then b
    else if b.None? || a == b || a.value.value > b.value.value then a
    else b
  }

  function SomeEqual<T(==)>(a: T, b: T, absent: T, error: MergeError): Result<T, MergeError> {
    if a == absent then Ok(b)
    else if b == absent || a == b then Ok(a)
    else Err(error)
  }

  function Keep(small: seq<Json>, big: seq<Json>): seq<Json> {
    if small == [] then []
    else (if small[0] in big then [small[0]] else []) + Keep(small[1..], big)
  }

  function MergeEnums(a: seq<Json>, b: seq<Json>): Result<seq<Json>, MergeError> {
    if a == [] then Ok(b)
    else if b == [] then Ok(a)
    else
      var result := if |a| > |b| then Keep(b, a) else Keep(a, b);
      if result == [] then Err(EnumsDisjoint) else Ok(result)
  }

  function MergeSums(a: seq<Schema>, b: seq<Schema>): Result<seq<Schema>, MergeError> {
    if a == [] then Ok(b) else if b == [] then Ok(a) else Err(TwoSums)
  }

  // Type to multipleOf, in the order of the source. `exclusiveMaximum` is not carried over: the
  // source stores the disjunction in its first argument instead of the result.
  function MergeScalars(a: Scalars, b: Scalars): Result<Scalars, MergeError> {
    var typ :- SomeEqual(a.typ, b.typ, Empty, TypeMismatch);
    var format :- SomeEqual(a.format, b.format, "", FormatMismatch);
    var enum :- MergeEnums(a.enum, b.enum);
    var dflt :- SomeEqual(a.dflt, b.dflt, None, DefaultMismatch);
    var constant :- SomeEqual(a.constant, b.constant, None, ConstMismatch);
    if a.discriminator.Some? && b.discriminator.Some? then Err(TwoDiscriminators)
    else
      var pattern :- SomeEqual(a.pattern, b.pattern, "", PatternMismatch);
      if a.multipleOf != b.multipleOf then Err(MultipleOfMismatch)
      else
        Ok(Scalars(
             typ, format, enum, dflt, constant,
             if a.discriminator.Some? then a.discriminator else b.discriminator,
             SomeMin(a.maxLength, b.maxLength),
             SomeMax(a.minLength, b.minLength),
             pattern,
             LowerNum(a.maximum, b.maximum), false,
             HigherNum(a.minimum, b.minimum), a.exclusiveMinimum || b.exclusiveMinimum,
             a.multipleOf))
  }

  // The index the source keeps for a name: the last one, because later entries overwrite.
  function LastIndex(ps: seq<Property>, name: string): (i: Option<nat>)
    ensures i.Some? ==> i.value < |ps| && ps[i.value].name == name &&
                        forall j :: i.value < j < |ps| ==> ps[j].name != name
    ensures i.None? ==> forall j :: 0 <= j < |ps| ==> ps[j].name != name
  {
    if ps == [] then None
    else if ps[|ps| - 1].name == name then Some(|ps| - 1)
    else LastIndex(ps[..|ps| - 1], name)
  }

  predicate Distinct(ps: seq<Property>) {
    forall i, j :: 0 <= i < j < |ps| ==> ps[i].name != ps[j].name
  }

  function Flagged(ps: seq<Property>, required: set<string>): (r: seq<Property>)
    ensures |r| == |ps|
    ensures forall i :: 0 <= i < |ps| ==>
      r[i] == ps[i].(required := ps[i].required || ps[i].name in required)
  {
    seq(|ps|, i requires 0 <= i < |ps| => ps[i].(required := ps[i].required || ps[i].name in required))
  }

  function RequiredNames(s1: Schema, s2: Schema): set<string> {
    (set name | name in s1.required) + set name | name in s2.required
  }

  lemma FlaggedSize(ps: seq<Property>, required: set<string>)
    ensures SizeProperties(Flagged(ps, required)) == SizeProperties(ps)
  {
    if ps != [] {
      assert Flagged(ps, required)[1..] == Flagged(ps[1..], required);
    }
  }

  // mergeSchemes. The result is never larger than both inputs together, which is what makes the
  // recursion through already merged schemas terminate.
  function Merge(s1: Schema, s2: Schema): (r: Result<Schema, MergeError>)
    ensures r.Ok? ==> Size(r.value) <= Size(s1) + Size(s2)
    decreases Size(s1) + Size(s2), 2, 0
  {
    var t1 :- if s1.allOf != [] then MergeAll(s1.allOf) else Ok(s1);
    var t2 :- if s2.allOf != [] then MergeAll(s2.allOf) else Ok(s2);
    MergePlain(t1, t2)
  }

  // The body of mergeSchemes once nested allOf lists have been merged.
  function MergePlain(s1: Schema, s2: Schema): (r: Result<Schema, MergeError>)
    ensures r.Ok? ==> Size(r.value) <= Size(s1) + Size(s2)
    decreases Size(s1) + Size(s2), 1, 0
  {
    if ContainsValidators(s1) && !ContainsValidators(s2) then Ok(s1)
    else if !ContainsValidators(s1) && ContainsValidators(s2) then Ok(s2)
    else
      var scalars :- MergeScalars(s1.scalars, s2.scalars);
      var arrays :- MergeArrays(s1, s2, EMPTY.(nullable := s1.nullable || s2.nullable, scalars := scalars));
      var objects :- MergeObjects(s1, s2, arrays);
      var oneOf :- MergeSums(s1.oneOf, s2.oneOf);
      var anyOf :- MergeSums(s1.anyOf, s2.anyOf);
      Ok(objects.(oneOf := oneOf, anyOf := anyOf))
  }

  // Array validation. Merged tuple elements are computed, because they may fail, and then dropped.
  function MergeArrays(s1: Schema, s2: Schema, r: Schema): (r': Result<Schema, MergeError>)
    ensures r'.Ok? ==> r'.value == r.(item := r'.value.item, minItems := r'.value.minItems,
                                      maxItems := r'.value.maxItems, uniqueItems := r'.value.uniqueItems)
    decreases Size(s1) + Size(s2), 0, 0
  {
    if s1.items != [] && s2.items != [] then
      if |s1.items| != |s2.items| then Err(TupleLengthMismatch)
      else
        var _ :- MergeTuples(s1.items, s2.items);
        Ok(r)
    else if s1.items == [] && s2.items == [] then
      var item :- MergeItems(s1.item, s2.item);
      Ok(r.(item := item,
            minItems := SomeMax(s1.minItems, s2.minItems),
            maxItems := SomeMin(s1.maxItems, s2.maxItems),
            uniqueItems := s1.uniqueItems || s2.uniqueItems))
    else Err(TupleAgainstList)
  }

  function ItemSize(item: Option<Schema>): nat {
    if item.Some? then Size(item.value) else 0
  }

  function MergeItems(i1: Option<Schema>, i2: Option<Schema>): (r: Result<Option<Schema>, MergeError>)
    ensures r.Ok? ==> ItemSize(r.value) <= ItemSize(i1) + ItemSize(i2)
    decreases ItemSize(i1) + ItemSize(i2), 3, 0
  {
    if i1.None? then Ok(i2)
    else if i2.None? then Ok(i1)
    else
      var item :- Merge(i1.value, i2.value);
      Ok(Some(item))
  }

  function MergeTuples(i1: seq<Schema>, i2: seq<Schema>): (r: Result<seq<Schema>, MergeError>)
    requires |i1| == |i2|
    decreases SizeAll(i1) + SizeAll(i2), 3, 0
  {
    if i1 == [] then Ok([])
    else
      var head :- Merge(i1[0], i2[0]);
      var tail :- MergeTuples(i1[1..], i2[1..]);
      Ok([head] + tail)
  }

  // Object validation. A set `additionalProperties` replaces the element schema.
  function MergeObjects(s1: Schema, s2: Schema, r: Schema): (r': Result<Schema, MergeError>)
    requires ItemSize(r.item) <= ItemSize(s1.item) + ItemSize(s2.item)
    ensures r'.Ok? ==> r'.value == r.(item := r'.value.item, additionalProperties := r'.value.additionalProperties,
                                      minProperties := r'.value.minProperties, maxProperties := r'.value.maxProperties,
                                      properties := r'.value.properties)
    ensures r'.Ok? ==> SizeProperties(r'.value.properties) <= SizeProperties(s1.properties) + SizeProperties(s2.properties)
    ensures r'.Ok? ==> ItemSize(r'.value.item) <= ItemSize(s1.item) + ItemSize(s2.item)
    decreases Size(s1) + Size(s2), 0, 0
  {
    if s1.patternProperties != [] || s2.patternProperties != [] then Err(PatternProperties)
    else
      var (additional, item) :-
        if s1.additionalProperties.None? && s2.additionalProperties.None? then Ok((None, r.item))
        else if s2.additionalProperties.None? then Ok((s1.additionalProperties, s1.item))
        else if s1.additionalProperties.None? then Ok((s2.additionalProperties, s2.item))
        else if s1.additionalProperties == s2.additionalProperties then
          var item :- MergeItems(s1.item, s2.item);
          Ok((s1.additionalProperties, item))
        else Err(AdditionalProperties);
      var properties :- MergeProperties(s1, s2);
      Ok(r.(item := item,
            additionalProperties := additional,
            minProperties := SomeMax(s1.minProperties, s2.minProperties),
            maxProperties := SomeMin(s1.maxProperties, s2.maxProperties),
            properties := properties))
  }

  // mergeProperties.
  function MergeProperties(s1: Schema, s2: Schema): (r: Result<seq<Property>, MergeError>)
    ensures r.Ok? ==> SizeProperties(r.value) <= SizeProperties(s1.properties) + SizeProperties(s2.properties)
    decreases SizeProperties(s1.properties) + SizeProperties(s2.properties), 4, 0
  {
    var merged :- MergeInto(s1.properties, s2.properties);
    FlaggedSize(merged, RequiredNames(s1, s2));
    if Distinct(merged) then Ok(Flagged(merged, RequiredNames(s1, s2))) else Err(IndexPanic)
  }

  // Adds properties one by one; a known name is merged in place, a new one appended.
  function MergeInto(known: seq<Property>, ps: seq<Property>): (r: Result<seq<Property>, MergeError>)
    ensures r.Ok? ==> SizeProperties(r.value) <= SizeProperties(known) + SizeProperties(ps)
    decreases SizeProperties(known) + SizeProperties(ps), 3, |ps|
  {
    if ps == [] then Ok(known)
    else
      var known' :- Absorb(known, ps[0]);
      MergeInto(known', ps[1..])
  }

  function Absorb(known: seq<Property>, p: Property): (r: Result<seq<Property>, MergeError>)
    ensures r.Ok? ==> SizeProperties(r.value) <= SizeProperties(known) + Size(p.schema)
    decreases SizeProperties(known) + Size(p.schema), 3, 0
  {
    var found := LastIndex(known, p.name);
    if found.None? then
      SizePropertiesConcat(known, [p]);
      Ok(known + [p])
    else
      var q := known[found.value];
      SizePropertiesSplit(known, found.value);
      var schema :- Merge(p.schema, q.schema);
      var merged := Property(p.name, schema, p.required || q.required);
      SizePropertiesUpdate(known, found.value, merged);
      Ok(known[found.value := merged])
  }

  // mergeNSchemes.
  function MergeAll(ss: seq<Schema>): (r: Result<Schema, MergeError>)
    requires ss != []
    ensures r.Ok? ==> Size(r.value) <= SizeAll(ss)
    decreases SizeAll(ss), 3, |ss|
  {
    if |ss| == 1 then Ok(ss[0])
    else
      assert SizeAll(ss) == Size(ss[0]) + Size(ss[1]) + SizeAll(ss[2..]) by {
        assert ss[1..][1..] == ss[2..];
      }
      var root :- Merge(ss[0], ss[1]);
      MergeAll([root] + ss[2..])
  }

  function Or<T>(a: seq<T>, b: seq<T>): seq<T> {
    if a == [] then b else a
  }

  function WithType(s: Scalars, typ: SchemaType): Scalars {
    if s.typ == Empty then s.(typ := typ) else s
  }

  // flattenAllOfSchema on a schema whose references lead to no cycle.
  function Flatten(s: Schema): Result<Schema, MergeError> {
    if s.allOf == [] then Ok(s)
    else
      var parent := s.(allOf := []);
      if |s.allOf| == 1 && !HasSiblingConstraints(parent) then
        var child := s.allOf[0];
        Ok(child.(nullable := child.nullable || parent.nullable,
                  scalars := WithType(child.scalars, parent.scalars.typ)))
      else
        var merged :- MergeAll(s.allOf + if HasSiblingConstraints(parent) then [parent] else []);
        Ok(merged.(nullable := merged.nullable || parent.nullable,
                   scalars := WithType(merged.scalars, parent.scalars.typ),
                   xml := if merged.xml.None? then parent.xml else merged.xml,
                   extensions := Or(merged.extensions, parent.extensions)))
  }
}
