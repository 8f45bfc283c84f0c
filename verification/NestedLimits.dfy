/**
Where merging is lossy because of structure: keywords beside a nested allOf, an allOf that is the only
member of another, and schemas for additional properties. For each, when the result is still the
conjunction.
 */
module NestedLimits {
  import opened Wrappers
  import opened Schemas
  import opened AllOf
  import opened AllOfProofs
  import opened FlattenProofs
  import opened AllOfLimits

  // ----- Any keywords around a nested allOf -----

  // What stands beside a nested allOf is dropped. That does no harm exactly if the rest implies it, and
  // if it does not let in null on its own.
  lemma SiblingsExact(env: Env, plan: Plan, s: Schema, other: Schema)
    requires s.allOf != [] && Mergeable(EMPTY.(allOf := s.allOf), plan) && Mergeable(other, plan)
    requires Merge(s, other).Ok?
    ensures Conjunction(env, Merge(s, other).value, s, other) <==>
            && (forall v :: AcceptsAll(env, s.allOf, v) && Accepts(env, other, v) ==> Accepts(env, s.(allOf := []), v))
            && (s.nullable && Accepts(env, other, Null) ==> AcceptsAll(env, s.allOf, Null))
  {
    var bare := EMPTY.(allOf := s.allOf);
    SiblingsIgnored(s, bare, other);
    hide Merge, Mergeable;
    MergeIsConjunction(env, plan, bare, other);
    forall v
      ensures Accepts(env, bare, v) <==> AcceptsAll(env, s.allOf, v)
      ensures Accepts(env, s, v) <==>
              (s.nullable && v.Null?) || (Accepts(env, s.(allOf := []), v) && AcceptsAll(env, s.allOf, v))
    {
      BareAccepts(env, s.allOf, v);
      WholeAccepts(env, s, v);
    }
    NullableAlone(env, s);
    hide Accepts, AcceptsAll;
    var r := Merge(s, other).value;
    assert forall v :: Accepts(env, r, v) <==> AcceptsAll(env, s.allOf, v) && Accepts(env, other, v);
  }

  lemma SiblingsIgnored(s: Schema, s': Schema, other: Schema)
    requires s.allOf == s'.allOf != []
    ensures Merge(s, other) == Merge(s', other)
  {
    hide MergeAll, MergePlain;
  }

  lemma BareAccepts(env: Env, members: seq<Schema>, v: Json)
    ensures Accepts(env, EMPTY.(allOf := members), v) <==> AcceptsAll(env, members, v)
  {
    var s := EMPTY.(allOf := members);
    NoValidatorsAcceptEverything(env, EMPTY, v);
    assert s.(allOf := []) == EMPTY;
    SameKeywords(env, s, v);
    hide KeywordsOk;
  }

  lemma WholeAccepts(env: Env, s: Schema, v: Json)
    ensures Accepts(env, s, v) <==>
            (s.nullable && v.Null?) || (Accepts(env, s.(allOf := []), v) && AcceptsAll(env, s.allOf, v))
  {
    AcceptsMeaning(env, s, v);
    AcceptsMeaning(env, s.(allOf := []), v);
    SameKeywords(env, s, v);
    hide Accepts, KeywordsOk;
  }

  lemma NullableAlone(env: Env, s: Schema)
    ensures s.nullable ==> Accepts(env, s.(allOf := []), Null)
  {
    hide KeywordsOk;
  }

  // The members of an allOf that is the only member of another are dropped, unless the other side says
  // nothing. That does no harm exactly if the rest implies them.
  lemma DoublyNestedExact(env: Env, plan: Plan, inner: Schema, other: Schema)
    requires inner.allOf != [] && PlainMergeable(inner.(allOf := []), plan) && PlainMergeable(other, plan)
    requires Merge(EMPTY.(allOf := [inner]), other).Ok?
    ensures Conjunction(env, Merge(EMPTY.(allOf := [inner]), other).value, EMPTY.(allOf := [inner]), other) <==>
            (ContainsValidators(other) ==>
               forall v: Json :: !(inner.nullable && v.Null?) && Accepts(env, inner.(allOf := []), v) && Accepts(env, other, v) ==>
                             AcceptsAll(env, inner.allOf, v))
  {
    var s1, outer := EMPTY.(allOf := [inner]), inner.(allOf := []);
    NestedIsPlain(inner, other);
    NestedValidators(inner);
    forall v
      ensures Accepts(env, s1, v) <==> Accepts(env, inner, v)
      ensures Accepts(env, inner, v) <==>
              (inner.nullable && v.Null?) || (Accepts(env, outer, v) && AcceptsAll(env, inner.allOf, v))
    {
      OnlyMember(env, inner, v);
      WholeAccepts(env, inner, v);
    }
    NullableAlone(env, inner);
    hide Merge, PlainMergeable, Accepts, AcceptsAll;
    if ContainsValidators(other) {
      InnerIsConjunction(env, plan, inner, other);
      hide ContainsValidators, MergePlain;
    } else {
      PlainKept(inner, other);
      forall v
        ensures Accepts(env, other, v)
      {
        NoValidatorsAcceptEverything(env, other, v);
      }
      hide ContainsValidators, MergePlain;
    }
  }

  lemma PlainKept(s1: Schema, s2: Schema)
    requires ContainsValidators(s1) && !ContainsValidators(s2)
    ensures MergePlain(s1, s2) == Ok(s1)
  {
    hide ContainsValidators;
  }

  // An allOf that is still there is not looked at: the merge is that of the keywords beside it.
  lemma InnerIsConjunction(env: Env, plan: Plan, inner: Schema, other: Schema)
    requires inner.allOf != [] && PlainMergeable(inner.(allOf := []), plan) && PlainMergeable(other, plan)
    requires ContainsValidators(other) && MergePlain(inner, other).Ok?
    ensures forall v :: Accepts(env, MergePlain(inner, other).value, v) <==>
                        Accepts(env, inner.(allOf := []), v) && Accepts(env, other, v)
  {
    var outer, r := inner.(allOf := []), MergePlain(inner, other).value;
    NestedValidators(inner);
    MergedParts(inner, other);
    hide MergePlain;
    assert RequiredNames(inner, other) == RequiredNames(outer, other);
    assert Combined(outer, other, r) by { hide MergeScalars, MergeItems, MergeInto, MergeSums, Flagged, RequiredNames; }
    assert r.allOf == [] && r.nullable == (outer.nullable || other.nullable);
    ItemsAreConjunction(env, Under(plan, AtItem), outer.item, other.item);
    IntoIsConjunction(env, plan, outer.properties, other.properties);
    assert r.item == MergeItems(outer.item, other.item).value;
    assert PartsConjunction(env, plan, outer, other, r) by { hide ItemConjunction, ListConjunction, MergeInto, MergeItems, Mergeable; }
    hide PartsConjunction, Combined;
    forall v
      ensures KeywordsOk(env, r, v) <==> KeywordsOk(env, outer, v) && KeywordsOk(env, other, v)
      ensures !ContainsValidators(outer) ==> KeywordsOk(env, outer, v)
    {
      KeywordsConjunction(env, plan, outer, other, r, v);
      if !ContainsValidators(outer) { SilentKeywords(env, outer, v); }
    }
    SameFlag(plan, outer, other);
    hide KeywordsOk, ContainsValidators, PlainMergeable;
  }

  lemma SilentKeywords(env: Env, s: Schema, v: Json)
    requires !ContainsValidators(s)
    ensures KeywordsOk(env, s, v) && !s.nullable
  {
    NoValidatorsAcceptEverything(env, s, v);
    hide KeywordsOk;
  }

  lemma SameFlag(plan: Plan, s: Schema, other: Schema)
    requires PlainMergeable(s, plan) && PlainMergeable(other, plan) && ContainsValidators(other)
    ensures s.allOf == other.allOf == []
    ensures if ContainsValidators(s) then s.nullable == other.nullable else !s.nullable
  {
    hide Mergeable, ScalarsMergeable;
  }

  // ----- Types around a nested allOf -----

  // What has the type t has the type u, null aside.
  predicate Contained(t: SchemaType, u: SchemaType) {
    if t == Empty then u == Empty else Within(t, u)
  }

  lemma ContainedMeans(t: SchemaType, u: SchemaType)
    ensures Contained(t, u) <==> forall v :: TypeOk(t, v) && !v.Null? ==> TypeOk(u, v)
  {
    if t != Empty {
      WithinMeans(t, u);
    } else if u != Empty {
      var v := if u == TBoolean then Str("") else Bool(true);
      assert TypeOk(t, v) && !v.Null? && !TypeOk(u, v);
    }
  }

  // Whether a schema that says its type, and perhaps "nullable", accepts null,
  predicate TakesNull(typ: SchemaType, nullable: bool) {
    nullable || AllowsNull(typ)
  }

  // and whether it does with an allOf of one such schema.
  predicate WrapperTakesNull(typ: SchemaType, nullable: bool, inner: SchemaType, innerNullable: bool) {
    nullable || (AllowsNull(typ) && TakesNull(inner, innerNullable))
  }

  function Wrapper(typ: SchemaType, nullable: bool, child: Schema): Schema {
    Typed(typ, nullable).(allOf := [child])
  }

  // A result that names two of three types is right if the third adds nothing and null is treated alike.
  lemma DroppedType(env: Env, s1: Schema, s2: Schema, typ: SchemaType, nullable: bool, dropped: SchemaType, onNull: bool)
    requires forall v: Json :: !v.Null? ==>
               (Accepts(env, s1, v) && Accepts(env, s2, v) <==> TypeOk(typ, v) && TypeOk(dropped, v))
    requires Accepts(env, s1, Null) && Accepts(env, s2, Null) <==> onNull
    ensures Conjunction(env, Typed(typ, nullable), s1, s2) <==> Contained(typ, dropped) && TakesNull(typ, nullable) == onNull
  {
    var r := Typed(typ, nullable);
    ContainedMeans(typ, dropped);
    NullHasType();
    forall v
      ensures Accepts(env, r, v) <==> (nullable && v.Null?) || TypeOk(typ, v)
    {
      TypedDecides(env, typ, nullable, v);
    }
    hide Accepts, TypeOk, Contained, Typed;
    assert Accepts(env, r, Null) <==> TakesNull(typ, nullable);
    if !Contained(typ, dropped) {
      var v :| TypeOk(typ, v) && !v.Null? && !TypeOk(dropped, v);
      assert Accepts(env, r, v) && !(Accepts(env, s1, v) && Accepts(env, s2, v));
    }
  }

  lemma WrapperAccepts(env: Env, t: SchemaType, n: bool, inner: SchemaType, k: bool, v: Json)
    ensures Accepts(env, Wrapper(t, n, Typed(inner, k)), v) <==>
            if v.Null? then WrapperTakesNull(t, n, inner, k) else TypeOk(t, v) && TypeOk(inner, v)
  {
    NullHasType();
    TypedDecides(env, inner, k, v);
    WrapperDecides(env, t, n, Typed(inner, k), v);
    hide Accepts, TypeOk, Typed;
  }

  // The type and the flag beside a nested allOf are dropped.
  lemma SiblingTypeExact(env: Env, t: SchemaType, n: bool, inner: SchemaType, k: bool, other: SchemaType, m: bool)
    requires Merge(Wrapper(t, n, Typed(inner, k)), Typed(other, m)).Ok?
    ensures var s1, s2 := Wrapper(t, n, Typed(inner, k)), Typed(other, m);
            Conjunction(env, Merge(s1, s2).value, s1, s2) <==>
            && Contained(Both(inner, other), t)
            && TakesNull(Both(inner, other), k || m) == (WrapperTakesNull(t, n, inner, k) && TakesNull(other, m))
  {
    hide *;
    var s1, s2 := Wrapper(t, n, Typed(inner, k)), Typed(other, m);
    MergedSibling(t, n, inner, k, other, m);
    BothAccept(inner, other);
    AcceptedTypes(env, t, n, inner, k, other, m);
    DroppedType(env, s1, s2, Both(inner, other), k || m, t, WrapperTakesNull(t, n, inner, k) && TakesNull(other, m));
  }

  lemma MergedSibling(t: SchemaType, n: bool, inner: SchemaType, k: bool, other: SchemaType, m: bool)
    ensures var merged := Merge(Wrapper(t, n, Typed(inner, k)), Typed(other, m));
            && (merged.Ok? <==> Compatible(inner, other))
            && (merged.Ok? ==> merged.value == Typed(Both(inner, other), k || m))
  {
    NestedIsMerged(Wrapper(t, n, Typed(inner, k)), Typed(inner, k), Typed(other, m));
    MergedTyped(inner, k, other, m);
    hide Merge;
  }

  lemma AcceptedTypes(env: Env, t: SchemaType, n: bool, inner: SchemaType, k: bool, other: SchemaType, m: bool)
    ensures var s1, s2 := Wrapper(t, n, Typed(inner, k)), Typed(other, m);
            && (Accepts(env, s1, Null) && Accepts(env, s2, Null) <==> WrapperTakesNull(t, n, inner, k) && TakesNull(other, m))
            && (forall v: Json :: !v.Null? ==>
                  (Accepts(env, s1, v) && Accepts(env, s2, v) <==> TypeOk(t, v) && TypeOk(inner, v) && TypeOk(other, v)))
  {
    hide *;
    forall v
      ensures Accepts(env, Wrapper(t, n, Typed(inner, k)), v) <==>
              if v.Null? then WrapperTakesNull(t, n, inner, k) else TypeOk(t, v) && TypeOk(inner, v)
      ensures Accepts(env, Typed(other, m), v) <==> if v.Null? then TakesNull(other, m) else TypeOk(other, v)
    {
      WrapperAccepts(env, t, n, inner, k, v);
      TypedAccepts(env, other, m, v);
    }
  }

  lemma TypedAccepts(env: Env, typ: SchemaType, nullable: bool, v: Json)
    ensures Accepts(env, Typed(typ, nullable), v) <==> if v.Null? then TakesNull(typ, nullable) else TypeOk(typ, v)
  {
    NullHasType();
    TypedDecides(env, typ, nullable, v);
    hide Accepts, TypeOk, Typed;
  }

  // A nested allOf with one member is merged as that member.
  lemma NestedIsMerged(s: Schema, child: Schema, other: Schema)
    requires s.allOf == [child] && child.allOf == other.allOf == []
    ensures Merge(s, other) == Merge(child, other)
  {
    hide ContainsValidators;
    assert MergeAll([child]) == Ok(child);
  }

  // An allOf that is the only member of an allOf loses its members.
  lemma DoublyNestedTypeExact(env: Env, t: SchemaType, n: bool, inner: SchemaType, k: bool, other: SchemaType, m: bool)
    requires Merge(EMPTY.(allOf := [Wrapper(t, n, Typed(inner, k))]), Typed(other, m)).Ok?
    ensures var s1, s2 := EMPTY.(allOf := [Wrapper(t, n, Typed(inner, k))]), Typed(other, m);
            Conjunction(env, Merge(s1, s2).value, s1, s2) <==>
            (m || other != Empty ==>
               && Contained(Both(t, other), inner)
               && TakesNull(Both(t, other), n || m) == (WrapperTakesNull(t, n, inner, k) && TakesNull(other, m)))
  {
    hide *;
    var x := Wrapper(t, n, Typed(inner, k));
    var s1, s2 := EMPTY.(allOf := [x]), Typed(other, m);
    forall v
      ensures Accepts(env, s1, v) <==> Accepts(env, x, v)
    {
      OnlyMember(env, x, v);
    }
    if m || other != Empty {
      MergedWrapper(t, n, inner, k, other, m);
      BothAccept(t, other);
      AcceptedTypes(env, t, n, inner, k, other, m);
      DroppedType(env, s1, s2, Both(t, other), n || m, inner, WrapperTakesNull(t, n, inner, k) && TakesNull(other, m));
    } else {
      KeptWrapper(t, n, inner, k);
      forall v
        ensures Accepts(env, s2, v)
      {
        TypedValidators(other, m);
        NoValidatorsAcceptEverything(env, s2, v);
      }
      SameConjunction(env, x, s1, s2);
    }
  }

  lemma OnlyMember(env: Env, x: Schema, v: Json)
    ensures Accepts(env, EMPTY.(allOf := [x]), v) <==> Accepts(env, x, v)
  {
    assert Typed(Empty, false).(allOf := [x]) == EMPTY.(allOf := [x]);
    WrapperDecides(env, Empty, false, x, v);
    hide Accepts;
  }

  lemma SameConjunction(env: Env, r: Schema, s1: Schema, s2: Schema)
    requires forall v :: Accepts(env, s1, v) <==> Accepts(env, r, v)
    requires forall v :: Accepts(env, s2, v)
    ensures Conjunction(env, r, s1, s2)
  {
    hide Accepts;
  }

  lemma KeptWrapper(t: SchemaType, n: bool, inner: SchemaType, k: bool)
    ensures var x := Wrapper(t, n, Typed(inner, k)); Merge(EMPTY.(allOf := [x]), Typed(Empty, false)) == Ok(x)
  {
    var x := Wrapper(t, n, Typed(inner, k));
    assert MergeAll([x]) == Ok(x);
  }

  lemma MergedWrapper(t: SchemaType, n: bool, inner: SchemaType, k: bool, other: SchemaType, m: bool)
    requires m || other != Empty
    ensures var merged := Merge(EMPTY.(allOf := [Wrapper(t, n, Typed(inner, k))]), Typed(other, m));
            && (merged.Ok? <==> Compatible(t, other))
            && (merged.Ok? ==> merged.value == Typed(Both(t, other), n || m))
  {
    hide ContainsValidators, MergeScalars, MergePlain, Merge;
    var x, s2 := Wrapper(t, n, Typed(inner, k)), Typed(other, m);
    NestedIsPlain(x, s2);
    TypesMerge(t, other);
    TypedValidators(other, m);
    NestedValidators(x);
    PlainScalars(x, s2);
  }

  lemma NestedValidators(x: Schema)
    requires x.allOf != []
    ensures ContainsValidators(x)
  {
  }

  lemma NestedIsPlain(x: Schema, other: Schema)
    requires other.allOf == []
    ensures Merge(EMPTY.(allOf := [x]), other) == MergePlain(x, other)
  {
    hide ContainsValidators, MergePlain;
    assert MergeAll([x]) == Ok(x);
  }

  // ----- A bound beside a nested allOf -----

  predicate LowEnough(m: Option<Num>, bound: Num) {
    m.Some? && m.value.value <= bound.value
  }

  // The upper bound beside a nested allOf is dropped.
  lemma SiblingMaximumExact(env: Env, bound: Option<Num>, inner: Option<Num>, other: Option<Num>)
    ensures Merge(Maximum(bound, false).(allOf := [Maximum(inner, false)]), Maximum(other, false)).Ok?
    ensures var s1, s2 := Maximum(bound, false).(allOf := [Maximum(inner, false)]), Maximum(other, false);
            Conjunction(env, Merge(s1, s2).value, s1, s2) <==>
            (bound.None? || LowEnough(inner, bound.value) || LowEnough(other, bound.value))
  {
    var child := Maximum(inner, false);
    var s1, s2 := Maximum(bound, false).(allOf := [child]), Maximum(other, false);
    var lower := LowerNum(inner, other);
    NestedIsMerged(s1, child, s2);
    MergedMaximum(inner, other);
    forall v
      ensures Accepts(env, s1, v) <==> (v.Number? ==> BelowMaximum(bound, false, v.n) && BelowMaximum(inner, false, v.n))
      ensures Accepts(env, s2, v) <==> (v.Number? ==> BelowMaximum(other, false, v.n))
      ensures Accepts(env, Maximum(lower, false), v) <==> (v.Number? ==> BelowMaximum(lower, false, v.n))
    {
      BoundedWrapperDecides(env, bound, child, v);
      MaximumDecides(env, inner, v);
      MaximumDecides(env, other, v);
      MaximumDecides(env, lower, v);
    }
    hide Accepts, Merge, Maximum;
    var r := Merge(s1, s2).value;
    if bound.Some? {
      var above := Number(if lower.Some? then lower.value.value else bound.value.value + 1.0);
      assert Accepts(env, r, above);
      assert Accepts(env, s1, above) && Accepts(env, s2, above) <==> above.n <= bound.value.value;
    }
  }

  lemma MaximumDecides(env: Env, bound: Option<Num>, v: Json)
    ensures Accepts(env, Maximum(bound, false), v) <==> (v.Number? ==> BelowMaximum(bound, false, v.n))
  {
    ScalarsDecide(env, Maximum(bound, false), v);
  }

  lemma BoundedWrapperDecides(env: Env, bound: Option<Num>, child: Schema, v: Json)
    ensures Accepts(env, Maximum(bound, false).(allOf := [child]), v) <==>
            (v.Number? ==> BelowMaximum(bound, false, v.n)) && Accepts(env, child, v)
  {
    var s := Maximum(bound, false).(allOf := [child]);
    OnlyScalars(env, Maximum(bound, false), v);
    SameKeywords(env, s, v);
    assert s.(allOf := []) == Maximum(bound, false);
    assert Accepts(env, s, v) <==> KeywordsOk(env, s, v) && Accepts(env, s.allOf[0], v);
  }

  lemma MergedMaximum(m1: Option<Num>, m2: Option<Num>)
    ensures Merge(Maximum(m1, false), Maximum(m2, false)) == Ok(Maximum(LowerNum(m1, m2), false))
  {
    var s1, s2 := Maximum(m1, false), Maximum(m2, false);
    MaximumValidators(m1);
    MaximumValidators(m2);
    hide Merge, ContainsValidators;
    if m1.Some? != m2.Some? {
      MergedAlone(s1, s2);
    } else if m1.None? {
      MergedEmpty();
    } else {
      MergedScalars(s1, s2);
    }
  }

  lemma MaximumValidators(bound: Option<Num>)
    ensures ContainsValidators(Maximum(bound, false)) <==> bound.Some?
  {
  }

  // ----- Additional properties -----

  // A schema that names the properties of objects and says what others there may be. Without
  // `additional`, the item is for the elements of arrays.
  function Open(names: seq<string>, additional: Option<bool>, item: Option<Schema>): Schema {
    EMPTY.(properties := Fields(names), additionalProperties := additional, item := item)
  }

  ghost predicate OpenOk(env: Env, names: seq<string>, additional: Option<bool>, item: Option<Schema>, members: map<string, Json>) {
    additional.Some? ==>
      forall key :: key in members && key !in names ==> additional.value && ItemOk(env, item, members[key])
  }

  ghost predicate ElementsOk(env: Env, additional: Option<bool>, item: Option<Schema>, elems: seq<Json>) {
    additional.None? ==> forall e :: e in elems ==> ItemOk(env, item, e)
  }

  lemma OpenDecides(env: Env, names: seq<string>, additional: Option<bool>, item: Option<Schema>, v: Json)
    ensures Accepts(env, Open(names, additional, item), v) <==>
            && (v.Object? ==> OpenOk(env, names, additional, item, v.members))
            && (v.Array? ==> ElementsOk(env, additional, item, v.elems))
  {
    var s := Open(names, additional, item);
    if v.Array? {
      hide ItemOk;
      assert ArrayOk(env, s, v.elems) <==> ElementsOk(env, additional, item, v.elems);
    }
    if v.Object? { OpenObject(env, names, additional, item, v.members); }
    hide ArrayOk, ObjectOk, OpenOk, ElementsOk;
    assert SumsOk(env, s, v);
  }

  lemma OpenObject(env: Env, names: seq<string>, additional: Option<bool>, item: Option<Schema>, members: map<string, Json>)
    ensures ObjectOk(env, Open(names, additional, item), members) <==> OpenOk(env, names, additional, item, members)
  {
    var s := Open(names, additional, item);
    forall p | p in s.properties
      ensures PropertyOk(env, p, members)
    {
      if p.name in members { NoValidatorsAcceptEverything(env, EMPTY, members[p.name]); }
    }
    forall key
      ensures Extra(env, s, key) <==> key !in names
    {
      InNames(Fields(names), key);
    }
    hide PropertyOk, Extra, ItemOk, Fields;
  }

  // Other properties may be anything.
  ghost predicate Unrestricted(env: Env, additional: Option<bool>, item: Option<Schema>) {
    additional.Some? ==> additional.value && (item.Some? ==> AcceptsEverything(env, item.value))
  }

  // An item that is lost must not have mattered.
  ghost predicate Redundant(env: Env, item: Option<Schema>) {
    item.Some? ==> AcceptsEverything(env, item.value)
  }

  // What becomes of the items.
  function MergedItem(c1: Option<bool>, i1: Option<Schema>, c2: Option<bool>, i2: Option<Schema>): Option<Schema>
    requires MergeItems(i1, i2).Ok?
  {
    if c1.None? && c2.Some? then i2
    else if c1.Some? && c2.None? then i1
    else MergeItems(i1, i2).value
  }

  lemma MergedOpen(a: seq<string>, c1: Option<bool>, i1: Option<Schema>, b: seq<string>, c2: Option<bool>, i2: Option<Schema>)
    requires ContainsValidators(Open(a, c1, i1)) && ContainsValidators(Open(b, c2, i2))
    requires Merge(Open(a, c1, i1), Open(b, c2, i2)).Ok?
    ensures MergeItems(i1, i2).Ok? && (c1 == c2 || c1.None? || c2.None?)
    ensures Merge(Open(a, c1, i1), Open(b, c2, i2)) ==
            Ok(Open(Union(a, b), if c1.None? then c2 else c1, MergedItem(c1, i1, c2, i2)))
  {
    var s1, s2 := Open(a, c1, i1), Open(b, c2, i2);
    MergedFields(a, b);
    assert MergeScalars(NO_SCALARS, NO_SCALARS) == Ok(NO_SCALARS);
    hide MergeInto, MergeItems, MergeScalars, ContainsValidators;
    assert MergePlain(s1, s2).Ok?;
    var arrays := MergeArrays(s1, s2, EMPTY);
    assert arrays.Ok? && MergeItems(i1, i2).Ok? && arrays == Ok(EMPTY.(item := MergeItems(i1, i2).value));
    assert RequiredNames(s1, s2) == {};
    assert Flagged(Fields(Union(a, b)), {}) == Fields(Union(a, b));
    OpenObjects(a, c1, i1, b, c2, i2, arrays.value);
    hide MergeArrays, MergeObjects;
  }

  lemma OpenObjects(a: seq<string>, c1: Option<bool>, i1: Option<Schema>, b: seq<string>, c2: Option<bool>, i2: Option<Schema>,
                    r: Schema)
    requires MergeItems(i1, i2).Ok? && r == EMPTY.(item := MergeItems(i1, i2).value)
    requires MergeInto(Fields(a), Fields(b)) == Ok(Fields(Union(a, b)))
    requires RequiredNames(Open(a, c1, i1), Open(b, c2, i2)) == {}
    requires Flagged(Fields(Union(a, b)), {}) == Fields(Union(a, b))
    requires MergeObjects(Open(a, c1, i1), Open(b, c2, i2), r).Ok?
    ensures c1 == c2 || c1.None? || c2.None?
    ensures MergeObjects(Open(a, c1, i1), Open(b, c2, i2), r) ==
            Ok(Open(Union(a, b), if c1.None? then c2 else c1, MergedItem(c1, i1, c2, i2)))
  {
    hide MergeInto, MergeItems, RequiredNames, Flagged, Fields;
  }

  // What one side says of additional properties is not applied to the properties of the other, and
  // an item for arrays is lost if only the other side says anything of additional properties.
  lemma AdditionalExact(env: Env, plan: Plan, a: seq<string>, c1: Option<bool>, i1: Option<Schema>,
                        b: seq<string>, c2: Option<bool>, i2: Option<Schema>)
    requires (i1.Some? ==> Mergeable(i1.value, plan)) && (i2.Some? ==> Mergeable(i2.value, plan))
    requires Merge(Open(a, c1, i1), Open(b, c2, i2)).Ok?
    ensures Conjunction(env, Merge(Open(a, c1, i1), Open(b, c2, i2)).value, Open(a, c1, i1), Open(b, c2, i2)) <==>
            Keeps(env, a, c1, i1, b, c2, i2) && Keeps(env, b, c2, i2, a, c1, i1)
  {
    var s1, s2 := Open(a, c1, i1), Open(b, c2, i2);
    OpenValidators(a, c1, i1);
    OpenValidators(b, c2, i2);
    hide Merge, Accepts, ContainsValidators, Mergeable, Open;
    if ContainsValidators(s1) && ContainsValidators(s2) {
      MergedOpen(a, c1, i1, b, c2, i2);
      ItemsAreConjunction(env, plan, i1, i2);
      OpenConjunction(env, a, c1, i1, b, c2, i2);
    } else {
      SilentSide(env, s1, s2);
    }
  }

  // Merging does no harm to what the first side says.
  ghost predicate Keeps(env: Env, a: seq<string>, c1: Option<bool>, i1: Option<Schema>,
                        b: seq<string>, c2: Option<bool>, i2: Option<Schema>)
  {
    && ((forall name :: name in b ==> name in a) || Unrestricted(env, c1, i1))
    && (c1.None? && c2.Some? ==> Redundant(env, i1))
  }

  lemma OpenValidators(names: seq<string>, additional: Option<bool>, item: Option<Schema>)
    ensures Open(names, additional, item).allOf == []
    ensures ContainsValidators(Open(names, additional, item)) <==> names != [] || additional.Some? || item.Some?
  {
  }

  lemma SilentSide(env: Env, s1: Schema, s2: Schema)
    requires s1.allOf == s2.allOf == [] && !(ContainsValidators(s1) && ContainsValidators(s2)) && Merge(s1, s2).Ok?
    ensures Conjunction(env, Merge(s1, s2).value, s1, s2)
  {
    if ContainsValidators(s1) != ContainsValidators(s2) {
      MergedAlone(s1, s2);
      DroppedSide(env, s1, s2);
    } else {
      SilentBoth(s1, s2);
      forall v
        ensures Accepts(env, s1, v) && Accepts(env, s2, v) && Accepts(env, EMPTY, v)
      {
        NoValidatorsAcceptEverything(env, s1, v);
        NoValidatorsAcceptEverything(env, s2, v);
        NoValidatorsAcceptEverything(env, EMPTY, v);
      }
      hide Accepts, Merge, ContainsValidators;
    }
  }

  lemma SilentBoth(s1: Schema, s2: Schema)
    requires !ContainsValidators(s1) && !ContainsValidators(s2)
    ensures Merge(s1, s2) == Ok(EMPTY)
  {
    MergedNothing(s1, s2, EMPTY);
    hide MergeArrays, MergeObjects;
    assert MergeScalars(NO_SCALARS, NO_SCALARS) == Ok(NO_SCALARS);
    assert MergePlain(s1, s2) == Ok(EMPTY);
  }

  lemma OpenConjunction(env: Env, a: seq<string>, c1: Option<bool>, i1: Option<Schema>,
                        b: seq<string>, c2: Option<bool>, i2: Option<Schema>)
    requires MergeItems(i1, i2).Ok? && (c1 == c2 || c1.None? || c2.None?)
    requires ItemConjunction(env, MergeItems(i1, i2).value, i1, i2)
    ensures var r := Open(Union(a, b), if c1.None? then c2 else c1, MergedItem(c1, i1, c2, i2));
            Conjunction(env, r, Open(a, c1, i1), Open(b, c2, i2)) <==>
            Keeps(env, a, c1, i1, b, c2, i2) && Keeps(env, b, c2, i2, a, c1, i1)
  {
    var u, c, i := Union(a, b), if c1.None? then c2 else c1, MergedItem(c1, i1, c2, i2);
    var r, s1, s2 := Open(u, c, i), Open(a, c1, i1), Open(b, c2, i2);
    hide Accepts, Open, MergeItems, OpenOk, ElementsOk, Unrestricted, Redundant, MergedItem, ItemConjunction;
    forall v
      ensures Accepts(env, r, v) <==> (v.Object? ==> OpenOk(env, u, c, i, v.members)) && (v.Array? ==> ElementsOk(env, c, i, v.elems))
      ensures Accepts(env, s1, v) <==> (v.Object? ==> OpenOk(env, a, c1, i1, v.members)) && (v.Array? ==> ElementsOk(env, c1, i1, v.elems))
      ensures Accepts(env, s2, v) <==> (v.Object? ==> OpenOk(env, b, c2, i2, v.members)) && (v.Array? ==> ElementsOk(env, c2, i2, v.elems))
    {
      OpenDecides(env, u, c, i, v);
      OpenDecides(env, a, c1, i1, v);
      OpenDecides(env, b, c2, i2, v);
    }
    if Conjunction(env, r, s1, s2) {
      forall members
        ensures OpenOk(env, u, c, i, members) ==> OpenOk(env, a, c1, i1, members) && OpenOk(env, b, c2, i2, members)
      {
        assert Accepts(env, r, Object(members)) <==> Accepts(env, s1, Object(members)) && Accepts(env, s2, Object(members));
      }
      forall elems
        ensures ElementsOk(env, c, i, elems) ==> ElementsOk(env, c1, i1, elems) && ElementsOk(env, c2, i2, elems)
      {
        assert Accepts(env, r, Array(elems)) <==> Accepts(env, s1, Array(elems)) && Accepts(env, s2, Array(elems));
      }
      KnownNames(env, u, c, i, a, c1, i1);
      KnownNames(env, u, c, i, b, c2, i2);
      LostItem(env, c, i, c1, i1);
      LostItem(env, c, i, c2, i2);
    } else if Keeps(env, a, c1, i1, b, c2, i2) && Keeps(env, b, c2, i2, a, c1, i1) {
      var v :| !(Accepts(env, r, v) <==> Accepts(env, s1, v) && Accepts(env, s2, v));
      if v.Object? { NamesApart(env, a, c1, i1, b, c2, i2, v.members); }
      if v.Array? { ElementsApart(env, c1, i1, c2, i2, v.elems); }
      assert false;
    }
  }

  // An item that the result does not apply to arrays must be redundant.
  lemma LostItem(env: Env, c: Option<bool>, i: Option<Schema>, additional: Option<bool>, item: Option<Schema>)
    requires forall elems :: ElementsOk(env, c, i, elems) ==> ElementsOk(env, additional, item, elems)
    ensures additional.None? && c.Some? ==> Redundant(env, item)
  {
    hide Accepts;
    if additional.None? && c.Some? {
      forall w
        ensures item.Some? ==> Accepts(env, item.value, w)
      {
        assert ElementsOk(env, c, i, [w]);
        assert w in [w] && ItemOk(env, item, w);
      }
    }
  }

  lemma ElementsApart(env: Env, c1: Option<bool>, i1: Option<Schema>, c2: Option<bool>, i2: Option<Schema>, elems: seq<Json>)
    requires MergeItems(i1, i2).Ok? && (c1 == c2 || c1.None? || c2.None?)
    requires ItemConjunction(env, MergeItems(i1, i2).value, i1, i2)
    requires (c1.None? && c2.Some? ==> Redundant(env, i1)) && (c2.None? && c1.Some? ==> Redundant(env, i2))
    ensures ElementsOk(env, if c1.None? then c2 else c1, MergedItem(c1, i1, c2, i2), elems) <==>
            ElementsOk(env, c1, i1, elems) && ElementsOk(env, c2, i2, elems)
  {
    hide Accepts, MergeItems;
    assert forall w :: Redundant(env, i1) ==> ItemOk(env, i1, w);
    assert forall w :: Redundant(env, i2) ==> ItemOk(env, i2, w);
  }

  // What the result allows for a name it knows, each side must allow.
  lemma KnownNames(env: Env, u: seq<string>, c: Option<bool>, i: Option<Schema>,
                   names: seq<string>, additional: Option<bool>, item: Option<Schema>)
    requires forall members :: OpenOk(env, u, c, i, members) ==> OpenOk(env, names, additional, item, members)
    ensures (forall name :: name in u ==> name in names) || Unrestricted(env, additional, item)
  {
    if name :| name in u && name !in names {
      forall w
        ensures OpenOk(env, u, c, i, map[name := w])
      {
      }
      ForeignName(env, names, additional, item, name);
    }
  }

  // A side that restricts other properties restricts any name it does not know.
  lemma ForeignName(env: Env, names: seq<string>, additional: Option<bool>, item: Option<Schema>, name: string)
    requires name !in names
    ensures (forall w :: OpenOk(env, names, additional, item, map[name := w])) <==> Unrestricted(env, additional, item)
  {
    hide Accepts;
    forall w
      ensures OpenOk(env, names, additional, item, map[name := w]) <==>
              (additional.Some? ==> additional.value && ItemOk(env, item, w))
    {
      assert name in map[name := w];
    }
    hide OpenOk;
    if Unrestricted(env, additional, item) {
      assert forall w :: additional.Some? ==> additional.value && ItemOk(env, item, w);
    } else if additional.value {
      var w :| !Accepts(env, item.value, w);
      assert !OpenOk(env, names, additional, item, map[name := w]);
    } else {
      assert !OpenOk(env, names, additional, item, map[name := Null]);
    }
  }

  lemma NamesApart(env: Env, a: seq<string>, c1: Option<bool>, i1: Option<Schema>,
                   b: seq<string>, c2: Option<bool>, i2: Option<Schema>, members: map<string, Json>)
    requires MergeItems(i1, i2).Ok? && (c1 == c2 || c1.None? || c2.None?)
    requires ItemConjunction(env, MergeItems(i1, i2).value, i1, i2)
    requires (forall name :: name in b ==> name in a) || Unrestricted(env, c1, i1)
    requires (forall name :: name in a ==> name in b) || Unrestricted(env, c2, i2)
    ensures OpenOk(env, Union(a, b), if c1.None? then c2 else c1, MergedItem(c1, i1, c2, i2), members) <==>
            OpenOk(env, a, c1, i1, members) && OpenOk(env, b, c2, i2, members)
  {
    hide Accepts, MergeItems;
    assert forall w :: Unrestricted(env, c1, i1) && c1.Some? ==> ItemOk(env, i1, w);
    assert forall w :: Unrestricted(env, c2, i2) && c2.Some? ==> ItemOk(env, i2, w);
  }

  // ----- Inputs for which the result is wrong -----

  // "integer" beside an allOf of "number",
  lemma WrongSibling(env: Env)
    ensures var s1, s2 := Wrapper(TInteger, false, Typed(TNumber, false)), Typed(Empty, false);
            Merge(s1, s2).Ok? && !Conjunction(env, Merge(s1, s2).value, s1, s2)
  {
    hide Merge, ContainsValidators, Conjunction, Wrapper, Typed;
    MergedSibling(TInteger, false, TNumber, false, Empty, false);
    SiblingTypeExact(env, TInteger, false, TNumber, false, Empty, false);
  }

  // "integer" in an allOf that is the only member of one, beside "number",
  lemma WrongMember(env: Env)
    ensures var s1, s2 := EMPTY.(allOf := [Wrapper(Empty, false, Typed(TInteger, false))]), Typed(TNumber, false);
            Merge(s1, s2).Ok? && !Conjunction(env, Merge(s1, s2).value, s1, s2)
  {
    hide Merge, ContainsValidators, Conjunction, Wrapper, Typed;
    MergedWrapper(Empty, false, TInteger, false, TNumber, false);
    DoublyNestedTypeExact(env, Empty, false, TInteger, false, TNumber, false);
  }

  // and "string" for additional properties beside a schema with one property.
  lemma WrongAdditional(env: Env)
    ensures var s1, s2 := Open([], Some(true), Some(Typed(TString, false))), Open(["a"], None, None);
            Merge(s1, s2).Ok? && !Conjunction(env, Merge(s1, s2).value, s1, s2)
  {
    var item := Some(Typed(TString, false));
    MergedExample();
    hide Merge, MergeItems, ContainsValidators, Conjunction, Accepts;
    var plan := Plan(_ => false, _ => false);
    TypedMergeable(plan, TString);
    AdditionalExact(env, plan, [], Some(true), item, ["a"], None, None);
    TypedDecides(env, TString, false, Null);
    assert "a" in ["a"];
  }

  lemma TypedMergeable(plan: Plan, typ: SchemaType)
    requires !plan.nullable([]) && !plan.exclusiveMinimum([])
    ensures Mergeable(Typed(typ, false), plan)
  {
  }

  lemma MergedExample()
    ensures var item := Some(Typed(TString, false));
            Merge(Open([], Some(true), item), Open(["a"], None, None)) == Ok(Open(["a"], Some(true), item))
  {
    var item := Some(Typed(TString, false));
    OpenValidators([], Some(true), item);
    OpenValidators(["a"], None, None);
    var s1, s2 := Open([], Some(true), item), Open(["a"], None, None);
    MergedFields([], ["a"]);
    assert Union([], ["a"]) == ["a"] by { assert Union(["a"], []) == ["a"]; assert ["a"][1..] == []; assert [] + ["a"] == ["a"]; }
    assert MergeScalars(NO_SCALARS, NO_SCALARS) == Ok(NO_SCALARS);
    assert MergeItems(item, None) == Ok(item);
    hide MergeInto, MergeItems, MergeScalars, ContainsValidators;
    assert RequiredNames(s1, s2) == {};
    assert Flagged(Fields(["a"]), {}) == Fields(["a"]);
    assert MergeArrays(s1, s2, EMPTY) == Ok(EMPTY.(item := item));
    assert MergeObjects(s1, s2, EMPTY.(item := item)) == Ok(Open(["a"], Some(true), item));
    hide MergeArrays, MergeObjects;
    assert MergePlain(s1, s2) == Ok(Open(["a"], Some(true), item));
  }
}
