/**
Where merging is lossy. For each keyword that the code does not carry over exactly: when the
result is still the conjunction, on schemas made of that keyword.
 */
module AllOfLimits {
  import opened Wrappers
  import opened Schemas
  import opened AllOf
  import opened AllOfProofs

  function Maximum(bound: Option<Num>, exclusive: bool): Schema {
    EMPTY.(scalars := NO_SCALARS.(maximum := bound, exclusiveMaximum := exclusive))
  }

  function Minimum(bound: Option<Num>, exclusive: bool): Schema {
    EMPTY.(scalars := NO_SCALARS.(minimum := bound, exclusiveMinimum := exclusive))
  }

  function Typed(typ: SchemaType, nullable: bool): Schema {
    EMPTY.(nullable := nullable, scalars := NO_SCALARS.(typ := typ))
  }

  lemma ScalarsDecide(env: Env, s: Schema, v: Json)
    requires s == EMPTY.(nullable := s.nullable, scalars := s.scalars)
    ensures Accepts(env, s, v) <==> (s.nullable && v.Null?) || ScalarsOk(env, s.scalars, v)
  {
    OnlyScalars(env, s, v);
  }

  lemma MergedScalars(s1: Schema, s2: Schema)
    requires s1 == EMPTY.(nullable := s1.nullable, scalars := s1.scalars) && ContainsValidators(s1)
    requires s2 == EMPTY.(nullable := s2.nullable, scalars := s2.scalars) && ContainsValidators(s2)
    requires MergeScalars(s1.scalars, s2.scalars).Ok?
    ensures Merge(s1, s2) == Ok(EMPTY.(nullable := s1.nullable || s2.nullable,
                                       scalars := MergeScalars(s1.scalars, s2.scalars).value))
  {
    PlainScalars(s1, s2);
    hide MergePlain, MergeScalars, ContainsValidators;
  }

  // The step after nested allOf lists have been merged looks at no allOf that is still there.
  lemma PlainScalars(s1: Schema, s2: Schema)
    requires s1 == EMPTY.(nullable := s1.nullable, scalars := s1.scalars, allOf := s1.allOf) && ContainsValidators(s1)
    requires s2 == EMPTY.(nullable := s2.nullable, scalars := s2.scalars, allOf := s2.allOf) && ContainsValidators(s2)
    ensures var scalars, r := MergeScalars(s1.scalars, s2.scalars), MergePlain(s1, s2);
            if scalars.Ok? then r == Ok(EMPTY.(nullable := s1.nullable || s2.nullable, scalars := scalars.value))
            else r == Err(scalars.error)
  {
    hide MergeScalars, MergeArrays, MergeObjects, ContainsValidators;
    var scalars := MergeScalars(s1.scalars, s2.scalars);
    if scalars.Ok? {
      var base := EMPTY.(nullable := s1.nullable || s2.nullable, scalars := scalars.value);
      MergedNothing(s1, s2, base);
      assert MergePlain(s1, s2) == Ok(base.(oneOf := [], anyOf := []));
    }
  }

  lemma MergedNothing(s1: Schema, s2: Schema, r: Schema)
    requires s1.items == s2.items == [] && s1.item == s2.item == r.item == None
    requires s1.patternProperties == s2.patternProperties == [] && s1.properties == s2.properties == r.properties == []
    requires s1.additionalProperties == s2.additionalProperties == r.additionalProperties == None
    requires s1.minItems == s2.minItems == r.minItems == s1.maxItems == s2.maxItems == r.maxItems == None
    requires s1.minProperties == s2.minProperties == r.minProperties == None
    requires s1.maxProperties == s2.maxProperties == r.maxProperties == None
    requires !s1.uniqueItems && !s2.uniqueItems && !r.uniqueItems
    ensures MergeArrays(s1, s2, r) == Ok(r) && MergeObjects(s1, s2, r) == Ok(r)
  {
    assert MergeInto([], []) == Ok([]);
    assert Flagged([], RequiredNames(s1, s2)) == [];
    assert MergeItems(None, None) == Ok(None);
    hide MergeInto, MergeItems;
  }

  // The upper bound that decides is exclusive: the flag is lost.
  predicate LosesExclusiveMaximum(m: Option<Num>, exclusive: bool, other: Option<Num>) {
    m.Some? && exclusive && (other.None? || m.value.value <= other.value.value)
  }

  lemma ExclusiveMaximumExact(env: Env, m1: Option<Num>, e1: bool, m2: Option<Num>, e2: bool)
    requires ContainsValidators(Maximum(m1, e1)) && ContainsValidators(Maximum(m2, e2))
    ensures Merge(Maximum(m1, e1), Maximum(m2, e2)).Ok?
    ensures Conjunction(env, Merge(Maximum(m1, e1), Maximum(m2, e2)).value, Maximum(m1, e1), Maximum(m2, e2))
            <==> !LosesExclusiveMaximum(m1, e1, m2) && !LosesExclusiveMaximum(m2, e2, m1)
  {
    var s1, s2 := Maximum(m1, e1), Maximum(m2, e2);
    MergedScalars(s1, s2);
    var r := Merge(s1, s2).value;
    forall v
      ensures Accepts(env, r, v) <==> ScalarsOk(env, r.scalars, v)
      ensures Accepts(env, s1, v) <==> ScalarsOk(env, s1.scalars, v)
      ensures Accepts(env, s2, v) <==> ScalarsOk(env, s2.scalars, v)
    {
      ScalarsDecide(env, r, v);
      ScalarsDecide(env, s1, v);
      ScalarsDecide(env, s2, v);
    }
    hide Accepts, Merge, ContainsValidators;
    if LosesExclusiveMaximum(m1, e1, m2) {
      assert !Accepts(env, s1, Number(m1.value.value)) && Accepts(env, r, Number(m1.value.value));
    }
    if LosesExclusiveMaximum(m2, e2, m1) {
      assert !Accepts(env, s2, Number(m2.value.value)) && Accepts(env, r, Number(m2.value.value));
    }
  }

  // Some lower bound that decides is exclusive.
  predicate DecidesExclusively(m: Option<Num>, exclusive: bool, other: Option<Num>) {
    m.Some? && exclusive && (other.None? || m.value.value >= other.value.value)
  }

  lemma ExclusiveMinimumExact(env: Env, m1: Option<Num>, e1: bool, m2: Option<Num>, e2: bool)
    requires ContainsValidators(Minimum(m1, e1)) && ContainsValidators(Minimum(m2, e2))
    ensures Merge(Minimum(m1, e1), Minimum(m2, e2)).Ok?
    ensures Conjunction(env, Merge(Minimum(m1, e1), Minimum(m2, e2)).value, Minimum(m1, e1), Minimum(m2, e2))
            <==> (e1 || e2) && (m1.Some? || m2.Some?) ==> DecidesExclusively(m1, e1, m2) || DecidesExclusively(m2, e2, m1)
  {
    var s1, s2 := Minimum(m1, e1), Minimum(m2, e2);
    MergedScalars(s1, s2);
    var r := Merge(s1, s2).value;
    forall v
      ensures Accepts(env, r, v) <==> ScalarsOk(env, r.scalars, v)
      ensures Accepts(env, s1, v) <==> ScalarsOk(env, s1.scalars, v)
      ensures Accepts(env, s2, v) <==> ScalarsOk(env, s2.scalars, v)
    {
      ScalarsDecide(env, r, v);
      ScalarsDecide(env, s1, v);
      ScalarsDecide(env, s2, v);
    }
    hide Accepts, Merge, ContainsValidators;
    var bound := r.scalars.minimum;
    if bound.Some? {
      var v := Number(bound.value.value);
      assert !Accepts(env, r, v) <==> e1 || e2;
      assert Accepts(env, s1, v) && Accepts(env, s2, v) <==>
             !DecidesExclusively(m1, e1, m2) && !DecidesExclusively(m2, e2, m1);
    }
  }

  predicate AllowsNull(typ: SchemaType) {
    typ in {Empty, TNull}
  }

  lemma TypedDecides(env: Env, typ: SchemaType, nullable: bool, v: Json)
    ensures Accepts(env, Typed(typ, nullable), v) <==> (nullable && v.Null?) || TypeOk(typ, v)
  {
    ScalarsDecide(env, Typed(typ, nullable), v);
  }

  lemma NullHasType()
    ensures forall typ :: TypeOk(typ, Null) <==> AllowsNull(typ)
  {
  }

  // Types that can be merged, and what they become.
  predicate Compatible(t1: SchemaType, t2: SchemaType) {
    t1 == Empty || t2 == Empty || t1 == t2
  }

  function Both(t1: SchemaType, t2: SchemaType): SchemaType {
    if t1 == Empty then t2 else t1
  }

  lemma MergedTyped(t1: SchemaType, n1: bool, t2: SchemaType, n2: bool)
    ensures Merge(Typed(t1, n1), Typed(t2, n2)).Ok? <==> Compatible(t1, t2)
    ensures Compatible(t1, t2) ==> Merge(Typed(t1, n1), Typed(t2, n2)) == Ok(Typed(Both(t1, t2), n1 || n2))
  {
    hide Merge, ContainsValidators, MergeScalars;
    var s1, s2 := Typed(t1, n1), Typed(t2, n2);
    TypedValidators(t1, n1);
    TypedValidators(t2, n2);
    if ContainsValidators(s1) != ContainsValidators(s2) {
      MergedAlone(s1, s2);
    } else if !ContainsValidators(s1) {
      MergedEmpty();
    } else {
      TypesMerge(t1, t2);
      if Compatible(t1, t2) { MergedScalars(s1, s2); } else { ScalarsFail(s1, s2); }
    }
  }

  lemma TypedValidators(typ: SchemaType, nullable: bool)
    ensures ContainsValidators(Typed(typ, nullable)) <==> nullable || typ != Empty
  {
  }

  // A schema that says nothing is dropped.
  lemma MergedAlone(s1: Schema, s2: Schema)
    requires s1.allOf == s2.allOf == [] && ContainsValidators(s1) != ContainsValidators(s2)
    ensures Merge(s1, s2) == Ok(if ContainsValidators(s1) then s1 else s2)
  {
    hide ContainsValidators;
  }

  lemma ScalarsFail(s1: Schema, s2: Schema)
    requires s1.allOf == s2.allOf == [] && ContainsValidators(s1) && ContainsValidators(s2)
    requires MergeScalars(s1.scalars, s2.scalars).Err?
    ensures Merge(s1, s2).Err?
  {
    hide ContainsValidators, MergeScalars;
  }

  lemma TypesMerge(t1: SchemaType, t2: SchemaType)
    ensures var r := MergeScalars(NO_SCALARS.(typ := t1), NO_SCALARS.(typ := t2));
            if Compatible(t1, t2) then r == Ok(NO_SCALARS.(typ := Both(t1, t2))) else r.Err?
  {
  }

  lemma BothAccept(t1: SchemaType, t2: SchemaType)
    requires Compatible(t1, t2)
    ensures forall v :: TypeOk(Both(t1, t2), v) <==> TypeOk(t1, v) && TypeOk(t2, v)
  {
  }

  lemma NullableExact(env: Env, t1: SchemaType, n1: bool, t2: SchemaType, n2: bool)
    requires Merge(Typed(t1, n1), Typed(t2, n2)).Ok?
    ensures Conjunction(env, Merge(Typed(t1, n1), Typed(t2, n2)).value, Typed(t1, n1), Typed(t2, n2))
            <==> (n1 ==> n2 || AllowsNull(t2)) && (n2 ==> n1 || AllowsNull(t1))
  {
    hide Merge, MergeScalars, ContainsValidators, Accepts;
    MergedTyped(t1, n1, t2, n2);
    BothAccept(t1, t2);
    var typ := Both(t1, t2);
    NullHasType();
    hide TypeOk, Typed, AllowsNull, Both;
    forall v
      ensures Accepts(env, Typed(typ, n1 || n2), v) <==> ((n1 || n2) && v.Null?) || TypeOk(typ, v)
      ensures Accepts(env, Typed(t1, n1), v) <==> (n1 && v.Null?) || TypeOk(t1, v)
      ensures Accepts(env, Typed(t2, n2), v) <==> (n2 && v.Null?) || TypeOk(t2, v)
    {
      TypedDecides(env, typ, n1 || n2, v);
      TypedDecides(env, t1, n1, v);
      TypedDecides(env, t2, n2, v);
    }
  }

  // What has the type t, null aside, has the type u.
  predicate Within(t: SchemaType, u: SchemaType) {
    t == u || u == Empty || t == TNull || (t == TInteger && u == TNumber)
  }

  function Sample(typ: SchemaType): (v: Json)
    ensures typ !in {Empty, TNull} ==> TypeOk(typ, v) && !v.Null? && forall u :: TypeOk(u, v) ==> Within(typ, u)
  {
    match typ
    case Empty => Bool(true)
    case TObject => Object(map[])
    case TArray => Array([])
    case TInteger => Number(0.0)
    case TNumber => Number(0.5)
    case TString => Str("")
    case TBoolean => Bool(true)
    case TNull => Null
  }

  lemma WithinMeans(t: SchemaType, u: SchemaType)
    requires t != Empty
    ensures Within(t, u) <==> forall v :: TypeOk(t, v) && !v.Null? ==> TypeOk(u, v)
  {
    if t != TNull && TypeOk(u, Sample(t)) { assert Within(t, u); }
  }

  lemma WrapperDecides(env: Env, t: SchemaType, n: bool, child: Schema, v: Json)
    ensures Accepts(env, Typed(t, n).(allOf := [child]), v) <==>
            (n && v.Null?) || (TypeOk(t, v) && Accepts(env, child, v))
  {
    var s := Typed(t, n).(allOf := [child]);
    OnlyScalars(env, Typed(t, n), v);
    SameKeywords(env, s, v);
    assert s.(allOf := []) == Typed(t, n);
    assert Accepts(env, s, v) <==> (n && v.Null?) || (KeywordsOk(env, s, v) && Accepts(env, s.allOf[0], v));
  }

  // The type beside an allOf with one member is dropped if the member names one itself.
  lemma ParentTypeExact(env: Env, t: SchemaType, n: bool, inner: SchemaType, nullable: bool)
    ensures Flatten(Typed(t, n).(allOf := [Typed(inner, nullable)])).Ok?
    ensures var s := Typed(t, n).(allOf := [Typed(inner, nullable)]);
            (forall v :: Accepts(env, Flatten(s).value, v) <==> Accepts(env, s, v))
            <==> (inner != Empty ==> Within(inner, t)) && (nullable || inner == TNull ==> n || AllowsNull(t))
  {
    var child := Typed(inner, nullable);
    var s := Typed(t, n).(allOf := [child]);
    var typ := if inner == Empty then t else inner;
    var result := Typed(typ, n || nullable);
    FlattenedWrapper(t, n, inner, nullable);
    NullHasType();
    if inner != Empty { WithinMeans(inner, t); }
    assert inner == Empty ==> forall v :: TypeOk(inner, v);
    assert inner == TNull ==> forall v :: TypeOk(inner, v) ==> v.Null?;
    forall v
      ensures Accepts(env, result, v) <==> ((n || nullable) && v.Null?) || TypeOk(typ, v)
      ensures Accepts(env, s, v) <==> (n && v.Null?) || (TypeOk(t, v) && ((nullable && v.Null?) || TypeOk(inner, v)))
    {
      TypedDecides(env, typ, n || nullable, v);
      TypedDecides(env, inner, nullable, v);
      WrapperDecides(env, t, n, child, v);
    }
    hide Accepts, Flatten, TypeOk, Typed;
    if inner != Empty && !Within(inner, t) {
      var v :| TypeOk(inner, v) && !v.Null? && !TypeOk(t, v);
      assert Accepts(env, result, v) && !Accepts(env, s, v);
    } else {
      assert forall v: Json :: !v.Null? ==> (Accepts(env, result, v) <==> Accepts(env, s, v));
      assert Accepts(env, result, Null) <==> n || nullable || AllowsNull(typ);
      assert Accepts(env, s, Null) <==> n || (AllowsNull(t) && (nullable || AllowsNull(inner)));
    }
  }

  lemma FlattenedWrapper(t: SchemaType, n: bool, inner: SchemaType, nullable: bool)
    ensures Flatten(Typed(t, n).(allOf := [Typed(inner, nullable)])) ==
            Ok(Typed(if inner == Empty then t else inner, n || nullable))
  {
    assert Typed(t, n).(allOf := [Typed(inner, nullable)]).(allOf := []) == Typed(t, n);
  }

  function Tuple(elements: seq<Schema>): Schema {
    EMPTY.(items := elements)
  }

  ghost predicate AcceptsEverything(env: Env, s: Schema) {
    forall v :: Accepts(env, s, v)
  }

  lemma TupleDecides(env: Env, elements: seq<Schema>, v: Json)
    ensures Accepts(env, Tuple(elements), v) <==>
            (v.Array? ==> forall i :: 0 <= i < |elements| && i < |v.elems| ==> Accepts(env, elements[i], v.elems[i]))
  {
    var s := Tuple(elements);
    if v.Array? {
      assert elements == [] ==> forall e :: ItemOk(env, s.item, e);
      assert ArrayOk(env, s, v.elems) <==>
             forall i :: 0 <= i < |elements| && i < |v.elems| ==> Accepts(env, elements[i], v.elems[i]);
    }
    if v.Object? { assert ObjectOk(env, s, v.members); }
    assert SumsOk(env, s, v);
  }

  lemma MergedTuples(t1: seq<Schema>, t2: seq<Schema>)
    requires |t1| == |t2| > 0 && MergeTuples(t1, t2).Ok?
    ensures Merge(Tuple(t1), Tuple(t2)) == Ok(EMPTY)
  {
    var s1, s2 := Tuple(t1), Tuple(t2);
    assert MergeInto([], []) == Ok([]);
    assert Flagged([], RequiredNames(s1, s2)) == [];
    hide MergeTuples, MergeInto, Size;
    assert MergeArrays(s1, s2, EMPTY) == Ok(EMPTY);
    assert MergeObjects(s1, s2, EMPTY) == Ok(EMPTY);
    hide MergeArrays, MergeObjects;
    assert MergePlain(s1, s2) == Ok(EMPTY);
  }

  // The merged elements of tuples are dropped.
  lemma TupleExact(env: Env, t1: seq<Schema>, t2: seq<Schema>)
    requires |t1| == |t2| > 0 && MergeTuples(t1, t2).Ok?
    ensures Merge(Tuple(t1), Tuple(t2)).Ok?
    ensures Conjunction(env, Merge(Tuple(t1), Tuple(t2)).value, Tuple(t1), Tuple(t2))
            <==> forall i :: 0 <= i < |t1| ==> AcceptsEverything(env, t1[i]) && AcceptsEverything(env, t2[i])
  {
    MergedTuples(t1, t2);
    hide Merge;
    forall v
      ensures Accepts(env, EMPTY, v)
    {
      NoValidatorsAcceptEverything(env, EMPTY, v);
    }
    if Conjunction(env, EMPTY, Tuple(t1), Tuple(t2)) {
      forall i, v | 0 <= i < |t1|
        ensures Accepts(env, t1[i], v) && Accepts(env, t2[i], v)
      {
        var a := Array(seq(i + 1, _ => v));
        assert Accepts(env, EMPTY, a);
        TupleDecides(env, t1, a);
        TupleDecides(env, t2, a);
        assert a.elems[i] == v;
      }
    } else {
      var v :| !(Accepts(env, EMPTY, v) <==> Accepts(env, Tuple(t1), v) && Accepts(env, Tuple(t2), v));
      TupleDecides(env, t1, v);
      TupleDecides(env, t2, v);
    }
  }

  // An object schema that only names its properties.
  function Fields(names: seq<string>): (ps: seq<Property>)
    ensures |ps| == |names| && forall i :: 0 <= i < |names| ==> ps[i] == Property(names[i], EMPTY, false)
  {
    seq(|names|, i requires 0 <= i < |names| => Property(names[i], EMPTY, false))
  }

  function Record(names: seq<string>, required: seq<string>): Schema {
    EMPTY.(properties := Fields(names), required := required)
  }

  predicate Unique(names: seq<string>) {
    forall i, j :: 0 <= i < j < |names| ==> names[i] != names[j]
  }

  function Union(a: seq<string>, b: seq<string>): (u: seq<string>)
    ensures forall name :: name in u <==> name in a || name in b
    ensures Unique(a) ==> Unique(u)
    decreases b
  {
    if b == [] then a else Union(if b[0] in a then a else a + [b[0]], b[1..])
  }

  lemma {:induction false} MergedFields(a: seq<string>, b: seq<string>)
    ensures MergeInto(Fields(a), Fields(b)) == Ok(Fields(Union(a, b)))
    decreases b
  {
    if b != [] {
      var found := LastIndex(Fields(a), b[0]);
      assert found.Some? <==> b[0] in a by {
        if b[0] in a {
          var i :| 0 <= i < |a| && a[i] == b[0];
          assert Fields(a)[i].name == b[0];
        }
      }
      MergedEmpty();
      var a' := if b[0] in a then a else a + [b[0]];
      assert Fields(a) + [Fields(b)[0]] == Fields(a + [b[0]]);
      if found.Some? { assert Fields(a)[found.value := Property(b[0], EMPTY, false)] == Fields(a); }
      assert Absorb(Fields(a), Fields(b)[0]) == Ok(Fields(a'));
      assert Fields(b)[1..] == Fields(b[1..]);
      MergedFields(a', b[1..]);
    }
  }

  lemma MergedEmpty()
    ensures Merge(EMPTY, EMPTY) == Ok(EMPTY)
  {
    MergedNothing(EMPTY, EMPTY, EMPTY);
    hide MergeArrays, MergeObjects;
    assert MergeScalars(NO_SCALARS, NO_SCALARS) == Ok(NO_SCALARS);
    assert MergePlain(EMPTY, EMPTY) == Ok(EMPTY);
  }

  lemma RecordDecides(env: Env, ps: seq<Property>, required: seq<string>, v: Json)
    requires forall p :: p in ps ==> p.schema == EMPTY
    ensures Accepts(env, EMPTY.(properties := ps, required := required), v) <==>
            (v.Object? ==>
               && (forall p :: p in ps && p.required ==> p.name in v.members)
               && (forall name :: name in required ==> name in v.members))
  {
    var s := EMPTY.(properties := ps, required := required);
    if v.Array? {
      assert forall e :: ItemOk(env, s.item, e);
      assert ArrayOk(env, s, v.elems);
    }
    if v.Object? {
      forall p | p in ps
        ensures PropertyOk(env, p, v.members) <==> (p.required ==> p.name in v.members)
      {
        if p.name in v.members { NoValidatorsAcceptEverything(env, EMPTY, v.members[p.name]); }
      }
      hide PropertyOk;
      assert ObjectOk(env, s, v.members) <==>
             && (forall p :: p in ps && p.required ==> p.name in v.members)
             && (forall name :: name in required ==> name in v.members);
    }
    assert SumsOk(env, s, v);
  }

  lemma MergedRecords(a: seq<string>, q1: seq<string>, b: seq<string>, q2: seq<string>)
    requires Unique(a) && a != [] && b != []
    ensures var required := RequiredNames(Record(a, q1), Record(b, q2));
            Merge(Record(a, q1), Record(b, q2)) == Ok(EMPTY.(properties := Flagged(Fields(Union(a, b)), required)))
  {
    var s1, s2 := Record(a, q1), Record(b, q2);
    MergedFields(a, b);
    assert MergeItems(None, None) == Ok(None);
    assert MergeScalars(NO_SCALARS, NO_SCALARS) == Ok(NO_SCALARS);
    hide MergeInto, MergeItems, MergeScalars;
    assert MergeArrays(s1, s2, EMPTY) == Ok(EMPTY);
    var r := EMPTY.(properties := Flagged(Fields(Union(a, b)), RequiredNames(s1, s2)));
    assert MergeObjects(s1, s2, EMPTY) == Ok(r);
    hide MergeArrays, MergeObjects;
    assert MergePlain(s1, s2) == Ok(r);
  }

  // Required names survive only as flags of known properties.
  lemma RequiredExact(env: Env, a: seq<string>, q1: seq<string>, b: seq<string>, q2: seq<string>)
    requires Unique(a) && a != [] && b != []
    ensures Merge(Record(a, q1), Record(b, q2)).Ok?
    ensures Conjunction(env, Merge(Record(a, q1), Record(b, q2)).value, Record(a, q1), Record(b, q2))
            <==> forall name :: name in q1 || name in q2 ==> name in a || name in b
  {
    var s1, s2 := Record(a, q1), Record(b, q2);
    MergedRecords(a, q1, b, q2);
    var r := Merge(s1, s2).value;
    forall v
      ensures Accepts(env, s1, v) <==> (v.Object? ==> forall name :: name in q1 ==> name in v.members)
      ensures Accepts(env, s2, v) <==> (v.Object? ==> forall name :: name in q2 ==> name in v.members)
      ensures Accepts(env, r, v) <==>
              (v.Object? ==> forall name :: (name in a || name in b) && (name in q1 || name in q2) ==> name in v.members)
    {
      RecordDecides(env, s1.properties, q1, v);
      RecordDecides(env, s2.properties, q2, v);
      RecordDecides(env, r.properties, [], v);
      if v.Object? { FlagsDecide(Union(a, b), RequiredNames(s1, s2), v.members); }
    }
    hide Accepts, Merge;
    if Conjunction(env, r, s1, s2) {
      var known := set name | name in a + b;
      var v := Object(map name | name in known :: Null);
      assert Accepts(env, r, v);
    }
  }

  lemma FlagsDecide(names: seq<string>, required: set<string>, members: map<string, Json>)
    ensures (forall p :: p in Flagged(Fields(names), required) && p.required ==> p.name in members) <==>
            (forall name :: name in names && name in required ==> name in members)
    ensures Names(Flagged(Fields(names), required)) == set name | name in names
  {
    var ps := Flagged(Fields(names), required);
    assert forall i :: 0 <= i < |names| ==> ps[i] == Property(names[i], EMPTY, names[i] in required);
    forall name | name in names
      ensures Property(name, EMPTY, name in required) in ps
    {
      var i :| 0 <= i < |names| && names[i] == name;
      assert ps[i] == Property(name, EMPTY, name in required);
    }
  }

  // Absorbing a property leaves the names as distinct as they were.
  lemma AbsorbKeepsDistinct(known: seq<Property>, p: Property)
    requires Absorb(known, p).Ok?
    ensures Distinct(Absorb(known, p).value) <==> Distinct(known)
  {
    hide Merge;
    var r, found := Absorb(known, p).value, LastIndex(known, p.name);
    if found.None? {
      assert forall i :: 0 <= i < |known| ==> r[i] == known[i];
      assert r[|known|] == p;
    } else {
      assert |r| == |known| && forall i :: 0 <= i < |known| ==> r[i].name == known[i].name;
    }
  }

  lemma {:induction false} IntoKeepsDistinct(known: seq<Property>, ps: seq<Property>)
    requires MergeInto(known, ps).Ok?
    ensures Distinct(MergeInto(known, ps).value) <==> Distinct(known)
    decreases ps
  {
    if ps != [] {
      AbsorbKeepsDistinct(known, ps[0]);
      IntoKeepsDistinct(Absorb(known, ps[0]).value, ps[1..]);
    }
  }

  // Properties that merge are lost to a panic exactly when the left side lists a name twice.
  lemma PanicExact(s1: Schema, s2: Schema)
    requires MergeInto(s1.properties, s2.properties).Ok?
    ensures MergeProperties(s1, s2).Ok? <==> Distinct(s1.properties)
    ensures MergeProperties(s1, s2).Err? ==> MergeProperties(s1, s2).error == IndexPanic
  {
    IntoKeepsDistinct(s1.properties, s2.properties);
  }
}
