/**
What a merge means. On the schemas described by `Mergeable`, a successful merge accepts exactly
the values that every merged schema accepts, at every nesting depth.
 */
module AllOfProofs {
  import opened Wrappers
  import opened Schemas
  import opened AllOf

  // A position inside a schema: where two schemas meet during a merge.
  datatype Step = AtProperty(name: string) | AtItem

  // The flags that the merge combines with "or": it is exact when all schemas that meet at one
  // position agree on them.
  datatype Plan = Plan(nullable: seq<Step> -> bool, exclusiveMinimum: seq<Step> -> bool)

  function Under(plan: Plan, step: Step): Plan {
    Plan(path => plan.nullable([step] + path), path => plan.exclusiveMinimum([step] + path))
  }

  ghost predicate ScalarsMergeable(s: Scalars, exclusiveMinimum: bool) {
    && (s.exclusiveMaximum ==> s.maximum.None?)
    && (s.minimum.Some? ==> s.exclusiveMinimum == exclusiveMinimum)
    && (s.exclusiveMinimum ==> exclusiveMinimum)
  }

  // The keywords outside the exact fragment, each of which the code handles lossily. (Pattern
  // properties are inside: they merge only with a schema that accepts everything.)
  ghost predicate PlainMergeable(s: Schema, plan: Plan)
    decreases s, 0
  {
    && s.allOf == []
    && (!ContainsValidators(s) || s.nullable == plan.nullable([]))
    && ScalarsMergeable(s.scalars, plan.exclusiveMinimum([]))
    && s.items == []
    && s.additionalProperties.None?
    && (forall name :: name in s.required ==> name in Names(s.properties))
    && (forall p :: p in s.properties ==> Mergeable(p.schema, Under(plan, AtProperty(p.name))))
    && (s.item.Some? ==> Mergeable(s.item.value, Under(plan, AtItem)))
  }

  ghost predicate Mergeable(s: Schema, plan: Plan)
    decreases s, 1
  {
    if s.allOf == [] then PlainMergeable(s, plan)
    else
      && !ContainsValidators(s.(allOf := []))
      && (|s.allOf| == 1 ==> s.allOf[0].allOf == [])
      && forall i :: 0 <= i < |s.allOf| ==> Mergeable(s.allOf[i], plan)
  }

  // r accepts what both accept.
  ghost predicate Conjunction(env: Env, r: Schema, s1: Schema, s2: Schema) {
    forall v :: Accepts(env, r, v) <==> Accepts(env, s1, v) && Accepts(env, s2, v)
  }

  ghost predicate AcceptsAll(env: Env, ss: seq<Schema>, v: Json) {
    forall i :: 0 <= i < |ss| ==> Accepts(env, ss[i], v)
  }

  // Without keywords that hold a schema or bound a size, only the scalar keywords count.
  lemma OnlyScalars(env: Env, s: Schema, v: Json)
    requires s == EMPTY.(nullable := s.nullable, scalars := s.scalars, xml := s.xml, extensions := s.extensions)
    ensures KeywordsOk(env, s, v) <==> ScalarsOk(env, s.scalars, v)
  {
    if v.Array? {
      assert forall e :: ItemOk(env, s.item, e);
      assert ArrayOk(env, s, v.elems);
    }
    if v.Object? { assert ObjectOk(env, s, v.members); }
    assert SumsOk(env, s, v);
  }

  lemma NoValidatorsAcceptEverything(env: Env, s: Schema, v: Json)
    requires !ContainsValidators(s)
    ensures Accepts(env, s, v)
  {
    OnlyScalars(env, s, v);
  }

  lemma {:induction false} KeepIsIntersection(small: seq<Json>, big: seq<Json>, v: Json)
    ensures v in Keep(small, big) <==> v in small && v in big
  {
    if small != [] {
      KeepIsIntersection(small[1..], big, v);
    }
  }

  // mergeEnums keeps the common values, or fails when there is none.
  lemma MergeEnumsIsIntersection(a: seq<Json>, b: seq<Json>)
    ensures MergeEnums(a, b).Err? <==> a != [] && b != [] && !exists v :: v in a && v in b
    ensures MergeEnums(a, b).Ok? ==> forall v ::
      (MergeEnums(a, b).value != [] ==> v in MergeEnums(a, b).value)
        <==> (a != [] ==> v in a) && (b != [] ==> v in b)
  {
    forall v
      ensures v in Keep(a, b) <==> v in a && v in b
      ensures v in Keep(b, a) <==> v in a && v in b
    {
      KeepIsIntersection(a, b, v);
      KeepIsIntersection(b, a, v);
    }
    if a != [] && b != [] {
      var result := if |a| > |b| then Keep(b, a) else Keep(a, b);
      if result != [] { assert result[0] in a && result[0] in b; }
    }
  }

  lemma ScalarsConjunction(env: Env, exclusive: bool, a: Scalars, b: Scalars, v: Json)
    requires ScalarsMergeable(a, exclusive) && ScalarsMergeable(b, exclusive)
    requires MergeScalars(a, b).Ok?
    ensures var r := MergeScalars(a, b).value;
            && ScalarsMergeable(r, exclusive)
            && (ScalarsOk(env, r, v) <==> ScalarsOk(env, a, v) && ScalarsOk(env, b, v))
  {
    MergeEnumsIsIntersection(a.enum, b.enum);
    var r := MergeScalars(a, b).value;
    assert (r.enum != [] ==> v in r.enum) <==> (a.enum != [] ==> v in a.enum) && (b.enum != [] ==> v in b.enum);
    if v.Number? {
      assert NumberOk(r, v.n) <==> NumberOk(a, v.n) && NumberOk(b, v.n);
    }
  }

  lemma InNames(ps: seq<Property>, name: string)
    ensures name in Names(ps) <==> exists i :: 0 <= i < |ps| && ps[i].name == name
  {
  }

  // What a list of properties demands of an object.
  ghost predicate PropertiesOk(env: Env, ps: seq<Property>, members: map<string, Json>) {
    forall p :: p in ps ==> PropertyOk(env, p, members)
  }

  ghost predicate PropertiesMergeable(ps: seq<Property>, plan: Plan) {
    forall p :: p in ps ==> Mergeable(p.schema, Under(plan, AtProperty(p.name)))
  }

  // Main theorem: a successful mergeSchemes is the conjunction, and stays in the fragment.
  lemma {:induction false} MergeIsConjunction(env: Env, plan: Plan, s1: Schema, s2: Schema)
    requires Mergeable(s1, plan) && Mergeable(s2, plan)
    requires Merge(s1, s2).Ok?
    ensures PlainMergeable(Merge(s1, s2).value, plan)
    ensures Conjunction(env, Merge(s1, s2).value, s1, s2)
    decreases Size(s1) + Size(s2), 2, 0
  {
    var t1 := if s1.allOf != [] then MergeAll(s1.allOf).value else s1;
    var t2 := if s2.allOf != [] then MergeAll(s2.allOf).value else s2;
    NestedAllOf(env, plan, s1);
    NestedAllOf(env, plan, s2);
    PlainIsConjunction(env, plan, t1, t2);
  }

  // A schema that only has allOf means the merge of its members.
  lemma {:induction false} NestedAllOf(env: Env, plan: Plan, s: Schema)
    requires Mergeable(s, plan)
    requires s.allOf != [] ==> MergeAll(s.allOf).Ok?
    ensures s.allOf != [] ==>
              && PlainMergeable(MergeAll(s.allOf).value, plan)
              && forall v :: Accepts(env, MergeAll(s.allOf).value, v) <==> Accepts(env, s, v)
    decreases Size(s), 0, 0
  {
    if s.allOf != [] {
      MergeAllIsConjunction(env, plan, s.allOf);
      forall v
        ensures Accepts(env, s, v) <==> AcceptsAll(env, s.allOf, v)
      {
        NoValidatorsAcceptEverything(env, s.(allOf := []), v);
        assert KeywordsOk(env, s.(allOf := []), v) ==> KeywordsOk(env, s, v) by { SameKeywords(env, s, v); }
      }
    }
  }

  lemma SameKeywords(env: Env, s: Schema, v: Json)
    ensures KeywordsOk(env, s.(allOf := []), v) <==> KeywordsOk(env, s, v)
  {
  }

  // r is made up of the merged parts of s1 and s2.
  ghost predicate Combined(s1: Schema, s2: Schema, r: Schema) {
    && MergeScalars(s1.scalars, s2.scalars).Ok?
    && MergeItems(s1.item, s2.item).Ok?
    && MergeInto(s1.properties, s2.properties).Ok?
    && MergeSums(s1.oneOf, s2.oneOf).Ok? && MergeSums(s1.anyOf, s2.anyOf).Ok?
    && s1.patternProperties == s2.patternProperties == []
    && r == Schema(
              s1.nullable || s2.nullable,
              MergeScalars(s1.scalars, s2.scalars).value,
              None, [],
              MergeItems(s1.item, s2.item).value,
              [],
              SomeMin(s1.maxItems, s2.maxItems),
              SomeMax(s1.minItems, s2.minItems),
              s1.uniqueItems || s2.uniqueItems,
              None, [],
              SomeMin(s1.maxProperties, s2.maxProperties),
              SomeMax(s1.minProperties, s2.minProperties),
              Flagged(MergeInto(s1.properties, s2.properties).value, RequiredNames(s1, s2)),
              [],
              MergeSums(s1.oneOf, s2.oneOf).value,
              MergeSums(s1.anyOf, s2.anyOf).value,
              [])
  }

  lemma MergedParts(s1: Schema, s2: Schema)
    requires ContainsValidators(s1) == ContainsValidators(s2) && MergePlain(s1, s2).Ok?
    requires s1.items == s2.items == [] && s1.additionalProperties == s2.additionalProperties == None
    ensures Combined(s1, s2, MergePlain(s1, s2).value)
  {
    var base := EMPTY.(nullable := s1.nullable || s2.nullable, scalars := MergeScalars(s1.scalars, s2.scalars).value);
    CombinedArrays(s1, s2, base);
    CombinedObjects(s1, s2, MergeArrays(s1, s2, base).value);
    hide MergeItems, MergeInto, MergeScalars, MergeSums, MergeArrays, MergeObjects;
  }

  lemma CombinedArrays(s1: Schema, s2: Schema, r: Schema)
    requires s1.items == s2.items == [] && MergeArrays(s1, s2, r).Ok?
    ensures MergeItems(s1.item, s2.item).Ok?
    ensures MergeArrays(s1, s2, r).value == r.(
              item := MergeItems(s1.item, s2.item).value,
              minItems := SomeMax(s1.minItems, s2.minItems),
              maxItems := SomeMin(s1.maxItems, s2.maxItems),
              uniqueItems := s1.uniqueItems || s2.uniqueItems)
  {
    hide MergeItems;
  }

  lemma CombinedObjects(s1: Schema, s2: Schema, r: Schema)
    requires ItemSize(r.item) <= ItemSize(s1.item) + ItemSize(s2.item)
    requires s1.additionalProperties == s2.additionalProperties == None && MergeObjects(s1, s2, r).Ok?
    ensures s1.patternProperties == s2.patternProperties == []
    ensures MergeInto(s1.properties, s2.properties).Ok?
    ensures MergeObjects(s1, s2, r).value == r.(
              additionalProperties := None,
              minProperties := SomeMax(s1.minProperties, s2.minProperties),
              maxProperties := SomeMin(s1.maxProperties, s2.maxProperties),
              properties := Flagged(MergeInto(s1.properties, s2.properties).value, RequiredNames(s1, s2)))
  {
    hide MergeInto, MergeItems;
  }

  lemma {:induction false} PlainIsConjunction(env: Env, plan: Plan, s1: Schema, s2: Schema)
    requires PlainMergeable(s1, plan) && PlainMergeable(s2, plan)
    requires MergePlain(s1, s2).Ok?
    ensures PlainMergeable(MergePlain(s1, s2).value, plan)
    ensures Conjunction(env, MergePlain(s1, s2).value, s1, s2)
    decreases Size(s1) + Size(s2), 1, 0
  {
    var r := MergePlain(s1, s2).value;
    if ContainsValidators(s1) != ContainsValidators(s2) {
      DroppedSide(env, s1, s2);
    } else {
      MergedParts(s1, s2);
      ItemsAreConjunction(env, Under(plan, AtItem), s1.item, s2.item);
      IntoIsConjunction(env, plan, s1.properties, s2.properties);
      CombinedConjunction(env, plan, s1, s2, r);
    }
  }

  lemma DroppedSide(env: Env, s1: Schema, s2: Schema)
    requires ContainsValidators(s1) != ContainsValidators(s2)
    ensures Conjunction(env, if ContainsValidators(s1) then s1 else s2, s1, s2)
  {
    forall v
      ensures ContainsValidators(s1) || Accepts(env, s1, v)
      ensures ContainsValidators(s2) || Accepts(env, s2, v)
    {
      if !ContainsValidators(s1) { NoValidatorsAcceptEverything(env, s1, v); }
      if !ContainsValidators(s2) { NoValidatorsAcceptEverything(env, s2, v); }
    }
    hide ContainsValidators, Accepts;
  }

  // The elements and properties of r mean what those of s1 and s2 mean together.
  ghost predicate PartsConjunction(env: Env, plan: Plan, s1: Schema, s2: Schema, r: Schema) {
    && MergeInto(s1.properties, s2.properties).Ok?
    && ItemConjunction(env, r.item, s1.item, s2.item)
    && (r.item.Some? ==> Mergeable(r.item.value, Under(plan, AtItem)))
    && ListConjunction(env, plan, MergeInto(s1.properties, s2.properties).value, s1.properties, s2.properties)
  }

  ghost predicate ItemConjunction(env: Env, r: Option<Schema>, i1: Option<Schema>, i2: Option<Schema>) {
    forall v :: ItemOk(env, r, v) <==> ItemOk(env, i1, v) && ItemOk(env, i2, v)
  }

  lemma CombinedConjunction(env: Env, plan: Plan, s1: Schema, s2: Schema, r: Schema)
    requires PlainMergeable(s1, plan) && PlainMergeable(s2, plan)
    requires ContainsValidators(s1) == ContainsValidators(s2) && Combined(s1, s2, r)
    requires ItemConjunction(env, r.item, s1.item, s2.item)
    requires r.item.Some? ==> Mergeable(r.item.value, Under(plan, AtItem))
    requires ListConjunction(env, plan, MergeInto(s1.properties, s2.properties).value, s1.properties, s2.properties)
    ensures PlainMergeable(r, plan)
    ensures Conjunction(env, r, s1, s2)
  {
    assert PartsConjunction(env, plan, s1, s2, r);
    CombinedIsMergeable(env, plan, s1, s2, r);
    forall v
      ensures KeywordsOk(env, r, v) <==> KeywordsOk(env, s1, v) && KeywordsOk(env, s2, v)
    {
      KeywordsConjunction(env, plan, s1, s2, r, v);
    }
    hide PartsConjunction, KeywordsOk, ScalarsMergeable;
    AcceptsConjunction(env, plan, s1, s2, r);
  }

  lemma AcceptsConjunction(env: Env, plan: Plan, s1: Schema, s2: Schema, r: Schema)
    requires s1.allOf == s2.allOf == r.allOf == []
    requires s1.nullable == s2.nullable == r.nullable
    requires forall v :: KeywordsOk(env, r, v) <==> KeywordsOk(env, s1, v) && KeywordsOk(env, s2, v)
    ensures Conjunction(env, r, s1, s2)
  {
    forall v
      ensures Accepts(env, r, v) <==> Accepts(env, s1, v) && Accepts(env, s2, v)
    {
      assert KeywordsOk(env, r, v) <==> KeywordsOk(env, s1, v) && KeywordsOk(env, s2, v);
    }
  }

  lemma KeywordsConjunction(env: Env, plan: Plan, s1: Schema, s2: Schema, r: Schema, v: Json)
    requires PlainMergeable(s1, plan) && PlainMergeable(s2, plan)
    requires Combined(s1, s2, r) && PartsConjunction(env, plan, s1, s2, r)
    ensures KeywordsOk(env, r, v) <==> KeywordsOk(env, s1, v) && KeywordsOk(env, s2, v)
  {
    hide MergeItems, MergeInto, MergeSums, MergeScalars, Accepts, ContainsValidators, Mergeable, Names;
    ScalarsConjunction(env, plan.exclusiveMinimum([]), s1.scalars, s2.scalars, v);
    SumsConjunction(env, s1, s2, r, v);
    hide ScalarsOk, SumsOk, ScalarsMergeable;
    if v.Array? { ArraysConjunction(env, s1, s2, r, v.elems); }
    if v.Object? { ObjectsConjunction(env, s1, s2, r, MergeInto(s1.properties, s2.properties).value, v.members); }
    hide ArrayOk, ObjectOk;
  }

  lemma CombinedIsMergeable(env: Env, plan: Plan, s1: Schema, s2: Schema, r: Schema)
    requires PlainMergeable(s1, plan) && PlainMergeable(s2, plan)
    requires Combined(s1, s2, r) && PartsConjunction(env, plan, s1, s2, r)
    ensures PlainMergeable(r, plan)
  {
    ScalarsConjunction(env, plan.exclusiveMinimum([]), s1.scalars, s2.scalars, Null);
    hide MergeItems, MergeInto, MergeSums, MergeScalars, Accepts, ScalarsOk;
    var merged := MergeInto(s1.properties, s2.properties).value;
    forall p | p in r.properties
      ensures Mergeable(p.schema, Under(plan, AtProperty(p.name)))
    {
      var i :| 0 <= i < |r.properties| && r.properties[i] == p;
      assert merged[i] in merged;
    }
  }

  lemma {:induction false} ItemsAreConjunction(env: Env, plan: Plan, i1: Option<Schema>, i2: Option<Schema>)
    requires i1.Some? ==> Mergeable(i1.value, plan)
    requires i2.Some? ==> Mergeable(i2.value, plan)
    requires MergeItems(i1, i2).Ok?
    ensures var r := MergeItems(i1, i2).value;
            && (r.Some? ==> Mergeable(r.value, plan))
            && ItemConjunction(env, r, i1, i2)
    decreases ItemSize(i1) + ItemSize(i2), 3, 0
  {
    if i1.Some? && i2.Some? {
      MergeIsConjunction(env, plan, i1.value, i2.value);
    }
  }

  // The list r asks of an object what a and b ask of it together.
  ghost predicate ListConjunction(env: Env, plan: Plan, r: seq<Property>, a: seq<Property>, b: seq<Property>) {
    && PropertiesMergeable(r, plan)
    && Names(r) == Names(a) + Names(b)
    && forall members :: PropertiesOk(env, r, members) <==> PropertiesOk(env, a, members) && PropertiesOk(env, b, members)
  }

  lemma {:induction false} IntoIsConjunction(env: Env, plan: Plan, known: seq<Property>, ps: seq<Property>)
    requires PropertiesMergeable(known, plan) && PropertiesMergeable(ps, plan)
    requires MergeInto(known, ps).Ok?
    ensures ListConjunction(env, plan, MergeInto(known, ps).value, known, ps)
    decreases SizeProperties(known) + SizeProperties(ps), 3, |ps|
  {
    hide ListConjunction;
    if ps == [] {
      Concatenated(env, plan, known, []);
      assert known + [] == known;
    } else {
      var known' := Absorb(known, ps[0]).value;
      assert ps[0] in ps && forall p :: p in ps[1..] ==> p in ps;
      AbsorbIsConjunction(env, plan, known, ps[0]);
      assert PropertiesMergeable(known', plan) by { Keeps(env, plan, known', known, [ps[0]]); }
      IntoIsConjunction(env, plan, known', ps[1..]);
      Chained(env, plan, MergeInto(known', ps[1..]).value, known', known, [ps[0]], ps[1..]);
      assert [ps[0]] + ps[1..] == ps;
    }
  }

  lemma Keeps(env: Env, plan: Plan, r: seq<Property>, a: seq<Property>, b: seq<Property>)
    requires ListConjunction(env, plan, r, a, b)
    ensures PropertiesMergeable(r, plan)
  {
  }

  lemma Chained(env: Env, plan: Plan, r: seq<Property>, k: seq<Property>, a: seq<Property>, b: seq<Property>, c: seq<Property>)
    requires ListConjunction(env, plan, k, a, b) && ListConjunction(env, plan, r, k, c)
    ensures ListConjunction(env, plan, r, a, b + c)
  {
    Concatenation(env, b, c);
    hide PropertiesOk, PropertiesMergeable, Names;
  }

  lemma Concatenation(env: Env, a: seq<Property>, b: seq<Property>)
    ensures Names(a + b) == Names(a) + Names(b)
    ensures forall members :: PropertiesOk(env, a + b, members) <==>
                              PropertiesOk(env, a, members) && PropertiesOk(env, b, members)
  {
    hide PropertyOk;
    assert forall x :: x in a + b <==> x in a || x in b;
  }

  lemma Concatenated(env: Env, plan: Plan, a: seq<Property>, b: seq<Property>)
    requires PropertiesMergeable(a, plan) && PropertiesMergeable(b, plan)
    ensures ListConjunction(env, plan, a + b, a, b)
  {
    Concatenation(env, a, b);
    hide PropertiesOk;
  }

  lemma {:induction false} AbsorbIsConjunction(env: Env, plan: Plan, known: seq<Property>, p: Property)
    requires PropertiesMergeable(known, plan) && Mergeable(p.schema, Under(plan, AtProperty(p.name)))
    requires Absorb(known, p).Ok?
    ensures ListConjunction(env, plan, Absorb(known, p).value, known, [p])
    decreases SizeProperties(known) + Size(p.schema), 3, 0
  {
    hide ListConjunction, Mergeable;
    var found := LastIndex(known, p.name);
    if found.None? {
      Concatenated(env, plan, known, [p]);
    } else {
      var i, q := found.value, known[found.value];
      SizePropertiesSplit(known, i);
      MergeIsConjunction(env, Under(plan, AtProperty(p.name)), p.schema, q.schema);
      var merged := Property(p.name, Merge(p.schema, q.schema).value, p.required || q.required);
      MergedInPlace(env, plan, known, i, p, merged);
    }
  }

  // Merging a property in place asks for what both properties asked for.
  lemma MergedInPlace(env: Env, plan: Plan, known: seq<Property>, i: nat, p: Property, merged: Property)
    requires PropertiesMergeable(known, plan) && PlainMergeable(merged.schema, Under(plan, AtProperty(p.name)))
    requires i < |known| && known[i].name == p.name == merged.name
    requires merged.required == (p.required || known[i].required)
    requires Conjunction(env, merged.schema, p.schema, known[i].schema)
    ensures ListConjunction(env, plan, known[i := merged], known, [p])
  {
    var rest := known[..i] + known[i + 1..];
    Rearranged(env, known, i);
    Rearranged(env, known[i := merged], i);
    assert known[i := merged][..i] + known[i := merged][i + 1..] == rest;
    forall members
      ensures PropertyOk(env, merged, members) <==>
              PropertyOk(env, p, members) && PropertyOk(env, known[i], members)
    {
    }
    hide PropertyOk;
    assert forall members :: PropertiesOk(env, [p], members) <==> PropertyOk(env, p, members);
    assert forall x :: x in known[i := merged] ==> x in known || x == merged;
  }

  lemma Rearranged(env: Env, ps: seq<Property>, i: nat)
    requires i < |ps|
    ensures var rest := ps[..i] + ps[i + 1..];
            && Names(ps) == Names(rest) + {ps[i].name}
            && forall members :: PropertiesOk(env, ps, members) <==>
                                 PropertiesOk(env, rest, members) && PropertyOk(env, ps[i], members)
  {
    hide PropertyOk;
    var rest := ps[..i] + ps[i + 1..];
    assert ps == ps[..i] + [ps[i]] + ps[i + 1..];
    assert forall x :: x in ps <==> x in rest || x == ps[i];
  }

  lemma {:induction false} MergeAllIsConjunction(env: Env, plan: Plan, ss: seq<Schema>)
    requires ss != [] && (|ss| == 1 ==> ss[0].allOf == [])
    requires forall i :: 0 <= i < |ss| ==> Mergeable(ss[i], plan)
    requires MergeAll(ss).Ok?
    ensures PlainMergeable(MergeAll(ss).value, plan)
    ensures forall v :: Accepts(env, MergeAll(ss).value, v) <==> AcceptsAll(env, ss, v)
    decreases SizeAll(ss), 3, |ss|
  {
    hide Accepts;
    if |ss| > 1 {
      assert SizeAll(ss) == Size(ss[0]) + Size(ss[1]) + SizeAll(ss[2..]) by {
        assert ss[1..][1..] == ss[2..];
      }
      var root := Merge(ss[0], ss[1]).value;
      MergeIsConjunction(env, plan, ss[0], ss[1]);
      var rest := [root] + ss[2..];
      MergeAllIsConjunction(env, plan, rest);
      FoldedFirst(env, ss, root);
    }
  }

  lemma FoldedFirst(env: Env, ss: seq<Schema>, root: Schema)
    requires |ss| > 1 && Conjunction(env, root, ss[0], ss[1])
    ensures forall v :: AcceptsAll(env, [root] + ss[2..], v) <==> AcceptsAll(env, ss, v)
  {
    hide Accepts;
    forall v
      ensures AcceptsAll(env, [root] + ss[2..], v) <==> AcceptsAll(env, ss, v)
    {
      var rest := [root] + ss[2..];
      assert Accepts(env, rest[0], v) <==> Accepts(env, ss[0], v) && Accepts(env, ss[1], v);
      assert forall i :: 2 <= i < |ss| ==> ss[i] == rest[i - 1];
      assert forall i :: 1 <= i < |rest| ==> rest[i] == ss[i + 1];
    }
  }

  lemma ObjectsConjunction(env: Env, s1: Schema, s2: Schema, r: Schema, merged: seq<Property>, members: map<string, Json>)
    requires s1.patternProperties == s2.patternProperties == r.patternProperties == []
    requires s1.additionalProperties == s2.additionalProperties == r.additionalProperties == None
    requires forall name :: name in s1.required ==> name in Names(s1.properties)
    requires forall name :: name in s2.required ==> name in Names(s2.properties)
    requires Names(merged) == Names(s1.properties) + Names(s2.properties)
    requires PropertiesOk(env, merged, members) <==>
             PropertiesOk(env, s1.properties, members) && PropertiesOk(env, s2.properties, members)
    requires r.properties == Flagged(merged, RequiredNames(s1, s2)) && r.required == []
    requires r.minProperties == SomeMax(s1.minProperties, s2.minProperties)
    requires r.maxProperties == SomeMin(s1.maxProperties, s2.maxProperties)
    ensures ObjectOk(env, r, members) <==> ObjectOk(env, s1, members) && ObjectOk(env, s2, members)
  {
    var required := RequiredNames(s1, s2);
    assert required <= Names(merged);
    hide ObjectOk, PropertiesOk, Accepts, Names, Flagged, RequiredNames, RequiredOk, AtMost, AtLeast;
    FlaggedMeaning(env, merged, required, members);
    ObjectMeaning(env, s1, members);
    ObjectMeaning(env, s2, members);
    ObjectMeaning(env, r, members);
    RequiredMeaning(s1, s2, members);
    CountsMeaning(s1, s2, |members|);
    assert RequiredOk([], members) by { NothingRequired(members); }
  }

  lemma CountsMeaning(s1: Schema, s2: Schema, n: nat)
    ensures AtMost(SomeMin(s1.maxProperties, s2.maxProperties), n) <==> AtMost(s1.maxProperties, n) && AtMost(s2.maxProperties, n)
    ensures AtLeast(SomeMax(s1.minProperties, s2.minProperties), n) <==> AtLeast(s1.minProperties, n) && AtLeast(s2.minProperties, n)
  {
  }

  lemma NothingRequired(members: map<string, Json>)
    ensures RequiredOk([], members)
  {
  }

  ghost predicate RequiredOk(required: seq<string>, members: map<string, Json>) {
    forall name :: name in required ==> name in members
  }

  lemma RequiredMeaning(s1: Schema, s2: Schema, members: map<string, Json>)
    ensures RequiredNames(s1, s2) <= members.Keys <==> RequiredOk(s1.required, members) && RequiredOk(s2.required, members)
  {
  }

  lemma ObjectMeaning(env: Env, s: Schema, members: map<string, Json>)
    requires s.patternProperties == [] && s.additionalProperties == None
    ensures ObjectOk(env, s, members) <==>
            && AtMost(s.maxProperties, |members|)
            && AtLeast(s.minProperties, |members|)
            && RequiredOk(s.required, members)
            && PropertiesOk(env, s.properties, members)
  {
  }

  lemma ArraysConjunction(env: Env, s1: Schema, s2: Schema, r: Schema, elems: seq<Json>)
    requires s1.items == s2.items == r.items == []
    requires s1.additionalProperties == s2.additionalProperties == r.additionalProperties == None
    requires r.minItems == SomeMax(s1.minItems, s2.minItems)
    requires r.maxItems == SomeMin(s1.maxItems, s2.maxItems)
    requires r.uniqueItems == (s1.uniqueItems || s2.uniqueItems)
    requires ItemConjunction(env, r.item, s1.item, s2.item)
    ensures ArrayOk(env, r, elems) <==> ArrayOk(env, s1, elems) && ArrayOk(env, s2, elems)
  {
    hide ItemOk;
  }

  lemma SumsConjunction(env: Env, s1: Schema, s2: Schema, r: Schema, v: Json)
    requires MergeSums(s1.oneOf, s2.oneOf) == Ok(r.oneOf)
    requires MergeSums(s1.anyOf, s2.anyOf) == Ok(r.anyOf)
    ensures SumsOk(env, r, v) <==> SumsOk(env, s1, v) && SumsOk(env, s2, v)
  {
  }

  // Raising a flag asks for the presence of the member.
  lemma FlaggedMeaning(env: Env, ps: seq<Property>, required: set<string>, members: map<string, Json>)
    requires required <= Names(ps)
    ensures Names(Flagged(ps, required)) == Names(ps)
    ensures PropertiesOk(env, Flagged(ps, required), members) <==>
            PropertiesOk(env, ps, members) && required <= members.Keys
  {
    var flagged := Flagged(ps, required);
    forall name
      ensures name in Names(flagged) <==> name in Names(ps)
    {
      InNames(ps, name);
      InNames(flagged, name);
    }
    forall i | 0 <= i < |ps|
      ensures PropertyOk(env, flagged[i], members) <==>
              PropertyOk(env, ps[i], members) && (ps[i].name in required ==> ps[i].name in members)
    {
    }
    if PropertiesOk(env, flagged, members) {
      forall p | p in ps
        ensures PropertyOk(env, p, members)
      {
        var i :| 0 <= i < |ps| && ps[i] == p;
        assert flagged[i] in flagged;
      }
      forall name | name in required
        ensures name in members
      {
        InNames(ps, name);
        var i :| 0 <= i < |ps| && ps[i].name == name;
        assert flagged[i] in flagged;
      }
    }
  }
}
