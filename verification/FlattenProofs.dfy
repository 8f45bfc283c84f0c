/**
What flattenAllOfSchema means: allOf and the keywords beside it are applied together, in any order.
 */
module FlattenProofs {
  import opened Wrappers
  import opened Schemas
  import opened AllOf
  import opened AllOfProofs

  // The types named by a schema and by the members of its allOf lists.
  ghost function Types(s: Schema): set<SchemaType>
    decreases s, 0
  {
    {s.scalars.typ} + TypesOfAll(s.allOf)
  }

  ghost function TypesOfAll(ss: seq<Schema>): set<SchemaType>
    decreases ss, 1
  {
    if ss == [] then {} else Types(ss[0]) + TypesOfAll(ss[1..])
  }

  // A merge invents no type.
  lemma {:induction false} MergedTypes(s1: Schema, s2: Schema)
    requires Merge(s1, s2).Ok?
    ensures Types(Merge(s1, s2).value) <= Types(s1) + Types(s2)
    decreases Size(s1) + Size(s2), 2, 0
  {
    if s1.allOf != [] { MergedTypesOfAll(s1.allOf); }
    if s2.allOf != [] { MergedTypesOfAll(s2.allOf); }
    var t1 := if s1.allOf != [] then MergeAll(s1.allOf).value else s1;
    var t2 := if s2.allOf != [] then MergeAll(s2.allOf).value else s2;
    PlainTypes(t1, t2);
  }

  lemma PlainTypes(s1: Schema, s2: Schema)
    requires MergePlain(s1, s2).Ok?
    ensures var r := MergePlain(s1, s2).value;
            r == s1 || r == s2 || (r.allOf == [] && r.scalars.typ in {s1.scalars.typ, s2.scalars.typ})
  {
    hide MergeItems, MergeProperties, MergeTuples;
  }

  lemma {:induction false} MergedTypesOfAll(ss: seq<Schema>)
    requires ss != [] && MergeAll(ss).Ok?
    ensures Types(MergeAll(ss).value) <= TypesOfAll(ss)
    decreases SizeAll(ss), 3, |ss|
  {
    if |ss| > 1 {
      assert ss[1..][1..] == ss[2..];
      assert SizeAll(ss) == Size(ss[0]) + Size(ss[1]) + SizeAll(ss[2..]);
      MergedTypes(ss[0], ss[1]);
      var rest := [Merge(ss[0], ss[1]).value] + ss[2..];
      assert rest[1..] == ss[2..];
      MergedTypesOfAll(rest);
    }
  }

  // When flattening is exact. Beside keywords that force a merge, the parent must be in the fragment
  // itself; a parent that only names a type must not disagree with the members about it, nor may
  // they admit null on their own.
  ghost predicate Flattenable(s: Schema, plan: Plan) {
    var parent := s.(allOf := []);
    && (HasSiblingConstraints(parent) || |s.allOf| > 1 ==>
          forall i :: 0 <= i < |s.allOf| ==> Mergeable(s.allOf[i], plan))
    && (HasSiblingConstraints(parent) ==> PlainMergeable(parent, plan))
    && (!HasSiblingConstraints(parent) && parent.scalars.typ != Empty ==>
          if |s.allOf| == 1 then
            && s.allOf[0].scalars.typ in {Empty, parent.scalars.typ}
            && (s.allOf[0].nullable ==> s.nullable)
          else
            && TypesOfAll(s.allOf) <= {Empty, parent.scalars.typ}
            && (plan.nullable([]) ==> s.nullable))
  }

  lemma ParentMeaning(env: Env, s: Schema, v: Json)
    requires !HasSiblingConstraints(s) && s.allOf == []
    ensures KeywordsOk(env, s, v) <==> TypeOk(s.scalars.typ, v)
  {
    OnlyScalars(env, s, v);
  }

  // r differs from s only where flattening touches it.
  ghost predicate SameBody(s: Schema, r: Schema) {
    r == s.(scalars := r.scalars, nullable := r.nullable, xml := r.xml, extensions := r.extensions)
  }

  lemma SameArrays(env: Env, s: Schema, r: Schema, elems: seq<Json>)
    requires SameBody(s, r)
    ensures ArrayOk(env, r, elems) <==> ArrayOk(env, s, elems)
  {
    hide Accepts;
  }

  lemma SameObjects(env: Env, s: Schema, r: Schema, members: map<string, Json>)
    requires SameBody(s, r)
    ensures ObjectOk(env, r, members) <==> ObjectOk(env, s, members)
  {
    hide Accepts, PropertyOk;
  }

  lemma SameSums(env: Env, s: Schema, r: Schema, v: Json)
    requires SameBody(s, r)
    ensures SumsOk(env, r, v) <==> SumsOk(env, s, v)
  {
    hide Accepts;
  }

  lemma RetypedScalars(env: Env, s: Scalars, typ: SchemaType, v: Json)
    ensures ScalarsOk(env, WithType(s, typ), v) <==> ScalarsOk(env, s, v) && (s.typ == Empty ==> TypeOk(typ, v))
  {
  }

  lemma Retyped(env: Env, s: Schema, r: Schema, typ: SchemaType, v: Json)
    requires SameBody(s, r) && r.scalars == WithType(s.scalars, typ)
    ensures KeywordsOk(env, r, v) <==> KeywordsOk(env, s, v) && (s.scalars.typ == Empty ==> TypeOk(typ, v))
  {
    hide ArrayOk, ObjectOk, SumsOk, SameBody, Accepts, ScalarsOk;
    RetypedScalars(env, s.scalars, typ, v);
    if v.Array? { SameArrays(env, s, r, v.elems); }
    if v.Object? { SameObjects(env, s, r, v.members); }
    SameSums(env, s, r, v);
  }

  // The last step of flattening: the merged schema takes over flags and annotations of the parent.
  ghost predicate IsDressed(merged: Schema, nullable: bool, typ: SchemaType, r: Schema) {
    r == merged.(nullable := merged.nullable || nullable,
                 scalars := WithType(merged.scalars, typ),
                 xml := r.xml, extensions := r.extensions)
  }

  lemma Dressed(env: Env, merged: Schema, nullable: bool, typ: SchemaType, r: Schema, v: Json)
    requires IsDressed(merged, nullable, typ, r)
    ensures Accepts(env, r, v) <==>
            || (nullable && v.Null?)
            || (merged.nullable && v.Null?)
            || (&& KeywordsOk(env, merged, v)
                && AcceptsAll(env, merged.allOf, v)
                && (merged.scalars.typ == Empty ==> TypeOk(typ, v)))
  {
    Retyped(env, merged, r, typ, v);
    AcceptsMeaning(env, r, v);
    assert r.allOf == merged.allOf;
    hide KeywordsOk, Accepts, AcceptsAll, TypeOk;
  }

  lemma AcceptsMeaning(env: Env, s: Schema, v: Json)
    ensures Accepts(env, s, v) <==> (s.nullable && v.Null?) || (KeywordsOk(env, s, v) && AcceptsAll(env, s.allOf, v))
  {
    hide KeywordsOk;
  }

  // Main theorem: the flattened schema accepts exactly what the original one does, that is the
  // values accepted by every allOf member and by the keywords beside allOf.
  lemma FlattenKeepsMeaning(env: Env, plan: Plan, s: Schema, v: Json)
    requires Flatten(s).Ok? && Flattenable(s, plan)
    ensures Accepts(env, Flatten(s).value, v) <==> Accepts(env, s, v)
  {
    var parent, r := s.(allOf := []), Flatten(s).value;
    if s.allOf != [] {
      SameKeywords(env, s, v);
      if HasSiblingConstraints(parent) {
        FlattenWithSiblings(env, plan, s, v);
      } else {
        ParentMeaning(env, parent, v);
        FlattenWithoutSiblings(env, plan, s, v);
      }
    }
  }

  lemma FlattenWithSiblings(env: Env, plan: Plan, s: Schema, v: Json)
    requires s.allOf != [] && HasSiblingConstraints(s.(allOf := []))
    requires Flatten(s).Ok? && Flattenable(s, plan)
    ensures Accepts(env, Flatten(s).value, v) <==> Accepts(env, s, v)
  {
    var parent := s.(allOf := []);
    var merged := MergeAll(s.allOf + [parent]).value;
    MergedWithParent(env, plan, s, v);
    SameKeywords(env, s, v);
    assert IsDressed(merged, s.nullable, s.scalars.typ, Flatten(s).value);
    hide IsDressed;
    Dressed(env, merged, s.nullable, s.scalars.typ, Flatten(s).value, v);
    TypeComesFirst(env, s, v);
    NullInFragment(env, plan, parent, merged);
    AcceptsMeaning(env, merged, v);
    AcceptsMeaning(env, parent, v);
    AcceptsMeaning(env, s, v);
    hide KeywordsOk, Flatten, HasSiblingConstraints, Accepts, AcceptsAll, PlainMergeable, Mergeable, MergeAll, TypeOk;
  }

  lemma MergedWithParent(env: Env, plan: Plan, s: Schema, v: Json)
    requires s.allOf != [] && PlainMergeable(s.(allOf := []), plan)
    requires forall i :: 0 <= i < |s.allOf| ==> Mergeable(s.allOf[i], plan)
    requires MergeAll(s.allOf + [s.(allOf := [])]).Ok?
    ensures var all := s.allOf + [s.(allOf := [])];
            && PlainMergeable(MergeAll(all).value, plan)
            && (Accepts(env, MergeAll(all).value, v) <==>
                AcceptsAll(env, s.allOf, v) && Accepts(env, s.(allOf := []), v))
  {
    var parent := s.(allOf := []);
    var all := s.allOf + [parent];
    assert Mergeable(parent, plan);
    hide MergeAll, Accepts, Mergeable, PlainMergeable;
    forall i | 0 <= i < |all|
      ensures Mergeable(all[i], plan)
    {
      assert all[i] == if i < |s.allOf| then s.allOf[i] else parent;
    }
    MergeAllIsConjunction(env, plan, all);
    AcceptsAllWithLast(env, s.allOf, parent, v);
  }

  lemma AcceptsAllWithLast(env: Env, ss: seq<Schema>, last: Schema, v: Json)
    ensures AcceptsAll(env, ss + [last], v) <==> AcceptsAll(env, ss, v) && Accepts(env, last, v)
  {
    hide Accepts;
    var all := ss + [last];
    assert all[|ss|] == last;
    assert forall i :: 0 <= i < |ss| ==> all[i] == ss[i];
  }

  lemma TypeComesFirst(env: Env, s: Schema, v: Json)
    ensures KeywordsOk(env, s, v) ==> TypeOk(s.scalars.typ, v)
  {
    hide ArrayOk, ObjectOk, SumsOk;
  }

  // A parent that names a type and rejects null is only merged with schemas that are not nullable.
  lemma NullInFragment(env: Env, plan: Plan, parent: Schema, merged: Schema)
    requires PlainMergeable(parent, plan) && PlainMergeable(merged, plan)
    ensures merged.nullable && !parent.nullable ==> parent.scalars.typ == Empty
  {
  }

  lemma FlattenWithoutSiblings(env: Env, plan: Plan, s: Schema, v: Json)
    requires s.allOf != [] && !HasSiblingConstraints(s.(allOf := []))
    requires Flatten(s).Ok? && Flattenable(s, plan)
    requires KeywordsOk(env, s, v) <==> TypeOk(s.scalars.typ, v)
    ensures Accepts(env, Flatten(s).value, v) <==> Accepts(env, s, v)
  {
    hide KeywordsOk, Flatten, HasSiblingConstraints, ContainsValidators, MergeAll, PlainMergeable, Mergeable, TypeOk, Accepts, IsDressed;
    FlattenedAlone(s);
    var merged := Merged(s.allOf);
    if |s.allOf| > 1 {
      MergedWithoutParent(env, plan, s.allOf, v);
    } else {
      assert Accepts(env, merged, v) <==> AcceptsAll(env, s.allOf, v);
    }
    hide AcceptsAll, TypesOfAll;
    DressedAlone(env, s, merged, Flatten(s).value, v);
  }

  lemma DressedAlone(env: Env, s: Schema, merged: Schema, r: Schema, v: Json)
    requires IsDressed(merged, s.nullable, s.scalars.typ, r)
    requires KeywordsOk(env, s, v) <==> TypeOk(s.scalars.typ, v)
    requires Accepts(env, merged, v) <==> AcceptsAll(env, s.allOf, v)
    requires s.scalars.typ != Empty ==> merged.scalars.typ in {Empty, s.scalars.typ} && (merged.nullable ==> s.nullable)
    ensures Accepts(env, r, v) <==> Accepts(env, s, v)
  {
    hide Accepts, KeywordsOk, AcceptsAll, IsDressed;
    Dressed(env, merged, s.nullable, s.scalars.typ, r, v);
    TypeComesFirst(env, merged, v);
    AcceptsMeaning(env, merged, v);
    AcceptsMeaning(env, s, v);
    assert TypeOk(Empty, v);
    hide TypeOk;
  }

  // What an allOf without siblings is flattened to, but for the parent's type and annotations.
  ghost function Merged(ss: seq<Schema>): Schema
    requires ss != [] && (|ss| > 1 ==> MergeAll(ss).Ok?)
  {
    if |ss| == 1 then ss[0] else MergeAll(ss).value
  }

  lemma FlattenedAlone(s: Schema)
    requires s.allOf != [] && !HasSiblingConstraints(s.(allOf := [])) && Flatten(s).Ok?
    ensures |s.allOf| > 1 ==> MergeAll(s.allOf).Ok?
    ensures IsDressed(Merged(s.allOf), s.nullable, s.scalars.typ, Flatten(s).value)
  {
    hide HasSiblingConstraints, MergeAll;
    assert s.allOf + [] == s.allOf;
  }

  lemma MergedWithoutParent(env: Env, plan: Plan, ss: seq<Schema>, v: Json)
    requires |ss| > 1 && MergeAll(ss).Ok?
    requires forall i :: 0 <= i < |ss| ==> Mergeable(ss[i], plan)
    ensures var merged := MergeAll(ss).value;
            && merged.scalars.typ in TypesOfAll(ss)
            && (merged.nullable ==> plan.nullable([]))
            && (Accepts(env, merged, v) <==> AcceptsAll(env, ss, v))
  {
    hide Accepts, Mergeable, MergeAll;
    MergeAllIsConjunction(env, plan, ss);
    MergedTypesOfAll(ss);
  }

  // allOf is an unordered "and": any two orders that both merge accept the same values.
  lemma OrderIsIrrelevant(env: Env, plan: Plan, s: Schema, reordered: seq<Schema>, v: Json)
    requires multiset(reordered) == multiset(s.allOf)
    requires Flatten(s).Ok? && Flattenable(s, plan)
    requires Flatten(s.(allOf := reordered)).Ok? && Flattenable(s.(allOf := reordered), plan)
    ensures Accepts(env, Flatten(s).value, v) <==> Accepts(env, Flatten(s.(allOf := reordered)).value, v)
  {
    var t := s.(allOf := reordered);
    FlattenKeepsMeaning(env, plan, s, v);
    FlattenKeepsMeaning(env, plan, t, v);
    SameKeywords(env, s, v);
    SameKeywords(env, t, v);
    AcceptsMeaning(env, s, v);
    AcceptsMeaning(env, t, v);
    assert s.(allOf := []) == t.(allOf := []);
    SameMembers(env, s.allOf, reordered, v);
    hide Accepts, KeywordsOk, Flatten, Flattenable, AcceptsAll;
  }

  lemma SameMembers(env: Env, a: seq<Schema>, b: seq<Schema>, v: Json)
    requires multiset(a) == multiset(b)
    ensures AcceptsAll(env, a, v) <==> AcceptsAll(env, b, v)
  {
    hide Accepts;
    if AcceptsAll(env, a, v) { SomeMembers(env, a, b, v); }
    if AcceptsAll(env, b, v) { SomeMembers(env, b, a, v); }
  }

  lemma SomeMembers(env: Env, a: seq<Schema>, b: seq<Schema>, v: Json)
    requires multiset(a) == multiset(b) && AcceptsAll(env, a, v)
    ensures AcceptsAll(env, b, v)
  {
    hide Accepts;
    forall j | 0 <= j < |b|
      ensures Accepts(env, b[j], v)
    {
      assert b[j] in multiset(b);
      var i :| 0 <= i < |a| && a[i] == b[j];
    }
  }
}
