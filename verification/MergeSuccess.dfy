/**
When a merge succeeds, said of its inputs alone: for schemas without allOf and without repeated property
names, at every depth.
 */
module MergeSuccess {
  import opened Wrappers
  import opened Schemas
  import opened AllOf
  import opened AllOfProofs

  // No allOf and no name twice, here and below.
  ghost predicate Simple(s: Schema) {
    && s.allOf == [] && Distinct(s.properties)
    && (s.item.Some? ==> Simple(s.item.value))
    && (forall e :: e in s.items ==> Simple(e))
    && (forall p :: p in s.properties ==> Simple(p.schema))
  }

  // Nothing but annotations that a merge does not look at.
  predicate Silent(s: Schema) {
    s == EMPTY.(extensions := s.extensions)
  }

  // The same, or one is absent.
  predicate Agree<T(==)>(a: T, b: T, absent: T) {
    a == absent || b == absent || a == b
  }

  ghost predicate ScalarsCompatible(a: Scalars, b: Scalars) {
    && Agree(a.typ, b.typ, Empty)
    && Agree(a.format, b.format, "")
    && (a.enum != [] && b.enum != [] ==> exists v :: v in a.enum && v in b.enum)
    && Agree(a.dflt, b.dflt, None)
    && Agree(a.constant, b.constant, None)
    && !(a.discriminator.Some? && b.discriminator.Some?)
    && Agree(a.pattern, b.pattern, "")
    && a.multipleOf == b.multipleOf
  }

  // Nothing in the two schemas is at odds.
  ghost predicate Compatible(s1: Schema, s2: Schema)
    decreases s1
  {
    || Silent(s1)
    || Silent(s2)
    || (&& ScalarsCompatible(s1.scalars, s2.scalars)
        && TuplesCompatible(s1, s2)
        && (s1.items == [] || (s1.additionalProperties == s2.additionalProperties && s1.additionalProperties.Some?) ==>
              s1.item.Some? && s2.item.Some? ==> Compatible(s1.item.value, s2.item.value))
        && s1.patternProperties == s2.patternProperties == []
        && Agree(s1.additionalProperties, s2.additionalProperties, None)
        && (forall p, q :: p in s1.properties && q in s2.properties && p.name == q.name ==> Compatible(p.schema, q.schema))
        && (s1.oneOf == [] || s2.oneOf == [])
        && (s1.anyOf == [] || s2.anyOf == []))
  }

  ghost predicate TuplesCompatible(s1: Schema, s2: Schema)
    decreases s1, 0
  {
    |s1.items| == |s2.items| && forall i :: 0 <= i < |s1.items| ==> Compatible(s1.items[i], s2.items[i])
  }

  // Success does not depend on the order.
  lemma {:induction false} CompatibleBothWays(s1: Schema, s2: Schema)
    ensures Compatible(s1, s2) <==> Compatible(s2, s1)
    decreases s1
  {
    if s1.item.Some? && s2.item.Some? { CompatibleBothWays(s1.item.value, s2.item.value); }
    forall i | 0 <= i < |s1.items| && i < |s2.items|
      ensures Compatible(s1.items[i], s2.items[i]) <==> Compatible(s2.items[i], s1.items[i])
    {
      CompatibleBothWays(s1.items[i], s2.items[i]);
    }
    forall p, q | p in s1.properties && q in s2.properties
      ensures Compatible(p.schema, q.schema) <==> Compatible(q.schema, p.schema)
    {
      CompatibleBothWays(p.schema, q.schema);
    }
    hide ScalarsCompatible, Silent;
    ScalarsBothWays(s1.scalars, s2.scalars);
  }

  lemma ScalarsBothWays(a: Scalars, b: Scalars)
    ensures ScalarsCompatible(a, b) <==> ScalarsCompatible(b, a)
  {
  }

  lemma SilentIs(s: Schema)
    requires s.allOf == []
    ensures Silent(s) <==> !ContainsValidators(s)
  {
  }

  lemma ScalarsSucceed(a: Scalars, b: Scalars)
    ensures MergeScalars(a, b).Ok? <==> ScalarsCompatible(a, b)
  {
    MergeEnumsIsIntersection(a.enum, b.enum);
    hide MergeEnums;
  }

  ghost predicate AllSimple(ps: seq<Property>) {
    Distinct(ps) && forall p :: p in ps ==> Simple(p.schema)
  }

  // The merge of two schemas that are not silent, keyword by keyword.
  ghost predicate PartsSucceed(s1: Schema, s2: Schema) {
    && MergeScalars(s1.scalars, s2.scalars).Ok?
    && |s1.items| == |s2.items|
    && MergeTuples(s1.items, s2.items).Ok?
    && (s1.items == [] || (s1.additionalProperties == s2.additionalProperties && s1.additionalProperties.Some?) ==>
          MergeItems(s1.item, s2.item).Ok?)
    && s1.patternProperties == s2.patternProperties == []
    && Agree(s1.additionalProperties, s2.additionalProperties, None)
    && MergeInto(s1.properties, s2.properties).Ok?
    && (s1.oneOf == [] || s2.oneOf == [])
    && (s1.anyOf == [] || s2.anyOf == [])
  }

  lemma PlainSucceeds(s1: Schema, s2: Schema)
    requires s1.allOf == s2.allOf == [] && AllSimple(s1.properties) && AllSimple(s2.properties)
    requires ContainsValidators(s1) == ContainsValidators(s2)
    requires MergeInto(s1.properties, s2.properties).Ok? ==> Distinct(MergeInto(s1.properties, s2.properties).value)
    ensures MergePlain(s1, s2).Ok? <==> PartsSucceed(s1, s2)
    ensures MergePlain(s1, s2).Ok? ==>
              var r := MergePlain(s1, s2).value;
              && r.allOf == [] && r.items == []
              && r.properties == Flagged(MergeInto(s1.properties, s2.properties).value, RequiredNames(s1, s2))
              && (r.item in {None, s1.item, s2.item} || Ok(r.item) == MergeItems(s1.item, s2.item))
  {
    var scalars := MergeScalars(s1.scalars, s2.scalars);
    hide ContainsValidators, MergeScalars, MergeInto, MergeItems, MergeTuples, Flagged, RequiredNames, Distinct, Simple;
    if s1.items == s2.items == [] { NoTuple(); }
    if scalars.Ok? {
      var base := EMPTY.(nullable := s1.nullable || s2.nullable, scalars := scalars.value);
      ArraysSucceed(s1, s2, base);
      var arrays := MergeArrays(s1, s2, base);
      if arrays.Ok? { ObjectsSucceed(s1, s2, arrays.value); }
      hide MergeArrays, MergeObjects;
    }
  }

  lemma NoTuple()
    ensures MergeTuples([], []) == Ok([])
  {
  }

  lemma ArraysSucceed(s1: Schema, s2: Schema, r: Schema)
    requires r.item == None && r.items == []
    ensures MergeArrays(s1, s2, r).Ok? <==>
            if s1.items == s2.items == [] then MergeItems(s1.item, s2.item).Ok?
            else |s1.items| == |s2.items| && MergeTuples(s1.items, s2.items).Ok?
    ensures MergeArrays(s1, s2, r).Ok? ==>
              && (MergeArrays(s1, s2, r).value.item == None || Ok(MergeArrays(s1, s2, r).value.item) == MergeItems(s1.item, s2.item))
              && ItemSize(MergeArrays(s1, s2, r).value.item) <= ItemSize(s1.item) + ItemSize(s2.item)
  {
    hide MergeItems, MergeTuples;
  }

  lemma ObjectsSucceed(s1: Schema, s2: Schema, r: Schema)
    requires ItemSize(r.item) <= ItemSize(s1.item) + ItemSize(s2.item)
    requires MergeInto(s1.properties, s2.properties).Ok? ==> Distinct(MergeInto(s1.properties, s2.properties).value)
    ensures MergeObjects(s1, s2, r).Ok? <==>
            && s1.patternProperties == s2.patternProperties == []
            && Agree(s1.additionalProperties, s2.additionalProperties, None)
            && (s1.additionalProperties == s2.additionalProperties && s1.additionalProperties.Some? ==> MergeItems(s1.item, s2.item).Ok?)
            && MergeInto(s1.properties, s2.properties).Ok?
    ensures MergeObjects(s1, s2, r).Ok? ==>
              var r' := MergeObjects(s1, s2, r).value;
              && r'.properties == Flagged(MergeInto(s1.properties, s2.properties).value, RequiredNames(s1, s2))
              && (r'.item in {r.item, s1.item, s2.item} || Ok(r'.item) == MergeItems(s1.item, s2.item))
  {
    hide MergeInto, MergeItems, Flagged, RequiredNames, Distinct;
  }

  // Main theorem: a merge succeeds if and only if nothing is at odds; then the result is again simple.
  lemma {:induction false} MergeSucceeds(s1: Schema, s2: Schema)
    requires Simple(s1) && Simple(s2)
    ensures Merge(s1, s2).Ok? <==> Compatible(s1, s2)
    ensures Merge(s1, s2).Ok? ==> Simple(Merge(s1, s2).value)
    decreases Size(s1) + Size(s2), 2, 0
  {
    SilentIs(s1);
    SilentIs(s2);
    IsPlain(s1, s2);
    if !Silent(s1) && !Silent(s2) {
      SpeakingSucceeds(s1, s2);
    } else if Silent(s1) && Silent(s2) {
      BothSilent(s1, s2);
    } else {
      OneSilent(s1, s2);
    }
    hide Merge, MergePlain, Simple, Silent, ContainsValidators;
  }

  lemma IsPlain(s1: Schema, s2: Schema)
    requires s1.allOf == s2.allOf == []
    ensures Merge(s1, s2) == MergePlain(s1, s2)
  {
    hide MergePlain;
  }

  lemma OneSilent(s1: Schema, s2: Schema)
    requires ContainsValidators(s1) != ContainsValidators(s2)
    ensures MergePlain(s1, s2) == Ok(if ContainsValidators(s1) then s1 else s2)
  {
    hide ContainsValidators;
  }

  lemma BothSilent(s1: Schema, s2: Schema)
    requires Silent(s1) && Silent(s2)
    ensures MergePlain(s1, s2).Ok? && Simple(MergePlain(s1, s2).value)
  {
    assert MergeInto([], []) == Ok([]) && MergeTuples([], []) == Ok([]) && MergeItems(None, None) == Ok(None);
    assert MergeScalars(NO_SCALARS, NO_SCALARS).Ok?;
    SilentIs(s1);
    SilentIs(s2);
    PlainSucceeds(s1, s2);
    hide MergePlain, MergeInto, MergeItems;
  }

  lemma {:induction false} SpeakingSucceeds(s1: Schema, s2: Schema)
    requires Simple(s1) && Simple(s2) && !Silent(s1) && !Silent(s2)
    ensures MergePlain(s1, s2).Ok? <==> Compatible(s1, s2)
    ensures MergePlain(s1, s2).Ok? ==> Simple(MergePlain(s1, s2).value)
    decreases Size(s1) + Size(s2), 1, 0
  {
    SilentIs(s1);
    SilentIs(s2);
    ScalarsSucceed(s1.scalars, s2.scalars);
    if |s1.items| == |s2.items| { TuplesSucceed(s1.items, s2.items); }
    ItemsSucceed(s1.item, s2.item);
    IntoSucceeds(s1.properties, s2.properties);
    PlainSucceeds(s1, s2);
    hide MergePlain, MergeScalars, MergeTuples, MergeItems, MergeInto, Silent, ContainsValidators, ScalarsCompatible;
    if MergePlain(s1, s2).Ok? {
      FlaggedSimple(MergeInto(s1.properties, s2.properties).value, RequiredNames(s1, s2));
      hide Flagged, RequiredNames;
    }
  }

  lemma FlaggedSimple(ps: seq<Property>, required: set<string>)
    requires AllSimple(ps)
    ensures AllSimple(Flagged(ps, required))
  {
    var r := Flagged(ps, required);
    forall p | p in r
      ensures Simple(p.schema)
    {
      var i :| 0 <= i < |r| && r[i] == p;
      assert ps[i] in ps;
    }
  }

  lemma {:induction false} ItemsSucceed(i1: Option<Schema>, i2: Option<Schema>)
    requires (i1.Some? ==> Simple(i1.value)) && (i2.Some? ==> Simple(i2.value))
    ensures MergeItems(i1, i2).Ok? <==> (i1.Some? && i2.Some? ==> Compatible(i1.value, i2.value))
    ensures MergeItems(i1, i2).Ok? && MergeItems(i1, i2).value.Some? ==> Simple(MergeItems(i1, i2).value.value)
    decreases ItemSize(i1) + ItemSize(i2), 3, 0
  {
    hide Simple, Compatible, Merge;
    if i1.Some? && i2.Some? { MergeSucceeds(i1.value, i2.value); }
  }

  lemma {:induction false} TuplesSucceed(i1: seq<Schema>, i2: seq<Schema>)
    requires |i1| == |i2| && (forall e :: e in i1 ==> Simple(e)) && (forall e :: e in i2 ==> Simple(e))
    ensures MergeTuples(i1, i2).Ok? <==> forall i :: 0 <= i < |i1| ==> Compatible(i1[i], i2[i])
    decreases SizeAll(i1) + SizeAll(i2), 3, 0
  {
    hide Simple, Compatible, Merge;
    if i1 != [] {
      assert i1[0] in i1 && i2[0] in i2;
      MergeSucceeds(i1[0], i2[0]);
      TuplesSucceed(i1[1..], i2[1..]);
      assert forall i :: 1 <= i < |i1| ==> i1[i] == i1[1..][i - 1] && i2[i] == i2[1..][i - 1];
    }
  }

  // What the properties still to be added have in common with those there.
  ghost predicate NamesCompatible(known: seq<Property>, ps: seq<Property>) {
    forall p, q :: p in known && q in ps && p.name == q.name ==> Compatible(p.schema, q.schema)
  }

  lemma {:induction false} IntoSucceeds(known: seq<Property>, ps: seq<Property>)
    requires AllSimple(known) && AllSimple(ps)
    ensures MergeInto(known, ps).Ok? <==> NamesCompatible(known, ps)
    ensures MergeInto(known, ps).Ok? ==> AllSimple(MergeInto(known, ps).value)
    decreases SizeProperties(known) + SizeProperties(ps), 3, |ps|
  {
    if ps != [] {
      var p := ps[0];
      assert p in ps && forall x :: x in ps[1..] ==> x in ps;
      AbsorbSucceeds(known, p);
      assert AllSimple(ps[1..]);
      hide Absorb, Simple, Compatible;
      if Absorb(known, p).Ok? {
        IntoSucceeds(Absorb(known, p).value, ps[1..]);
        LaterNames(known, Absorb(known, p).value, ps);
      } else {
        assert !NamesCompatible(known, ps);
      }
    }
  }

  // Later properties have other names, for which nothing has changed.
  lemma LaterNames(known: seq<Property>, now: seq<Property>, ps: seq<Property>)
    requires ps != [] && Distinct(ps) && NamesCompatible(known, [ps[0]])
    requires forall q: Property :: q.name != ps[0].name ==> (q in now <==> q in known)
    ensures NamesCompatible(known, ps) <==> NamesCompatible(now, ps[1..])
  {
    hide Compatible;
    assert forall x :: x in ps <==> x == ps[0] || x in ps[1..];
    assert ps[0] in [ps[0]];
    forall x | x in ps[1..]
      ensures x.name != ps[0].name
    {
      var i :| 0 <= i < |ps[1..]| && ps[1..][i] == x;
      assert ps[i + 1] == x;
    }
  }

  lemma {:induction false} AbsorbSucceeds(known: seq<Property>, p: Property)
    requires AllSimple(known) && Simple(p.schema)
    ensures Absorb(known, p).Ok? <==> NamesCompatible(known, [p])
    ensures Absorb(known, p).Ok? ==> AllSimple(Absorb(known, p).value)
    ensures Absorb(known, p).Ok? ==> forall q: Property :: q.name != p.name ==> (q in Absorb(known, p).value <==> q in known)
    decreases SizeProperties(known) + Size(p.schema), 3, 0
  {
    hide Simple, Compatible, Merge;
    var found := LastIndex(known, p.name);
    assert p in [p] && forall x :: x in [p] ==> x == p;
    if found.None? {
      assert forall q :: q in known ==> q.name != p.name;
    } else {
      var i, q := found.value, known[found.value];
      SizePropertiesSplit(known, i);
      assert q in known && forall x :: x in known && x.name == p.name ==> x == q;
      MergeSucceeds(p.schema, q.schema);
      CompatibleBothWays(p.schema, q.schema);
      if Merge(p.schema, q.schema).Ok? {
        var merged := Property(p.name, Merge(p.schema, q.schema).value, p.required || q.required);
        Replaced(known, i, merged);
      }
    }
  }

  lemma Replaced(known: seq<Property>, i: nat, merged: Property)
    requires AllSimple(known) && i < |known| && merged.name == known[i].name && Simple(merged.schema)
    ensures AllSimple(known[i := merged])
    ensures forall q: Property :: q.name != merged.name ==> (q in known[i := merged] <==> q in known)
  {
    hide Simple;
    var now := known[i := merged];
    forall q: Property | q.name != merged.name
      ensures q in now <==> q in known
    {
      if q in known {
        var j :| 0 <= j < |known| && known[j] == q;
        assert now[j] == q;
      }
    }
    assert forall j :: 0 <= j < |known| ==> now[j].name == known[j].name;
  }

  // What a merge of two speaking schemas does to the annotations: the default and the discriminator of either
  // side stay, the XML name and the extensions of both are lost.
  lemma MergeAnnotations(s1: Schema, s2: Schema)
    requires Simple(s1) && Simple(s2) && !Silent(s1) && !Silent(s2) && Merge(s1, s2).Ok?
    ensures var r := Merge(s1, s2).value;
            && r.scalars.dflt == (if s1.scalars.dflt.Some? then s1.scalars.dflt else s2.scalars.dflt)
            && r.scalars.discriminator == (if s1.scalars.discriminator.Some? then s1.scalars.discriminator else s2.scalars.discriminator)
            && r.xml == None && r.extensions == []
  {
    SilentIs(s1);
    SilentIs(s2);
    IsPlain(s1, s2);
    hide Merge, MergeItems, MergeInto, MergeTuples, MergeEnums, ContainsValidators, Simple, Silent, MergeSums;
  }
}
