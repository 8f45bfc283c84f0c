/**
When flattening succeeds, said of the list of schemas alone: every two of them agree, their enums have a
value in common, and the same holds of their elements and of their properties of one name.
 */
module FlattenSuccess {
  import opened Wrappers
  import opened Schemas
  import opened AllOf
  import opened AllOfProofs
  import opened MergeSuccess

  // Schemas that a merge with another does not silence: those that say more than what is dropped. Tuples
  // and additional properties, which may take part of another schema with them, are left aside.
  ghost predicate Lasting(s: Schema) {
    && s.allOf == [] && Distinct(s.properties) && s.items == [] && s.additionalProperties.None?
    && (Silent(s) || !Silent(s.(required := [], xml := None, scalars := s.scalars.(exclusiveMaximum := false))))
    && (s.item.Some? ==> Lasting(s.item.value))
    && (forall p :: p in s.properties ==> Lasting(p.schema))
  }

  lemma {:induction false} LastingIsSimple(s: Schema)
    requires Lasting(s)
    ensures Simple(s)
    decreases s
  {
    if s.item.Some? { LastingIsSimple(s.item.value); }
    forall p | p in s.properties
      ensures Simple(p.schema)
    {
      LastingIsSimple(p.schema);
    }
  }

  ghost predicate AllLasting(ss: seq<Schema>) {
    forall s :: s in ss ==> Lasting(s)
  }

  // ----- The elements and the properties of a list of schemas -----

  function ItemOf(s: Schema): seq<Schema> {
    if s.item.Some? then [s.item.value] else []
  }

  function ItemsOf(ss: seq<Schema>): seq<Schema> {
    if ss == [] then [] else ItemOf(ss[0]) + ItemsOf(ss[1..])
  }

  function Named(ps: seq<Property>, name: string): seq<Schema> {
    if ps == [] then [] else (if ps[0].name == name then [ps[0].schema] else []) + Named(ps[1..], name)
  }

  function SchemasOf(ss: seq<Schema>, name: string): seq<Schema> {
    if ss == [] then [] else Named(ss[0].properties, name) + SchemasOf(ss[1..], name)
  }

  lemma {:induction false} SizeAllConcat(a: seq<Schema>, b: seq<Schema>)
    ensures SizeAll(a + b) == SizeAll(a) + SizeAll(b)
  {
    if a == [] {
      assert a + b == b;
    } else {
      assert (a + b)[1..] == a[1..] + b;
      SizeAllConcat(a[1..], b);
    }
  }

  lemma {:induction false} NamedSize(ps: seq<Property>, name: string)
    ensures SizeAll(Named(ps, name)) <= SizeProperties(ps)
  {
    if ps != [] {
      NamedSize(ps[1..], name);
      SizeAllConcat(if ps[0].name == name then [ps[0].schema] else [], Named(ps[1..], name));
    }
  }

  lemma {:induction false} PartsAreSmaller(ss: seq<Schema>, name: string)
    ensures SizeAll(ItemsOf(ss)) <= SizeAll(ss) && SizeAll(SchemasOf(ss, name)) <= SizeAll(ss)
    ensures ss != [] ==> SizeAll(ItemsOf(ss)) < SizeAll(ss) && SizeAll(SchemasOf(ss, name)) < SizeAll(ss)
  {
    if ss != [] {
      PartsAreSmaller(ss[1..], name);
      NamedSize(ss[0].properties, name);
      SizeAllConcat(ItemOf(ss[0]), ItemsOf(ss[1..]));
      SizeAllConcat(Named(ss[0].properties, name), SchemasOf(ss[1..], name));
      assert SizeAll(ItemOf(ss[0])) < Size(ss[0]);
    }
  }

  lemma {:induction false} PartsConcat(a: seq<Schema>, b: seq<Schema>, name: string)
    ensures ItemsOf(a + b) == ItemsOf(a) + ItemsOf(b)
    ensures SchemasOf(a + b, name) == SchemasOf(a, name) + SchemasOf(b, name)
  {
    if a == [] {
      assert a + b == b;
    } else {
      hide Named, ItemOf;
      assert (a + b)[0] == a[0] && (a + b)[1..] == a[1..] + b;
      PartsConcat(a[1..], b, name);
    }
  }

  lemma PartsOfOne(s: Schema, name: string)
    ensures ItemsOf([s]) == ItemOf(s) && SchemasOf([s], name) == Named(s.properties, name)
  {
    assert [s][1..] == [];
    hide Named;
  }

  // Distinct names: at most one schema, that of the property.
  lemma {:induction false} NamedIs(ps: seq<Property>, name: string)
    requires Distinct(ps)
    ensures |Named(ps, name)| <= 1
    ensures Named(ps, name) == [] <==> forall p :: p in ps ==> p.name != name
    ensures forall p :: p in ps && p.name == name ==> Named(ps, name) == [p.schema]
    ensures Named(ps, name) != [] ==> exists p :: p in ps && p.name == name && p.schema == Named(ps, name)[0]
  {
    if ps != [] {
      NamedIs(ps[1..], name);
      forall p | p in ps[1..]
        ensures p.name != ps[0].name
      {
        var i :| 0 <= i < |ps[1..]| && ps[1..][i] == p;
        assert ps[i + 1] == p;
      }
      assert ps[0] in ps && forall p :: p in ps <==> p == ps[0] || p in ps[1..];
    }
  }

  // ----- What a list must not have at odds -----

  // The keywords of two schemas.
  predicate Agreeing(a: Schema, b: Schema) {
    && Agree(a.scalars.typ, b.scalars.typ, Empty)
    && Agree(a.scalars.format, b.scalars.format, "")
    && Agree(a.scalars.dflt, b.scalars.dflt, None)
    && Agree(a.scalars.constant, b.scalars.constant, None)
    && !(a.scalars.discriminator.Some? && b.scalars.discriminator.Some?)
    && Agree(a.scalars.pattern, b.scalars.pattern, "")
    && a.scalars.multipleOf == b.scalars.multipleOf
    && a.patternProperties == b.patternProperties == []
    && (a.oneOf == [] || b.oneOf == [])
    && (a.anyOf == [] || b.anyOf == [])
  }

  predicate PairsAgree(ss: seq<Schema>) {
    forall i, j :: 0 <= i < j < |ss| && !Silent(ss[i]) && !Silent(ss[j]) ==> Agreeing(ss[i], ss[j])
  }

  predicate Allows(s: Schema, v: Json) {
    s.scalars.enum != [] ==> v in s.scalars.enum
  }

  predicate AllAllow(ss: seq<Schema>, v: Json) {
    forall s :: s in ss ==> Allows(s, v)
  }

  ghost predicate EnumsMeet(ss: seq<Schema>) {
    exists v :: AllAllow(ss, v)
  }

  ghost predicate AllCompatible(ss: seq<Schema>)
    decreases SizeAll(ss), 1
  {
    ss == [] || (PairsAgree(ss) && EnumsMeet(ss) && ItemsCompatible(ss) && forall name :: NameCompatible(ss, name))
  }

  ghost predicate ItemsCompatible(ss: seq<Schema>)
    requires ss != []
    decreases SizeAll(ss), 0
  {
    PartsAreSmaller(ss, "");
    AllCompatible(ItemsOf(ss))
  }

  ghost predicate NameCompatible(ss: seq<Schema>, name: string)
    requires ss != []
    decreases SizeAll(ss), 0
  {
    PartsAreSmaller(ss, name);
    AllCompatible(SchemasOf(ss, name))
  }

  // ----- Order, single schemas and silent ones -----

  lemma {:induction false} Alone(s: Schema)
    requires Lasting(s)
    ensures AllCompatible([s])
    decreases s
  {
    assert EnumsMeet([s]) by {
      var v := if s.scalars.enum == [] then Null else s.scalars.enum[0];
      assert AllAllow([s], v);
    }
    PartsOfOne(s, "");
    if s.item.Some? { Alone(s.item.value); }
    forall name
      ensures NameCompatible([s], name)
    {
      PartsOfOne(s, name);
      NamedIs(s.properties, name);
      var named := Named(s.properties, name);
      if named != [] {
        var p :| p in s.properties && p.name == name && p.schema == named[0];
        Alone(p.schema);
        assert named == [p.schema];
      }
    }
  }

  ghost predicate AgreesWith(s: Schema, ss: seq<Schema>) {
    forall t :: t in ss && !Silent(s) && !Silent(t) ==> Agreeing(s, t)
  }

  lemma PairsSplit(s: Schema, ss: seq<Schema>)
    ensures PairsAgree([s] + ss) <==> AgreesWith(s, ss) && PairsAgree(ss)
  {
    hide Agreeing, Silent;
    var all := [s] + ss;
    assert forall i :: 0 <= i < |ss| ==> all[i + 1] == ss[i];
    if PairsAgree(all) {
      forall t | t in ss && !Silent(s) && !Silent(t)
        ensures Agreeing(s, t)
      {
        var i :| 0 <= i < |ss| && ss[i] == t;
        assert Agreeing(all[0], all[i + 1]);
      }
      forall i, j | 0 <= i < j < |ss| && !Silent(ss[i]) && !Silent(ss[j])
        ensures Agreeing(ss[i], ss[j])
      {
        assert Agreeing(all[i + 1], all[j + 1]);
      }
    }
  }

  lemma TwoPairs(a: Schema, b: Schema, ss: seq<Schema>)
    ensures PairsAgree([a, b] + ss) <==>
            && (!Silent(a) && !Silent(b) ==> Agreeing(a, b))
            && AgreesWith(a, ss) && AgreesWith(b, ss) && PairsAgree(ss)
  {
    hide PairsAgree, Agreeing, Silent;
    assert [a, b] + ss == [a] + ([b] + ss);
    PairsSplit(a, [b] + ss);
    PairsSplit(b, ss);
    assert forall t :: t in [b] + ss <==> t == b || t in ss;
  }

  lemma TwoParts(a: Schema, b: Schema, ss: seq<Schema>, name: string)
    ensures ItemsOf([a, b] + ss) == ItemOf(a) + ItemOf(b) + ItemsOf(ss)
    ensures SchemasOf([a, b] + ss, name) == Named(a.properties, name) + Named(b.properties, name) + SchemasOf(ss, name)
  {
    hide *;
    assert [a, b] + ss == [a] + ([b] + ss);
    PartsConcat([a], [b] + ss, name);
    PartsConcat([b], ss, name);
    PartsOfOne(a, name);
    PartsOfOne(b, name);
  }

  lemma OnePart(s: Schema, ss: seq<Schema>, name: string)
    ensures ItemsOf([s] + ss) == ItemOf(s) + ItemsOf(ss)
    ensures SchemasOf([s] + ss, name) == Named(s.properties, name) + SchemasOf(ss, name)
  {
    hide *;
    PartsConcat([s], ss, name);
    PartsOfOne(s, name);
  }

  lemma {:induction false} PartsLast(ss: seq<Schema>, name: string)
    requires AllLasting(ss)
    ensures AllLasting(ItemsOf(ss)) && AllLasting(SchemasOf(ss, name))
  {
    if ss != [] {
      assert ss[0] in ss && forall s :: s in ss[1..] ==> s in ss;
      PartsLast(ss[1..], name);
      NamedIs(ss[0].properties, name);
    }
  }

  // The schema a list of properties with distinct names has for a name.
  lemma OneNamed(s: Schema, name: string) returns (found: Option<Schema>)
    requires Lasting(s)
    ensures Named(s.properties, name) == if found.Some? then [found.value] else []
    ensures found.Some? ==> Lasting(found.value) && Size(found.value) < Size(s)
  {
    NamedIs(s.properties, name);
    var named := Named(s.properties, name);
    if named == [] {
      found := None;
    } else {
      NamedSize(s.properties, name);
      found := Some(named[0]);
      assert named == [named[0]];
    }
  }

  function Maybe(s: Option<Schema>): seq<Schema> {
    if s.Some? then [s.value] else []
  }

  ghost predicate MaybeLasting(s: Option<Schema>) {
    s.Some? ==> Lasting(s.value)
  }

  lemma {:induction false} SwapMaybe(a: Option<Schema>, b: Option<Schema>, ss: seq<Schema>)
    requires MaybeLasting(a) && MaybeLasting(b) && AllLasting(ss)
    requires AllCompatible(Maybe(a) + Maybe(b) + ss)
    ensures AllCompatible(Maybe(b) + Maybe(a) + ss)
    decreases ItemSize(a) + ItemSize(b), 1
  {
    if a.Some? && b.Some? {
      assert Maybe(a) + Maybe(b) == [a.value, b.value] && Maybe(b) + Maybe(a) == [b.value, a.value];
      Swap(a.value, b.value, ss);
    } else {
      hide AllCompatible;
      assert Maybe(a) + Maybe(b) == Maybe(b) + Maybe(a);
    }
  }

  // Only the first two change places.
  lemma {:induction false} Swap(a: Schema, b: Schema, ss: seq<Schema>)
    requires Lasting(a) && Lasting(b) && AllLasting(ss)
    requires AllCompatible([a, b] + ss)
    ensures AllCompatible([b, a] + ss)
    decreases Size(a) + Size(b), 0
  {
    assert PairsAgree([b, a] + ss) && EnumsMeet([b, a] + ss) by { SwapHere(a, b, ss); }
    hide PairsAgree, EnumsMeet, AllLasting;
    assert ItemsCompatible([b, a] + ss) by {
      TwoParts(a, b, ss, "");
      TwoParts(b, a, ss, "");
      PartsLast(ss, "");
      hide ItemsOf, SchemasOf, Named;
      SwapMaybe(a.item, b.item, ItemsOf(ss));
    }
    forall name
      ensures NameCompatible([b, a] + ss, name)
    {
      assert NameCompatible([a, b] + ss, name);
      TwoParts(a, b, ss, name);
      TwoParts(b, a, ss, name);
      PartsLast(ss, name);
      var na := OneNamed(a, name);
      var nb := OneNamed(b, name);
      hide ItemsOf, SchemasOf, Named, Lasting;
      SwapMaybe(na, nb, SchemasOf(ss, name));
    }
  }

  lemma SwapHere(a: Schema, b: Schema, ss: seq<Schema>)
    requires PairsAgree([a, b] + ss) && EnumsMeet([a, b] + ss)
    ensures PairsAgree([b, a] + ss) && EnumsMeet([b, a] + ss)
  {
    TwoPairs(a, b, ss);
    TwoPairs(b, a, ss);
    assert Agreeing(a, b) <==> Agreeing(b, a);
    hide PairsAgree, AgreesWith, Agreeing, Silent, Allows;
    var v :| AllAllow([a, b] + ss, v);
    assert AllAllow([b, a] + ss, v);
  }

  lemma SilentSkipped(s: Schema, ss: seq<Schema>)
    requires Lasting(s) && Silent(s)
    ensures AllCompatible([s] + ss) <==> AllCompatible(ss)
  {
    if ss == [] {
      assert [s] + ss == [s];
      Alone(s);
    } else {
      PairsSplit(s, ss);
      assert EnumsMeet([s] + ss) <==> EnumsMeet(ss) by {
        assert forall v :: AllAllow([s] + ss, v) <==> AllAllow(ss, v);
      }
      forall name
        ensures ItemsOf([s] + ss) == ItemsOf(ss) && SchemasOf([s] + ss, name) == SchemasOf(ss, name)
      {
        OnePart(s, ss, name);
      }
      OnePart(s, ss, "");
      hide PairsAgree, EnumsMeet, Silent, SchemasOf, ItemsOf, Lasting;
      assert ItemsCompatible([s] + ss) <==> ItemsCompatible(ss);
      assert forall name :: NameCompatible([s] + ss, name) <==> NameCompatible(ss, name);
    }
  }

  // ----- A merge of two stands for both -----

  ghost predicate AllLastingIn(ps: seq<Property>) {
    Distinct(ps) && forall p :: p in ps ==> Lasting(p.schema)
  }

  lemma LastingProperties(ps: seq<Property>)
    requires AllLastingIn(ps)
    ensures AllSimple(ps)
  {
    forall p | p in ps
      ensures Simple(p.schema)
    {
      LastingIsSimple(p.schema);
    }
  }

  lemma {:induction false} NamedFlagged(ps: seq<Property>, required: set<string>, name: string)
    ensures Named(Flagged(ps, required), name) == Named(ps, name)
  {
    if ps != [] {
      assert Flagged(ps, required)[1..] == Flagged(ps[1..], required);
      NamedFlagged(ps[1..], required, name);
    }
  }

  // What a and b, of one name, have become.
  ghost predicate BecameOne(a: seq<Schema>, b: seq<Schema>, r: seq<Schema>) {
    if a != [] && b != [] then Merge(b[0], a[0]).Ok? && r == [Merge(b[0], a[0]).value] else r == a + b
  }

  lemma AbsorbNamed(known: seq<Property>, p: Property, name: string)
    requires AllSimple(known) && Simple(p.schema) && Absorb(known, p).Ok?
    ensures AllSimple(Absorb(known, p).value)
    ensures BecameOne(Named(known, name), if p.name == name then [p.schema] else [], Named(Absorb(known, p).value, name))
  {
    var now := Absorb(known, p).value;
    hide Simple, Merge, Named;
    AbsorbSucceeds(known, p);
    NamedIs(known, name);
    NamedIs(now, name);
    if p.name == name {
      var found := LastIndex(known, name);
      if found.None? {
        assert p in now;
      } else {
        assert known[found.value] in known && now[found.value] in now;
      }
    } else {
      hide Absorb;
      if Named(known, name) != [] {
        var q :| q in known && q.name == name && q.schema == Named(known, name)[0];
        assert q in now;
      }
    }
  }

  lemma {:induction false} IntoNamed(known: seq<Property>, ps: seq<Property>, name: string)
    requires AllSimple(known) && AllSimple(ps) && MergeInto(known, ps).Ok?
    ensures AllSimple(MergeInto(known, ps).value)
    ensures BecameOne(Named(known, name), Named(ps, name), Named(MergeInto(known, ps).value, name))
    decreases ps
  {
    NamedIs(known, name);
    NamedIs(ps, name);
    if ps != [] {
      assert ps[0] in ps && forall p :: p in ps[1..] ==> p in ps;
      AbsorbNamed(known, ps[0], name);
      assert Distinct(ps[1..]);
      NamedIs(ps[1..], name);
      hide Absorb, Simple, Merge, Distinct;
      IntoNamed(Absorb(known, ps[0]).value, ps[1..], name);
    }
  }

  // The keywords of a merge are at odds with what those of one of the two are at odds with.
  lemma CombinedAgrees(a: Schema, b: Schema, r: Schema, ss: seq<Schema>)
    requires Combined(a, b, r) && !Silent(a) && !Silent(b) && !Silent(r)
    ensures AgreesWith(r, ss) <==> AgreesWith(a, ss) && AgreesWith(b, ss)
    ensures Agreeing(a, b)
  {
    hide MergeItems, MergeInto, Silent, MergeEnums, Flagged;
    forall t
      ensures Agreeing(r, t) <==> Agreeing(a, t) && Agreeing(b, t)
    {
    }
    hide Agreeing, Combined;
  }

  lemma CombinedAllows(a: Schema, b: Schema, r: Schema, ss: seq<Schema>)
    requires Combined(a, b, r)
    ensures EnumsMeet([r] + ss) <==> EnumsMeet([a, b] + ss)
  {
    MergeEnumsIsIntersection(a.scalars.enum, b.scalars.enum);
    hide MergeItems, MergeInto, MergeEnums, MergeSums, Flagged;
    forall v
      ensures AllAllow([r] + ss, v) <==> AllAllow([a, b] + ss, v)
    {
      assert Allows(r, v) <==> Allows(a, v) && Allows(b, v);
      hide Allows, Combined;
      assert forall x :: x in [r] + ss <==> x == r || x in ss;
      assert forall x :: x in [a, b] + ss <==> x == a || x == b || x in ss;
    }
  }

  lemma IntoGrows(known: seq<Property>, ps: seq<Property>)
    requires MergeInto(known, ps).Ok?
    ensures |MergeInto(known, ps).value| >= |known|
    ensures known == [] && ps != [] ==> MergeInto(known, ps).value != []
    decreases ps
  {
    hide Merge;
    if ps != [] { IntoGrows(Absorb(known, ps[0]).value, ps[1..]); }
  }

  // Whatever made a lasting schema speak is still there in a merge with another.
  lemma CombinedSpeaks(a: Schema, b: Schema, r: Schema)
    requires Combined(a, b, r) && Lasting(a) && !Silent(a)
    ensures !Silent(r)
  {
    IntoGrows(a.properties, b.properties);
    if MergeScalars(a.scalars, b.scalars).value == NO_SCALARS { ScalarsSpeak(a.scalars, b.scalars); }
    hide MergeInto, Merge, MergeScalars;
  }

  lemma NothingEnumerated(a: seq<Json>, b: seq<Json>)
    ensures MergeEnums(a, b) == Ok([]) ==> a == []
  {
    hide Keep;
  }

  lemma ScalarsSpeak(a: Scalars, b: Scalars)
    requires MergeScalars(a, b) == Ok(NO_SCALARS)
    ensures a.(exclusiveMaximum := false) == NO_SCALARS
  {
    assert a.enum == [] by { NothingEnumerated(a.enum, b.enum); }
    hide MergeEnums;
  }

  lemma CombinedParts(a: Schema, b: Schema, r: Schema, name: string)
    requires Combined(a, b, r) && Lasting(a) && Lasting(b)
    ensures Distinct(r.properties)
    ensures BecameOne(Named(a.properties, name), Named(b.properties, name), Named(r.properties, name))
    ensures MergeItems(a.item, b.item) == Ok(r.item)
  {
    var merged := MergeInto(a.properties, b.properties).value;
    assert AllSimple(a.properties) && AllSimple(b.properties) by {
      LastingProperties(a.properties);
      LastingProperties(b.properties);
    }
    IntoNamed(a.properties, b.properties, name);
    NamedFlagged(merged, RequiredNames(a, b), name);
    hide MergeInto, MergeItems, MergeScalars, MergeSums, BecameOne, Named;
  }

  lemma {:induction false} MaybeStands(a: Option<Schema>, b: Option<Schema>, r: Option<Schema>, ss: seq<Schema>)
    requires MaybeLasting(a) && MaybeLasting(b) && AllLasting(ss)
    requires MergeItems(a, b) == Ok(r)
    ensures MaybeLasting(r)
    ensures AllCompatible(Maybe(r) + ss) <==> AllCompatible(Maybe(a) + Maybe(b) + ss)
    decreases ItemSize(a) + ItemSize(b), 4
  {
    if a.Some? && b.Some? {
      assert Maybe(a) + Maybe(b) == [a.value, b.value] && Maybe(r) == [r.value];
      hide Merge;
      Stands(a.value, b.value, r.value, ss);
    } else {
      hide AllCompatible;
      assert Maybe(r) == Maybe(a) + Maybe(b);
    }
  }

  // A merged property stands for both: it is merged the other way round.
  lemma {:induction false} NameStands(a: Schema, b: Schema, r: Schema, ss: seq<Schema>, name: string)
    requires Combined(a, b, r) && Lasting(a) && Lasting(b) && AllLasting(ss)
    ensures AllLasting(Named(r.properties, name))
    ensures NameCompatible([r] + ss, name) <==> NameCompatible([a, b] + ss, name)
    decreases Size(a) + Size(b), 1
  {
    CombinedParts(a, b, r, name);
    TwoParts(a, b, ss, name);
    OnePart(r, ss, name);
    PartsLast(ss, name);
    var na := OneNamed(a, name);
    var nb := OneNamed(b, name);
    var rest := SchemasOf(ss, name);
    hide Combined, Named, SchemasOf, Lasting, AllCompatible;
    var nr: Option<Schema> := if na.Some? && nb.Some? then Some(Merge(nb.value, na.value).value) else if na.Some? then na else nb;
    assert MergeItems(nb, na) == Ok(nr) && Maybe(nr) == Named(r.properties, name) by { hide Merge; }
    hide MergeItems;
    MaybeStands(nb, na, nr, rest);
    Swapped(na, nb, rest);
  }

  lemma Swapped(a: Option<Schema>, b: Option<Schema>, ss: seq<Schema>)
    requires MaybeLasting(a) && MaybeLasting(b) && AllLasting(ss)
    ensures AllCompatible(Maybe(a) + Maybe(b) + ss) <==> AllCompatible(Maybe(b) + Maybe(a) + ss)
  {
    hide AllCompatible, Lasting;
    if AllCompatible(Maybe(a) + Maybe(b) + ss) { SwapMaybe(a, b, ss); }
    if AllCompatible(Maybe(b) + Maybe(a) + ss) { SwapMaybe(b, a, ss); }
  }

  lemma {:induction false} SpeakingStands(a: Schema, b: Schema, r: Schema, ss: seq<Schema>)
    requires Combined(a, b, r) && Lasting(a) && Lasting(b) && AllLasting(ss)
    requires !Silent(a) && !Silent(b)
    ensures Lasting(r)
    ensures AllCompatible([r] + ss) <==> AllCompatible([a, b] + ss)
    decreases Size(a) + Size(b), 2
  {
    CombinedSpeaks(a, b, r);
    assert PairsAgree([r] + ss) <==> PairsAgree([a, b] + ss) by {
      hide PairsAgree, AgreesWith, Agreeing, Silent, Combined, Lasting;
      CombinedAgrees(a, b, r, ss);
      PairsSplit(r, ss);
      TwoPairs(a, b, ss);
    }
    CombinedAllows(a, b, r, ss);
    forall name
      ensures AllLasting(Named(r.properties, name))
      ensures NameCompatible([r] + ss, name) <==> NameCompatible([a, b] + ss, name)
    {
      NameStands(a, b, r, ss, name);
    }
    assert (r.item.Some? ==> Lasting(r.item.value)) && (ItemsCompatible([r] + ss) <==> ItemsCompatible([a, b] + ss)) by {
      CombinedParts(a, b, r, "");
      TwoParts(a, b, ss, "");
      OnePart(r, ss, "");
      PartsLast(ss, "");
      hide Combined, AllCompatible, MergeItems;
      MaybeStands(a.item, b.item, r.item, ItemsOf(ss));
    }
    CombinedLasts(a, b, r);
    hide PairsAgree, EnumsMeet, ItemsCompatible, NameCompatible, Lasting, Combined, Silent;
  }

  lemma CombinedLasts(a: Schema, b: Schema, r: Schema)
    requires Combined(a, b, r) && Lasting(a) && Lasting(b) && !Silent(r)
    requires r.item.Some? ==> Lasting(r.item.value)
    requires forall name :: AllLasting(Named(r.properties, name))
    ensures Lasting(r)
  {
    assert Distinct(r.properties) by { CombinedParts(a, b, r, ""); }
    NothingDropped(a, b, r);
    hide Combined, Silent;
    forall p | p in r.properties
      ensures Lasting(p.schema)
    {
      NamedIs(r.properties, p.name);
      assert AllLasting(Named(r.properties, p.name));
      hide Named, Lasting;
      assert p.schema in Named(r.properties, p.name);
    }
  }

  lemma NothingDropped(a: Schema, b: Schema, r: Schema)
    requires Combined(a, b, r)
    ensures r == r.(required := [], xml := None, scalars := r.scalars.(exclusiveMaximum := false))
    ensures r.allOf == [] && r.items == [] && r.additionalProperties.None?
  {
    hide MergeItems, MergeInto, MergeSums, MergeEnums, Flagged;
  }

  // The merge of two stands for both, whatever follows.
  lemma {:induction false} Stands(a: Schema, b: Schema, r: Schema, ss: seq<Schema>)
    requires Lasting(a) && Lasting(b) && AllLasting(ss)
    requires Merge(a, b) == Ok(r)
    ensures Lasting(r)
    ensures AllCompatible([r] + ss) <==> AllCompatible([a, b] + ss)
    decreases Size(a) + Size(b), 3
  {
    assert a.allOf == b.allOf == [];
    SilentIs(a);
    SilentIs(b);
    IsPlain(a, b);
    hide Lasting, Silent, AllCompatible, Combined, Merge, ContainsValidators;
    if !Silent(a) && !Silent(b) {
      assert Combined(a, b, r) by { Parts(a, b); }
      SpeakingStands(a, b, r, ss);
    } else {
      SilentStands(a, b, r, ss);
    }
  }

  lemma Parts(a: Schema, b: Schema)
    requires Lasting(a) && Lasting(b) && ContainsValidators(a) == ContainsValidators(b) && MergePlain(a, b).Ok?
    ensures Combined(a, b, MergePlain(a, b).value)
  {
    assert a.items == b.items == [] && a.additionalProperties == b.additionalProperties == None;
    hide Lasting, Combined, MergePlain, ContainsValidators;
    MergedParts(a, b);
  }

  lemma SilentStands(a: Schema, b: Schema, r: Schema, ss: seq<Schema>)
    requires Lasting(a) && Lasting(b) && AllLasting(ss) && (Silent(a) || Silent(b))
    requires MergePlain(a, b) == Ok(r)
    ensures Lasting(r)
    ensures AllCompatible([r] + ss) <==> AllCompatible([a, b] + ss)
  {
    assert a.allOf == b.allOf == [];
    hide Lasting, Silent, AllCompatible, MergePlain, ContainsValidators;
    SilentIs(a);
    SilentIs(b);
    if Silent(a) {
      SilentFirst(a, b, ss);
      if Silent(b) {
        TwoSilent(a, b);
        SilentSkipped(r, ss);
        SilentSkipped(b, ss);
      } else {
        OneSilent(a, b);
      }
    } else {
      OneSilent(a, b);
      SilentSecond(a, b, ss);
    }
  }

  lemma SilentFirst(a: Schema, b: Schema, ss: seq<Schema>)
    requires Lasting(a) && Silent(a)
    ensures AllCompatible([a, b] + ss) <==> AllCompatible([b] + ss)
  {
    hide *;
    assert [a, b] + ss == [a] + ([b] + ss);
    SilentSkipped(a, [b] + ss);
  }

  lemma SilentSecond(a: Schema, b: Schema, ss: seq<Schema>)
    requires Lasting(a) && Lasting(b) && AllLasting(ss) && Silent(b)
    ensures AllCompatible([a, b] + ss) <==> AllCompatible([a] + ss)
  {
    hide *;
    SilentFirst(b, a, ss);
    if AllCompatible([a, b] + ss) { Swap(a, b, ss); }
    if AllCompatible([b, a] + ss) { Swap(b, a, ss); }
  }

  lemma TwoSilent(a: Schema, b: Schema)
    requires Silent(a) && Silent(b) && MergePlain(a, b).Ok?
    ensures Lasting(MergePlain(a, b).value) && Silent(MergePlain(a, b).value)
  {
    SilentIs(a);
    SilentIs(b);
    MergedParts(a, b);
    assert MergeInto([], []) == Ok([]);
  }

  // ----- When a list merges -----

  lemma FirstAgree(a: Schema, b: Schema, ss: seq<Schema>)
    requires PairsAgree([a, b] + ss) && EnumsMeet([a, b] + ss) && !Silent(a) && !Silent(b)
    ensures ScalarsCompatible(a.scalars, b.scalars) && Agreeing(a, b)
  {
    var all := [a, b] + ss;
    assert all[0] == a && all[1] == b && a in all && b in all;
    hide Silent;
    var v :| AllAllow(all, v);
    assert Allows(a, v) && Allows(b, v);
  }

  lemma {:induction false} FirstTwo(a: Schema, b: Schema, ss: seq<Schema>)
    requires Lasting(a) && Lasting(b)
    requires AllCompatible([a, b] + ss)
    ensures Compatible(a, b)
    decreases a
  {
    if !Silent(a) && !Silent(b) {
      FirstAgree(a, b, ss);
      hide PairsAgree, EnumsMeet, Silent, ScalarsCompatible;
      assert a.item.Some? && b.item.Some? ==> Compatible(a.item.value, b.item.value) by {
        if a.item.Some? && b.item.Some? {
          TwoParts(a, b, ss, "");
          assert ItemOf(a) + ItemOf(b) == [a.item.value, b.item.value];
          hide Compatible;
          FirstTwo(a.item.value, b.item.value, ItemsOf(ss));
        }
      }
      forall p, q | p in a.properties && q in b.properties && p.name == q.name
        ensures Compatible(p.schema, q.schema)
      {
        FirstOfName(a, b, ss, p, q);
        hide Compatible, AllCompatible;
        FirstTwo(p.schema, q.schema, SchemasOf(ss, p.name));
      }
      hide AllCompatible, Lasting;
    }
  }

  lemma OfName(ss: seq<Schema>, name: string)
    requires ss != [] && AllCompatible(ss)
    ensures AllCompatible(SchemasOf(ss, name))
  {
    assert NameCompatible(ss, name);
    hide PairsAgree, EnumsMeet, ItemsCompatible, SchemasOf;
  }

  lemma FirstOfName(a: Schema, b: Schema, ss: seq<Schema>, p: Property, q: Property)
    requires Lasting(a) && Lasting(b) && AllCompatible([a, b] + ss)
    requires p in a.properties && q in b.properties && p.name == q.name
    ensures AllCompatible([p.schema, q.schema] + SchemasOf(ss, p.name))
  {
    hide AllCompatible, Named, ItemsOf, SchemasOf;
    OfName([a, b] + ss, p.name);
    TwoParts(a, b, ss, p.name);
    NamedIs(a.properties, p.name);
    NamedIs(b.properties, p.name);
    hide Lasting, Distinct;
    assert [p.schema] + [q.schema] == [p.schema, q.schema];
  }

  // Main theorem: a list merges if and only if nothing in it is at odds.
  lemma {:induction false} MergeAllSucceeds(ss: seq<Schema>)
    requires ss != [] && AllLasting(ss)
    ensures MergeAll(ss).Ok? <==> AllCompatible(ss)
    ensures MergeAll(ss).Ok? ==> Lasting(MergeAll(ss).value)
    decreases |ss|
  {
    hide AllCompatible, Lasting, Merge;
    if |ss| == 1 {
      assert ss == [ss[0]];
      Alone(ss[0]);
    } else {
      assert ss == [ss[0], ss[1]] + ss[2..];
      LastingIsSimple(ss[0]);
      LastingIsSimple(ss[1]);
      MergeSucceeds(ss[0], ss[1]);
      if Merge(ss[0], ss[1]).Ok? {
        var root := Merge(ss[0], ss[1]).value;
        Stands(ss[0], ss[1], root, ss[2..]);
        MergeAllSucceeds([root] + ss[2..]);
      } else if AllCompatible(ss) {
        FirstTwo(ss[0], ss[1], ss[2..]);
      }
    }
  }

  // ----- Schemas that are allOf lists themselves -----

  // What a schema brings to a merge: its allOf list, or itself.
  function Brought(s: Schema): (ss: seq<Schema>)
    ensures ss != []
  {
    if s.allOf == [] then [s] else s.allOf
  }

  lemma {:induction false} MergeAllStands(ss: seq<Schema>, rest: seq<Schema>)
    requires ss != [] && AllLasting(ss) && AllLasting(rest) && MergeAll(ss).Ok?
    ensures Lasting(MergeAll(ss).value)
    ensures AllCompatible([MergeAll(ss).value] + rest) <==> AllCompatible(ss + rest)
    decreases |ss|
  {
    hide AllCompatible, Lasting, Merge;
    if |ss| == 1 {
      assert ss == [ss[0]];
    } else {
      var root := Merge(ss[0], ss[1]).value;
      assert [ss[0], ss[1]] + (ss[2..] + rest) == ss + rest && [root] + (ss[2..] + rest) == [root] + ss[2..] + rest;
      Stands(ss[0], ss[1], root, ss[2..] + rest);
      MergeAllStands([root] + ss[2..], rest);
    }
  }

  // The first may as well come last.
  lemma {:induction false} Rotate(s: Schema, ss: seq<Schema>)
    requires Lasting(s) && AllLasting(ss)
    ensures AllCompatible([s] + ss) <==> AllCompatible(ss + [s])
    decreases Size(s), 0
  {
    assert (PairsAgree([s] + ss) <==> PairsAgree(ss + [s])) && (EnumsMeet([s] + ss) <==> EnumsMeet(ss + [s])) by {
      hide *;
      RotatePairs(s, ss);
      RotateEnums(s, ss);
    }
    hide PairsAgree, EnumsMeet, AllLasting;
    assert ItemsCompatible([s] + ss) <==> ItemsCompatible(ss + [s]) by {
      OnePart(s, ss, "");
      PartsConcat(ss, [s], "");
      PartsOfOne(s, "");
      PartsLast(ss, "");
      hide ItemsOf, SchemasOf, Named;
      RotateMaybe(s.item, ItemsOf(ss));
    }
    forall name
      ensures NameCompatible([s] + ss, name) <==> NameCompatible(ss + [s], name)
    {
      OnePart(s, ss, name);
      PartsConcat(ss, [s], name);
      PartsOfOne(s, name);
      PartsLast(ss, name);
      var named := OneNamed(s, name);
      hide ItemsOf, SchemasOf, Named, Lasting;
      RotateMaybe(named, SchemasOf(ss, name));
    }
    hide ItemsCompatible, NameCompatible;
  }

  lemma {:induction false} RotateMaybe(s: Option<Schema>, ss: seq<Schema>)
    requires MaybeLasting(s) && AllLasting(ss)
    ensures AllCompatible(Maybe(s) + ss) <==> AllCompatible(ss + Maybe(s))
    decreases ItemSize(s), 1
  {
    if s.Some? {
      Rotate(s.value, ss);
    } else {
      hide AllCompatible;
      assert Maybe(s) + ss == ss + Maybe(s);
    }
  }

  lemma RotatePairs(s: Schema, ss: seq<Schema>)
    ensures PairsAgree([s] + ss) <==> PairsAgree(ss + [s])
  {
    PairsSplit(s, ss);
    var last := ss + [s];
    assert forall a, b :: Agreeing(a, b) <==> Agreeing(b, a);
    hide Agreeing, Silent;
    assert forall i :: 0 <= i < |ss| ==> last[i] == ss[i];
    if PairsAgree(last) {
      forall t | t in ss && !Silent(s) && !Silent(t)
        ensures Agreeing(s, t)
      {
        var i :| 0 <= i < |ss| && ss[i] == t;
        assert Agreeing(last[i], last[|ss|]);
      }
    }
  }

  lemma RotateEnums(s: Schema, ss: seq<Schema>)
    ensures EnumsMeet([s] + ss) <==> EnumsMeet(ss + [s])
  {
    hide Allows;
    assert forall v :: AllAllow([s] + ss, v) <==> AllAllow(ss + [s], v);
  }

  // Main theorem for a merge of schemas with allOf: it succeeds if and only if nothing is at odds in both lists
  // together. What stands beside a list is dropped and cannot be at odds with anything.
  lemma NestedSucceeds(s1: Schema, s2: Schema)
    requires AllLasting(Brought(s1)) && AllLasting(Brought(s2))
    ensures Merge(s1, s2).Ok? <==> AllCompatible(Brought(s1) + Brought(s2))
  {
    var b1, b2 := Brought(s1), Brought(s2);
    MergeAllSucceeds(b1);
    MergeAllSucceeds(b2);
    LastingBoth(b1, b2);
    MergeAllSucceeds(b1 + b2);
    MergeBrought(s1, s2);
    hide *;
    if MergeAll(b1).Ok? && MergeAll(b2).Ok? {
      var r1, r2 := MergeAll(b1).value, MergeAll(b2).value;
      MergeAllStands(b1, b2);
      Rotate(r1, b2);
      LastingOne(r1);
      MergeAllStands(b2, [r1]);
      Rotate(r2, [r1]);
      PairSucceeds(r1, r2);
    } else {
      FoldedPrefix(b1, b2);
      if MergeAll(b1).Ok? {
        MergeAllStands(b1, b2);
        Rotate(MergeAll(b1).value, b2);
        LastingOne(MergeAll(b1).value);
        LastingBoth(b2, [MergeAll(b1).value]);
        MergeAllSucceeds(b2 + [MergeAll(b1).value]);
        FoldedPrefix(b2, [MergeAll(b1).value]);
      }
    }
  }

  lemma LastingBoth(a: seq<Schema>, b: seq<Schema>)
    requires AllLasting(a) && AllLasting(b)
    ensures AllLasting(a + b)
  {
    hide Lasting;
  }

  lemma LastingOne(s: Schema)
    requires Lasting(s)
    ensures AllLasting([s])
  {
  }

  lemma MergeBrought(s1: Schema, s2: Schema)
    ensures Merge(s1, s2).Ok? <==>
            MergeAll(Brought(s1)).Ok? && MergeAll(Brought(s2)).Ok? &&
            MergePlain(MergeAll(Brought(s1)).value, MergeAll(Brought(s2)).value).Ok?
  {
    hide MergePlain;
  }

  lemma PairSucceeds(a: Schema, b: Schema)
    requires Lasting(a) && Lasting(b)
    ensures MergePlain(a, b).Ok? <==> AllCompatible([a] + [b])
  {
    assert a.allOf == b.allOf == [] && [a] + [b] == [a, b] + [];
    hide AllCompatible, Lasting, MergePlain, Merge;
    IsPlain(a, b);
    LastingIsSimple(a);
    LastingIsSimple(b);
    MergeSucceeds(a, b);
    if Merge(a, b).Ok? {
      Stands(a, b, Merge(a, b).value, []);
      Alone(Merge(a, b).value);
      assert [Merge(a, b).value] + [] == [Merge(a, b).value];
    } else if AllCompatible([a, b] + []) {
      FirstTwo(a, b, []);
    }
  }

  // A list that merges does so step by step: its front merges.
  lemma {:induction false} FoldedPrefix(a: seq<Schema>, b: seq<Schema>)
    requires a != []
    ensures MergeAll(a + b).Ok? ==> MergeAll(a).Ok?
    decreases |a|
  {
    hide Merge;
    if |a| > 1 && Merge(a[0], a[1]).Ok? {
      var root := Merge(a[0], a[1]).value;
      assert (a + b)[0] == a[0] && (a + b)[1] == a[1] && (a + b)[2..] == a[2..] + b && [root] + (a[2..] + b) == ([root] + a[2..]) + b;
      FoldedPrefix([root] + a[2..], b);
    }
  }

  // ----- When a schema flattens -----

  // Nothing stands beside allOf but a type and a nullable flag.
  predicate OnlyTyped(parent: Schema) {
    parent == EMPTY.(nullable := parent.nullable, scalars := NO_SCALARS.(typ := parent.scalars.typ))
  }

  // What is merged: the members of allOf, then the schema around them if it says more.
  function Merged(s: Schema): seq<Schema> {
    var parent := s.(allOf := []);
    s.allOf + if OnlyTyped(parent) then [] else [parent]
  }

  lemma SiblingsAre(parent: Schema)
    requires parent.allOf == []
    ensures HasSiblingConstraints(parent) <==> !OnlyTyped(parent)
  {
  }

  // Main theorem: a schema flattens if and only if it has no allOf, or one member and nothing beside it, or
  // nothing is at odds in what is merged.
  lemma {:induction false} FlattenSucceeds(s: Schema)
    requires AllLasting(Merged(s))
    ensures Flatten(s).Ok? <==> s.allOf == [] || |Merged(s)| == 1 || AllCompatible(Merged(s))
  {
    SiblingsAre(s.(allOf := []));
    hide HasSiblingConstraints, OnlyTyped, AllCompatible, Lasting, MergeAll;
    if s.allOf != [] { MergeAllSucceeds(Merged(s)); }
  }

  // With tuples and additional properties a merge may lose what a later schema would be at odds with: then the
  // condition goes step by step.
  ghost predicate Folds(ss: seq<Schema>)
    requires ss != [] && forall s :: s in ss ==> Simple(s)
    decreases |ss|
  {
    || |ss| == 1
    || (&& Compatible(ss[0], ss[1])
        && (MergeSucceeds(ss[0], ss[1]);
            Folds([Merge(ss[0], ss[1]).value] + ss[2..])))
  }

  lemma {:induction false} MergeAllFolds(ss: seq<Schema>)
    requires ss != [] && forall s :: s in ss ==> Simple(s)
    ensures MergeAll(ss).Ok? <==> Folds(ss)
    decreases |ss|
  {
    hide Compatible, Simple, Merge;
    if |ss| > 1 {
      MergeSucceeds(ss[0], ss[1]);
      if Compatible(ss[0], ss[1]) { MergeAllFolds([Merge(ss[0], ss[1]).value] + ss[2..]); }
    }
  }

  // With one more schema beside the first, nothing more than a pair can be at odds.
  lemma {:induction false} SimpleFlattens(s: Schema)
    requires forall t :: t in Merged(s) ==> Simple(t)
    ensures Flatten(s).Ok? <==> s.allOf == [] || Folds(Merged(s))
    ensures |Merged(s)| == 2 && s.allOf != [] ==> (Flatten(s).Ok? <==> Compatible(Merged(s)[0], Merged(s)[1]))
  {
    SiblingsAre(s.(allOf := []));
    hide HasSiblingConstraints, OnlyTyped, Compatible, Simple, MergeAll, Merge;
    if s.allOf != [] { MergeAllFolds(Merged(s)); }
  }

  // What flattening does to the annotations: the merge goes first, the schema around it fills in.
  lemma FlattenAnnotations(s: Schema)
    requires s.allOf != [] && Flatten(s).Ok?
    ensures |Merged(s)| == 1 ==>
              && Flatten(s).value.xml == s.allOf[0].xml && Flatten(s).value.extensions == s.allOf[0].extensions
              && Flatten(s).value.scalars.dflt == s.allOf[0].scalars.dflt
    ensures |Merged(s)| > 1 && MergeAll(Merged(s)).Ok? ==>
              var m := MergeAll(Merged(s)).value;
              && Flatten(s).value.xml == (if m.xml.Some? then m.xml else s.xml)
              && Flatten(s).value.extensions == (if m.extensions != [] then m.extensions else s.extensions)
              && Flatten(s).value.scalars.dflt == m.scalars.dflt
              && Flatten(s).value.scalars.discriminator == m.scalars.discriminator
  {
    SiblingsAre(s.(allOf := []));
    hide HasSiblingConstraints, OnlyTyped, MergeAll;
  }
}
