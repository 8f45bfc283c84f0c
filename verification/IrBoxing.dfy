/**
Putting pointers where a struct would hold itself by value: boxType and checkStructRecursions
(internal/lowering/generics.go).
 */
module IrBoxing {
  import opened Wrappers
  import opened Graphs
  import opened IrTypes
  import opened IrRecursion

  // Infinite recursion through a required field, no name for a wrapper, or a panic of the walk.
  datatype Error = InfiniteRecursion | NoName | WalkPanic

  predicate OnlyOptional(v: GenericVariant) {
    v.optional && !v.nullable
  }

  predicate OnlyNullable(v: GenericVariant) {
    v.nullable && !v.optional
  }

  // Following aliases comes to an end; otherwise CanGeneric would not.
  ghost predicate AliasesEnd(g: Graph<Type>, depth: map<Type, nat>) {
    forall t :: t in g && t.kind.Alias? ==>
      && t in depth && t.aliasTo != null
      && (t.aliasTo.kind.Alias? ==> t.aliasTo in g && t.aliasTo in depth && depth[t.aliasTo] < depth[t])
  }

  predicate CanGeneric(t: Type, ghost g: Graph<Type>, ghost depth: map<Type, nat>)
    requires AliasesEnd(g, depth) && (t.kind.Alias? ==> t in g)
    decreases if t.kind.Alias? then depth[t] + 1 else 0
  {
    if t.kind.Alias? then CanGeneric(t.aliasTo, g, depth)
    else
      && !(t.kind.Struct? && t.fields == [])
      && !(t.kind.Sum? && t.sumOf == [])
      && t.kind in {Primitive, Enum, Struct, Map, Sum}
  }

  function Dealiased(t: Type): Type {
    if t.kind.Alias? && t.aliasTo != null then t.aliasTo else t
  }

  // Types whose nil already is a value to spare.
  predicate Nilable(t: Type) {
    Dealiased(t).kind.Array? || Dealiased(t).primitive.ByteSlice?
  }

  predicate IsPointer(b: Type, to: Type, sem: NilSemantic)
    reads b`nilSemantic
  {
    b.kind.Pointer? && b.pointerTo == to && b.nilSemantic == sem
  }

  predicate IsGeneric(b: Type, of: Type, v: GenericVariant) {
    b.kind.Generic? && b.genericOf == of && b.genericVariant == v
  }

  const OPTIONAL := GenericVariant(false, true)

  // What boxType makes of a type: a wrapper for exactly the absences v asks for.
  ghost predicate Boxes(b: Type, t: Type, v: GenericVariant, generic: bool)
    reads b`nilSemantic, if b.genericOf == null then {} else {b.genericOf}`nilSemantic
  {
    if generic then IsGeneric(b, t, v)
    else if OnlyOptional(v) then IsPointer(b, t, NilOptional)
    else if OnlyNullable(v) then IsPointer(b, t, NilNull)
    else b.kind.Generic? && b.genericVariant == OPTIONAL && b.genericOf != null && IsPointer(b.genericOf, t, NilNull)
  }

  // boxType; `names` has the postfixes that can be made into a name.
  method BoxType(t: Type, variant: GenericVariant, names: map<Type, string>, ghost g: Graph<Type>, ghost depth: map<Type, nat>)
    returns (r: Result<Type, Error>)
    requires AliasesEnd(g, depth) && (t.kind.Alias? ==> t in g)
    modifies if Nilable(t) then {t, Dealiased(t)} else {}
    ensures r.Err? ==> r.error == NoName && t !in names
    ensures r.Ok? ==> r.value == t || fresh(r.value)
    ensures var d := Dealiased(t);
            var v := if d.primitive.Null? then variant.(nullable := false) else variant;
            r.Ok? ==>
              if d.kind.Any? || d.kind.Stream? || variant == GenericVariant(false, false) then r.value == t
              else if d.primitive.Null? && OnlyNullable(variant) then r.value == t
              else if Nilable(t) && OnlyOptional(v) then r.value == t && t.nilSemantic == d.nilSemantic == NilOptional
              else if Nilable(t) && OnlyNullable(v) then r.value == t && t.nilSemantic == d.nilSemantic == NilNull
              else Boxes(r.value, t, v, Nilable(t) || CanGeneric(t, g, depth))
  {
    var v := variant;
    var dealiased := t;
    if t.kind.Alias? {
      dealiased := t.aliasTo;
    }
    if dealiased.kind.Any? || dealiased.kind.Stream? || !(v.nullable || v.optional) {
      return Ok(t);
    }
    if dealiased.primitive.Null? {
      if OnlyNullable(v) {
        return Ok(t);
      }
      v := v.(nullable := false);
    }
    if dealiased.kind.Array? || dealiased.primitive.ByteSlice? {
      if OnlyOptional(v) {
        t.nilSemantic := NilOptional;
      } else if OnlyNullable(v) {
        t.nilSemantic := NilNull;
      } else {
        if t !in names {
          return Err(NoName);
        }
        var b := new Type.GenericOver(t, v);
        return Ok(b);
      }
      dealiased.nilSemantic := t.nilSemantic;
      return Ok(t);
    }
    if CanGeneric(t, g, depth) {
      if t !in names {
        return Err(NoName);
      }
      var b := new Type.GenericOver(t, v);
      return Ok(b);
    }
    if OnlyOptional(v) {
      var b := new Type.PointerTo(t, NilOptional);
      return Ok(b);
    } else if OnlyNullable(v) {
      var b := new Type.PointerTo(t, NilNull);
      return Ok(b);
    } else {
      if t !in names {
        return Err(NoName);
      }
      var p := new Type.PointerTo(t, NilNull);
      var b := new Type.GenericOver(p, OPTIONAL);
      return Ok(b);
    }
  }

  // ----- checkStructRecursions -----

  function Unheld(types: seq<Type>): seq<Type> {
    if types == [] then []
    else (if Held(types[0].kind) then [] else [types[0]]) + Unheld(types[1..])
  }

  lemma {:induction false} UnheldHas(types: seq<Type>, c: Type)
    ensures c in Unheld(types) <==> c in types && !Held(c.kind)
  {
    if types != [] {
      UnheldHas(types[1..], c);
    }
  }

  ghost function Prune(parts: map<Type, seq<Type>>): Graph<Type> {
    map t | t in parts :: Unheld(parts[t])
  }

  // Parts that only lose types, but for some that hold none, make a graph that only loses edges.
  lemma PruneShrinks(g: Graph<Type>, was: map<Type, seq<Type>>, now: map<Type, seq<Type>>)
    requires FlatIn(g, was) && now.Keys == g.Keys
    requires forall u: Type, c: Type :: u in now && c in now[u] && !Held(c.kind) ==> c in was[u]
    ensures FlatIn(Prune(now), now) && Shrinks(g, Prune(now)) && Prune(now).Keys == g.Keys
  {
    hide Unheld;
    var h := Prune(now);
    forall u: Type, c: Type | u in h && c in h[u]
      ensures c in now[u] && c in g[u]
    {
      UnheldHas(now[u], c);
      assert c in was[u];
    }
    forall u: Type, c: Type | u in h && c in now[u] && !Held(c.kind)
      ensures c in h[u]
    {
      UnheldHas(now[u], c);
    }
  }

  twostate lemma PartsShrink(u: Type, new c: Type)
    requires forall f :: f in u.fields ==> f.typ == old(f.typ) || Held(f.typ.kind)
    requires c in ByValue(u) && !Held(c.kind)
    ensures c in old(ByValue(u))
  {
    if u.kind.Struct? {
      var i :| 0 <= i < |u.fields| && u.fields[i].typ == c;
      assert u.fields[i] in u.fields;
      assert old(FieldTypes(u.fields))[i] == c;
    }
  }

  // Replacing the types of fields by pointers takes edges away and adds none.
  twostate lemma BoxingShrinks(g: Graph<Type>) returns (h: Graph<Type>)
    requires old(Flat(g))
    requires forall f :: f in FieldsOf(g.Keys) ==> f.typ == old(f.typ) || Held(f.typ.kind)
    ensures Flat(h) && Shrinks(g, h) && h.Keys == g.Keys
  {
    hide FlatIn, Prune;
    var was, now := old(PartsOf(g.Keys)), PartsOf(g.Keys);
    forall u: Type, c: Type | u in now && c in now[u] && !Held(c.kind)
      ensures c in was[u]
    {
      assert forall f :: f in u.fields ==> f in FieldsOf(g.Keys);
      PartsShrink(u, c);
    }
    PruneShrinks(g, was, now);
    h := Prune(now);
  }

  // No by-value walk from t leads to s.
  ghost predicate NotInto(g: Graph<Type>, s: Type, t: Type) {
    !Held(t.kind) ==> t in g && !Reaches(g, t, s, {})
  }

  // No by-value walk that leaves s through a spec'd field comes back to s.
  ghost predicate Safe(g: Graph<Type>, s: Type)
    reads s.fields`typ
  {
    forall f :: f in s.fields && f.spec.Some? ==> NotInto(g, s, f.typ)
  }

  lemma ShrinksKeepsNotInto(g: Graph<Type>, h: Graph<Type>)
    requires Closed(g) && Shrinks(g, h)
    ensures forall s: Type, t: Type {:trigger NotInto(h, s, t)} :: NotInto(g, s, t) ==> NotInto(h, s, t)
  {
    forall s: Type, t: Type | NotInto(g, s, t)
      ensures NotInto(h, s, t)
    {
      if !Held(t.kind) && Reaches(h, t, s, {}) {
        var w :| WalkTo(h, t, s, {}, w);
        ShrinksWalk(g, h, w);
        assert WalkTo(g, t, s, {}, w);
      }
    }
  }

  function Unwrapped(t: Type): Type {
    if t.kind.Generic? && t.genericOf != null then t.genericOf else t
  }

  function Variant(p: Property): GenericVariant {
    GenericVariant(p.nullable, !p.required)
  }

  // The pointer a recursive field gets: absent and null stay apart.
  ghost predicate BoxedField(b: Type, t: Type, v: GenericVariant)
    reads b`nilSemantic, if b.pointerTo == null then {} else {b.pointerTo}`nilSemantic
  {
    if OnlyOptional(v) then IsPointer(b, t, NilOptional)
    else if OnlyNullable(v) then IsPointer(b, t, NilNull)
    else
      && v.optional && v.nullable && b.pointerTo != null && IsPointer(b, b.pointerTo, NilNull)
      && (IsGeneric(b.pointerTo, t, OPTIONAL) || IsPointer(b.pointerTo, t, NilOptional))
  }

  // A by-value walk from t reaches the struct, or what DeepEqual takes for it, or comes back to itself.
  ghost predicate Recurses(g: Graph<Type>, t: Type, alike: set<Type>) {
    !Held(t.kind) && t in g && Hits(g, t, alike, {})
  }

  // What a walk hits through a generic or an alias can itself hold others.
  lemma RecursiveIsNotNilable(g: Graph<Type>, t: Type, goal: set<Type>)
    requires Flat(g) && Recurses(g, t, goal) && (forall u :: u in goal ==> u.kind.Struct?)
    requires forall u :: u in g ==> u.primitive.NoPrimitive?
    ensures t.kind.Generic? ==> t.genericOf != null
    ensures var u, d := Unwrapped(t), Dealiased(Unwrapped(t));
            u in g && d in g && !Nilable(u) && !d.kind.Any? && !d.kind.Stream?
  {
    hide Hits, Flat;
    FlatAt(g, t);
    if t.kind.Generic? {
      HeldByValue(g, t, Unwrapped(t), goal, {});
      AliasIsNotNilable(g, Unwrapped(t), goal, {} + {t});
    } else {
      AliasIsNotNilable(g, t, goal, {});
    }
  }

  lemma AliasIsNotNilable(g: Graph<Type>, t: Type, goal: set<Type>, path: set<Type>)
    requires Flat(g) && t in g && Hits(g, t, goal, path) && (forall u :: u in goal ==> u.kind.Struct?)
    requires forall u :: u in g ==> u.primitive.NoPrimitive?
    requires forall u :: u in path ==> u.kind.Generic?
    ensures var d := Dealiased(t); d in g && !Nilable(t) && !d.kind.Any? && !d.kind.Stream?
  {
    hide Hits, Flat;
    FlatAt(g, t);
    var d := Dealiased(t);
    if t.kind.Alias? {
      HeldByValue(g, t, d, goal, path);
      FlatAt(g, d);
      if d.kind.Stream? {
        HeldByValue(g, d, d, goal, path + {t});
      }
    } else if t.kind.Stream? {
      HeldByValue(g, t, t, goal, path);
    }
  }

  // A type with one part, or none, that the walk has not come to yet: the walk goes on to that part.
  lemma HeldByValue(g: Graph<Type>, t: Type, part: Type, goal: set<Type>, path: set<Type>)
    requires Flat(g) && t in g && Hits(g, t, goal, path) && t !in goal && t !in path
    requires ByValue(t) == [part] || ByValue(t) == []
    ensures ByValue(t) == [part] && part in g && !Held(part.kind) && Hits(g, part, goal, path + {t})
  {
    FlatAt(g, t);
    HitsUnfold(g, t, goal, path);
    hide Hits, Flat;
    var c :| c in g[t] && Hits(g, c, goal, path + {t});
    assert c in ByValue(t);
    FlatAt(g, part);
  }

  // What the walks need to know about the types: those that can hold others are no primitives, and
  // reflect.DeepEqual takes only structs for the struct.
  ghost predicate Sound(g: Graph<Type>, s: Type, alike: set<Type>, depth: map<Type, nat>) {
    && AliasesEnd(g, depth) && s in g && s.kind.Struct? && s in alike
    && (forall t :: t in g ==> t.primitive.NoPrimitive?)
    && (forall u :: u in alike ==> u.kind.Struct?)
  }

  lemma AnswerMeans(o: Outcome, g: Graph<Type>, t: Type, alike: set<Type>)
    requires Answers(o, g, t, alike, {}) && (Held(t.kind) || t in g)
    ensures o == Yes ==> Recurses(g, t, alike)
    ensures Recurses(g, t, alike) ==> !Held(t.kind)
    ensures o == No ==> !Recurses(g, t, alike)
    ensures o == Panic ==> !Held(t.kind) && ReachesUnexpected(g, t)
  {
  }

  // The inner function: the type a spec'd field gets.
  method BoxIfRecursive(s: Type, t: Type, v: GenericVariant, alike: set<Type>, names: map<Type, string>,
                        ghost g: Graph<Type>, ghost depth: map<Type, nat>) returns (r: Result<Type, Error>)
    requires Flat(g) && Sound(g, s, alike, depth) && (Held(t.kind) || t in g)
    ensures Flat(g)
    ensures Recurses(g, t, alike) ==> !Held(t.kind)
    ensures r.Ok? ==>
              if Recurses(g, t, alike) then fresh(r.value) && r.value.kind.Pointer? && BoxedField(r.value, Unwrapped(t), v)
              else r.value == t
    ensures r == Err(InfiniteRecursion) ==> Recurses(g, t, alike) && v == GenericVariant(false, false)
    ensures r == Err(NoName) ==> Recurses(g, t, alike) && v == GenericVariant(true, true) && Unwrapped(t) !in names
    ensures r == Err(WalkPanic) ==> !Held(t.kind) && ReachesUnexpected(g, t)
  {
    hide Answers, Recurses, Flat, BoxedField, AliasesEnd;
    var o := RecursiveTo(s, t, alike, g);
    AnswerMeans(o, g, t, alike);
    if o == Panic {
      return Err(WalkPanic);
    }
    if o == No {
      return Ok(t);
    }
    RecursiveIsNotNilable(g, t, alike);
    var u := t;
    if t.kind.Generic? {
      u := t.genericOf;
    }
    r := PointerFor(u, v, names, g, depth);
    assert forall f :: f in FieldsOf(g.Keys) ==> f.typ == old(f.typ);
  }

  // The switch over the field's variant.
  method PointerFor(t: Type, v: GenericVariant, names: map<Type, string>, ghost g: Graph<Type>, ghost depth: map<Type, nat>)
    returns (r: Result<Type, Error>)
    requires AliasesEnd(g, depth) && (t.kind.Alias? ==> t in g)
    requires var d := Dealiased(t); !Nilable(t) && !d.kind.Any? && !d.kind.Stream? && !d.primitive.Null?
    ensures r.Ok? ==> fresh(r.value) && r.value.kind.Pointer? && BoxedField(r.value, t, v)
    ensures r == Err(InfiniteRecursion) <==> v == GenericVariant(false, false)
    ensures r == Err(NoName) ==> v == GenericVariant(true, true) && t !in names
    ensures r != Err(WalkPanic)
  {
    if OnlyOptional(v) {
      var b := new Type.PointerTo(t, NilOptional);
      return Ok(b);
    } else if OnlyNullable(v) {
      var b := new Type.PointerTo(t, NilNull);
      return Ok(b);
    } else if v.nullable && v.optional {
      var inner := BoxType(t, OPTIONAL, names, g, depth);
      if inner.Err? {
        return Err(inner.error);
      }
      var b := new Type.PointerTo(inner.value, NilNull);
      return Ok(b);
    } else {
      return Err(InfiniteRecursion);
    }
  }

  // Assigning the type a field already has, or a pointer.
  method SetType(ghost s: Type, field: Field, t: Type, ghost g: Graph<Type>) returns (ghost h: Graph<Type>)
    requires Flat(g) && s in g && field in s.fields && (t == field.typ || t.kind.Pointer?)
    modifies field`typ
    ensures field.typ == t
    ensures Closed(g) && Flat(h) && Shrinks(g, h) && h.Keys == g.Keys
    ensures forall f :: f in FieldsOf(g.Keys) ==> f.typ == old(f.typ) || Held(f.typ.kind)
  {
    hide Flat, FlatIn, PartsOf, Shrinks, ByValue;
    field.typ := t;
    assert forall f :: f in FieldsOf(g.Keys) ==> f.typ == old(f.typ) || Held(f.typ.kind);
    FlatIsClosed(g);
    h := BoxingShrinks(g);
  }

  twostate lemma FlatIsClosed(g: Graph<Type>)
    requires old(Flat(g))
    ensures Closed(g)
  {
  }

  // checkStructRecursions.
  method CheckStructRecursions(s: Type, alike: nat -> set<Type>, names: map<Type, string>,
                               ghost g: Graph<Type>, ghost depth: map<Type, nat>)
    returns (r: Option<Error>, ghost h: Graph<Type>)
    requires s in g && Flat(g) && forall i: nat :: Sound(g, s, alike(i), depth)
    modifies s.fields`typ
    ensures Flat(h) && Shrinks(g, h) && h.Keys == g.Keys
    ensures forall f :: f in s.fields ==> Rewritten(f.typ, old(f.typ), f.spec)
    ensures r.None? ==> Safe(h, s)
    ensures forall f :: f in s.fields && f.spec == Some(Property(false, true)) ==> f.typ == old(f.typ)
    ensures forall f, w :: f in s.fields && f.spec == Some(Property(false, true)) && HoldsFrom(old(f.typ), s, w) ==> r.Some?
    ensures r == Some(InfiniteRecursion) ==>
              exists i: nat :: i < |s.fields| && IsRequired(s.fields[i]) && Recurses(h, s.fields[i].typ, alike(i))
  {
    hide Flat, Shrinks, Sound, NotInto, Recurses, Rewritten, BoxedField, HoldsFrom;
    h := g;
    ShrinksSelf(g);
    UnchangedIsRewritten(s);
    SoundAt(g, g, s, alike(0), depth);
    for i := 0 to |s.fields|
      invariant Flat(h) && Shrinks(g, h) && h.Keys == g.Keys
      invariant forall f :: f in s.fields ==> Rewritten(f.typ, old(f.typ), f.spec)
      invariant forall j :: 0 <= j < i && s.fields[j].spec.Some? ==> NotInto(h, s, s.fields[j].typ)
    {
      var field := s.fields[i];
      if field.spec.Some? {
        var v := Variant(field.spec.value);
        FieldTypeIn(h, s, field);
        SoundAt(g, h, s, alike(i), depth);
        var boxed := BoxIfRecursive(s, field.typ, v, alike(i), names, h, depth);
        if boxed.Err? {
          RequiredKeepsType();
          return Some(boxed.error), h;
        }
        NotRecursiveIsSafe(h, s, field.typ, alike(i));
        ghost var before, was := h, field.typ;
        h := SetType(s, field, boxed.value, h);
        RewrittenOnce(field.typ, was, old(field.typ), field.spec);
        ShrinksTrans(g, before, h);
        ShrinksKeepsNotInto(before, h);
        HeldIsSafe(h);
      }
    }
    RequiredKeepsType();
    forall f, w | f in s.fields && f.spec == Some(Property(false, true)) && HoldsFrom(f.typ, s, w)
      ensures false
    {
      HeldBySelf(h, s, f.typ, w);
    }
    return None, h;
  }

  // From t on, each holds the next by value, up to s.
  predicate HoldsFrom(t: Type, s: Type, w: seq<Type>) {
    w != [] && w[0] == t && Last(w) == s && AllHold(w)
  }

  lemma HeldBySelf(g: Graph<Type>, s: Type, t: Type, w: seq<Type>)
    requires Flat(g) && s.kind.Struct? && HoldsFrom(t, s, w)
    ensures !NotInto(g, s, t)
  {
    hide Flat;
    if |w| > 1 { assert Holds(w[0], w[1]); }
    if t in g {
      HoldsIsWalk(g, w);
      assert Reaches(g, t, s, {});
    }
  }

  lemma RequiredKeepsType()
    ensures forall t: Type, was, spec {:trigger Rewritten(t, was, spec)} ::
              Rewritten(t, was, spec) && spec == Some(Property(false, true)) ==> t == was
  {
  }

  lemma SoundAt(g: Graph<Type>, h: Graph<Type>, s: Type, alike: set<Type>, depth: map<Type, nat>)
    requires Sound(g, s, alike, depth) && h.Keys == g.Keys
    ensures Sound(h, s, alike, depth) && s in g && s in alike
  {
  }

  lemma FieldTypeIn(g: Graph<Type>, s: Type, f: Field)
    requires Flat(g) && s in g && s.kind.Struct? && f in s.fields
    ensures Held(f.typ.kind) || f.typ in g
  {
    FlatAt(g, s);
    var i :| 0 <= i < |s.fields| && s.fields[i] == f;
    assert ByValue(s)[i] == f.typ;
  }

  lemma NotRecursiveIsSafe(g: Graph<Type>, s: Type, t: Type, alike: set<Type>)
    requires s in alike && (Held(t.kind) || t in g)
    ensures !Recurses(g, t, alike) ==> NotInto(g, s, t)
  {
    if !Held(t.kind) && Reaches(g, t, s, {}) {
      var w :| WalkTo(g, t, s, {}, w);
      assert Stops(w, alike, {});
    }
  }

  lemma HeldIsSafe(g: Graph<Type>)
    ensures forall s: Type, t: Type {:trigger NotInto(g, s, t)} :: Held(t.kind) ==> NotInto(g, s, t)
  {
  }

  predicate IsRequired(f: Field) {
    f.spec.Some? && f.spec.value.required && !f.spec.value.nullable
  }

  // A field made from a property keeps its type, or has a pointer to it that matches the property.
  ghost predicate Rewritten(t: Type, was: Type, spec: Option<Property>)
    reads t`nilSemantic, if t.pointerTo == null then {} else {t.pointerTo}`nilSemantic
  {
    t == was || (spec.Some? && t.kind.Pointer? && BoxedField(t, Unwrapped(was), Variant(spec.value)))
  }

  lemma RewrittenIsHeld()
    ensures forall t: Type, was, spec {:trigger Rewritten(t, was, spec)} :: Rewritten(t, was, spec) ==> t == was || Held(t.kind)
  {
  }

  lemma UnchangedIsRewritten(s: Type)
    ensures forall f :: f in s.fields ==> Rewritten(f.typ, f.typ, f.spec)
  {
  }

  lemma RewrittenOnce(t: Type, now: Type, was: Type, spec: Option<Property>)
    requires Rewritten(now, was, spec) && spec.Some?
    requires t == now || (!Held(now.kind) && t.kind.Pointer? && BoxedField(t, Unwrapped(now), Variant(spec.value)))
    ensures Rewritten(t, was, spec)
  {
  }
}
