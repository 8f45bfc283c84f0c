/**
The intermediate representation of Go types (internal/ir): a graph of mutable objects, cyclic as
soon as a schema refers to itself, with the walk that marks it, AddFeature, and the constructors that
wrap its nodes.
 */
module IrTypes {
  import opened Wrappers
  import opened Graphs

  datatype Kind =
    | Primitive | Array | Map | Alias | Const | Enum | Struct | Pointer | Interface | Generic | Sum | Any | Stream

  datatype PrimitiveType =
    | NoPrimitive | String | ByteSlice | Int | Int8 | Int16 | Int32 | Int64 | Uint | Uint8 | Uint16 | Uint32 | Uint64
    | Float32 | Float64 | Bool | Null | Time | Duration | UUID | MAC | IP | URL | File | Decimal | Custom

  datatype NilSemantic = NilUnset | NilInvalid | NilOptional | NilNull

  // Of each group of validators only whether it is set matters here.
  datatype Validators = Validators(
    stringSet: bool, intSet: bool, decimalSet: bool, arraySet: bool, objectSet: bool, ogen: map<string, string>)

  const UNSET := Validators(false, false, false, false, false, map[])

  // The property a struct field was made from.
  datatype Property = Property(nullable: bool, required: bool)

  datatype GenericVariant = GenericVariant(nullable: bool, optional: bool)

  // Only the parts the walks below assign are variables; the others stay as they were built.
  class Field {
    var typ: Type
    const spec: Option<Property>

    constructor (typ: Type, spec: Option<Property>)
      ensures this.typ == typ && this.spec == spec
    {
      this.typ, this.spec := typ, spec;
    }
  }

  class Type {
    const kind: Kind
    const primitive: PrimitiveType
    const aliasTo: Type?
    const pointerTo: Type?
    const sumOf: seq<Type>
    const item: Type?
    const fields: seq<Field>
    const genericOf: Type?
    const genericVariant: GenericVariant
    const validators: Validators
    var nilSemantic: NilSemantic
    var features: seq<string>

    // Pointer: a new pointer type with the features of its target.
    constructor PointerTo(to: Type, sem: NilSemantic)
      ensures kind == Pointer && pointerTo == to && nilSemantic == sem && features == to.features
      ensures primitive == NoPrimitive && validators == UNSET
    {
      kind, primitive, pointerTo, nilSemantic, features := Pointer, NoPrimitive, to, sem, to.features;
      aliasTo, sumOf, item, fields, genericOf := null, [], null, [], null;
      validators, genericVariant := UNSET, GenericVariant(false, false);
    }

    // Generic: a new optional or nullable wrapper with the features of what it wraps.
    constructor GenericOver(of: Type, v: GenericVariant)
      ensures kind == Generic && genericOf == of && genericVariant == v && features == of.features
      ensures primitive == NoPrimitive && validators == UNSET && nilSemantic == NilUnset
    {
      kind, primitive, genericOf, genericVariant, features := Generic, NoPrimitive, of, v, of.features;
      aliasTo, pointerTo, sumOf, item, fields := null, null, [], null, [];
      validators, nilSemantic := UNSET, NilUnset;
    }

    // A struct without features.
    constructor StructOf(fields: seq<Field>)
      ensures kind == Struct && this.fields == fields && features == []
      ensures primitive == NoPrimitive && validators == UNSET && nilSemantic == NilUnset
    {
      kind, primitive, this.fields, features := Struct, NoPrimitive, fields, [];
      aliasTo, pointerTo, sumOf, item, genericOf := null, null, [], null, null;
      validators, nilSemantic, genericVariant := UNSET, NilUnset, GenericVariant(false, false);
    }

    // HasFeature.
    predicate HasFeature(feature: string)
      reads this`features
    {
      feature in features
    }

    // AddFeature.
    method AddFeature(feature: string, ghost g: Graph<Type>)
      requires this in g && Wired(g)
      modifies g.Keys`features
      ensures Wired(g)
      ensures Labelled(old(FeaturesOf(g.Keys)), FeaturesOf(g.Keys), feature,
                       Reachable(g, this, Marked(old(FeaturesOf(g.Keys)), feature)))
      decreases g.Keys - Marked(FeaturesOf(g.Keys), feature), 0
    {
      ghost var start := FeaturesOf(g.Keys);
      if HasFeature(feature) {
        NothingToMark(g, this, start, feature);
        return;
      }
      features := features + [feature];
      MarkStart(g, this, start, FeaturesOf(g.Keys), feature);
      AddFeatureToChildren(feature, g, start);
      MarkDone(g, this, start, FeaturesOf(g.Keys), feature);
    }

    method AddFeatureToChildren(feature: string, ghost g: Graph<Type>, ghost start: map<Type, seq<string>>)
      requires this in g && Wired(g) && start.Keys == g.Keys && feature !in start[this]
      requires MarkState(g, this, start, FeaturesOf(g.Keys), feature, 0)
      modifies g.Keys`features
      ensures Wired(g) && MarkState(g, this, start, FeaturesOf(g.Keys), feature, |g[this]|)
      decreases g.Keys - Marked(start, feature) - {this}, 3
    {
      hide *;
      WiredAt(g, this);
      match kind {
        case Alias =>
          aliasTo.AddFeatureBelow(feature, g, this, start, 0);
        case Array =>
          item.AddFeatureBelow(feature, g, this, start, 0);
        case Generic =>
          genericOf.AddFeatureBelow(feature, g, this, start, 0);
        case Map =>
          item.AddFeatureBelow(feature, g, this, start, 0);
          AddFeatureToFields(feature, g, start);
        case Pointer =>
          pointerTo.AddFeatureBelow(feature, g, this, start, 0);
        case Struct =>
          AddFeatureToFields(feature, g, start);
        case Sum =>
          AddFeatureToVariants(feature, g, start);
        case _ =>
      }
    }

    // The loops over fields and over variants.
    method AddFeatureToFields(feature: string, ghost g: Graph<Type>, ghost start: map<Type, seq<string>>)
      requires this in g && Wired(g) && kind in {Struct, Map} && start.Keys == g.Keys && feature !in start[this]
      requires MarkState(g, this, start, FeaturesOf(g.Keys), feature, NonFields(this))
      modifies g.Keys`features
      ensures Wired(g) && MarkState(g, this, start, FeaturesOf(g.Keys), feature, |g[this]|)
      decreases g.Keys - Marked(start, feature) - {this}, 2
    {
      hide *;
      FieldsAt(g, this);
      ghost var before := NonFields(this);
      for i := 0 to |fields|
        invariant Wired(g) && MarkState(g, this, start, FeaturesOf(g.Keys), feature, before + i)
      {
        FieldsAt(g, this);
        fields[i].typ.AddFeatureBelow(feature, g, this, start, before + i);
      }
    }

    method AddFeatureToVariants(feature: string, ghost g: Graph<Type>, ghost start: map<Type, seq<string>>)
      requires this in g && Wired(g) && kind == Sum && start.Keys == g.Keys && feature !in start[this]
      requires MarkState(g, this, start, FeaturesOf(g.Keys), feature, 0)
      modifies g.Keys`features
      ensures Wired(g) && MarkState(g, this, start, FeaturesOf(g.Keys), feature, |g[this]|)
      decreases g.Keys - Marked(start, feature) - {this}, 2
    {
      WiredAt(g, this);
      hide *;
      for i := 0 to |sumOf|
        invariant Wired(g) && MarkState(g, this, start, FeaturesOf(g.Keys), feature, i)
      {
        sumOf[i].AddFeatureBelow(feature, g, this, start, i);
      }
    }

    // AddFeature as called on a child of `parent`, whose first `done` children have had their turn.
    method AddFeatureBelow(feature: string, ghost g: Graph<Type>, ghost parent: Type,
                           ghost start: map<Type, seq<string>>, ghost done: nat)
      requires parent in g && Wired(g) && done < |g[parent]| && g[parent][done] == this
      requires start.Keys == g.Keys && feature !in start[parent]
      requires MarkState(g, parent, start, FeaturesOf(g.Keys), feature, done)
      modifies g.Keys`features
      ensures Wired(g)
      ensures MarkState(g, parent, start, FeaturesOf(g.Keys), feature, done + 1)
      decreases g.Keys - Marked(start, feature) - {parent}, 1
    {
      hide Labelled, MarkState, Wired, Marked, Children;
      ghost var mid := FeaturesOf(g.Keys);
      MarksGrow(g, parent, start, mid, feature, done);
      WiredAt(g, parent);
      AddFeature(feature, g);
      MarkChild(g, parent, start, mid, FeaturesOf(g.Keys), feature, done);
    }
  }

  // ----- The graph AddFeature walks -----

  function FieldTypes(fields: seq<Field>): (r: seq<Type>)
    reads fields`typ
    ensures |r| == |fields| && forall i :: 0 <= i < |r| ==> r[i] == fields[i].typ
  {
    if fields == [] then [] else [fields[0].typ] + FieldTypes(fields[1..])
  }

  function Some1(t: Type?): seq<Type> {
    if t == null then [] else [t]
  }

  function Children(t: Type): seq<Type>
    reads t.fields`typ
  {
    match t.kind
    case Alias => Some1(t.aliasTo)
    case Array => Some1(t.item)
    case Generic => Some1(t.genericOf)
    case Map => Some1(t.item) + FieldTypes(t.fields)
    case Pointer => Some1(t.pointerTo)
    case Struct => FieldTypes(t.fields)
    case Sum => t.sumOf
    case _ => []
  }

  // How many children come before the fields.
  function NonFields(t: Type): nat {
    if t.kind.Map? && t.item != null then 1 else 0
  }

  // A type has the parts its kind calls for; a missing one is a nil dereference in the walks.
  predicate WellFormed(t: Type)
  {
    && (t.kind.Alias? ==> t.aliasTo != null)
    && (t.kind.Array? || t.kind.Map? ==> t.item != null)
    && (t.kind.Generic? ==> t.genericOf != null)
    && (t.kind.Pointer? ==> t.pointerTo != null)
  }

  // g is the graph of these types as they are now.
  ghost predicate Wired(g: Graph<Type>)
    reads FieldsOf(g.Keys)`typ
  {
    assert forall t, f :: t in g && f in t.fields ==> f in FieldsOf(g.Keys);
    Closed(g) && forall t :: t in g ==> WellFormed(t) && g[t] == Children(t)
  }

  ghost function FieldsOf(types: set<Type>): set<Field> {
    set t, f | t in types && f in t.fields :: f
  }

  lemma WiredAt(g: Graph<Type>, t: Type)
    requires Wired(g) && t in g
    ensures Closed(g) && WellFormed(t) && g[t] == Children(t)
    ensures forall c :: c in g[t] ==> c in g
    ensures t.kind in {Struct, Map} ==> NonFields(t) + |t.fields| == |g[t]|
    ensures t.kind.Struct? ==> NonFields(t) == 0
    ensures t.kind.Map? ==> NonFields(t) == 1
    ensures t.kind.Struct? ==> |g[t]| == |t.fields| && forall i :: 0 <= i < |t.fields| ==> g[t][i] == t.fields[i].typ
    ensures t.kind.Map? ==> |g[t]| == 1 + |t.fields| && g[t][0] == t.item && forall i :: 0 <= i < |t.fields| ==> g[t][i + 1] == t.fields[i].typ
    ensures t.kind.Sum? ==> g[t] == t.sumOf
    ensures t.kind.Alias? ==> g[t] == [t.aliasTo]
    ensures t.kind.Array? ==> g[t] == [t.item]
    ensures t.kind.Generic? ==> g[t] == [t.genericOf]
    ensures t.kind.Pointer? ==> g[t] == [t.pointerTo]
    ensures !(t.kind in {Struct, Map, Sum, Alias, Array, Generic, Pointer}) ==> g[t] == []
  {
  }

  // ----- What AddFeature does -----

  ghost function FeaturesOf(nodes: set<Type>): map<Type, seq<string>>
    reads nodes`features
  {
    map t | t in nodes :: t.features
  }

  ghost function Marked(texts: map<Type, seq<string>>, feature: string): set<Type> {
    set t | t in texts && feature in texts[t]
  }

  // The types in `added` have got the feature as a new last entry, and the others are as before.
  ghost predicate Labelled(before: map<Type, seq<string>>, after: map<Type, seq<string>>, feature: string, added: set<Type>) {
    && before.Keys == after.Keys
    && forall t :: t in before ==> after[t] == before[t] + if t in added then [feature] else []
  }

  // While AddFeature is at t and has done its first `done` children.
  ghost predicate MarkState(g: Graph<Type>, t: Type, start: map<Type, seq<string>>, now: map<Type, seq<string>>,
                            feature: string, done: nat)
    requires t in g
  {
    && done <= |g[t]|
    && Marked(start, feature) + {t} <= Marked(now, feature)
    && Spreading(g, t, Marked(start, feature), Marked(now, feature), g[t][..done])
    && Labelled(start, now, feature, Marked(now, feature) - Marked(start, feature))
  }

  lemma FieldsAt(g: Graph<Type>, t: Type)
    requires Wired(g) && t in g && t.kind in {Struct, Map}
    ensures NonFields(t) + |t.fields| == |g[t]|
    ensures forall i :: 0 <= i < |t.fields| ==> g[t][NonFields(t) + i] == t.fields[i].typ && t.fields[i].typ in g
  {
    WiredAt(g, t);
    hide Wired;
  }

  lemma NothingToMark(g: Graph<Type>, t: Type, start: map<Type, seq<string>>, feature: string)
    requires t in start && feature in start[t]
    ensures Labelled(start, start, feature, Reachable(g, t, Marked(start, feature)))
  {
    assert Reachable(g, t, Marked(start, feature)) == {};
  }

  lemma MarkStart(g: Graph<Type>, t: Type, start: map<Type, seq<string>>, now: map<Type, seq<string>>, feature: string)
    requires t in g && t in start && feature !in start[t] && now == start[t := start[t] + [feature]]
    ensures MarkState(g, t, start, now, feature, 0)
    ensures t !in Marked(start, feature)
  {
    SpreadStart(g, t, Marked(start, feature));
    assert Marked(now, feature) == Marked(start, feature) + {t};
  }

  lemma MarksGrow(g: Graph<Type>, t: Type, start: map<Type, seq<string>>, now: map<Type, seq<string>>,
                  feature: string, done: nat)
    requires t in g && MarkState(g, t, start, now, feature, done)
    ensures var left, room := g.Keys - Marked(now, feature), g.Keys - Marked(start, feature) - {t};
            left < room || left == room
  {
    hide Marked, Spreading, Labelled;
    assert g.Keys - Marked(now, feature) <= g.Keys - Marked(start, feature) - {t};
  }

  lemma MarkChild(g: Graph<Type>, t: Type, start: map<Type, seq<string>>, mid: map<Type, seq<string>>,
                  now: map<Type, seq<string>>, feature: string, done: nat)
    requires Closed(g) && t in g && t in start && done < |g[t]| && g.Keys <= start.Keys && feature !in start[t]
    requires MarkState(g, t, start, mid, feature, done)
    requires Labelled(mid, now, feature, Reachable(g, g[t][done], Marked(mid, feature)))
    ensures MarkState(g, t, start, now, feature, done + 1)
    ensures Marked(mid, feature) <= Marked(now, feature)
  {
    hide Spreading;
    var c := g[t][done];
    var added := Reachable(g, c, Marked(mid, feature));
    SpreadChild(g, t, Marked(start, feature), Marked(mid, feature), g[t][..done], c);
    assert g[t][..done] + [c] == g[t][..done + 1];
    forall u | u in added
      ensures u in now && u !in Marked(mid, feature)
    {
      var w :| WalkTo(g, c, u, Marked(mid, feature), w);
      assert Last(w) == u;
    }
    assert Marked(now, feature) == Marked(mid, feature) + added;
  }

  lemma MarkDone(g: Graph<Type>, t: Type, start: map<Type, seq<string>>, now: map<Type, seq<string>>, feature: string)
    requires t in g && t in start && feature !in start[t] && MarkState(g, t, start, now, feature, |g[t]|)
    ensures Labelled(start, now, feature, Reachable(g, t, Marked(start, feature)))
  {
    hide Spreading;
    var before := Marked(start, feature);
    assert g[t][..|g[t]|] == g[t];
    SpreadDone(g, t, before, Marked(now, feature));
    forall u | u in Reachable(g, t, before)
      ensures u !in before
    {
      var w :| WalkTo(g, t, u, before, w);
      assert Last(w) == u;
    }
    assert Marked(now, feature) - before == Reachable(g, t, before);
  }

  // ----- What that means -----

  // If every type that has the feature has it on all its children, AddFeature gives it to everything
  // t reaches and leaves the types so, although it stops at types that already have it.
  lemma AddFeatureReachesAll(g: Graph<Type>, t: Type, before: map<Type, seq<string>>, after: map<Type, seq<string>>, feature: string)
    requires Closed(g) && t in g && g.Keys == before.Keys && Downward(g, Marked(before, feature))
    requires Labelled(before, after, feature, Reachable(g, t, Marked(before, feature)))
    ensures Reachable(g, t, {}) <= Marked(after, feature)
    ensures Downward(g, Marked(after, feature))
  {
    SpreadReachesAll(g, t, Marked(before, feature));
    assert Marked(after, feature) == Marked(before, feature) + Reachable(g, t, Marked(before, feature));
  }

  // In general it does so exactly when the marked types it runs into have no child it does not mark.
  lemma AddFeatureReachesAllExactly(g: Graph<Type>, t: Type, before: map<Type, seq<string>>, after: map<Type, seq<string>>, feature: string)
    requires Closed(g) && t in g && g.Keys == before.Keys
    requires Labelled(before, after, feature, Reachable(g, t, Marked(before, feature)))
    ensures Reachable(g, t, {}) <= Marked(after, feature) <==>
            forall u, v :: u in Marked(before, feature) && u in Reachable(g, t, {}) && v in g[u] ==>
              v in Marked(before, feature) + Reachable(g, t, Marked(before, feature))
  {
    var marked := Marked(before, feature);
    var now := marked + Reachable(g, t, marked);
    assert Marked(after, feature) == now;
    if Reachable(g, t, {}) <= now {
      forall u, v | u in marked && u in Reachable(g, t, {}) && v in g[u]
        ensures v in now
      {
        ReachesAppend(g, t, u, v, {});
      }
    }
    if forall u, v :: u in marked && u in Reachable(g, t, {}) && v in g[u] ==> v in now {
      SpreadStaysIn(g, t, marked);
    }
  }

  lemma SpreadStaysIn(g: Graph<Type>, t: Type, marked: set<Type>)
    requires Closed(g) && t in g
    requires forall u, v :: u in marked && u in Reachable(g, t, {}) && v in g[u] ==> v in marked + Reachable(g, t, marked)
    ensures Reachable(g, t, {}) <= marked + Reachable(g, t, marked)
  {
    var all, now := Reachable(g, t, {}), marked + Reachable(g, t, marked);
    ReachesSelf(g, t, {});
    if t !in marked {
      ReachesSelf(g, t, marked);
    }
    forall u, v | u in now * all && v in g[u]
      ensures v in now * all
    {
      ReachesAppend(g, t, u, v, {});
      if u !in marked && v !in marked {
        ReachesAppend(g, t, u, v, marked);
      }
    }
    forall u | u in all
      ensures u in now
    {
      var w :| WalkTo(g, t, u, {}, w);
      WalkStaysIn(g, w, {}, now * all);
    }
  }

  // CloneFeatures: a new type that wraps an old one with a copy of its features keeps things so.
  lemma WrappingKeepsDownward(g: Graph<Type>, texts: map<Type, seq<string>>, feature: string, wrapper: Type, of: Type)
    requires g.Keys == texts.Keys && of in g && wrapper !in g && Closed(g) && Downward(g, Marked(texts, feature))
    ensures Downward(g[wrapper := [of]], Marked(texts[wrapper := texts[of]], feature))
  {
    var marked, now := Marked(texts, feature), Marked(texts[wrapper := texts[of]], feature);
    forall u, v | u in now && u in g[wrapper := [of]] && v in g[wrapper := [of]][u]
      ensures v in now
    {
      assert u == wrapper ==> v == of;
      assert u != wrapper ==> v in g[u] && v in marked;
      assert v in g && v != wrapper;
    }
  }

  // And so does giving a field a pointer to its type, or to what its generic type wraps.
  lemma BoxingKeepsDownward(g: Graph<Type>, texts: map<Type, seq<string>>, feature: string,
                            s: Type, was: Type, of: Type, pointer: Type, children: seq<Type>)
    requires g.Keys == texts.Keys && s in g && pointer !in g && Closed(g) && Downward(g, Marked(texts, feature))
    requires was in g[s] && (of == was || of in g[was])
    requires forall c :: c in children ==> c in g[s] || c == pointer
    ensures Downward(g[pointer := [of]][s := children], Marked(texts[pointer := texts[of]], feature))
  {
    assert was in g && of in g;
    WrappingKeepsDownward(g, texts, feature, pointer, of);
    var marked, now := Marked(texts, feature), Marked(texts[pointer := texts[of]], feature);
    assert s in marked ==> was in marked && of in marked && pointer in now;
    assert forall t :: t in g ==> (t in now <==> t in marked);
  }

  // A field that is both optional and nullable gets a pointer to a new generic type around them.
  lemma DoublyBoxingKeepsDownward(g: Graph<Type>, texts: map<Type, seq<string>>, feature: string,
                                  s: Type, was: Type, of: Type, generic: Type, pointer: Type, children: seq<Type>)
    requires g.Keys == texts.Keys && s in g && generic !in g && pointer !in g && generic != pointer
    requires Closed(g) && Downward(g, Marked(texts, feature))
    requires was in g[s] && (of == was || of in g[was])
    requires forall c :: c in children ==> c in g[s] || c == pointer
    ensures Downward(g[generic := [of]][pointer := [generic]][s := children],
                     Marked(texts[generic := texts[of]][pointer := texts[of]], feature))
  {
    assert was in g && of in g;
    var g', texts' := g[generic := [of]], texts[generic := texts[of]];
    WrappingKeepsDownward(g, texts, feature, generic, of);
    WrappingKeepsDownward(g', texts', feature, pointer, generic);
    var marked, now := Marked(texts, feature), Marked(texts'[pointer := texts[of]], feature);
    assert s in marked ==> was in marked && of in marked && pointer in now;
    assert forall t :: t in g ==> (t in now <==> t in marked);
  }
}
