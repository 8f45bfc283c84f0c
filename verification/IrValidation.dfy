/**
NeedValidation (internal/ir/validation.go): a depth-first search over the type graph that answers
"no" on every type of its own path, and takes each type off the path again on its way back.
 */
module IrValidation {
  import opened Wrappers
  import opened Graphs
  import opened IrTypes

  class Walkpath {
    var nodes: set<Type>

    constructor ()
      ensures nodes == {}
    {
      nodes := {};
    }

    predicate Has(t: Type)
      reads this
    {
      t in nodes
    }

    method Add(t: Type)
      modifies this
      ensures nodes == old(nodes) + {t}
    {
      nodes := nodes + {t};
    }

    method Delete(t: Type)
      modifies this
      ensures nodes == old(nodes) - {t}
    {
      nodes := nodes - {t};
    }
  }

  predicate IsInteger(t: Type) {
    t.primitive in {Int, Int8, Int16, Int32, Int64, Uint, Uint8, Uint16, Uint32, Uint64}
  }

  predicate IsFloat(t: Type) {
    t.primitive in {Float32, Float64}
  }

  predicate IsNumeric(t: Type) {
    IsInteger(t) || IsFloat(t) || t.primitive.Decimal?
  }

  // Why a type needs a validator of its own.
  predicate HasReason(t: Type)
    reads t`nilSemantic
  {
    match t.kind
    case Primitive =>
      if IsFloat(t) then true
      else if IsNumeric(t) then t.validators.intSet || t.validators.decimalSet
      else (t.validators.stringSet && t.primitive in {String, ByteSlice}) || t.validators.ogen != map[]
    case Enum => true
    case Pointer => t.nilSemantic == NilInvalid
    case Array => t.nilSemantic == NilInvalid || t.validators.arraySet || t.validators.ogen != map[]
    case Struct => t.validators.ogen != map[]
    case Map => t.validators.objectSet || t.validators.ogen != map[]
    case _ => false
  }

  // The edges the search follows; the fields of a map are not among them.
  function Parts(t: Type): seq<Type>
    reads t.fields`typ
  {
    match t.kind
    case Sum => t.sumOf
    case Alias => Some1(t.aliasTo)
    case Pointer => Some1(t.pointerTo)
    case Generic => Some1(t.genericOf)
    case Array => Some1(t.item)
    case Struct => FieldTypes(t.fields)
    case Map => Some1(t.item)
    case _ => []
  }

  // The reasons, kind by kind.
  lemma ReasonIs(t: Type)
    ensures HasReason(t) <==>
            || t.kind == Enum
            || (t.kind == Primitive && t.primitive in {Float32, Float64})
            || (t.kind == Primitive && t.primitive in {Int, Int8, Int16, Int32, Int64, Uint, Uint8, Uint16, Uint32, Uint64, Decimal} &&
                (t.validators.intSet || t.validators.decimalSet))
            || (t.kind == Primitive && t.primitive in {String, ByteSlice} && t.validators.stringSet)
            || (t.kind == Primitive && t.validators.ogen != map[] &&
                t.primitive in {NoPrimitive, String, ByteSlice, Bool, Null, Time, Duration, UUID, MAC, IP, URL, File, Custom})
            || (t.kind in {Pointer, Array} && t.nilSemantic == NilInvalid)
            || (t.kind == Array && t.validators.arraySet)
            || (t.kind == Map && t.validators.objectSet)
            || (t.kind in {Array, Struct, Map} && t.validators.ogen != map[])
  {
  }

  // And what is looked at inside.
  lemma PartsAre(t: Type, c: Type)
    ensures c in Parts(t) <==>
            || (t.kind == Sum && c in t.sumOf)
            || (t.kind == Alias && t.aliasTo == c)
            || (t.kind == Pointer && t.pointerTo == c)
            || (t.kind == Generic && t.genericOf == c)
            || (t.kind in {Array, Map} && t.item == c)
            || (t.kind == Struct && exists f :: f in t.fields && f.typ == c)
  {
    if t.kind.Struct? {
      var types := Parts(t);
      assert forall i :: 0 <= i < |types| ==> types[i] == t.fields[i].typ;
    }
  }

  // g is the graph of these types as they are now; none is of the kind the search panics on.
  ghost predicate Parted(g: Graph<Type>)
    reads FieldsOf(g.Keys)`typ
  {
    assert forall t, f :: t in g && f in t.fields ==> f in FieldsOf(g.Keys);
    Closed(g) && forall t :: t in g ==> !t.kind.Const? && g[t] == Parts(t)
  }

  lemma PartedAt(g: Graph<Type>, t: Type)
    requires Parted(g) && t in g
    ensures Closed(g) && g[t] == Parts(t) && !t.kind.Const? && forall c :: c in g[t] ==> c in g
  {
  }

  ghost predicate IsReason(g: Graph<Type>, t: Type, avoid: set<Type>, u: Type)
    reads u`nilSemantic
  {
    HasReason(u) && Reaches(g, t, u, avoid)
  }

  // A type with a reason can be reached without entering `avoid`.
  ghost predicate Needs(g: Graph<Type>, t: Type, avoid: set<Type>)
    reads g.Keys`nilSemantic
  {
    exists u :: u in g && IsReason(g, t, avoid, u)
  }

  lemma NeedsUnfold(g: Graph<Type>, t: Type, avoid: set<Type>)
    requires Closed(g) && t in g
    ensures Needs(g, t, avoid) <==> t !in avoid && (HasReason(t) || exists c :: c in g[t] && Needs(g, c, avoid + {t}))
  {
    if Needs(g, t, avoid) {
      var u :| u in g && IsReason(g, t, avoid, u);
      ReachesUnfold(g, t, u, avoid);
      if u != t {
        var c :| c in g[t] && Reaches(g, c, u, avoid + {t});
        assert IsReason(g, c, avoid + {t}, u);
        assert Needs(g, c, avoid + {t});
      }
    }
    if t !in avoid {
      if HasReason(t) {
        ReachesSelf(g, t, avoid);
        assert IsReason(g, t, avoid, t);
      } else if c :| c in g[t] && Needs(g, c, avoid + {t}) {
        var u :| u in g && IsReason(g, c, avoid + {t}, u);
        ReachesUnfold(g, t, u, avoid);
        assert IsReason(g, t, avoid, u);
      }
    }
  }

  // NeedValidation.
  method NeedValidation(t: Type?, ghost g: Graph<Type>) returns (result: bool)
    requires (t != null ==> t in g) && Parted(g)
    ensures result <==> t != null && exists u :: u in g && IsReason(g, t, {}, u)
  {
    var path := new Walkpath();
    result := NeedValidationOn(t, path, g);
  }

  // needValidation.
  method NeedValidationOn(t: Type?, path: Walkpath, ghost g: Graph<Type>) returns (result: bool)
    requires (t != null ==> t in g) && Parted(g)
    modifies path
    ensures path.nodes == old(path.nodes) && Parted(g)
    ensures result <==> t != null && Needs(g, t, old(path.nodes))
    decreases g.Keys - path.nodes, 1
  {
    if t == null {
      return false;
    }
    PartedAt(g, t);
    NeedsUnfold(g, t, path.nodes);
    hide Needs, Parted, HasReason;
    if path.Has(t) {
      return false;
    }
    path.Add(t);
    result := NeedValidationBelow(t, path, g);
    path.Delete(t);
  }

  // The switch over kinds, with t already on the path.
  method NeedValidationBelow(t: Type, path: Walkpath, ghost g: Graph<Type>) returns (result: bool)
    requires t in g && Parted(g) && t in path.nodes
    modifies path
    ensures path.nodes == old(path.nodes) && Parted(g)
    ensures result <==> HasReason(t) || exists c :: c in g[t] && Needs(g, c, old(path.nodes))
    decreases g.Keys - path.nodes, 3
  {
    PartedAt(g, t);
    hide Needs, Parted;
    match t.kind {
      case Primitive =>
        if IsFloat(t) {
          result := true;
        } else if IsNumeric(t) {
          result := t.validators.intSet || t.validators.decimalSet;
        } else {
          result := (t.validators.stringSet && t.primitive in {String, ByteSlice}) || t.validators.ogen != map[];
        }
      case Enum =>
        result := true;
      case Sum =>
        result := AnyNeeds(t.sumOf, path, g);
      case Alias =>
        result := NeedValidationOn(t.aliasTo, path, g);
      case Pointer =>
        if t.nilSemantic == NilInvalid {
          result := true;
        } else {
          result := NeedValidationOn(t.pointerTo, path, g);
        }
      case Generic =>
        result := NeedValidationOn(t.genericOf, path, g);
      case Array =>
        if t.nilSemantic == NilInvalid || t.validators.arraySet || t.validators.ogen != map[] {
          result := true;
        } else {
          result := NeedValidationOn(t.item, path, g);
        }
      case Struct =>
        if t.validators.ogen != map[] {
          result := true;
        } else {
          var types := FieldTypes(t.fields);
          result := AnyNeeds(types, path, g);
        }
      case Map =>
        if t.validators.objectSet || t.validators.ogen != map[] {
          result := true;
        } else {
          result := NeedValidationOn(t.item, path, g);
        }
      case _ =>
        result := false;
    }
  }

  // ContainsFunc over variants or over the types of fields.
  method AnyNeeds(types: seq<Type>, path: Walkpath, ghost g: Graph<Type>) returns (result: bool)
    requires Parted(g) && forall c :: c in types ==> c in g
    modifies path
    ensures path.nodes == old(path.nodes) && Parted(g)
    ensures result <==> exists c :: c in types && Needs(g, c, old(path.nodes))
    decreases g.Keys - path.nodes, 2
  {
    hide Needs, Parted;
    for i := 0 to |types|
      invariant path.nodes == old(path.nodes) && Parted(g)
      invariant forall c :: c in types[..i] ==> !Needs(g, c, old(path.nodes))
    {
      assert types[i] in types;
      result := NeedValidationOn(types[i], path, g);
      if result {
        return true;
      }
    }
    return false;
  }
}
