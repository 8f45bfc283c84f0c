/**
RecursiveTo (internal/ir/recursion.go): whether a by-value walk from a type comes to a struct or goes
round in a circle.
 */
module IrRecursion {
  import opened Wrappers
  import opened Graphs
  import opened IrTypes
  import opened IrValidation

  // Types that hold no other type by value.
  predicate Held(k: Kind) {
    k in {Primitive, Enum, Any, Pointer, Array, Map}
  }

  // Kinds the walk panics on.
  predicate Unexpected(k: Kind) {
    k in {Const, Interface, Stream}
  }

  function ByValue(t: Type): seq<Type>
    reads t.fields`typ
  {
    match t.kind
    case Alias => Some1(t.aliasTo)
    case Generic => Some1(t.genericOf)
    case Struct => FieldTypes(t.fields)
    case Sum => t.sumOf
    case _ => []
  }

  ghost function PartsOf(types: set<Type>): map<Type, seq<Type>>
    reads FieldsOf(types)`typ
  {
    assert forall t, f :: t in types && f in t.fields ==> f in FieldsOf(types);
    map t | t in types :: ByValue(t)
  }

  ghost predicate FlatIn(g: Graph<Type>, parts: map<Type, seq<Type>>) {
    && Closed(g) && g.Keys == parts.Keys
    && (forall t :: t in g ==> !Held(t.kind) && WellFormed(t))
    && (forall t: Type, c: Type :: t in g && c in g[t] ==> c in parts[t])
    && (forall t: Type, c: Type :: t in g && c in parts[t] && !Held(c.kind) ==> c in g[t])
  }

  // g has the types that can hold others by value, with what they hold now.
  ghost predicate Flat(g: Graph<Type>)
    reads FieldsOf(g.Keys)`typ
  {
    FlatIn(g, PartsOf(g.Keys))
  }

  lemma FlatAt(g: Graph<Type>, t: Type)
    requires Flat(g) && t in g
    ensures Closed(g) && !Held(t.kind) && WellFormed(t)
    ensures forall c :: c in g[t] <==> c in ByValue(t) && !Held(c.kind)
    ensures forall c :: c in g[t] ==> c in g
    ensures Unexpected(t.kind) ==> ByValue(t) == []
  {
  }

  // The edges of such a graph, kind by kind: what u holds by value and what in turn can hold others.
  lemma FlatEdges(g: Graph<Type>, u: Type, c: Type)
    requires Flat(g) && u in g
    ensures c in g[u] <==>
            && c.kind !in {Primitive, Enum, Any, Pointer, Array, Map}
            && (|| (u.kind == Alias && u.aliasTo == c)
                || (u.kind == Generic && u.genericOf == c)
                || (u.kind == Struct && exists f :: f in u.fields && f.typ == c)
                || (u.kind == Sum && c in u.sumOf))
    ensures u.kind !in {Primitive, Enum, Any, Pointer, Array, Map}
    ensures Unexpected(u.kind) <==> u.kind !in {Alias, Generic, Struct, Sum}
  {
    FlatAt(g, u);
    hide Flat;
    if u.kind.Struct? {
      var types := ByValue(u);
      assert forall i :: 0 <= i < |types| ==> types[i] == u.fields[i].typ;
    }
  }

  // t holds u by value: it is an alias of it, a wrapper of it, or a sum with it as a variant.
  predicate Holds(t: Type, u: Type) {
    || (t.kind == Alias && t.aliasTo == u)
    || (t.kind == Generic && t.genericOf == u)
    || (t.kind == Sum && u in t.sumOf)
  }

  predicate AllHold(w: seq<Type>) {
    forall i {:trigger w[i]} :: 0 < i < |w| ==> Holds(w[i - 1], w[i])
  }

  lemma HoldsIsEdge(g: Graph<Type>, t: Type, u: Type)
    requires Flat(g) && t in g && Holds(t, u) && !Held(u.kind)
    ensures u in g[t] && u in g
  {
    FlatEdges(g, t, u);
    FlatAt(g, t);
  }

  lemma {:induction false} HoldsIsWalk(g: Graph<Type>, w: seq<Type>)
    requires Flat(g) && w != [] && AllHold(w) && w[0] in g && !Held(Last(w).kind)
    ensures WalkTo(g, w[0], Last(w), {}, w)
  {
    hide Flat;
    if |w| > 1 {
      assert Holds(w[0], w[1]);
      if |w| > 2 { assert Holds(w[1], w[2]); }
      HoldsIsEdge(g, w[0], w[1]);
      hide Holds, Held;
      assert AllHold(w[1..]);
      HoldsIsWalk(g, w[1..]);
      WalkPrepend(g, w[0], w[1..]);
      assert [w[0]] + w[1..] == w;
    }
  }

  // ----- RecursiveTo -----

  datatype Outcome = Yes | No | Panic

  ghost predicate ReachesUnexpected(g: Graph<Type>, t: Type) {
    exists u :: u in g && Unexpected(u.kind) && Reaches(g, t, u, {})
  }

  lemma ReachesUnexpectedUnfold(g: Graph<Type>, t: Type)
    requires Closed(g) && t in g
    ensures ReachesUnexpected(g, t) <==> Unexpected(t.kind) || exists c :: c in g[t] && ReachesUnexpected(g, c)
  {
    if ReachesUnexpected(g, t) {
      var u :| u in g && Unexpected(u.kind) && Reaches(g, t, u, {});
      ReachesUnfold(g, t, u, {});
      if u != t {
        var c :| c in g[t] && Reaches(g, c, u, {} + {t});
        ReachesWeaken(g, c, u, {} + {t}, {});
      }
    }
    if Unexpected(t.kind) {
      ReachesSelf(g, t, {});
    } else if c :| c in g[t] && ReachesUnexpected(g, c) {
      var u :| u in g && Unexpected(u.kind) && Reaches(g, c, u, {});
      ReachesPrepend(g, t, c, u, {});
    }
  }

  // What the walk from `target` answers: "no" exactly when no by-value walk from it ends at a goal,
  // comes back to a type on its way, or meets an unexpected kind.
  ghost predicate Answers(o: Outcome, g: Graph<Type>, target: Type, goal: set<Type>, path: set<Type>) {
    if Held(target.kind) then o == No
    else
      && (o == No <==> !Hits(g, target, goal, path) && !ReachesUnexpected(g, target))
      && (o == Yes ==> Hits(g, target, goal, path))
      && (o == Panic ==> ReachesUnexpected(g, target))
  }

  // RecursiveTo; `alike` are the types reflect.DeepEqual takes for t.
  method RecursiveTo(t: Type, target: Type, alike: set<Type>, ghost g: Graph<Type>) returns (o: Outcome)
    requires Flat(g) && t in alike && (Held(target.kind) || target in g)
    ensures Flat(g)
    ensures if Held(t.kind) then o == No else Answers(o, g, target, alike, {})
  {
    hide Answers, Flat;
    var path := new Walkpath();
    assert forall f :: f in FieldsOf(g.Keys) ==> f.typ == old(f.typ);
    o := Recursive(t, target, path, alike, g);
  }

  // recursive.
  method Recursive(t: Type, target: Type, path: Walkpath, alike: set<Type>, ghost g: Graph<Type>) returns (o: Outcome)
    requires Flat(g) && t in alike && (Held(target.kind) || target in g)
    modifies path
    ensures path.nodes == old(path.nodes) && Flat(g)
    ensures if Held(t.kind) then o == No else Answers(o, g, target, alike, old(path.nodes))
    decreases g.Keys - path.nodes, 1
  {
    hide Answers, Flat;
    if Held(t.kind) || Held(target.kind) {
      AnswersHeld(g, target, alike, path.nodes);
      return No;
    }
    FlatAt(g, target);
    if t == target || target in alike {
      AnswersAtOnce(g, target, alike, path.nodes);
      return Yes;
    }
    if path.Has(target) {
      AnswersAtOnce(g, target, alike, path.nodes);
      return Yes;
    }
    path.Add(target);
    assert forall f :: f in FieldsOf(g.Keys) ==> f.typ == old(f.typ);
    o := RecursiveBelow(t, target, path, alike, g, old(path.nodes));
    path.Delete(target);
  }

  // The switch over kinds, with the target already on the path.
  method RecursiveBelow(t: Type, target: Type, path: Walkpath, alike: set<Type>, ghost g: Graph<Type>,
                        ghost above: set<Type>) returns (o: Outcome)
    requires Flat(g) && t in alike && !Held(t.kind) && target in g && target !in alike
    requires target !in above && path.nodes == above + {target}
    modifies path
    ensures path.nodes == old(path.nodes) && Flat(g)
    ensures Answers(o, g, target, alike, above)
    decreases g.Keys - path.nodes, 3
  {
    hide Answers, Flat;
    FlatAt(g, target);
    var parts := ByValue(target);
    assert forall c :: c in parts && !Held(c.kind) ==> c in g[target];
    if target.kind in {Alias, Generic, Struct, Sum} {
      o := AnyRecursive(t, parts, path, alike, g);
    } else {
      o := Panic;
    }
    AnswersFromParts(o, g, target, parts, alike, above);
  }

  lemma AnswersHeld(g: Graph<Type>, target: Type, goal: set<Type>, path: set<Type>)
    ensures Held(target.kind) ==> Answers(No, g, target, goal, path)
  {
  }

  lemma AnswersAtOnce(g: Graph<Type>, target: Type, goal: set<Type>, path: set<Type>)
    requires Closed(g) && target in g && !Held(target.kind) && (target in goal || target in path)
    ensures Answers(Yes, g, target, goal, path)
  {
    HitsUnfold(g, target, goal, path);
  }

  // What the answers for the parts make of the whole.
  lemma AnswersFromParts(o: Outcome, g: Graph<Type>, target: Type, parts: seq<Type>, goal: set<Type>, path: set<Type>)
    requires Closed(g) && target in g && !Held(target.kind) && target !in goal && target !in path
    requires forall c :: c in g[target] <==> c in parts && !Held(c.kind)
    requires Unexpected(target.kind) ==> o == Panic && parts == []
    requires !Unexpected(target.kind) ==>
               && (o == No <==> forall c :: c in parts ==> Answers(No, g, c, goal, path + {target}))
               && (o != No ==> exists c :: c in parts && Answers(o, g, c, goal, path + {target}))
    ensures Answers(o, g, target, goal, path)
  {
    HitsUnfold(g, target, goal, path);
    ReachesUnexpectedUnfold(g, target);
    hide Hits, ReachesUnexpected;
    if o == No {
      forall c | c in g[target]
        ensures !Hits(g, c, goal, path + {target}) && !ReachesUnexpected(g, c)
      {
        assert Answers(No, g, c, goal, path + {target});
      }
    }
  }

  // The recursive calls, up to the first that does not answer "no".
  method AnyRecursive(t: Type, parts: seq<Type>, path: Walkpath, alike: set<Type>, ghost g: Graph<Type>) returns (o: Outcome)
    requires Flat(g) && t in alike && !Held(t.kind) && forall c :: c in parts ==> Held(c.kind) || c in g
    modifies path
    ensures path.nodes == old(path.nodes) && Flat(g)
    ensures o == No <==> forall c :: c in parts ==> Answers(No, g, c, alike, path.nodes)
    ensures o != No ==> exists c :: c in parts && Answers(o, g, c, alike, path.nodes)
    decreases g.Keys - path.nodes, 2
  {
    hide Flat, Answers;
    for i := 0 to |parts|
      invariant path.nodes == old(path.nodes) && Flat(g)
      invariant forall c :: c in parts[..i] ==> Answers(No, g, c, alike, path.nodes)
    {
      assert parts[i] in parts;
      o := Recursive(t, parts[i], path, alike, g);
      if o != No {
        AnswersOnce(o, g, parts[i], alike, path.nodes);
        return;
      }
    }
    return No;
  }

  lemma AnswersOnce(o: Outcome, g: Graph<Type>, target: Type, goal: set<Type>, path: set<Type>)
    requires Answers(o, g, target, goal, path) && o != No
    ensures !Answers(No, g, target, goal, path)
  {
  }
}
