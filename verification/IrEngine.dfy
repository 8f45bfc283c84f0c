/**
The loop of Generate (internal/lowering/engine.go) that runs checkStructRecursions once for every
struct, and what holds of the types when it is through.
 */
module IrEngine {
  import opened Wrappers
  import opened Graphs
  import opened IrTypes
  import opened IrRecursion
  import opened IrBoxing

  // What the walks need to know about every struct; `alike(s, i)` is what DeepEqual takes for s when
  // its field i is looked at.
  ghost predicate AllSound(g: Graph<Type>, alike: (Type, nat) -> set<Type>, depth: map<Type, nat>) {
    forall s, i: nat {:trigger alike(s, i)} :: s in g && s.kind.Struct? ==> Sound(g, s, alike(s, i), depth)
  }

  ghost predicate AllSafe(g: Graph<Type>, structs: set<Type>)
    reads FieldsOf(structs)`typ
  {
    assert forall s, f :: s in structs && f in s.fields ==> f in FieldsOf(structs);
    forall s :: s in structs ==> Safe(g, s)
  }

  class Engine {
    var checkedRecursion: set<Type>
    // The structs whose check failed, in any call: they are marked as checked all the same.
    ghost var failed: set<Type>

    constructor ()
      ensures checkedRecursion == {} && failed == {}
    {
      checkedRecursion, failed := {}, {};
    }

    // Every struct checked so far is safe, by whatever call, but for those whose check failed; they are
    // not checked again, so a later call may succeed with one of them among its candidates.
    method CheckCandidates(candidates: seq<Type?>, alike: (Type, nat) -> set<Type>, names: map<Type, string>,
                           ghost g: Graph<Type>, ghost depth: map<Type, nat>)
      returns (r: Option<Error>, ghost h: Graph<Type>)
      requires Flat(g) && AllSound(g, alike, depth)
      requires forall c: Type :: c in candidates && c.kind.Struct? ==> c in g
      requires failed <= checkedRecursion <= g.Keys && AllSafe(g, checkedRecursion - failed)
      modifies this, FieldsOf(g.Keys)`typ
      ensures Flat(h) && Shrinks(g, h) && h.Keys == g.Keys
      ensures old(checkedRecursion) <= checkedRecursion <= g.Keys && failed <= checkedRecursion
      ensures AllSafe(h, checkedRecursion - failed)
      ensures forall f :: f in FieldsOf(g.Keys) && IsRequired(f) ==> f.typ == old(f.typ)
      ensures r.None? ==> failed == old(failed) && forall c: Type :: c in candidates && c.kind.Struct? ==> c in checkedRecursion
      ensures r.Some? ==> exists bad :: bad in candidates && bad !in old(checkedRecursion) && failed == old(failed) + {bad}
    {
      hide Flat, Shrinks, Safe, AllSound;
      h := g;
      ShrinksSelf(g);
      for k := 0 to |candidates|
        invariant Flat(h) && Shrinks(g, h) && h.Keys == g.Keys
        invariant old(checkedRecursion) <= checkedRecursion <= g.Keys
        invariant forall c: Type :: c in candidates[..k] && c.kind.Struct? ==> c in checkedRecursion
        invariant failed == old(failed) <= checkedRecursion && AllSafe(h, checkedRecursion - failed)
        invariant forall f :: f in FieldsOf(g.Keys) && IsRequired(f) ==> f.typ == old(f.typ)
      {
        var candidate := candidates[k];
        if candidate == null || !candidate.kind.Struct? {
          continue;
        }
        if candidate in checkedRecursion {
          continue;
        }
        assert candidate in candidates;
        ghost var before := h;
        AllSoundKeys(g, h, alike, depth);
        r, h := CheckCandidate(candidate, alike, names, h, depth);
        ShrinksTrans(g, before, h);
        if r.Some? {
          assert candidate in checkedRecursion;
          return;
        }
      }
      return None, h;
    }

    // One round of the loop.
    method CheckCandidate(candidate: Type, alike: (Type, nat) -> set<Type>, names: map<Type, string>,
                          ghost g: Graph<Type>, ghost depth: map<Type, nat>)
      returns (r: Option<Error>, ghost h: Graph<Type>)
      requires Flat(g) && AllSound(g, alike, depth)
      requires candidate in g && candidate.kind.Struct? && candidate !in checkedRecursion
      requires failed <= checkedRecursion <= g.Keys && AllSafe(g, checkedRecursion - failed)
      modifies this, FieldsOf(g.Keys)`typ
      ensures Flat(h) && Shrinks(g, h) && h.Keys == g.Keys
      ensures checkedRecursion == old(checkedRecursion) + {candidate}
      ensures failed == if r.None? then old(failed) else old(failed) + {candidate}
      ensures AllSafe(h, checkedRecursion - failed)
      ensures forall f :: f in FieldsOf(g.Keys) && IsRequired(f) ==> f.typ == old(f.typ)
    {
      hide Flat, FlatIn, PartsOf, ByValue, Shrinks, Safe, Sound, Rewritten;
      FlatAt(g, candidate);
      var mine := (i: nat) => alike(candidate, i);
      SoundFor(g, g, candidate, alike, mine, depth);
      CandidateFields(g, candidate);
      ghost var others := checkedRecursion - failed;
      checkedRecursion := checkedRecursion + {candidate};
      r, h := CheckStructRecursions(candidate, mine, names, g, depth);
      RewrittenIsHeld();
      assert forall f :: f in FieldsOf(g.Keys) ==> f.typ == old(f.typ) || Held(f.typ.kind);
      AllSafeKept(g, h, others);
      if r.Some? {
        failed := failed + {candidate};
      }
      assert checkedRecursion - failed == if r.None? then others + {candidate} else others;
    }
  }

  // A struct that requires itself, in any graph: its check fails, and so the next call does not check
  // it and succeeds, although the struct still holds itself by value.
  method FailedIsNotCheckedAgain(s: Type, field: Field, alike: (Type, nat) -> set<Type>, names: map<Type, string>,
                                 ghost g: Graph<Type>, ghost depth: map<Type, nat>)
    returns (first: Option<Error>, second: Option<Error>, ghost h: Graph<Type>)
    requires Flat(g) && AllSound(g, alike, depth)
    requires s in g && s.kind.Struct? && field in s.fields && IsRequired(field) && field.typ == s
    modifies FieldsOf(g.Keys)`typ
    ensures first.Some? && second.None?
    ensures Flat(h) && s in h && !Safe(h, s)
  {
    hide Flat, AllSound, Shrinks, Safe;
    var engine := new Engine();
    CandidateFields(g, s);
    NothingUnsafe(g);
    first, h := engine.CheckCandidates([s], alike, names, g, depth);
    HoldsItself(h, s, field);
    assert s in [s];
    SafeAt(h, engine.checkedRecursion - engine.failed, s);
    AllSoundKeys(g, h, alike, depth);
    second, h := engine.CheckCandidates([s], alike, names, h, depth);
    HoldsItself(h, s, field);
  }

  lemma NothingUnsafe(g: Graph<Type>)
    ensures AllSafe(g, {})
  {
  }

  lemma SafeAt(g: Graph<Type>, structs: set<Type>, s: Type)
    requires AllSafe(g, structs)
    ensures s in structs ==> Safe(g, s)
  {
    hide Safe;
  }

  // There is such a struct.
  method SelfRequiring() returns (s: Type, field: Field, ghost g: Graph<Type>)
    ensures s.kind.Struct? && field in s.fields && IsRequired(field) && field.typ == s
    ensures s in g && Flat(g) && AllSound(g, (t: Type, i: nat) => {t}, map[])
  {
    var nothing := new Type.StructOf([]);
    field := new Field(nothing, Some(Property(false, true)));
    s := new Type.StructOf([field]);
    field.typ := s;
    g := map[s := [s]];
  }

  lemma HoldsItself(h: Graph<Type>, s: Type, field: Field)
    requires s in h && s.kind.Struct? && field in s.fields && field.spec.Some? && field.typ == s
    ensures !Safe(h, s)
  {
    ReachesSelf(h, s, {});
    hide Reaches;
    assert !NotInto(h, s, s);
  }

  lemma AllSoundKeys(g: Graph<Type>, h: Graph<Type>, alike: (Type, nat) -> set<Type>, depth: map<Type, nat>)
    requires AllSound(g, alike, depth) && h.Keys == g.Keys
    ensures AllSound(h, alike, depth)
  {
  }

  lemma SoundFor(g: Graph<Type>, h: Graph<Type>, s: Type, alike: (Type, nat) -> set<Type>, mine: nat -> set<Type>,
                 depth: map<Type, nat>)
    requires AllSound(g, alike, depth) && s in g && s.kind.Struct? && h.Keys == g.Keys
    requires forall i: nat :: mine(i) == alike(s, i)
    ensures forall i: nat :: Sound(h, s, mine(i), depth)
  {
  }

  lemma CandidateFields(g: Graph<Type>, s: Type)
    requires s in g
    ensures forall f :: f in s.fields ==> f in FieldsOf(g.Keys)
  {
  }

  // Giving fields pointers leaves the structs safe that were.
  twostate lemma AllSafeKept(g: Graph<Type>, new h: Graph<Type>, new others: set<Type>)
    requires Closed(g) && Shrinks(g, h) && others <= g.Keys && old(AllSafe(g, others))
    requires forall f :: f in FieldsOf(g.Keys) ==> f.typ == old(f.typ) || Held(f.typ.kind)
    ensures AllSafe(h, others)
  {
    ShrinksKeepsNotInto(g, h);
    HeldIsSafe(h);
    hide NotInto, Shrinks;
    forall s, f | s in others && f in s.fields && f.spec.Some?
      ensures NotInto(h, s, f.typ)
    {
      assert f in FieldsOf(g.Keys) && old(Safe(g, s));
    }
  }

  // What safety means: no by-value cycle, through types of any kind and fields of any struct, leaves
  // a safe struct by one of its spec'd fields.
  lemma NoCycleThroughSpecdField(g: Graph<Type>, s: Type, w: seq<Type>, k: nat)
    requires Flat(g) && Safe(g, s)
    requires Walk(g, w) && w[0] == Last(w) && k < |w| - 1 && w[k] == s
    ensures forall f :: f in s.fields && f.spec.Some? ==> f.typ != w[k + 1]
  {
    CycleComesBack(g, w, k);
    FlatAt(g, w[k + 1]);
    hide Flat, Walk, Reaches;
    assert !NotInto(g, s, w[k + 1]);
  }
}
