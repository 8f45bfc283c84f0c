/**
When expansion leaves no internal reference: the references are acyclic (a rank decreases from a
reference to those inside its target), none is an item of a sequence, no sequence is an item of a
sequence, no target is itself a reference, and no target is a sequence with references. The source
follows none of the last four.
 */
module ExpandRefFree {
  import opened Wrappers
  import opened Expand
  import opened ExpandProofs

  ghost predicate Tame(n: Node) {
    match n
    case Scalar(_) => true
    case Mapping(entries) => forall e :: e in entries ==> Tame(e.value)
    case Sequence(items) => forall i :: i in items ==> Tame(i) && !i.Sequence? && InternalRef(i).None?
  }

  // Every reference inside has a rank below k.
  ghost predicate Below(rank: string -> nat, n: Node, k: nat) {
    forall s :: s in Refs(n) ==> rank(s) < k
  }

  ghost predicate Expandable(syntax: Syntax, root: Node, rank: string -> nat) {
    && Sound(syntax, root) && Tame(root) && InternalRef(root).None?
    && forall r :: r in Refs(root) ==>
         var target := Resolve(syntax, root, r);
         && target.Some? && InternalRef(target.value).None?
         && Below(rank, target.value, rank(r))
         && (target.value.Sequence? ==> Refs(target.value) == {})
  }

  // In such a document a node stands for itself or for the target of the reference it is.
  lemma ShortHops(syntax: Syntax, root: Node, rank: string -> nat, a: Node, b: Node) returns (u: Node)
    requires Expandable(syntax, root, rank) && Inside(syntax, root, a) && Stands(syntax, root, a, b)
    ensures Inside(syntax, root, u) && Like(syntax, root, u, b)
    ensures u == a || (InternalRef(a).Some? && Resolve(syntax, root, InternalRef(a).value) == Some(u))
  {
    var hops, m := Leads(syntax, root, a, b);
    u := m;
    if hops > 0 {
      InsideResolve(syntax, root, a);
      assert InternalRef(a).value in Refs(root) by { InsideRef(syntax, root, a); }
    }
  }

  lemma PartRefs(n: Node, i: nat)
    requires Part(n, i).Some?
    ensures Refs(Part(n, i).value) <= Refs(n)
    ensures Tame(n) ==> Tame(Part(n, i).value)
  {
    match n
    case Mapping(entries) => assert entries[i] in entries;
    case Sequence(items) => assert items[i] in items;
  }

  // Rewriting keeps a tree tame and its references low.
  lemma {:induction false} LikeKeeps(syntax: Syntax, root: Node, rank: string -> nat, a: Node, b: Node, k: nat)
    requires Expandable(syntax, root, rank) && Inside(syntax, root, a) && Like(syntax, root, a, b)
    requires Tame(a) && Below(rank, a, k)
    ensures Tame(b) && Below(rank, b, k)
    decreases b, 0
  {
    LikeRef(syntax, root, a, b);
    match b
    case Scalar(_) =>
    case Mapping(entries) =>
      forall e | e in entries
        ensures Tame(e.value) && Below(rank, e.value, k)
      {
        var i :| 0 <= i < |entries| && entries[i] == e;
        PartRefs(a, i);
        InsidePart(syntax, root, a, i);
        StandsKeeps(syntax, root, rank, Part(a, i).value, e.value, k);
      }
    case Sequence(items) =>
      forall x | x in items
        ensures Tame(x) && Below(rank, x, k) && !x.Sequence? && InternalRef(x).None?
      {
        var i :| 0 <= i < |items| && items[i] == x;
        PartRefs(a, i);
        InsidePart(syntax, root, a, i);
        assert a.items[i] in a.items;
        StandsKeeps(syntax, root, rank, Part(a, i).value, x, k);
        var u := ShortHops(syntax, root, rank, a.items[i], x);
        LikeRef(syntax, root, u, x);
      }
  }

  lemma {:induction false} StandsKeeps(syntax: Syntax, root: Node, rank: string -> nat, a: Node, b: Node, k: nat)
    requires Expandable(syntax, root, rank) && Inside(syntax, root, a) && Stands(syntax, root, a, b)
    requires Tame(a) && Below(rank, a, k)
    ensures Tame(b) && Below(rank, b, k)
    decreases b, 1
  {
    var u := ShortHops(syntax, root, rank, a, b);
    if u != a {
      var r := InternalRef(a).value;
      assert r in Refs(a);
      InsideRef(syntax, root, a);
      assert Below(rank, u, rank(r));
      WalkTame(syntax, root, syntax.tokens(r).value);
    }
    LikeKeeps(syntax, root, rank, u, b, k);
  }

  ghost function EntryRefs(es: seq<Entry>): set<string> {
    set e, r | e in es && r in Refs(e.value) :: r
  }

  ghost function ItemRefs(ns: seq<Node>): set<string> {
    set n, r | n in ns && r in Refs(n) :: r
  }

  lemma MappingRefs(n: Node)
    requires n.Mapping? && InternalRef(n).None?
    ensures Refs(n) == EntryRefs(n.entries)
  {
  }

  lemma SequenceRefs(n: Node)
    requires n.Sequence?
    ensures Refs(n) == ItemRefs(n.items)
  {
  }

  lemma EntryRefsAround(before: seq<Entry>, e: Entry, after: seq<Entry>)
    ensures EntryRefs(before + [e]) == EntryRefs(before) + Refs(e.value)
    ensures EntryRefs([e] + after) == Refs(e.value) + EntryRefs(after)
  {
    assert forall x :: x in before + [e] <==> x in before || x == e;
    assert forall x :: x in [e] + after <==> x == e || x in after;
  }

  lemma ItemRefsAround(left: seq<Node>, n: Node, right: seq<Node>)
    ensures ItemRefs(left + [n]) == ItemRefs(left) + Refs(n)
    ensures ItemRefs([n] + right) == Refs(n) + ItemRefs(right)
  {
    assert forall x :: x in left + [n] <==> x in left || x == n;
    assert forall x :: x in [n] + right <==> x == n || x in right;
  }

  // All references are ranked below those under expansion.
  ghost predicate BelowSeen(rank: string -> nat, refs: set<string>, seen: set<string>) {
    forall s, t :: s in refs && t in seen ==> rank(s) < rank(t)
  }

  lemma {:induction false} MappingIsFree(
    syntax: Syntax, root: Node, rank: string -> nat, m: Node, place: Place, n: Node, seen: set<string>, all: set<string>)
    requires Expandable(syntax, root, rank)
    requires Inside(syntax, root, m) && Like(syntax, root, m, n) && Fits(syntax, root, place, m)
    requires PlaceStrings(place) <= all && Strings(n) <= all
    requires Tame(n) && InternalRef(n).None? && (n.Sequence? ==> Refs(n) == {}) && BelowSeen(rank, Refs(n), seen)
    ensures ExpandMapping(syntax, place, n, seen, all).Ok?
    ensures Refs(ExpandMapping(syntax, place, n, seen, all).value) == {}
    decreases |all - seen|, true, n, 1
  {
    ExpandableIsSound(syntax, root, rank);
    if n.Mapping? {
      MappingParts(syntax, root, m, n);
      hide Like, Expandable, Inside, Fits, Strings, Tame, Refs, Sound;
      MappingStaysLike(syntax, root, m, place, n, seen, all);
      var result := ExpandMapping(syntax, place, n, seen, all).value;
      MappingRefs(n);
      SameRef(syntax, root, m, n);
      SameRef(syntax, root, m, result);
      MappingRefs(result);
      assert [] + m.entries == m.entries;
      EntriesAreFree(syntax, root, rank, [], m.entries, place, [], n.entries, seen, all);
    }
  }

  lemma MappingParts(syntax: Syntax, root: Node, m: Node, n: Node)
    requires n.Mapping? && Like(syntax, root, m, n)
    ensures m.Mapping? && EntriesStand(syntax, root, m.entries, n.entries)
    ensures EntriesStand(syntax, root, [], [])
    ensures Tame(n) ==> forall e :: e in n.entries ==> Tame(e.value)
  {
  }

  lemma SameRef(syntax: Syntax, root: Node, m: Node, n: Node)
    requires Inside(syntax, root, m) && Like(syntax, root, m, n)
    ensures InternalRef(m) == InternalRef(n)
  {
    LikeRef(syntax, root, m, n);
  }

  lemma {:induction false} EntriesAreFree(
    syntax: Syntax, root: Node, rank: string -> nat, done: seq<Entry>, todo: seq<Entry>,
    up: Place, before: seq<Entry>, after: seq<Entry>, seen: set<string>, all: set<string>)
    requires Expandable(syntax, root, rank)
    requires Inside(syntax, root, Mapping(done + todo)) && Fits(syntax, root, up, Mapping(done + todo))
    requires EntriesStand(syntax, root, done, before) && EntriesStand(syntax, root, todo, after)
    requires PlaceStrings(up) <= all && EntryStrings(before) <= all && EntryStrings(after) <= all
    requires EntryRefs(before) == {} && BelowSeen(rank, EntryRefs(after), seen)
    requires forall e :: e in after ==> Tame(e.value)
    ensures ExpandEntries(syntax, up, before, after, seen, all).Ok?
    ensures EntryRefs(ExpandEntries(syntax, up, before, after, seen, all).value) == {}
    decreases |all - seen|, true, after, 3
  {
    hide EntriesStand, Stands, Like, Expandable, Inside, Fits, Strings, ExpandValue, Refs, Tame, Sound, EntryRefs;
    if after != [] {
      EntriesUnfold(syntax, up, before, after, seen, all);
      hide ExpandEntries, PlaceStrings;
      EntryRefsAround([], after[0], after[1..]);
      EntriesStandSplit(syntax, root, todo, after);
      var e, x := after[0], todo[0];
      assert e in after && forall y :: y in after[1..] ==> y in after;
      assert [e] + after[1..] == after;
      assert done + [x] + todo[1..] == done + todo;
      ExpandableIsSound(syntax, root, rank);
      EntryStands(syntax, root, done, x, todo[1..], up, before, e, after[1..], seen, all);
      EntryIsFree(syntax, root, rank, done, x, todo[1..], up, before, e, after[1..], seen, all);
      var value := ExpandValue(syntax, InEntry(up, before, e.key, after[1..]), e.value, seen, all).value;
      EntriesStandAppend(syntax, root, done, before, x, Entry(e.key, value));
      assert (done + [x]) + todo[1..] == done + todo;
      EntryRefsAround(before, Entry(e.key, value), []);
      EntriesAreFree(syntax, root, rank, done + [x], todo[1..], up, before + [Entry(e.key, value)], after[1..], seen, all);
    }
  }

  lemma ExpandableIsSound(syntax: Syntax, root: Node, rank: string -> nat)
    requires Expandable(syntax, root, rank)
    ensures Sound(syntax, root) && WellFormed(syntax, root, root)
  {
  }

  lemma {:induction false} EntryIsFree(
    syntax: Syntax, root: Node, rank: string -> nat, done: seq<Entry>, x: Entry, todo: seq<Entry>,
    up: Place, before: seq<Entry>, e: Entry, after: seq<Entry>, seen: set<string>, all: set<string>)
    requires Expandable(syntax, root, rank)
    requires Inside(syntax, root, Mapping(done + [x] + todo)) && Fits(syntax, root, up, Mapping(done + [x] + todo))
    requires EntriesStand(syntax, root, done, before) && EntriesStand(syntax, root, todo, after)
    requires e.key == x.key && Stands(syntax, root, x.value, e.value)
    requires PlaceStrings(InEntry(up, before, e.key, after)) <= all && Strings(e.value) <= all
    requires Tame(e.value) && BelowSeen(rank, Refs(e.value), seen)
    ensures ExpandValue(syntax, InEntry(up, before, e.key, after), e.value, seen, all).Ok?
    ensures Refs(ExpandValue(syntax, InEntry(up, before, e.key, after), e.value, seen, all).value) == {}
    decreases |all - seen|, true, e, 3
  {
    ExpandableIsSound(syntax, root, rank);
    var m, hops := EntryPlace(syntax, root, done, x, todo, up, before, e, after);
    hide Stands, Like, Fits, Strings, Tame, Refs, Expandable, Inside, PlaceStrings, ExpandValue, EntriesStand;
    ValueIsFree(syntax, root, rank, m, InEntry(up, before, e.key, after), e.value, seen, all);
  }

  lemma {:induction false} ItemsAreFree(
    syntax: Syntax, root: Node, rank: string -> nat, done: seq<Node>, todo: seq<Node>,
    up: Place, left: seq<Node>, right: seq<Node>, seen: set<string>, all: set<string>)
    requires Expandable(syntax, root, rank)
    requires Inside(syntax, root, Sequence(done + todo)) && Fits(syntax, root, up, Sequence(done + todo))
    requires ItemsStand(syntax, root, done, left) && ItemsStand(syntax, root, todo, right)
    requires PlaceStrings(up) <= all && ItemStrings(left) <= all && ItemStrings(right) <= all
    requires ItemRefs(left) == {} && BelowSeen(rank, ItemRefs(right), seen)
    requires forall i :: i in right ==> Tame(i) && !i.Sequence? && InternalRef(i).None?
    ensures ExpandItems(syntax, up, left, right, seen, all).Ok?
    ensures ItemRefs(ExpandItems(syntax, up, left, right, seen, all).value) == {}
    decreases |all - seen|, true, right, 0
  {
    hide Like, Expandable, Inside, Tame, Refs, Sound, ItemRefs, Strings, Fits, ExpandMapping;
    if right != [] {
      ItemsUnfold(syntax, up, left, right, seen, all);
      hide ExpandItems, PlaceStrings;
      ItemRefsAround([], right[0], right[1..]);
      assert [right[0]] + right[1..] == right;
      var n, x := right[0], todo[0];
      assert n in right && forall y :: y in right[1..] ==> y in right;
      assert done + [x] + todo[1..] == done + todo;
      ExpandableIsSound(syntax, root, rank);
      var m, hops := ItemPlace(syntax, root, done, x, todo[1..], up, left, n, right[1..]);
      hide Stands;
      var place := InItem(up, left, right[1..]);
      MappingStaysLike(syntax, root, m, place, n, seen, all);
      MappingIsFree(syntax, root, rank, m, place, n, seen, all);
      var item := ExpandMapping(syntax, place, n, seen, all).value;
      LikeStands(syntax, root, x, m, item, hops);
      assert (done + [x]) + todo[1..] == done + todo;
      ItemRefsAround(left, item, []);
      ItemsAreFree(syntax, root, rank, done + [x], todo[1..], up, left + [item], right[1..], seen, all);
    }
  }

  lemma {:induction false} ValueIsFree(
    syntax: Syntax, root: Node, rank: string -> nat, m: Node, place: Place, v: Node, seen: set<string>, all: set<string>)
    requires Expandable(syntax, root, rank)
    requires Inside(syntax, root, m) && Like(syntax, root, m, v) && Fits(syntax, root, place, m)
    requires PlaceStrings(place) <= all && Strings(v) <= all
    requires Tame(v) && BelowSeen(rank, Refs(v), seen)
    ensures ExpandValue(syntax, place, v, seen, all).Ok?
    ensures Refs(ExpandValue(syntax, place, v, seen, all).value) == {}
    decreases |all - seen|, true, v, 2
  {
    hide Like, Expandable, Inside, Tame, Refs, Sound, Strings, Fits, ExpandItems, ExpandMapping, ResolveRef, PlaceStrings;
    match v
    case Scalar(_) => ScalarRefs(v);
    case Sequence(items) =>
      SequenceRefs(v);
      SequenceParts(syntax, root, m, v);
      NothingInside();
      assert [] + m.items == m.items;
      ItemsAreFree(syntax, root, rank, [], m.items, place, [], items, seen, all);
      SequenceRefs(ExpandValue(syntax, place, v, seen, all).value);
    case Mapping(_) =>
      var ref := InternalRef(v);
      if ref.None? {
        MappingIsFree(syntax, root, rank, m, place, v, seen, all);
      } else {
        hide InternalRef, Document;
        SameRef(syntax, root, m, v);
        InsideRef(syntax, root, m);
        RefIsString(v);
        DocumentStrings(place, v);
        RefInRefs(v);
        FitsHere(syntax, root, place, m, v);
        RefIsFree(syntax, root, rank, Document(place, v), ref.value, seen, all);
      }
  }

  lemma ScalarRefs(n: Node)
    requires n.Scalar?
    ensures Refs(n) == {}
  {
  }

  lemma NothingInside()
    ensures ItemStrings([]) == {} && ItemRefs([]) == {}
  {
  }

  lemma SequenceParts(syntax: Syntax, root: Node, m: Node, n: Node)
    requires n.Sequence? && Like(syntax, root, m, n)
    ensures m.Sequence? && ItemsStand(syntax, root, m.items, n.items)
    ensures ItemsStand(syntax, root, [], [])
    ensures Tame(n) ==> forall i :: i in n.items ==> Tame(i) && !i.Sequence? && InternalRef(i).None?
  {
  }

  lemma RefInRefs(n: Node)
    ensures InternalRef(n).Some? ==> InternalRef(n).value in Refs(n)
  {
  }

  lemma FitsHere(syntax: Syntax, root: Node, place: Place, m: Node, n: Node)
    requires Fits(syntax, root, place, m) && Like(syntax, root, m, n)
    ensures Like(syntax, root, root, Document(place, n))
  {
  }

  lemma {:induction false} RefIsFree(
    syntax: Syntax, root: Node, rank: string -> nat, current: Node, ref: string, seen: set<string>, all: set<string>)
    requires Expandable(syntax, root, rank) && Like(syntax, root, root, current) && ref in Refs(root)
    requires Strings(current) <= all && ref in all
    requires forall t :: t in seen ==> rank(ref) < rank(t)
    ensures ResolveRef(syntax, current, ref, seen, all).Ok?
    ensures ResolveRef(syntax, current, ref, seen, all).value.Some?
    ensures Refs(ResolveRef(syntax, current, ref, seen, all).value.value) == {}
    decreases |all - seen|, false
  {
    hide ExpandMapping, Refs, Strings, Sound, Inside, Walk, Resolve, PlaceStrings, Expandable, Tame, Stands, Like;
    assert ref !in seen;
    TargetIsReady(syntax, root, rank, current, ref);
    var u, t := Resolve(syntax, root, ref).value, Resolve(syntax, current, ref).value;
    assert Fits(syntax, root, Detached(current), u);
    DetachedStrings(current);
    ResolveStrings(syntax, current, ref);
    SeenGrows(all, seen, ref);
    MappingIsFree(syntax, root, rank, u, Detached(current), t, seen + {ref}, all);
  }

  lemma TargetIsReady(syntax: Syntax, root: Node, rank: string -> nat, current: Node, ref: string)
    requires Expandable(syntax, root, rank) && Like(syntax, root, root, current) && ref in Refs(root)
    ensures Resolve(syntax, root, ref).Some? && Resolve(syntax, current, ref).Some?
    ensures var u, t := Resolve(syntax, root, ref).value, Resolve(syntax, current, ref).value;
            && Inside(syntax, root, u) && Like(syntax, root, u, t)
            && Tame(t) && InternalRef(t).None? && Below(rank, t, rank(ref)) && (t.Sequence? ==> Refs(t) == {})
  {
    ResolveCorresponds(syntax, root, current, ref);
    var u, t := Resolve(syntax, root, ref).value, Resolve(syntax, current, ref).value;
    var w := ShortHops(syntax, root, rank, u, t);
    WalkTame(syntax, root, syntax.tokens(ref).value);
    LikeKeeps(syntax, root, rank, u, t, rank(ref));
    if u.Sequence? { LikeKeeps(syntax, root, rank, u, t, 0); }
    LikeRef(syntax, root, u, t);
  }

  lemma {:induction false} WalkTame(syntax: Syntax, n: Node, tokens: seq<string>)
    requires Tame(n) && Walk(syntax, n, tokens).Some?
    ensures Tame(Walk(syntax, n, tokens).value)
    decreases tokens
  {
    if tokens != [] {
      PartRefs(n, if n.Mapping? then Find(n.entries, tokens[0]).value else syntax.index(tokens[0]).value);
      WalkTame(syntax, Child(syntax, n, tokens[0]).value, tokens[1..]);
    }
  }

  lemma FreeHasNoReference(n: Node)
    requires Refs(n) == {}
    ensures forall path, r :: Sub(n, path).Some? ==> !RefersTo(Sub(n, path).value, r)
  {
    hide RefersTo;
    forall path, r | Sub(n, path).Some?
      ensures !RefersTo(Sub(n, path).value, r)
    {
      SubRefs(n, path);
      ReferenceIs(Sub(n, path).value);
      RefInRefs(Sub(n, path).value);
    }
  }

  // The node at a path.
  function Sub(n: Node, path: seq<nat>): Option<Node>
    decreases |path|
  {
    if path == [] then Some(n)
    else if Part(n, path[0]).None? then None
    else Sub(Part(n, path[0]).value, path[1..])
  }

  lemma {:induction false} SubRefs(n: Node, path: seq<nat>)
    requires Sub(n, path).Some?
    ensures Refs(Sub(n, path).value) <= Refs(n)
    decreases |path|
  {
    if path != [] {
      PartRefs(n, path[0]);
      SubRefs(Part(n, path[0]).value, path[1..]);
    }
  }

  // Main theorem: nothing is left to expand, and no mapping anywhere in the result looks like a reference.
  lemma ExpandLeavesNoReference(syntax: Syntax, root: Node, rank: string -> nat)
    requires Expandable(syntax, root, rank) && !root.Sequence?
    ensures ExpandDocument(syntax, Some(root)).Ok?
    ensures Refs(ExpandDocument(syntax, Some(root)).value) == {}
    ensures forall path, r :: Sub(ExpandDocument(syntax, Some(root)).value, path).Some? ==>
              !RefersTo(Sub(ExpandDocument(syntax, Some(root)).value, path).value, r)
  {
    LikeItself(syntax, root, root);
    MappingIsFree(syntax, root, rank, root, Whole, root, {}, Strings(root));
    hide ExpandMapping, Expandable;
    FreeHasNoReference(ExpandDocument(syntax, Some(root)).value);
  }

  // Two of the conditions are not stated by the source: a target that is a sequence or itself a
  // reference is copied as it stands.
  lemma TargetCopiedVerbatim(syntax: Syntax, root: Node, ref: string, seen: set<string>, all: set<string>)
    requires Strings(root) <= all && ref in all && ref !in seen
    requires Resolve(syntax, root, ref).Some?
    ensures var target := Resolve(syntax, root, ref).value;
            && (target.Sequence? ==> ResolveRef(syntax, root, ref, seen, all) == Ok(Some(target)))
            && (target.Mapping? && InternalRef(target).Some? && (forall e :: e in target.entries ==> e.value.Scalar?) ==>
                  ResolveRef(syntax, root, ref, seen, all) == Ok(Some(target)))
  {
    ResolveStrings(syntax, root, ref);
    DetachedStrings(root);
    SeenGrows(all, seen, ref);
    var target := Resolve(syntax, root, ref).value;
    if target.Sequence? || (target.Mapping? && forall e :: e in target.entries ==> e.value.Scalar?) {
      CopiedVerbatim(syntax, Detached(root), target, seen + {ref}, all);
    }
    hide PlaceStrings, Resolve, InternalRef, ExpandMapping, Strings;
  }

  lemma CopiedVerbatim(syntax: Syntax, place: Place, n: Node, seen: set<string>, all: set<string>)
    requires PlaceStrings(place) <= all && Strings(n) <= all
    requires n.Mapping? ==> forall e :: e in n.entries ==> e.value.Scalar?
    ensures ExpandMapping(syntax, place, n, seen, all) == Ok(n)
  {
    if n.Mapping? {
      assert EntryStrings([]) == {} && EntryStrings(n.entries) == Strings(n);
      hide Strings, ExpandEntries;
      ScalarEntries(syntax, place, [], n.entries, seen, all);
      assert [] + n.entries == n.entries;
    }
  }

  lemma {:induction false} ScalarEntries(syntax: Syntax, up: Place, before: seq<Entry>, after: seq<Entry>, seen: set<string>, all: set<string>)
    requires PlaceStrings(up) <= all && EntryStrings(before) <= all && EntryStrings(after) <= all
    requires forall e :: e in after ==> e.value.Scalar?
    ensures ExpandEntries(syntax, up, before, after, seen, all) == Ok(before + after)
    decreases after
  {
    if after == [] {
      assert before + after == before;
    } else {
      EntriesUnfold(syntax, up, before, after, seen, all);
      assert after[0] in after && forall e :: e in after[1..] ==> e in after;
      ScalarEntries(syntax, up, before + [after[0]], after[1..], seen, all);
      assert before + [after[0]] + after[1..] == before + after;
    }
  }
}
