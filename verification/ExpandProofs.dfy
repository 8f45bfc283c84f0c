/**
Expansion keeps the meaning of a document. The meaning is its unfolding: what a reader sees who
walks down from the root and replaces every reference met on the way by its target, forever if
the references are recursive.
 */
module ExpandProofs {
  import opened Wrappers
  import opened Expand

  // ----- Assumptions on the document -----

  // The pointer into the document that a scalar is.
  function PointerOf(n: Node): Option<string> {
    if n.Scalar? && IsInternal(n.value) then Some(n.value) else None
  }

  // Following references from n, one never comes to a pointer.
  ghost predicate NoPointerBehind(syntax: Syntax, root: Node, n: Node) {
    forall hops: nat :: hops > 0 && Hop(syntax, root, n, hops).Some? ==> PointerOf(Hop(syntax, root, n, hops).value).None?
  }

  // Where "$ref" has no other keys than its companions beside it, it holds no reference to a pointer:
  // replacing that reference by the pointer would make a new reference.
  ghost predicate WellFormed(syntax: Syntax, root: Node, n: Node)
    decreases n
  {
    match n
    case Scalar(_) => true
    case Mapping(entries) =>
      && (forall e :: e in entries ==> WellFormed(syntax, root, e.value))
      && ((forall e :: e in entries ==> IsCompanion(e.key)) ==>
            forall e :: e in entries && e.key == REF ==> NoPointerBehind(syntax, root, e.value))
    case Sequence(items) => forall i :: i in items ==> WellFormed(syntax, root, i)
  }

  // The internal references of a tree.
  ghost function Refs(n: Node): set<string> {
    (if InternalRef(n).Some? then {InternalRef(n).value} else {}) +
    match n
    case Scalar(_) => {}
    case Mapping(entries) => set e, r | e in entries && r in Refs(e.value) :: r
    case Sequence(items) => set i, r | i in items && r in Refs(i) :: r
  }

  // Resolution along a path on which no reference has to be crossed.
  ghost function PlainWalk(syntax: Syntax, n: Node, tokens: seq<string>): Option<Node>
    decreases tokens
  {
    if tokens == [] then Some(n)
    else if InternalRef(n).Some? then None
    else
      var c := Child(syntax, n, tokens[0]);
      if c.None? then None else PlainWalk(syntax, c.value, tokens[1..])
  }

  ghost predicate Plain(syntax: Syntax, root: Node, ref: string) {
    syntax.tokens(ref).Some? && PlainWalk(syntax, root, syntax.tokens(ref).value).Some?
  }

  // Every internal reference resolves without crossing another one.
  ghost predicate Sound(syntax: Syntax, root: Node) {
    WellFormed(syntax, root, root) && forall r :: r in Refs(root) ==> Plain(syntax, root, r)
  }

  // ----- The unfolding -----

  datatype Label = ScalarLabel(value: string) | MappingLabel(keys: seq<Node>) | SequenceLabel(length: nat)

  // `Running`: more reference hops are needed. `Broken`: there is nothing at that position.
  datatype Sight = Running | Broken | At(what: Label)

  function Keys(es: seq<Entry>): seq<Node> {
    seq(|es|, i requires 0 <= i < |es| => es[i].key)
  }

  function LabelOf(n: Node): Label {
    match n
    case Scalar(value) => ScalarLabel(value)
    case Mapping(entries) => MappingLabel(Keys(entries))
    case Sequence(items) => SequenceLabel(|items|)
  }

  function Part(n: Node, i: nat): Option<Node> {
    match n
    case Scalar(_) => None
    case Mapping(entries) => if i < |entries| then Some(entries[i].value) else None
    case Sequence(items) => if i < |items| then Some(items[i]) else None
  }

  // What is seen at `path` below `n` with at most `hops` reference hops.
  ghost function Look(syntax: Syntax, root: Node, n: Node, path: seq<nat>, hops: nat): Sight
    decreases hops, |path|
  {
    if InternalRef(n).Some? then
      if hops == 0 then Running
      else
        var target := Resolve(syntax, root, InternalRef(n).value);
        if target.None? then Broken else Look(syntax, root, target.value, path, hops - 1)
    else if path == [] then At(LabelOf(n))
    else
      var part := Part(n, path[0]);
      if part.None? then Broken else Look(syntax, root, part.value, path[1..], hops)
  }

  ghost predicate Sees(syntax: Syntax, root: Node, path: seq<nat>, sight: Sight) {
    exists hops: nat :: Look(syntax, root, root, path, hops) == sight
  }

  ghost predicate SameUnfolding(syntax: Syntax, a: Node, b: Node) {
    forall path, sight :: sight != Running ==> (Sees(syntax, a, path, sight) <==> Sees(syntax, b, path, sight))
  }

  // ----- The relation between the original document and its rewritten states -----

  // Follows exactly `hops` references in the original document.
  ghost function Hop(syntax: Syntax, root: Node, n: Node, hops: nat): Option<Node>
    decreases hops
  {
    if hops == 0 then Some(n)
    else if InternalRef(n).None? then None
    else
      var target := Resolve(syntax, root, InternalRef(n).value);
      if target.None? then None else Hop(syntax, root, target.value, hops - 1)
  }

  // b is a with some references, at any depth below the top, replaced by what they lead to.
  ghost predicate Like(syntax: Syntax, root: Node, a: Node, b: Node)
    decreases b, 0
  {
    match b
    case Scalar(_) => a == b
    case Mapping(entries) =>
      && a.Mapping? && |a.entries| == |entries|
      && forall i :: 0 <= i < |entries| ==>
           && a.entries[i].key == entries[i].key
           && Stands(syntax, root, a.entries[i].value, entries[i].value)
    case Sequence(items) =>
      && a.Sequence? && |a.items| == |items|
      && forall i :: 0 <= i < |items| ==> Stands(syntax, root, a.items[i], items[i])
  }

  // b stands for a: it is like what a leads to after some hops.
  ghost predicate Stands(syntax: Syntax, root: Node, a: Node, b: Node)
    decreases b, 1
  {
    exists hops: nat ::
      && Hop(syntax, root, a, hops).Some?
      && Like(syntax, root, Hop(syntax, root, a, hops).value, b)
  }

  lemma {:induction false} LikeItself(syntax: Syntax, root: Node, n: Node)
    ensures Like(syntax, root, n, n)
    ensures Stands(syntax, root, n, n)
    decreases n
  {
    match n {
      case Scalar(_) =>
      case Mapping(entries) =>
        forall i | 0 <= i < |entries|
          ensures Stands(syntax, root, entries[i].value, entries[i].value)
        {
          LikeItself(syntax, root, entries[i].value);
        }
      case Sequence(items) =>
        forall i | 0 <= i < |items|
          ensures Stands(syntax, root, items[i], items[i])
        {
          LikeItself(syntax, root, items[i]);
        }
    }
    LikeStands(syntax, root, n, n, n, 0);
  }

  lemma LikeStands(syntax: Syntax, root: Node, a: Node, y: Node, b: Node, hops: nat)
    requires Hop(syntax, root, a, hops) == Some(y) && Like(syntax, root, y, b)
    ensures Stands(syntax, root, a, b)
  {
  }

  lemma Leads(syntax: Syntax, root: Node, a: Node, b: Node) returns (hops: nat, m: Node)
    requires Stands(syntax, root, a, b)
    ensures Hop(syntax, root, a, hops) == Some(m) && Like(syntax, root, m, b)
  {
    hops :| Hop(syntax, root, a, hops).Some? && Like(syntax, root, Hop(syntax, root, a, hops).value, b);
    m := Hop(syntax, root, a, hops).value;
  }

  lemma {:induction false} HopFurther(syntax: Syntax, root: Node, a: Node, hops: nat, more: nat)
    requires Hop(syntax, root, a, hops).Some?
    ensures Hop(syntax, root, a, hops + more) == Hop(syntax, root, Hop(syntax, root, a, hops).value, more)
    decreases hops
  {
    if hops > 0 {
      HopFurther(syntax, root, Resolve(syntax, root, InternalRef(a).value).value, hops - 1, more);
    }
  }

  // What stands for a node is the same pointer, if any.
  lemma SamePointer(syntax: Syntax, root: Node, a: Node, b: Node)
    requires Stands(syntax, root, a, b) && NoPointerBehind(syntax, root, a)
    ensures PointerOf(a) == PointerOf(b)
  {
    var hops, m := Leads(syntax, root, a, b);
    assert PointerOf(m) == PointerOf(b);
    assert hops > 0 ==> PointerOf(a).None? && PointerOf(m).None?;
  }

  // Like trees are the same reference, if any.
  lemma LikeRef(syntax: Syntax, root: Node, a: Node, b: Node)
    requires WellFormed(syntax, root, a) && Like(syntax, root, a, b)
    ensures InternalRef(a) == InternalRef(b)
  {
    if b.Mapping? {
      assert forall i :: 0 <= i < |b.entries| ==> a.entries[i].key == b.entries[i].key;
      SameCompanions(a.entries, b.entries);
      if forall e :: e in a.entries ==> IsCompanion(e.key) {
        forall i | 0 <= i < |b.entries| && a.entries[i].key == REF
          ensures PointerOf(a.entries[i].value) == PointerOf(b.entries[i].value)
        {
          assert a.entries[i] in a.entries;
          SamePointer(syntax, root, a.entries[i].value, b.entries[i].value);
        }
        hide Like, WellFormed;
        SameLastRef(a.entries, b.entries);
      }
    }
  }

  lemma SameCompanions(a: seq<Entry>, b: seq<Entry>)
    requires |a| == |b| && forall i :: 0 <= i < |a| ==> a[i].key == b[i].key
    ensures (forall e :: e in a ==> IsCompanion(e.key)) <==> (forall e :: e in b ==> IsCompanion(e.key))
  {
    hide IsCompanion;
    assert (forall e :: e in a ==> IsCompanion(e.key)) <==> (forall i :: 0 <= i < |a| ==> IsCompanion(a[i].key));
    assert (forall e :: e in b ==> IsCompanion(e.key)) <==> (forall i :: 0 <= i < |b| ==> IsCompanion(b[i].key));
  }

  lemma {:induction false} SameLastRef(a: seq<Entry>, b: seq<Entry>)
    requires |a| == |b|
    requires forall i :: 0 <= i < |a| ==> a[i].key == b[i].key && (a[i].key == REF ==> PointerOf(a[i].value) == PointerOf(b[i].value))
    ensures LastRef(a) == LastRef(b)
  {
    if a != [] {
      SameLastRef(a[..|a| - 1], b[..|b| - 1]);
    }
  }

  lemma {:induction false} SameFind(a: seq<Entry>, b: seq<Entry>, name: string)
    requires |a| == |b|
    requires forall i :: 0 <= i < |a| ==> a[i].key == b[i].key
    ensures Find(a, name) == Find(b, name)
  {
    if a != [] {
      SameFind(a[1..], b[1..], name);
    }
  }

  lemma LikeLabel(syntax: Syntax, root: Node, a: Node, b: Node)
    requires Like(syntax, root, a, b)
    ensures LabelOf(a) == LabelOf(b)
    ensures forall i: nat :: Part(a, i).Some? <==> Part(b, i).Some?
    ensures forall i: nat :: Part(a, i).Some? ==> Stands(syntax, root, Part(a, i).value, Part(b, i).value)
  {
    if a.Mapping? { assert Keys(a.entries) == Keys(b.entries); }
  }

  // A pointer finds the corresponding node in every rewritten state.
  lemma {:induction false} WalkCorresponds(syntax: Syntax, root: Node, a: Node, b: Node, tokens: seq<string>)
    requires Stands(syntax, root, a, b) && (tokens == [] || Like(syntax, root, a, b))
    requires PlainWalk(syntax, a, tokens).Some?
    ensures Walk(syntax, b, tokens).Some?
    ensures Stands(syntax, root, PlainWalk(syntax, a, tokens).value, Walk(syntax, b, tokens).value)
    ensures PlainWalk(syntax, a, tokens) == Walk(syntax, a, tokens)
    decreases tokens
  {
    if tokens != [] {
      if a.Mapping? { SameFind(a.entries, b.entries, tokens[0]); }
      var c, d := Child(syntax, a, tokens[0]).value, Child(syntax, b, tokens[0]).value;
      assert Stands(syntax, root, c, d);
      if tokens[1..] != [] {
        assert InternalRef(c).None?;
        assert Like(syntax, root, c, d);
      }
      WalkCorresponds(syntax, root, c, d, tokens[1..]);
    }
  }

  // A subtree of the original document shares its assumptions.
  ghost predicate Inside(syntax: Syntax, root: Node, n: Node) {
    WellFormed(syntax, root, n) && Refs(n) <= Refs(root)
  }

  lemma InsideRef(syntax: Syntax, root: Node, n: Node)
    requires Inside(syntax, root, n) && InternalRef(n).Some?
    ensures InternalRef(n).value in Refs(root)
  {
  }

  lemma InsidePart(syntax: Syntax, root: Node, n: Node, i: nat)
    requires Inside(syntax, root, n) && Part(n, i).Some?
    ensures Inside(syntax, root, Part(n, i).value)
  {
    match n
    case Mapping(entries) => assert entries[i] in entries;
    case Sequence(items) => assert items[i] in items;
  }

  lemma {:induction false} InsideWalk(syntax: Syntax, root: Node, n: Node, tokens: seq<string>)
    requires Inside(syntax, root, n) && Walk(syntax, n, tokens).Some?
    ensures Inside(syntax, root, Walk(syntax, n, tokens).value)
    decreases tokens
  {
    if tokens != [] {
      var i := if n.Mapping? then Find(n.entries, tokens[0]).value else syntax.index(tokens[0]).value;
      InsidePart(syntax, root, n, i);
      InsideWalk(syntax, root, Child(syntax, n, tokens[0]).value, tokens[1..]);
    }
  }

  lemma {:induction false} InsideHop(syntax: Syntax, root: Node, n: Node, hops: nat)
    requires WellFormed(syntax, root, root) && Inside(syntax, root, n) && Hop(syntax, root, n, hops).Some?
    ensures Inside(syntax, root, Hop(syntax, root, n, hops).value)
    decreases hops
  {
    if hops > 0 {
      assert Inside(syntax, root, root);
      hide Inside, WellFormed, Refs, Walk, InternalRef;
      InsideWalk(syntax, root, root, syntax.tokens(InternalRef(n).value).value);
      InsideHop(syntax, root, Resolve(syntax, root, InternalRef(n).value).value, hops - 1);
    }
  }

  // Both documents resolve a reference of the original one, to nodes that correspond.
  lemma ResolveCorresponds(syntax: Syntax, root: Node, current: Node, ref: string)
    requires Sound(syntax, root) && Like(syntax, root, root, current) && ref in Refs(root)
    ensures Resolve(syntax, root, ref).Some? && Resolve(syntax, current, ref).Some?
    ensures Inside(syntax, root, Resolve(syntax, root, ref).value)
    ensures Stands(syntax, root, Resolve(syntax, root, ref).value, Resolve(syntax, current, ref).value)
  {
    var tokens := syntax.tokens(ref).value;
    LikeStands(syntax, root, root, root, current, 0);
    WalkCorresponds(syntax, root, root, current, tokens);
    InsideWalk(syntax, root, root, tokens);
  }

  // ----- Every state of the rewriting corresponds to the original -----

  ghost predicate EntriesStand(syntax: Syntax, root: Node, a: seq<Entry>, b: seq<Entry>) {
    && |a| == |b|
    && forall i :: 0 <= i < |a| ==> a[i].key == b[i].key && Stands(syntax, root, a[i].value, b[i].value)
  }

  ghost predicate ItemsStand(syntax: Syntax, root: Node, a: seq<Node>, b: seq<Node>) {
    && |a| == |b|
    && forall i :: 0 <= i < |a| ==> Stands(syntax, root, a[i], b[i])
  }

  // Whatever is like `m` can hang at that place: the document still corresponds to the original.
  ghost predicate Fits(syntax: Syntax, root: Node, place: Place, m: Node) {
    forall n :: Like(syntax, root, m, n) ==> Like(syntax, root, root, Document(place, n))
  }

  lemma EntryFits(syntax: Syntax, root: Node, up: Place, done: seq<Entry>, x: Entry, todo: seq<Entry>,
                  before: seq<Entry>, after: seq<Entry>, m: Node, hops: nat)
    requires Fits(syntax, root, up, Mapping(done + [x] + todo))
    requires EntriesStand(syntax, root, done, before) && EntriesStand(syntax, root, todo, after)
    requires Hop(syntax, root, x.value, hops) == Some(m)
    ensures Fits(syntax, root, InEntry(up, before, x.key, after), m)
  {
    forall n | Like(syntax, root, m, n)
      ensures Like(syntax, root, root, Document(InEntry(up, before, x.key, after), n))
    {
      LikeStands(syntax, root, x.value, m, n, hops);
      assert Like(syntax, root, Mapping(done + [x] + todo), Mapping(before + [Entry(x.key, n)] + after));
    }
  }

  lemma ItemFits(syntax: Syntax, root: Node, up: Place, done: seq<Node>, x: Node, todo: seq<Node>,
                 left: seq<Node>, right: seq<Node>, m: Node, hops: nat)
    requires Fits(syntax, root, up, Sequence(done + [x] + todo))
    requires ItemsStand(syntax, root, done, left) && ItemsStand(syntax, root, todo, right)
    requires Hop(syntax, root, x, hops) == Some(m)
    ensures Fits(syntax, root, InItem(up, left, right), m)
  {
    forall n | Like(syntax, root, m, n)
      ensures Like(syntax, root, root, Document(InItem(up, left, right), n))
    {
      LikeStands(syntax, root, x, m, n, hops);
      SequenceLike(syntax, root, done, x, todo, left, n, right);
      hide Like, Stands, ItemsStand;
    }
  }

  lemma SequenceLike(syntax: Syntax, root: Node, done: seq<Node>, x: Node, todo: seq<Node>,
                     left: seq<Node>, n: Node, right: seq<Node>)
    requires ItemsStand(syntax, root, done, left) && ItemsStand(syntax, root, todo, right)
    requires Stands(syntax, root, x, n)
    ensures Like(syntax, root, Sequence(done + [x] + todo), Sequence(left + [n] + right))
  {
    hide Stands;
  }

  // Expanding keeps a node like its original and never fails, in the midst of any rewriting.
  lemma {:induction false} MappingStaysLike(
    syntax: Syntax, root: Node, m: Node, place: Place, n: Node, seen: set<string>, all: set<string>)
    requires Sound(syntax, root) && Inside(syntax, root, m) && Like(syntax, root, m, n) && Fits(syntax, root, place, m)
    requires PlaceStrings(place) <= all && Strings(n) <= all
    ensures ExpandMapping(syntax, place, n, seen, all).Ok?
    ensures Like(syntax, root, m, ExpandMapping(syntax, place, n, seen, all).value)
    decreases |all - seen|, true, n, 1
  {
    if n.Mapping? {
      MappingLike(syntax, root, m, n);
      EntriesStandNothing(syntax, root);
      assert [] + m.entries == m.entries;
      hide Like, EntriesStand, ExpandEntries, Sound, Inside, Fits, Strings, PlaceStrings;
      NothingBefore(n);
      EntriesStayLike(syntax, root, [], m.entries, place, [], n.entries, seen, all);
      MappingLike(syntax, root, m, Mapping(ExpandEntries(syntax, place, [], n.entries, seen, all).value));
    }
  }

  lemma MappingLike(syntax: Syntax, root: Node, m: Node, n: Node)
    requires n.Mapping?
    ensures Like(syntax, root, m, n) <==> m.Mapping? && EntriesStand(syntax, root, m.entries, n.entries)
  {
    hide Stands;
  }

  lemma EntriesStandNothing(syntax: Syntax, root: Node)
    ensures EntriesStand(syntax, root, [], [])
  {
  }

  lemma NothingBefore(n: Node)
    requires n.Mapping?
    ensures EntryStrings([]) == {} && EntryStrings(n.entries) == Strings(n)
  {
  }

  lemma {:induction false} EntriesStayLike(
    syntax: Syntax, root: Node, done: seq<Entry>, todo: seq<Entry>,
    up: Place, before: seq<Entry>, after: seq<Entry>, seen: set<string>, all: set<string>)
    requires Sound(syntax, root) && Inside(syntax, root, Mapping(done + todo)) && Fits(syntax, root, up, Mapping(done + todo))
    requires EntriesStand(syntax, root, done, before) && EntriesStand(syntax, root, todo, after)
    requires PlaceStrings(up) <= all && EntryStrings(before) <= all && EntryStrings(after) <= all
    ensures ExpandEntries(syntax, up, before, after, seen, all).Ok?
    ensures EntriesStand(syntax, root, done + todo, ExpandEntries(syntax, up, before, after, seen, all).value)
    decreases |all - seen|, true, after, 3
  {
    hide EntriesStand, Stands, Like, Sound, Inside, Fits, Strings, ExpandValue;
    if after == [] {
      EmptyEntries(syntax, root, todo, after);
      assert done + todo == done;
    } else {
      EntriesUnfold(syntax, up, before, after, seen, all);
      EntriesStandSplit(syntax, root, todo, after);
      hide ExpandEntries;
      var e, x := after[0], todo[0];
      assert done + [x] + todo[1..] == done + todo;
      EntryStands(syntax, root, done, x, todo[1..], up, before, e, after[1..], seen, all);
      var value := ExpandValue(syntax, InEntry(up, before, e.key, after[1..]), e.value, seen, all).value;
      EntriesStandAppend(syntax, root, done, before, x, Entry(e.key, value));
      assert (done + [x]) + todo[1..] == done + todo;
      EntriesStayLike(syntax, root, done + [x], todo[1..], up, before + [Entry(e.key, value)], after[1..], seen, all);
    }
  }

  lemma EmptyEntries(syntax: Syntax, root: Node, a: seq<Entry>, b: seq<Entry>)
    requires EntriesStand(syntax, root, a, b) && b == []
    ensures a == []
  {
  }

  lemma EntriesStandSplit(syntax: Syntax, root: Node, a: seq<Entry>, b: seq<Entry>)
    requires EntriesStand(syntax, root, a, b) && b != []
    ensures |a| == |b| && a[0].key == b[0].key && Stands(syntax, root, a[0].value, b[0].value)
    ensures EntriesStand(syntax, root, a[1..], b[1..])
  {
  }

  lemma EntriesStandAppend(syntax: Syntax, root: Node, a: seq<Entry>, b: seq<Entry>, x: Entry, y: Entry)
    requires EntriesStand(syntax, root, a, b) && x.key == y.key && Stands(syntax, root, x.value, y.value)
    ensures EntriesStand(syntax, root, a + [x], b + [y])
  {
  }

  lemma {:induction false} EntryStands(
    syntax: Syntax, root: Node, done: seq<Entry>, x: Entry, todo: seq<Entry>,
    up: Place, before: seq<Entry>, e: Entry, after: seq<Entry>, seen: set<string>, all: set<string>)
    requires Sound(syntax, root) && Inside(syntax, root, Mapping(done + [x] + todo)) && Fits(syntax, root, up, Mapping(done + [x] + todo))
    requires EntriesStand(syntax, root, done, before) && EntriesStand(syntax, root, todo, after)
    requires e.key == x.key && Stands(syntax, root, x.value, e.value)
    requires PlaceStrings(InEntry(up, before, e.key, after)) <= all && Strings(e.value) <= all
    ensures var place := InEntry(up, before, e.key, after);
            && ExpandValue(syntax, place, e.value, seen, all).Ok?
            && Stands(syntax, root, x.value, ExpandValue(syntax, place, e.value, seen, all).value)
    decreases |all - seen|, true, e, 3
  {
    var m, hops := EntryPlace(syntax, root, done, x, todo, up, before, e, after);
    hide Stands, Like, Fits, Strings, Inside, Sound, PlaceStrings, ExpandValue, EntriesStand;
    ValueStands(syntax, root, m, InEntry(up, before, e.key, after), e.value, seen, all);
    StandsFurther(syntax, root, x.value, hops, ExpandValue(syntax, InEntry(up, before, e.key, after), e.value, seen, all).value);
  }

  // The node that an entry's value is like, and that fits where the value hangs.
  lemma EntryPlace(syntax: Syntax, root: Node, done: seq<Entry>, x: Entry, todo: seq<Entry>,
                   up: Place, before: seq<Entry>, e: Entry, after: seq<Entry>) returns (m: Node, hops: nat)
    requires Sound(syntax, root) && Inside(syntax, root, Mapping(done + [x] + todo)) && Fits(syntax, root, up, Mapping(done + [x] + todo))
    requires EntriesStand(syntax, root, done, before) && EntriesStand(syntax, root, todo, after)
    requires e.key == x.key && Stands(syntax, root, x.value, e.value)
    ensures Hop(syntax, root, x.value, hops) == Some(m)
    ensures Inside(syntax, root, m) && Like(syntax, root, m, e.value) && Fits(syntax, root, InEntry(up, before, e.key, after), m)
  {
    InsidePart(syntax, root, Mapping(done + [x] + todo), |done|);
    hops, m := Leads(syntax, root, x.value, e.value);
    hide Like, Stands, Fits;
    EntryFits(syntax, root, up, done, x, todo, before, after, m, hops);
    InsideHop(syntax, root, x.value, hops);
  }

  lemma StandsFurther(syntax: Syntax, root: Node, a: Node, hops: nat, b: Node)
    requires Hop(syntax, root, a, hops).Some? && Stands(syntax, root, Hop(syntax, root, a, hops).value, b)
    ensures Stands(syntax, root, a, b)
  {
    var m := Hop(syntax, root, a, hops).value;
    var more, y := Leads(syntax, root, m, b);
    HopFurther(syntax, root, a, hops, more);
    LikeStands(syntax, root, a, y, b, hops + more);
  }

  lemma {:induction false} ItemsStayLike(
    syntax: Syntax, root: Node, done: seq<Node>, todo: seq<Node>,
    up: Place, left: seq<Node>, right: seq<Node>, seen: set<string>, all: set<string>)
    requires Sound(syntax, root) && Inside(syntax, root, Sequence(done + todo)) && Fits(syntax, root, up, Sequence(done + todo))
    requires ItemsStand(syntax, root, done, left) && ItemsStand(syntax, root, todo, right)
    requires PlaceStrings(up) <= all && ItemStrings(left) <= all && ItemStrings(right) <= all
    ensures ExpandItems(syntax, up, left, right, seen, all).Ok?
    ensures ItemsStand(syntax, root, done + todo, ExpandItems(syntax, up, left, right, seen, all).value)
    decreases |all - seen|, true, right, 0
  {
    hide Like, Sound, Inside, Fits, Strings, ExpandMapping;
    if right == [] {
      assert done + todo == done;
    } else {
      ItemsUnfold(syntax, up, left, right, seen, all);
      hide ExpandItems;
      var n, x := right[0], todo[0];
      assert done + [x] + todo[1..] == done + todo;
      var m, hops := ItemPlace(syntax, root, done, x, todo[1..], up, left, n, right[1..]);
      hide Stands;
      var place := InItem(up, left, right[1..]);
      MappingStaysLike(syntax, root, m, place, n, seen, all);
      var item := ExpandMapping(syntax, place, n, seen, all).value;
      LikeStands(syntax, root, x, m, item, hops);
      assert (done + [x]) + todo[1..] == done + todo;
      ItemsStayLike(syntax, root, done + [x], todo[1..], up, left + [item], right[1..], seen, all);
    }
  }

  lemma ItemPlace(syntax: Syntax, root: Node, done: seq<Node>, x: Node, todo: seq<Node>,
                  up: Place, left: seq<Node>, n: Node, right: seq<Node>) returns (m: Node, hops: nat)
    requires Sound(syntax, root) && Inside(syntax, root, Sequence(done + [x] + todo)) && Fits(syntax, root, up, Sequence(done + [x] + todo))
    requires ItemsStand(syntax, root, done, left) && ItemsStand(syntax, root, todo, right)
    requires Stands(syntax, root, x, n)
    ensures Hop(syntax, root, x, hops) == Some(m)
    ensures Inside(syntax, root, m) && Like(syntax, root, m, n) && Fits(syntax, root, InItem(up, left, right), m)
  {
    InsidePart(syntax, root, Sequence(done + [x] + todo), |done|);
    hops, m := Leads(syntax, root, x, n);
    hide Like, Stands, Fits;
    ItemFits(syntax, root, up, done, x, todo, left, right, m, hops);
    InsideHop(syntax, root, x, hops);
  }

  lemma {:induction false} ValueStands(
    syntax: Syntax, root: Node, m: Node, place: Place, v: Node, seen: set<string>, all: set<string>)
    requires Sound(syntax, root) && Inside(syntax, root, m) && Like(syntax, root, m, v) && Fits(syntax, root, place, m)
    requires PlaceStrings(place) <= all && Strings(v) <= all
    ensures ExpandValue(syntax, place, v, seen, all).Ok?
    ensures Stands(syntax, root, m, ExpandValue(syntax, place, v, seen, all).value)
    decreases |all - seen|, true, v, 2
  {
    LikeStands(syntax, root, m, m, v, 0);
    match v
    case Scalar(_) =>
    case Sequence(items) =>
      assert [] + m.items == m.items;
      ItemsStayLike(syntax, root, [], m.items, place, [], items, seen, all);
      LikeStands(syntax, root, m, m, ExpandValue(syntax, place, v, seen, all).value, 0);
    case Mapping(_) =>
      LikeRef(syntax, root, m, v);
      var ref := InternalRef(v);
      if ref.None? {
        MappingStaysLike(syntax, root, m, place, v, seen, all);
        LikeStands(syntax, root, m, m, ExpandValue(syntax, place, v, seen, all).value, 0);
      } else {
        ReferenceStands(syntax, root, m, place, v, ref.value, seen, all);
      }
  }

  lemma OneHop(syntax: Syntax, root: Node, m: Node, ref: string)
    requires InternalRef(m) == Some(ref)
    ensures Hop(syntax, root, m, 1) == Resolve(syntax, root, ref)
  {
    if Resolve(syntax, root, ref).Some? {
      assert Hop(syntax, root, Resolve(syntax, root, ref).value, 0) == Resolve(syntax, root, ref);
    }
  }

  lemma {:induction false} ReferenceStands(
    syntax: Syntax, root: Node, m: Node, place: Place, v: Node, ref: string, seen: set<string>, all: set<string>)
    requires Sound(syntax, root) && Inside(syntax, root, m) && Like(syntax, root, m, v) && Fits(syntax, root, place, m)
    requires PlaceStrings(place) <= all && Strings(v) <= all && v.Mapping? && InternalRef(v) == Some(ref)
    ensures ExpandValue(syntax, place, v, seen, all).Ok?
    ensures Stands(syntax, root, m, ExpandValue(syntax, place, v, seen, all).value)
    decreases |all - seen|, true, v, 1
  {
    LikeStands(syntax, root, m, m, v, 0);
    LikeRef(syntax, root, m, v);
    InsideRef(syntax, root, m);
    assert Like(syntax, root, root, Document(place, v));
    hide Like, Stands, Fits, Inside, Sound, Refs, Strings, PlaceStrings, ExpandValue, Document, InternalRef;
    RefIsString(v);
    DocumentStrings(place, v);
    RefStands(syntax, root, Document(place, v), ref, seen, all);
    ReferenceUnfold(syntax, place, v, ref, seen, all);
    var target := ResolveRef(syntax, Document(place, v), ref, seen, all).value;
    if target.Some? {
      OneHop(syntax, root, m, ref);
      StandsFurther(syntax, root, m, 1, target.value);
    }
  }

  // A reference is replaced by what it resolves to, unless it is cut.
  lemma ReferenceUnfold(syntax: Syntax, place: Place, v: Node, ref: string, seen: set<string>, all: set<string>)
    requires PlaceStrings(place) <= all && Strings(v) <= all && v.Mapping? && InternalRef(v) == Some(ref)
    requires Strings(Document(place, v)) <= all && ref in all
    requires ResolveRef(syntax, Document(place, v), ref, seen, all).Ok?
    ensures var target := ResolveRef(syntax, Document(place, v), ref, seen, all).value;
            ExpandValue(syntax, place, v, seen, all) == Ok(if target.Some? then target.value else v)
  {
  }

  lemma SoundIsWellFormed(syntax: Syntax, root: Node)
    requires Sound(syntax, root)
    ensures WellFormed(syntax, root, root)
  {
  }

  lemma DetachedStrings(root: Node)
    ensures PlaceStrings(Detached(root)) == Strings(root)
  {
  }

  lemma ResolveStrings(syntax: Syntax, root: Node, ref: string)
    ensures Resolve(syntax, root, ref).Some? ==> Strings(Resolve(syntax, root, ref).value) <= Strings(root)
  {
    if Resolve(syntax, root, ref).Some? { WalkStrings(syntax, root, syntax.tokens(ref).value); }
  }

  lemma {:induction false} RefStands(
    syntax: Syntax, root: Node, current: Node, ref: string, seen: set<string>, all: set<string>)
    requires Sound(syntax, root) && Like(syntax, root, root, current) && ref in Refs(root)
    requires Strings(current) <= all && ref in all
    ensures Resolve(syntax, root, ref).Some?
    ensures ResolveRef(syntax, current, ref, seen, all).Ok?
    ensures ResolveRef(syntax, current, ref, seen, all).value.Some? ==>
              Stands(syntax, root, Resolve(syntax, root, ref).value, ResolveRef(syntax, current, ref, seen, all).value.value)
    decreases |all - seen|, false
  {
    hide ExpandMapping, Like, Stands, Refs, Strings, Sound, Inside, Walk, Resolve, PlaceStrings;
    ResolveCorresponds(syntax, root, current, ref);
    if ref !in seen {
      var u, t := Resolve(syntax, root, ref).value, Resolve(syntax, current, ref).value;
      var hops, m := Leads(syntax, root, u, t);
      assert Fits(syntax, root, Detached(current), m);
      DetachedStrings(current);
      SoundIsWellFormed(syntax, root);
      InsideHop(syntax, root, u, hops);
      ResolveStrings(syntax, current, ref);
      SeenGrows(all, seen, ref);
      MappingStaysLike(syntax, root, m, Detached(current), t, seen + {ref}, all);
      LikeStands(syntax, root, u, m, ExpandMapping(syntax, Detached(current), t, seen + {ref}, all).value, hops);
    }
  }

  // ----- What corresponds unfolds alike -----

  // Like nodes that are references lead to nodes that correspond,
  lemma ReferencePair(syntax: Syntax, root: Node, current: Node, a: Node, b: Node)
    requires Sound(syntax, root) && Like(syntax, root, root, current)
    requires Inside(syntax, root, a) && Like(syntax, root, a, b)
    ensures InternalRef(a) == InternalRef(b)
    ensures InternalRef(a).Some? ==>
              var ref := InternalRef(a).value;
              && Resolve(syntax, root, ref).Some? && Resolve(syntax, current, ref).Some?
              && Inside(syntax, root, Resolve(syntax, root, ref).value)
              && Stands(syntax, root, Resolve(syntax, root, ref).value, Resolve(syntax, current, ref).value)
  {
    LikeRef(syntax, root, a, b);
    hide Like;
    if InternalRef(a).Some? {
      ResolveCorresponds(syntax, root, current, InternalRef(a).value);
    }
  }

  // and other like nodes look alike and have parts that correspond.
  lemma PlainPair(syntax: Syntax, root: Node, a: Node, b: Node, path: seq<nat>)
    requires Inside(syntax, root, a) && Like(syntax, root, a, b)
    ensures LabelOf(a) == LabelOf(b)
    ensures path != [] ==> (Part(a, path[0]).Some? <==> Part(b, path[0]).Some?)
    ensures path != [] && Part(a, path[0]).Some? ==>
              && Inside(syntax, root, Part(a, path[0]).value)
              && Stands(syntax, root, Part(a, path[0]).value, Part(b, path[0]).value)
  {
    LikeLabel(syntax, root, a, b);
    if path != [] && Part(a, path[0]).Some? { InsidePart(syntax, root, a, path[0]); }
  }

  lemma {:induction false} LookForth(syntax: Syntax, root: Node, current: Node, a: Node, b: Node, path: seq<nat>, hops: nat)
    returns (more: nat)
    requires Sound(syntax, root) && Like(syntax, root, root, current)
    requires Inside(syntax, root, a) && Stands(syntax, root, a, b)
    requires Look(syntax, root, a, path, hops) != Running
    ensures Look(syntax, current, b, path, more) == Look(syntax, root, a, path, hops)
    decreases hops, |path|
  {
    hide Like, Stands, Sound, Inside, Resolve, LabelOf, InternalRef, Part;
    var k, m := Leads(syntax, root, a, b);
    if k > 0 {
      var u := Resolve(syntax, root, InternalRef(a).value).value;
      InsideResolve(syntax, root, a);
      LikeStands(syntax, root, u, m, b, k - 1);
      more := LookForth(syntax, root, current, u, b, path, hops - 1);
    } else {
      ReferencePair(syntax, root, current, a, b);
      PlainPair(syntax, root, a, b, path);
      var ref := InternalRef(a);
      if ref.Some? {
        more := LookForth(syntax, root, current, Resolve(syntax, root, ref.value).value,
                          Resolve(syntax, current, ref.value).value, path, hops - 1);
        more := more + 1;
      } else if path != [] && Part(a, path[0]).Some? {
        more := LookForth(syntax, root, current, Part(a, path[0]).value, Part(b, path[0]).value, path[1..], hops);
      } else {
        more := 0;
      }
    }
  }

  lemma InsideResolve(syntax: Syntax, root: Node, a: Node)
    requires Sound(syntax, root) && Inside(syntax, root, a) && InternalRef(a).Some?
    ensures Resolve(syntax, root, InternalRef(a).value).Some?
    ensures Inside(syntax, root, Resolve(syntax, root, InternalRef(a).value).value)
  {
    LikeItself(syntax, root, root);
    ResolveCorresponds(syntax, root, root, InternalRef(a).value);
  }

  lemma {:induction false} HopLook(syntax: Syntax, root: Node, a: Node, k: nat, path: seq<nat>, hops: nat)
    requires Hop(syntax, root, a, k).Some?
    ensures Look(syntax, root, a, path, hops + k) == Look(syntax, root, Hop(syntax, root, a, k).value, path, hops)
    decreases k
  {
    if k > 0 {
      HopLook(syntax, root, Resolve(syntax, root, InternalRef(a).value).value, k - 1, path, hops);
    }
  }

  lemma {:induction false} LookBack(syntax: Syntax, root: Node, current: Node, a: Node, b: Node, path: seq<nat>, hops: nat)
    returns (more: nat)
    requires Sound(syntax, root) && Like(syntax, root, root, current)
    requires Inside(syntax, root, a) && Stands(syntax, root, a, b)
    requires Look(syntax, current, b, path, hops) != Running
    ensures Look(syntax, root, a, path, more) == Look(syntax, current, b, path, hops)
    decreases hops, |path|
  {
    hide Like, Stands, Sound, Inside, Resolve, LabelOf, InternalRef, Part;
    var k, m := Leads(syntax, root, a, b);
    SoundIsWellFormed(syntax, root);
    InsideHop(syntax, root, a, k);
    ReferencePair(syntax, root, current, m, b);
    PlainPair(syntax, root, m, b, path);
    var ref := InternalRef(b);
    if ref.Some? {
      more := LookBack(syntax, root, current, Resolve(syntax, root, ref.value).value,
                       Resolve(syntax, current, ref.value).value, path, hops - 1);
      more := more + 1;
    } else if path != [] && Part(b, path[0]).Some? {
      more := LookBack(syntax, root, current, Part(m, path[0]).value, Part(b, path[0]).value, path[1..], hops);
    } else {
      more := 0;
    }
    HopLook(syntax, root, a, k, path, more);
    more := more + k;
  }

  // Main theorem: expansion never fails and keeps the unfolding, although every reference is looked
  // up in a document that is already partly expanded.
  lemma ExpandKeepsUnfolding(syntax: Syntax, root: Node)
    requires Sound(syntax, root)
    ensures ExpandDocument(syntax, Some(root)).Ok?
    ensures SameUnfolding(syntax, root, ExpandDocument(syntax, Some(root)).value)
  {
    LikeItself(syntax, root, root);
    MappingStaysLike(syntax, root, root, Whole, root, {}, Strings(root));
    var result := ExpandDocument(syntax, Some(root)).value;
    LikeStands(syntax, root, root, root, result, 0);
    forall path, sight | sight != Running
      ensures Sees(syntax, root, path, sight) <==> Sees(syntax, result, path, sight)
    {
      if hops: nat :| Look(syntax, root, root, path, hops) == sight {
        var more := LookForth(syntax, root, result, root, result, path, hops);
      }
      if hops: nat :| Look(syntax, result, result, path, hops) == sight {
        var more := LookBack(syntax, root, result, root, result, path, hops);
      }
    }
  }
}
