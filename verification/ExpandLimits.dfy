/**
What expansion cannot do: it makes a new reference where a pointer comes to stand under "$ref", it
never gets rid of the references of a recursive document, and it leaves those that are the items of a
sequence.
 */
module ExpandLimits {
  import opened Wrappers
  import opened Expand
  import opened ExpandProofs
  import opened ExpandRefFree

  // ----- A pointer under "$ref" -----

  lemma {:induction false} ScalarsFirst(syntax: Syntax, up: Place, done: seq<Entry>, before: seq<Entry>, rest: seq<Entry>,
                                        seen: set<string>, all: set<string>)
    requires PlaceStrings(up) <= all && EntryStrings(done) <= all && EntryStrings(before + rest) <= all
    requires forall e :: e in before ==> e.value.Scalar?
    ensures EntryStrings(done + before) <= all && EntryStrings(rest) <= all
    ensures ExpandEntries(syntax, up, done, before + rest, seen, all) == ExpandEntries(syntax, up, done + before, rest, seen, all)
    decreases before
  {
    hide Strings, ExpandEntries, PlaceStrings;
    if before == [] {
      assert before + rest == rest && done + before == done;
    } else {
      var after := before + rest;
      assert after[0] == before[0] && after[1..] == before[1..] + rest;
      assert before[0] in before && forall e :: e in before[1..] ==> e in before;
      EntriesUnfold(syntax, up, done, after, seen, all);
      assert Entry(after[0].key, after[0].value) == before[0];
      ScalarsFirst(syntax, up, done + [before[0]], before[1..], rest, seen, all);
      assert done + [before[0]] + before[1..] == done + before;
    }
  }

  // Where "$ref" holds a reference to a scalar, with nothing but its companions beside it, expansion
  // makes it a reference object if and only if that scalar is a pointer into the document.
  lemma HiddenPointerExact(syntax: Syntax, place: Place, before: seq<Entry>, v: Node, after: seq<Entry>,
                           ref: string, target: string, seen: set<string>, all: set<string>)
    requires forall e :: e in before || e in after ==> IsCompanion(e.key) && e.key != REF && e.value.Scalar?
    requires v.Mapping? && InternalRef(v) == Some(ref) && ref !in seen
    requires PlaceStrings(place) <= all && Strings(Mapping(before + [Entry(REF, v)] + after)) <= all
    requires Resolve(syntax, Document(place, Mapping(before + [Entry(REF, v)] + after)), ref) == Some(Scalar(target))
    ensures InternalRef(Mapping(before + [Entry(REF, v)] + after)).None?
    ensures var n, r := Mapping(before + [Entry(REF, v)] + after), Mapping(before + [Entry(REF, Scalar(target))] + after);
            && ExpandMapping(syntax, place, n, seen, all) == Ok(r)
            && InternalRef(r) == if IsInternal(target) then Some(target) else None
  {
    OnlyRef(before, v, after);
    OnlyRef(before, Scalar(target), after);
    var rest := [Entry(REF, v)] + after;
    assert before + [Entry(REF, v)] + after == before + rest;
    assert rest[0] == Entry(REF, v) && rest[1..] == after;
    NothingBefore(Mapping(before + rest));
    hide Strings, PlaceStrings, ExpandEntries, InternalRef, ExpandValue;
    ScalarsFirst(syntax, place, [], before, rest, seen, all);
    assert [] + before == before;
    EntriesUnfold(syntax, place, before, rest, seen, all);
    ReplacedByScalar(syntax, InEntry(place, before, REF, after), v, ref, target, seen, all);
    var done := Entry(REF, Scalar(target));
    ScalarEntries(syntax, place, before + [done], after, seen, all);
  }

  lemma ReplacedByScalar(syntax: Syntax, place: Place, v: Node, ref: string, target: string, seen: set<string>, all: set<string>)
    requires v.Mapping? && InternalRef(v) == Some(ref) && ref !in seen
    requires PlaceStrings(place) <= all && Strings(v) <= all
    requires Resolve(syntax, Document(place, v), ref) == Some(Scalar(target))
    ensures ExpandValue(syntax, place, v, seen, all) == Ok(Scalar(target))
  {
    RefIsString(v);
    DocumentStrings(place, v);
    ReferenceUnfold(syntax, place, v, ref, seen, all);
    hide InternalRef, Document;
  }

  // The only "$ref" among companions decides.
  lemma OnlyRef(before: seq<Entry>, v: Node, after: seq<Entry>)
    requires forall e :: e in before || e in after ==> IsCompanion(e.key) && e.key != REF
    ensures InternalRef(Mapping(before + [Entry(REF, v)] + after)) == PointerOf(v)
  {
    LastRefIs(before, v, after);
    assert forall e :: e in before + [Entry(REF, v)] + after ==> e in before || e == Entry(REF, v) || e in after;
  }

  lemma {:induction false} LastRefIs(before: seq<Entry>, v: Node, after: seq<Entry>)
    requires forall e :: e in before || e in after ==> e.key != REF
    ensures LastRef(before + [Entry(REF, v)] + after) == PointerOf(v)
    decreases |before| + |after|
  {
    var es := before + [Entry(REF, v)] + after;
    if after != [] {
      assert es[..|es| - 1] == before + [Entry(REF, v)] + after[..|after| - 1];
      assert es[|es| - 1] == after[|after| - 1];
      LastRefIs(before, v, after[..|after| - 1]);
    } else {
      assert es == before + [Entry(REF, v)] && es[..|es| - 1] == before;
      NoRef(before);
    }
  }

  lemma {:induction false} NoRef(es: seq<Entry>)
    requires forall e :: e in es ==> e.key != REF
    ensures LastRef(es) == None
  {
    if es != [] {
      NoRef(es[..|es| - 1]);
    }
  }

  function Reference(pointer: string): Node {
    Mapping([Entry(REF, Scalar(pointer))])
  }

  // {a: {$ref: value}, b: "#/c", c: "1"}
  function Hidden(value: Node): Node {
    Mapping([Entry(Scalar("a"), Mapping([Entry(REF, value)])),
             Entry(Scalar("b"), Scalar("#/c")), Entry(Scalar("c"), Scalar("1"))])
  }

  // Every pointer of this document resolves without crossing a reference, and yet what stands at "a"
  // is a mapping before and the scalar "1" after expansion.
  lemma HiddenPointerBreaks(syntax: Syntax)
    requires syntax.tokens("#/b") == Some(["b"]) && syntax.tokens("#/c") == Some(["c"])
    ensures var root, result := Hidden(Reference("#/b")), Hidden(Scalar("#/c"));
            && (forall r :: r in Refs(root) ==> Plain(syntax, root, r))
            && ExpandDocument(syntax, Some(root)) == Ok(result)
            && !SameUnfolding(syntax, root, result)
  {
    var root, result := Hidden(Reference("#/b")), Hidden(Scalar("#/c"));
    HiddenPlain(syntax);
    HiddenExpanded(syntax);
    hide *;
    HiddenSights(syntax);
    Different(syntax, root, result, [0], At(MappingLabel([REF])));
  }

  lemma Different(syntax: Syntax, a: Node, b: Node, path: seq<nat>, sight: Sight)
    requires sight != Running && Sees(syntax, a, path, sight) && !Sees(syntax, b, path, sight)
    ensures !SameUnfolding(syntax, a, b)
  {
    hide Sees;
  }

  lemma FindHidden(value: Node)
    ensures var es := Hidden(value).entries; Find(es, "b") == Some(1) && Find(es, "c") == Some(2)
  {
    var es := Hidden(value).entries;
    assert es[0].key == Scalar("a") && es[1].key == Scalar("b") && es[2].key == Scalar("c");
    assert es[1..][0] == es[1] && es[1..][1..] == es[2..] && es[2..][0] == es[2];
    assert Find(es[2..], "c") == Some(0);
    assert Find(es[1..], "c") == Some(1) && Find(es[1..], "b") == Some(0);
  }

  lemma HiddenResolves(syntax: Syntax, value: Node)
    requires syntax.tokens("#/b") == Some(["b"]) && syntax.tokens("#/c") == Some(["c"])
    ensures Resolve(syntax, Hidden(value), "#/b") == Some(Scalar("#/c")) && Plain(syntax, Hidden(value), "#/b")
    ensures Resolve(syntax, Hidden(value), "#/c") == Some(Scalar("1")) && Plain(syntax, Hidden(value), "#/c")
    ensures InternalRef(Hidden(value)).None?
  {
    var root := Hidden(value);
    FindHidden(value);
    assert root.entries[0] in root.entries && !IsCompanion(root.entries[0].key);
    assert ["b"][1..] == [] && ["c"][1..] == [];
    assert Walk(syntax, Scalar("#/c"), []) == Some(Scalar("#/c")) && Walk(syntax, Scalar("1"), []) == Some(Scalar("1"));
    hide Find;
  }

  lemma HiddenPlain(syntax: Syntax)
    requires syntax.tokens("#/b") == Some(["b"]) && syntax.tokens("#/c") == Some(["c"])
    ensures forall r :: r in Refs(Hidden(Reference("#/b"))) ==> Plain(syntax, Hidden(Reference("#/b")), r)
  {
    var v := Reference("#/b");
    var root := Hidden(v);
    HiddenResolves(syntax, v);
    OnlyRef([], Scalar("#/b"), []);
    OnlyRef([], v, []);
    assert [] + [Entry(REF, Scalar("#/b"))] + [] == v.entries && [] + [Entry(REF, v)] + [] == root.entries[0].value.entries;
    hide Plain, InternalRef, Find, Resolve;
    OnlyEntry(Entry(REF, Scalar("#/b")));
    OnlyEntry(Entry(REF, v));
    ThreeEntries(root.entries[0], root.entries[1], root.entries[2]);
  }

  lemma OnlyEntry(e: Entry)
    ensures Refs(Mapping([e])) == Refs(e.value) + if InternalRef(Mapping([e])).Some? then {InternalRef(Mapping([e])).value} else {}
  {
    hide InternalRef;
    assert forall x :: x in [e] <==> x == e;
  }

  lemma ThreeEntries(x: Entry, y: Entry, z: Entry)
    requires y.value.Scalar? && z.value.Scalar? && InternalRef(Mapping([x, y, z])).None?
    ensures Refs(Mapping([x, y, z])) == Refs(x.value)
  {
    hide InternalRef;
    InternalRefOfScalar(y.value.value);
    InternalRefOfScalar(z.value.value);
    assert forall e :: e in [x, y, z] <==> e == x || e == y || e == z;
  }

  lemma HiddenExpanded(syntax: Syntax)
    requires syntax.tokens("#/b") == Some(["b"]) && syntax.tokens("#/c") == Some(["c"])
    ensures ExpandDocument(syntax, Some(Hidden(Reference("#/b")))) == Ok(Hidden(Scalar("#/c")))
  {
    hide Strings, InternalRef, ExpandEntries, ExpandMapping, ExpandValue, Resolve, Find;
    var v := Reference("#/b");
    var root, all := Hidden(v), Strings(Hidden(v));
    var n, after := root.entries[0].value, root.entries[1..];
    HiddenResolves(syntax, v);
    OnlyRef([], Scalar("#/b"), []);
    assert [] + [Entry(REF, Scalar("#/b"))] + [] == v.entries && [] + [Entry(REF, v)] + [] == n.entries;
    assert root.entries == [] + [root.entries[0]] + after;
    var place := InEntry(Whole, [], Scalar("a"), after);
    assert Document(place, n) == root;
    var done := Entry(Scalar("a"), Mapping([Entry(REF, Scalar("#/c"))]));
    assert [] + [Entry(REF, Scalar("#/c"))] + [] == done.value.entries;
    assert [done] + after == Hidden(Scalar("#/c")).entries;
    NothingBefore(root);
    assert PlaceStrings(Whole) <= all;
    hide *;
    EntriesUnfold(syntax, Whole, [], root.entries, {}, all);
    HiddenPointerExact(syntax, place, [], v, [], "#/b", "#/c", {}, all);
    MappingValue(syntax, place, n, {}, all);
    assert [] + [done] == [done];
    ScalarEntries(syntax, Whole, [done], after, {}, all);
    MappingUnfold(syntax, root, all);
  }

  lemma MappingUnfold(syntax: Syntax, root: Node, all: set<string>)
    requires root.Mapping? && all == Strings(root) && EntryStrings(root.entries) <= all && EntryStrings([]) <= all
    ensures ExpandDocument(syntax, Some(root)) ==
            match ExpandEntries(syntax, Whole, [], root.entries, {}, all)
            case Ok(entries) => Ok(Mapping(entries))
            case Err(e) => Err(e)
  {
    hide ExpandEntries, Strings;
  }

  // ----- A pointer to nothing -----

  // The first reference expansion comes to makes it fail if it points to nothing.
  lemma DanglingFails(syntax: Syntax, before: seq<Entry>, key: Node, v: Node, after: seq<Entry>, r: string)
    requires (forall e :: e in before ==> e.value.Scalar?) && RefersTo(v, r)
    requires Resolve(syntax, Mapping(before + [Entry(key, v)] + after), r) == None
    ensures ExpandDocument(syntax, Some(Mapping(before + [Entry(key, v)] + after))) == Err(BadPointer(r))
  {
    var root := Mapping(before + [Entry(key, v)] + after);
    var rest, all := [Entry(key, v)] + after, Strings(root);
    assert before + [Entry(key, v)] + after == before + rest && rest[0] == Entry(key, v) && rest[1..] == after;
    ReferenceIs(v);
    NothingBefore(root);
    hide Strings, PlaceStrings, ExpandEntries, InternalRef, ExpandValue, Resolve, RefersTo;
    ScalarsFirst(syntax, Whole, [], before, rest, {}, all);
    assert [] + before == before;
    EntriesUnfold(syntax, Whole, before, rest, {}, all);
    assert Document(InEntry(Whole, before, key, after), v) == root;
    DanglingValue(syntax, InEntry(Whole, before, key, after), v, r, all);
    MappingUnfold(syntax, root, all);
  }

  lemma DanglingValue(syntax: Syntax, place: Place, v: Node, r: string, all: set<string>)
    requires v.Mapping? && InternalRef(v) == Some(r) && PlaceStrings(place) <= all && Strings(v) <= all
    requires Resolve(syntax, Document(place, v), r) == None
    ensures ExpandValue(syntax, place, v, {}, all) == Err(BadPointer(r))
  {
    RefIsString(v);
    DocumentStrings(place, v);
    hide InternalRef, Document, Resolve, Strings;
  }

  lemma MappingValue(syntax: Syntax, place: Place, n: Node, seen: set<string>, all: set<string>)
    requires PlaceStrings(place) <= all && Strings(n) <= all && n.Mapping? && InternalRef(n).None?
    ensures ExpandValue(syntax, place, n, seen, all) == ExpandMapping(syntax, place, n, seen, all)
  {
  }

  lemma HiddenSights(syntax: Syntax)
    requires syntax.tokens("#/b") == Some(["b"]) && syntax.tokens("#/c") == Some(["c"])
    ensures Sees(syntax, Hidden(Reference("#/b")), [0], At(MappingLabel([REF])))
    ensures !Sees(syntax, Hidden(Scalar("#/c")), [0], At(MappingLabel([REF])))
  {
    var root, result := Hidden(Reference("#/b")), Hidden(Scalar("#/c"));
    HiddenResolves(syntax, Reference("#/b"));
    HiddenResolves(syntax, Scalar("#/c"));
    OnlyRef([], Reference("#/b"), []);
    OnlyRef([], Scalar("#/c"), []);
    assert [] + [Entry(REF, Reference("#/b"))] + [] == [Entry(REF, Reference("#/b"))];
    assert [] + [Entry(REF, Scalar("#/c"))] + [] == [Entry(REF, Scalar("#/c"))];
    assert [0][1..] == [];
    hide InternalRef, Resolve;
    assert Keys([Entry(REF, Reference("#/b"))]) == [REF];
    assert Look(syntax, root, root, [0], 0) == At(MappingLabel([REF]));
    forall hops: nat
      ensures Look(syntax, result, result, [0], hops) != At(MappingLabel([REF]))
    {
      assert InternalRef(Scalar("1")).None? by { InternalRefOfScalar("1"); }
      assert Look(syntax, result, result, [0], hops) == Look(syntax, result, result.entries[0].value, [], hops);
      if hops > 0 {
        assert Look(syntax, result, result.entries[0].value, [], hops) == Look(syntax, result, Scalar("1"), [], hops - 1);
      }
    }
  }

  lemma InternalRefOfScalar(value: string)
    ensures InternalRef(Scalar(value)).None?
  {
  }

  // ----- Recursive documents -----

  function Height(n: Node): nat
    decreases n, 0
  {
    match n
    case Scalar(_) => 0
    case Mapping(entries) => 1 + EntriesHeight(entries)
    case Sequence(items) => 1 + ItemsHeight(items)
  }

  function EntriesHeight(es: seq<Entry>): nat
    decreases es, 1
  {
    if es == [] then 0 else Max(ValueHeight(es[0]), EntriesHeight(es[1..]))
  }

  function ValueHeight(e: Entry): nat
    decreases e, 1
  {
    Height(e.value)
  }

  function ItemsHeight(ns: seq<Node>): nat
    decreases ns, 1
  {
    if ns == [] then 0 else Max(Height(ns[0]), ItemsHeight(ns[1..]))
  }

  function Max(a: nat, b: nat): nat {
    if a < b then b else a
  }

  lemma {:induction false} EntryHeight(es: seq<Entry>, i: nat)
    requires i < |es|
    ensures Height(es[i].value) <= EntriesHeight(es)
  {
    if i > 0 { EntryHeight(es[1..], i - 1); }
  }

  lemma {:induction false} ItemHeight(ns: seq<Node>, i: nat)
    requires i < |ns|
    ensures Height(ns[i]) <= ItemsHeight(ns)
  {
    if i > 0 { ItemHeight(ns[1..], i - 1); }
  }

  // Without references one sees no deeper than the tree is high.
  lemma {:induction false} SeesNoDeeper(syntax: Syntax, root: Node, n: Node, path: seq<nat>, hops: nat)
    requires Refs(n) == {} && Look(syntax, root, n, path, hops).At?
    ensures |path| <= Height(n)
    decreases |path|
  {
    RefInRefs(n);
    if path != [] {
      var part := Part(n, path[0]);
      PartRefs(n, path[0]);
      match n {
        case Mapping(entries) => EntryHeight(entries, path[0]);
        case Sequence(items) => ItemHeight(items, path[0]);
      }
      SeesNoDeeper(syntax, root, part.value, path[1..], hops);
    }
  }

  ghost predicate SeesBeyond(syntax: Syntax, root: Node, n: nat) {
    exists path, what :: |path| >= n && Sees(syntax, root, path, At(what))
  }

  // The unfolding has no end.
  ghost predicate Endless(syntax: Syntax, root: Node) {
    forall n: nat :: SeesBeyond(syntax, root, n)
  }

  // A document with an endless unfolding keeps some reference.
  lemma EndlessKeepsReference(syntax: Syntax, root: Node)
    requires Sound(syntax, root) && Endless(syntax, root)
    ensures ExpandDocument(syntax, Some(root)).Ok?
    ensures Refs(ExpandDocument(syntax, Some(root)).value) != {}
  {
    ExpandKeepsUnfolding(syntax, root);
    var result := ExpandDocument(syntax, Some(root)).value;
    hide Sound, ExpandDocument;
    if Refs(result) == {} {
      var n := Height(result) + 1;
      assert SeesBeyond(syntax, root, n);
      var path, what :| |path| >= n && Sees(syntax, root, path, At(what));
      assert Sees(syntax, result, path, At(what));
      var hops: nat :| Look(syntax, result, result, path, hops) == At(what);
      SeesNoDeeper(syntax, result, result, path, hops);
    }
  }

  // The node one comes to by taking the parts of `path` and following exactly `hops` references.
  ghost function Go(syntax: Syntax, root: Node, n: Node, path: seq<nat>, hops: nat): Option<Node>
    decreases hops, |path|
  {
    if InternalRef(n).Some? && hops > 0 then
      var target := Resolve(syntax, root, InternalRef(n).value);
      if target.None? then None else Go(syntax, root, target.value, path, hops - 1)
    else if path == [] && hops == 0 then Some(n)
    else if path == [] || InternalRef(n).Some? then None
    else
      var part := Part(n, path[0]);
      if part.None? then None else Go(syntax, root, part.value, path[1..], hops)
  }

  // From the root one comes to the reference x, and from what it refers to, by way of some part, to x again.
  ghost predicate OnCycle(syntax: Syntax, root: Node, x: Node, there: seq<nat>, h: nat, round: seq<nat>, k: nat) {
    && Go(syntax, root, root, there, h) == Some(x) && InternalRef(x).Some?
    && Resolve(syntax, root, InternalRef(x).value).Some?
    && round != [] && Go(syntax, root, Resolve(syntax, root, InternalRef(x).value).value, round, k) == Some(x)
  }

  lemma {:induction false} GoOn(syntax: Syntax, root: Node, a: Node, p: seq<nat>, h: nat, b: Node, q: seq<nat>, k: nat)
    requires Go(syntax, root, a, p, h) == Some(b)
    ensures Go(syntax, root, a, p + q, h + k) == Go(syntax, root, b, q, k)
    ensures Look(syntax, root, a, p + q, h + k) == Look(syntax, root, b, q, k)
    decreases h, |p|
  {
    if InternalRef(a).Some? && h > 0 {
      GoOn(syntax, root, Resolve(syntax, root, InternalRef(a).value).value, p, h - 1, b, q, k);
    } else if p == [] {
      assert p + q == q;
    } else {
      assert (p + q)[0] == p[0] && (p + q)[1..] == p[1..] + q;
      hide InternalRef, Resolve, Part;
      GoOn(syntax, root, Part(a, p[0]).value, p[1..], h, b, q, k);
    }
  }

  // Where one can take a part there is something to see.
  lemma {:induction false} SomethingToSee(syntax: Syntax, root: Node, n: Node, path: seq<nat>, hops: nat) returns (more: nat)
    requires path != [] && Go(syntax, root, n, path, hops).Some?
    ensures Look(syntax, root, n, [], more).At?
    decreases hops
  {
    if InternalRef(n).Some? {
      more := SomethingToSee(syntax, root, Resolve(syntax, root, InternalRef(n).value).value, path, hops - 1);
      more := more + 1;
    } else {
      more := 0;
    }
  }

  lemma {:induction false} GoRound(syntax: Syntax, root: Node, x: Node, there: seq<nat>, h: nat, round: seq<nat>, k: nat, n: nat)
    returns (path: seq<nat>, hops: nat)
    requires OnCycle(syntax, root, x, there, h, round, k)
    ensures |path| >= n && Go(syntax, root, root, path, hops) == Some(x)
    decreases n
  {
    if n == 0 {
      path, hops := there, h;
    } else {
      path, hops := GoRound(syntax, root, x, there, h, round, k, n - 1);
      assert Go(syntax, root, x, round, k + 1) == Some(x);
      GoOn(syntax, root, root, path, hops, x, round, k + 1);
      path, hops := path + round, hops + (k + 1);
    }
  }

  // A recursive document has an endless unfolding.
  lemma RecursiveIsEndless(syntax: Syntax, root: Node, x: Node, there: seq<nat>, h: nat, round: seq<nat>, k: nat)
    requires OnCycle(syntax, root, x, there, h, round, k)
    ensures Endless(syntax, root)
  {
    var target := Resolve(syntax, root, InternalRef(x).value).value;
    var more := SomethingToSee(syntax, root, target, round, k);
    assert Look(syntax, root, x, [], more + 1) == Look(syntax, root, target, [], more);
    hide Go, Look, InternalRef, Resolve;
    forall n: nat
      ensures SeesBeyond(syntax, root, n)
    {
      var path, hops := GoRound(syntax, root, x, there, h, round, k, n);
      GoOn(syntax, root, root, path, hops, x, [], more + 1);
      assert path + [] == path;
      var sight := Look(syntax, root, root, path, hops + (more + 1));
      assert sight == At(sight.what) && Sees(syntax, root, path, sight);
    }
  }

  // {a: {x: {$ref: "#/a"}}}
  function Cyclic(): Node {
    Mapping([Entry(Scalar("a"), Mapping([Entry(Scalar("x"), Reference("#/a"))]))])
  }

  lemma CyclicResolves(syntax: Syntax)
    requires syntax.tokens("#/a") == Some(["a"])
    ensures var root := Cyclic();
            var a := root.entries[0].value;
            && Resolve(syntax, root, "#/a") == Some(a) && Plain(syntax, root, "#/a")
            && InternalRef(root).None? && InternalRef(a).None?
            && InternalRef(a.entries[0].value) == Some("#/a")
  {
    var root := Cyclic();
    var a := root.entries[0].value;
    OnlyRef([], Scalar("#/a"), []);
    assert [] + [Entry(REF, Scalar("#/a"))] + [] == a.entries[0].value.entries;
    assert root.entries[0] in root.entries && !IsCompanion(root.entries[0].key);
    assert a.entries[0] in a.entries && !IsCompanion(a.entries[0].key);
    assert Find(root.entries, "a") == Some(0);
    assert ["a"][1..] == [];
    assert Walk(syntax, a, []) == Some(a) && PlainWalk(syntax, a, []) == Some(a);
    hide Find, InternalRef;
  }

  // For instance this one.
  lemma CyclicIsEndless(syntax: Syntax)
    requires syntax.tokens("#/a") == Some(["a"])
    ensures Sound(syntax, Cyclic()) && Endless(syntax, Cyclic())
  {
    var root := Cyclic();
    var a := root.entries[0].value;
    var x := a.entries[0].value;
    CyclicResolves(syntax);
    CyclicSound(syntax);
    hide InternalRef, Resolve, Sound, Endless;
    assert [0, 0][1..] == [0] && [0][1..] == [];
    assert Go(syntax, root, a, [0], 0) == Some(x);
    assert Go(syntax, root, root, [0, 0], 0) == Some(x);
    RecursiveIsEndless(syntax, root, x, [0, 0], 0, [0], 0);
  }

  lemma CyclicSound(syntax: Syntax)
    requires syntax.tokens("#/a") == Some(["a"])
    ensures Sound(syntax, Cyclic())
  {
    var root := Cyclic();
    var a := root.entries[0].value;
    var x := a.entries[0].value;
    CyclicResolves(syntax);
    assert NoPointerBehind(syntax, root, Scalar("#/a")) by { InternalRefOfScalar("#/a"); hide InternalRef; }
    InternalRefOfScalar("#/a");
    hide InternalRef, Resolve, Plain, NoPointerBehind;
    assert forall e :: e in x.entries ==> e == Entry(REF, Scalar("#/a"));
    assert forall e :: e in a.entries ==> e == a.entries[0];
    assert forall e :: e in root.entries ==> e == root.entries[0];
    assert root.entries[0] in root.entries && a.entries[0] in a.entries;
    assert WellFormed(syntax, root, x);
    assert WellFormed(syntax, root, a);
    assert Refs(x) == {"#/a"} && Refs(a) <= {"#/a"} && Refs(root) <= {"#/a"};
  }

  // ----- References in sequences -----

  // Along `path` expansion comes from the mapping n to a sequence with a reference as an item, or with
  // an item that is no mapping and has a reference inside.
  predicate PassedOver(n: Node, path: seq<nat>)
    decreases |path|, 1
  {
    n.Mapping? && path != [] && path[0] < |n.entries| && PassedOverIn(n.entries[path[0]].value, path[1..])
  }

  predicate PassedOverIn(v: Node, path: seq<nat>)
    decreases |path|, 2
  {
    match v
    case Scalar(_) => false
    case Mapping(_) => InternalRef(v).None? && PassedOver(v, path)
    case Sequence(items) =>
      path != [] && path[0] < |items| &&
      var item, rest := items[path[0]], path[1..];
      || (rest == [] && InternalRef(item).Some?)
      || (!item.Mapping? && IsRef(Sub(item, rest)))
      || PassedOver(item, rest)
  }

  predicate IsRef(n: Option<Node>) {
    n.Some? && InternalRef(n.value).Some?
  }

  predicate AllScalars(n: Node) {
    n.Mapping? ==> forall e :: e in n.entries ==> e.value.Scalar?
  }

  // What becomes of one value of a mapping.
  lemma {:induction false} EntryAt(syntax: Syntax, up: Place, before: seq<Entry>, after: seq<Entry>, seen: set<string>, all: set<string>, k: nat)
    returns (place: Place)
    requires PlaceStrings(up) <= all && EntryStrings(before) <= all && EntryStrings(after) <= all
    requires k < |after| && ExpandEntries(syntax, up, before, after, seen, all).Ok?
    ensures PlaceStrings(place) <= all && Strings(after[k].value) <= all
    ensures var entries, value := ExpandEntries(syntax, up, before, after, seen, all).value,
                                  ExpandValue(syntax, place, after[k].value, seen, all);
            value.Ok? && |before| + k < |entries| && entries[|before| + k] == Entry(after[k].key, value.value)
    decreases after
  {
    EntriesUnfold(syntax, up, before, after, seen, all);
    hide Strings, PlaceStrings, ExpandValue, ExpandEntries;
    place := InEntry(up, before, after[0].key, after[1..]);
    var done := Entry(after[0].key, ExpandValue(syntax, place, after[0].value, seen, all).value);
    if k > 0 {
      place := EntryAt(syntax, up, before + [done], after[1..], seen, all, k - 1);
    } else {
      Kept(syntax, up, before + [done], after[1..], seen, all, |before|);
    }
  }

  lemma {:induction false} Kept(syntax: Syntax, up: Place, before: seq<Entry>, after: seq<Entry>, seen: set<string>, all: set<string>, k: nat)
    requires PlaceStrings(up) <= all && EntryStrings(before) <= all && EntryStrings(after) <= all
    requires k < |before| && ExpandEntries(syntax, up, before, after, seen, all).Ok?
    ensures var entries := ExpandEntries(syntax, up, before, after, seen, all).value;
            k < |entries| && entries[k] == before[k]
    decreases after
  {
    if after != [] {
      EntriesUnfold(syntax, up, before, after, seen, all);
      hide Strings, PlaceStrings, ExpandValue, ExpandEntries;
      var value := ExpandValue(syntax, InEntry(up, before, after[0].key, after[1..]), after[0].value, seen, all).value;
      Kept(syntax, up, before + [Entry(after[0].key, value)], after[1..], seen, all, k);
    }
  }

  lemma {:induction false} EntriesCount(syntax: Syntax, up: Place, before: seq<Entry>, after: seq<Entry>, seen: set<string>, all: set<string>)
    requires PlaceStrings(up) <= all && EntryStrings(before) <= all && EntryStrings(after) <= all
    requires ExpandEntries(syntax, up, before, after, seen, all).Ok?
    ensures |ExpandEntries(syntax, up, before, after, seen, all).value| == |before| + |after|
    decreases after
  {
    if after != [] {
      EntriesUnfold(syntax, up, before, after, seen, all);
      hide Strings, PlaceStrings, ExpandValue, ExpandEntries;
      var value := ExpandValue(syntax, InEntry(up, before, after[0].key, after[1..]), after[0].value, seen, all).value;
      EntriesCount(syntax, up, before + [Entry(after[0].key, value)], after[1..], seen, all);
    }
  }

  // What becomes of one item of a sequence.
  lemma {:induction false} ItemAt(syntax: Syntax, up: Place, left: seq<Node>, right: seq<Node>, seen: set<string>, all: set<string>, i: nat)
    returns (place: Place)
    requires PlaceStrings(up) <= all && ItemStrings(left) <= all && ItemStrings(right) <= all
    requires i < |right| && ExpandItems(syntax, up, left, right, seen, all).Ok?
    ensures PlaceStrings(place) <= all && Strings(right[i]) <= all
    ensures var items, item := ExpandItems(syntax, up, left, right, seen, all).value, ExpandMapping(syntax, place, right[i], seen, all);
            item.Ok? && |left| + i < |items| && items[|left| + i] == item.value
    decreases right
  {
    ItemsUnfold(syntax, up, left, right, seen, all);
    hide Strings, PlaceStrings, ExpandMapping, ExpandItems;
    place := InItem(up, left, right[1..]);
    var done := ExpandMapping(syntax, place, right[0], seen, all).value;
    if i > 0 {
      place := ItemAt(syntax, up, left + [done], right[1..], seen, all, i - 1);
    } else {
      KeptItem(syntax, up, left + [done], right[1..], seen, all, |left|);
    }
  }

  lemma {:induction false} KeptItem(syntax: Syntax, up: Place, left: seq<Node>, right: seq<Node>, seen: set<string>, all: set<string>, k: nat)
    requires PlaceStrings(up) <= all && ItemStrings(left) <= all && ItemStrings(right) <= all
    requires k < |left| && ExpandItems(syntax, up, left, right, seen, all).Ok?
    ensures var items := ExpandItems(syntax, up, left, right, seen, all).value; k < |items| && items[k] == left[k]
    decreases right
  {
    if right != [] {
      ItemsUnfold(syntax, up, left, right, seen, all);
      hide Strings, PlaceStrings, ExpandMapping, ExpandItems;
      var item := ExpandMapping(syntax, InItem(up, left, right[1..]), right[0], seen, all).value;
      KeptItem(syntax, up, left + [item], right[1..], seen, all, k);
    }
  }

  lemma {:induction false} LastRefIsSome(es: seq<Entry>)
    ensures LastRef(es).Some? <==> exists i :: 0 <= i < |es| && es[i].key == REF && PointerOf(es[i].value).Some?
  {
    if es != [] {
      LastRefIsSome(es[..|es| - 1]);
    }
  }

  // Expanding the inside of a reference leaves it a reference.
  lemma RefSurvives(syntax: Syntax, place: Place, n: Node, seen: set<string>, all: set<string>)
    requires PlaceStrings(place) <= all && Strings(n) <= all && InternalRef(n).Some?
    requires ExpandMapping(syntax, place, n, seen, all).Ok?
    ensures InternalRef(ExpandMapping(syntax, place, n, seen, all).value).Some?
  {
    NothingBefore(n);
    hide Strings, PlaceStrings, ExpandEntries, ExpandValue;
    var entries := ExpandEntries(syntax, place, [], n.entries, seen, all).value;
    EntriesCount(syntax, place, [], n.entries, seen, all);
    forall k | 0 <= k < |n.entries|
      ensures entries[k].key == n.entries[k].key
      ensures PointerOf(n.entries[k].value).Some? ==> entries[k] == n.entries[k]
    {
      var here := EntryAt(syntax, place, [], n.entries, seen, all, k);
      if n.entries[k].value.Scalar? { ScalarValue(syntax, here, n.entries[k].value, seen, all); }
    }
    LastRefIsSome(n.entries);
    LastRefIsSome(entries);
    SameCompanions(n.entries, entries);
    hide LastRef, IsCompanion;
  }

  lemma ScalarValue(syntax: Syntax, place: Place, v: Node, seen: set<string>, all: set<string>)
    requires PlaceStrings(place) <= all && Strings(v) <= all && v.Scalar?
    ensures ExpandValue(syntax, place, v, seen, all) == Ok(v)
  {
  }

  lemma {:induction false} StaysInMapping(syntax: Syntax, place: Place, n: Node, path: seq<nat>, seen: set<string>, all: set<string>)
    requires PlaceStrings(place) <= all && Strings(n) <= all
    requires PassedOver(n, path) && ExpandMapping(syntax, place, n, seen, all).Ok?
    ensures Sub(n, path).Some? && IsRef(Sub(ExpandMapping(syntax, place, n, seen, all).value, path))
    ensures AllScalars(Sub(n, path).value) ==> Sub(ExpandMapping(syntax, place, n, seen, all).value, path) == Sub(n, path)
    decreases |path|, 1
  {
    NothingBefore(n);
    hide Strings, PlaceStrings, ExpandEntries, ExpandValue, PassedOverIn, IsRef, AllScalars;
    var here := EntryAt(syntax, place, [], n.entries, seen, all, path[0]);
    StaysInValue(syntax, here, n.entries[path[0]].value, path[1..], seen, all);
  }

  lemma {:induction false} StaysInValue(syntax: Syntax, place: Place, v: Node, path: seq<nat>, seen: set<string>, all: set<string>)
    requires PlaceStrings(place) <= all && Strings(v) <= all
    requires PassedOverIn(v, path) && ExpandValue(syntax, place, v, seen, all).Ok?
    ensures Sub(v, path).Some? && IsRef(Sub(ExpandValue(syntax, place, v, seen, all).value, path))
    ensures AllScalars(Sub(v, path).value) ==> Sub(ExpandValue(syntax, place, v, seen, all).value, path) == Sub(v, path)
    decreases |path|, 2
  {
    if v.Mapping? {
      MappingValue(syntax, place, v, seen, all);
      hide Strings, PlaceStrings, ExpandMapping, ExpandValue, PassedOver, IsRef, AllScalars, Sub;
      StaysInMapping(syntax, place, v, path, seen, all);
    } else {
      SequenceValue(syntax, place, v, seen, all);
      hide Strings, PlaceStrings, ExpandItems, ExpandValue, AllScalars, PassedOver;
      var item, rest := v.items[path[0]], path[1..];
      var here := ItemAt(syntax, place, [], v.items, seen, all, path[0]);
      if PassedOver(item, rest) {
        hide IsRef, InternalRef, ExpandMapping;
        StaysInMapping(syntax, here, item, rest, seen, all);
      } else if item.Mapping? {
        RefSurvives(syntax, here, item, seen, all);
        ScalarsStay(syntax, here, item, seen, all);
        hide ExpandMapping, InternalRef;
      } else {
        NoMappingStays(syntax, here, item, seen, all);
        hide ExpandMapping, InternalRef;
      }
    }
  }

  lemma ScalarsStay(syntax: Syntax, place: Place, n: Node, seen: set<string>, all: set<string>)
    requires PlaceStrings(place) <= all && Strings(n) <= all
    ensures AllScalars(n) ==> ExpandMapping(syntax, place, n, seen, all) == Ok(n)
  {
    if AllScalars(n) { CopiedVerbatim(syntax, place, n, seen, all); }
  }

  lemma NoMappingStays(syntax: Syntax, place: Place, n: Node, seen: set<string>, all: set<string>)
    requires PlaceStrings(place) <= all && Strings(n) <= all && !n.Mapping?
    ensures ExpandMapping(syntax, place, n, seen, all) == Ok(n)
  {
  }

  // A reference that is an item of a sequence, or inside an item that is no mapping, is still one at its
  // place, and the same if it holds only scalars.
  lemma ItemKeepsReference(syntax: Syntax, root: Node, path: seq<nat>)
    requires PassedOver(root, path) && ExpandDocument(syntax, Some(root)).Ok?
    ensures var result := ExpandDocument(syntax, Some(root)).value;
            && IsRef(Sub(result, path)) && Sub(root, path).Some?
            && (AllScalars(Sub(root, path).value) ==> Sub(result, path) == Sub(root, path))
            && Refs(result) != {}
  {
    DetachedStrings(root);
    StaysInMapping(syntax, Whole, root, path, {}, Strings(root));
    hide ExpandMapping, PassedOver;
    var result := ExpandDocument(syntax, Some(root)).value;
    SubRefs(result, path);
    RefInRefs(Sub(result, path).value);
  }

  lemma SequenceValue(syntax: Syntax, place: Place, v: Node, seen: set<string>, all: set<string>)
    requires PlaceStrings(place) <= all && Strings(v) <= all && v.Sequence?
    ensures ItemStrings(v.items) <= all && ItemStrings([]) <= all
    ensures ExpandValue(syntax, place, v, seen, all) ==
            match ExpandItems(syntax, place, [], v.items, seen, all)
            case Ok(items) => Ok(Sequence(items))
            case Err(e) => Err(e)
  {
    hide ExpandItems;
  }
}
