/**
The expander object: the document it rewrites in place and the set of references under expansion.
A node of the document is addressed by the node and the place where it hangs, which stand for the
pointer of the source; writing through that pointer rewrites `root`.
 */
module ExpanderObject {
  import opened Wrappers
  import opened Expand

  lemma EntryDocument(place: Place, entries: seq<Entry>, i: nat, value: Node)
    requires i < |entries|
    ensures Document(InEntry(place, entries[..i], entries[i].key, entries[i + 1..]), value) ==
            Document(place, Mapping(entries[i := Entry(entries[i].key, value)]))
  {
    assert entries[i := Entry(entries[i].key, value)] == entries[..i] + [Entry(entries[i].key, value)] + entries[i + 1..];
  }

  lemma EntriesDone(syntax: Syntax, place: Place, entries: seq<Entry>, seen: set<string>, all: set<string>)
    requires PlaceStrings(place) <= all && EntryStrings(entries) <= all && EntryStrings([]) <= all
    ensures ExpandEntries(syntax, place, entries, [], seen, all) == Ok(entries)
  {
  }

  lemma ItemDocument(place: Place, items: seq<Node>, i: nat, n: Node)
    requires i < |items|
    ensures Document(InItem(place, items[..i], items[i + 1..]), n) == Document(place, Sequence(items[i := n]))
  {
    assert items[i := n] == items[..i] + [n] + items[i + 1..];
  }

  lemma ItemsDone(syntax: Syntax, place: Place, items: seq<Node>, seen: set<string>, all: set<string>)
    requires PlaceStrings(place) <= all && ItemStrings(items) <= all && ItemStrings([]) <= all
    ensures ExpandItems(syntax, place, items, [], seen, all) == Ok(items)
  {
  }

  lemma NoItems()
    ensures ItemStrings([]) == {}
  {
  }

  class Expander {
    const syntax: Syntax
    var root: Node
    var seen: set<string>

    constructor (syntax: Syntax, root: Node)
      ensures this.syntax == syntax && this.root == root && seen == {}
    {
      this.syntax, this.root, seen := syntax, root, {};
    }

    // Expand.
    method Run() returns (error: Option<ExpandError>)
      requires seen == {}
      modifies this
      ensures seen == {}
      ensures match ExpandDocument(syntax, Some(old(root)))
              case Ok(result) => error == None && root == result
              case Err(e) => error == Some(e)
    {
      var result := ExpandMappingAt(Whole, root, Strings(root));
      error := if result.Err? then Some(result.error) else None;
    }

    // expandMapping: the document is rewritten wherever `n` belongs to it.
    method ExpandMappingAt(place: Place, n: Node, ghost all: set<string>) returns (r: Result<Node, ExpandError>)
      requires root == Document(place, n) && PlaceStrings(place) <= all && Strings(n) <= all
      modifies this
      ensures seen == old(seen)
      ensures r == ExpandMapping(syntax, place, n, seen, all)
      ensures r.Ok? ==> root == Document(place, r.value)
      decreases |all - seen|, true, n, 1
    {
      if !n.Mapping? {
        return Ok(n);
      }
      var entries := n.entries;
      var i := 0;
      assert entries[..0] == [] && entries[0..] == entries;
      assert EntryStrings([]) <= all && EntryStrings(entries) == Strings(n);
      hide Strings, PlaceStrings, ExpandValue, ExpandEntries, Document;
      while i < |entries|
        invariant 0 <= i <= |entries| == |n.entries| && entries[i..] == n.entries[i..]
        invariant root == Document(place, Mapping(entries)) && seen == old(seen)
        invariant EntryStrings(entries[..i]) <= all && EntryStrings(entries[i..]) <= all
        invariant ExpandEntries(syntax, place, entries[..i], entries[i..], seen, all) ==
                  ExpandEntries(syntax, place, [], n.entries, seen, all)
      {
        var e := entries[i];
        EntriesUnfold(syntax, place, entries[..i], entries[i..], seen, all);
        assert entries[i..][0] == e && entries[i..][1..] == entries[i + 1..];
        assert entries[i := Entry(e.key, e.value)] == entries;
        assert e == n.entries[i..][0];
        EntryDocument(place, entries, i, e.value);
        var value := ExpandValueAt(InEntry(place, entries[..i], e.key, entries[i + 1..]), e.value, all);
        if value.Err? {
          return Err(value.error);
        }
        EntryDocument(place, entries, i, value.value);
        entries := entries[i := Entry(e.key, value.value)];
        assert entries[..i + 1] == entries[..i] + [Entry(e.key, value.value)];
        i := i + 1;
      }
      assert entries[..i] == entries && entries[i..] == [];
      EntriesDone(syntax, place, entries, seen, all);
      return Ok(Mapping(entries));
    }

    // The body of the loop: one value of a mapping.
    method ExpandValueAt(place: Place, v: Node, ghost all: set<string>) returns (r: Result<Node, ExpandError>)
      requires root == Document(place, v) && PlaceStrings(place) <= all && Strings(v) <= all
      modifies this
      ensures seen == old(seen)
      ensures r == ExpandValue(syntax, place, v, seen, all)
      ensures r.Ok? ==> root == Document(place, r.value)
      decreases |all - seen|, true, v, 2
    {
      if v.Mapping? {
        var ref := ScanInternalRef(v);
        if ref.None? {
          r := ExpandMappingAt(place, v, all);
          return;
        }
        RefIsString(v);
        DocumentStrings(place, v);
        var target := ResolveRefAt(ref.value, all);
        if target.Err? {
          return Err(target.error);
        }
        if target.value.Some? {
          root := Document(place, target.value.value);
          return Ok(target.value.value);
        }
        return Ok(v);
      }
      if v.Sequence? {
        r := ExpandItemsAt(place, v.items, all);
        return;
      }
      return Ok(v);
    }

    method ExpandItemsAt(place: Place, items: seq<Node>, ghost all: set<string>) returns (r: Result<Node, ExpandError>)
      requires root == Document(place, Sequence(items)) && PlaceStrings(place) <= all && ItemStrings(items) <= all
      modifies this
      ensures seen == old(seen)
      ensures var spec := ExpandItems(syntax, place, [], items, seen, all);
              r == if spec.Ok? then Ok(Sequence(spec.value)) else Err(spec.error)
      ensures r.Ok? ==> root == Document(place, r.value)
      decreases |all - seen|, true, items, 0
    {
      var done := items;
      var i := 0;
      assert done[..0] == [] && done[0..] == done;
      NoItems();
      hide Strings, PlaceStrings, ExpandMapping, ExpandItems, Document;
      while i < |done|
        invariant 0 <= i <= |done| == |items| && done[i..] == items[i..]
        invariant root == Document(place, Sequence(done)) && seen == old(seen)
        invariant ItemStrings(done[..i]) <= all && ItemStrings(done[i..]) <= all
        invariant ExpandItems(syntax, place, done[..i], done[i..], seen, all) ==
                  ExpandItems(syntax, place, [], items, seen, all)
      {
        ItemsUnfold(syntax, place, done[..i], done[i..], seen, all);
        assert done[i..][0] == done[i] && done[i..][1..] == done[i + 1..];
        ItemDocument(place, done, i, done[i]);
        assert done[i := done[i]] == done;
        assert done[i] == items[i..][0];
        var item := ExpandMappingAt(InItem(place, done[..i], done[i + 1..]), done[i], all);
        if item.Err? {
          return Err(item.error);
        }
        ItemDocument(place, done, i, item.value);
        done := done[i := item.value];
        assert done[..i + 1] == done[..i] + [item.value];
        i := i + 1;
      }
      assert done[..i] == done && done[i..] == [];
      ItemsDone(syntax, place, done, seen, all);
      return Ok(Sequence(done));
    }

    // resolveRef: `ref` is marked while its copy is expanded and unmarked on every way out.
    method ResolveRefAt(ref: string, ghost all: set<string>) returns (r: Result<Option<Node>, ExpandError>)
      requires Strings(root) <= all && ref in all
      modifies this
      ensures seen == old(seen)
      ensures r == ResolveRef(syntax, old(root), ref, seen, all)
      ensures r.Ok? ==> root == old(root)
      decreases |all - seen|, false
    {
      if ref in seen {
        return Ok(None);
      }
      var target := Resolve(syntax, root, ref);
      if target.None? {
        return Err(BadPointer(ref));
      }
      WalkStrings(syntax, root, syntax.tokens(ref).value);
      SeenGrows(all, seen, ref);
      seen := seen + {ref};
      var copy := ExpandMappingAt(Detached(root), target.value, all);
      seen := seen - {ref};
      assert seen == old(seen);
      if copy.Err? {
        return Err(copy.error);
      }
      return Ok(Some(copy.value));
    }
  }
}
