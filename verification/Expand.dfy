/**
Reference expansion (asyncapi/expand.go): every internal `$ref` of a document tree is replaced in
place by a copy of its target, while targets are looked up in the very tree being rewritten.
How pointers are written is a parameter.
 */
module Expand {
  import opened Wrappers

  // An anchor-free YAML node.
  datatype Node =
    | Scalar(value: string)
    | Mapping(entries: seq<Entry>)
    | Sequence(items: seq<Node>)

  datatype Entry = Entry(key: Node, value: Node)

  // How a pointer string splits into tokens, and how a token counts as a sequence index.
  datatype Syntax = Syntax(tokens: string -> Option<seq<string>>, index: string -> Option<nat>)

  datatype ExpandError = EmptyDocument | BadPointer(ref: string)

  const REF := Scalar("$ref")

  predicate IsInternal(ref: string) {
    |ref| > 0 && ref[0] == '#'
  }

  predicate IsCompanion(key: Node) {
    key in {REF, Scalar("summary"), Scalar("description")}
  }

  // The last `$ref` entry that points into the document.
  function LastRef(es: seq<Entry>): Option<string> {
    if es == [] then None
    else
      var e := es[|es| - 1];
      if e.key == REF && e.value.Scalar? && IsInternal(e.value.value) then Some(e.value.value)
      else LastRef(es[..|es| - 1])
  }

  // The pointer of an internal reference object.
  function InternalRef(n: Node): Option<string> {
    if n.Mapping? && (forall e :: e in n.entries ==> IsCompanion(e.key)) then LastRef(n.entries) else None
  }

  // What a reference object looks like, entry by entry: nothing beside `$ref` but a summary and a
  // description, and the last `$ref` that points into the document points to r.
  ghost predicate RefersTo(n: Node, r: string) {
    && n.Mapping?
    && (forall e :: e in n.entries ==> e.key in {Scalar("$ref"), Scalar("summary"), Scalar("description")})
    && exists i :: 0 <= i < |n.entries| && n.entries[i] == Entry(Scalar("$ref"), Scalar(r)) && |r| > 0 && r[0] == '#' &&
                   forall j :: i < j < |n.entries| && n.entries[j].key == Scalar("$ref") && n.entries[j].value.Scalar? ==>
                                 n.entries[j].value.value == "" || n.entries[j].value.value[0] != '#'
  }

  lemma ReferenceIs(n: Node)
    ensures forall r :: InternalRef(n) == Some(r) <==> RefersTo(n, r)
  {
    forall r
      ensures InternalRef(n) == Some(r) <==> RefersTo(n, r)
    {
      if n.Mapping? { LastRefAt(n.entries, r); }
    }
  }

  lemma {:induction false} LastRefAt(es: seq<Entry>, r: string)
    ensures LastRef(es) == Some(r) <==>
            exists i :: 0 <= i < |es| && es[i] == Entry(Scalar("$ref"), Scalar(r)) && |r| > 0 && r[0] == '#' &&
                        forall j :: i < j < |es| && es[j].key == Scalar("$ref") && es[j].value.Scalar? ==>
                                      es[j].value.value == "" || es[j].value.value[0] != '#'
  {
    if es != [] {
      var front, e := es[..|es| - 1], es[|es| - 1];
      LastRefAt(front, r);
      assert forall i :: 0 <= i < |front| ==> es[i] == front[i];
    }
  }

  // internalRef as the source scans for it.
  method ScanInternalRef(n: Node) returns (ref: Option<string>)
    requires n.Mapping?
    ensures ref == InternalRef(n)
    ensures forall r :: ref == Some(r) <==> RefersTo(n, r)
  {
    ReferenceIs(n);
    hide RefersTo;
    ref := None;
    var extraOK := true;
    for i := 0 to |n.entries|
      invariant ref == LastRef(n.entries[..i])
      invariant extraOK <==> forall e :: e in n.entries[..i] ==> IsCompanion(e.key)
    {
      var e := n.entries[i];
      assert n.entries[..i + 1][..i] == n.entries[..i];
      assert forall x :: x in n.entries[..i + 1] <==> x in n.entries[..i] || x == e;
      if !e.key.Scalar? {
        return None;
      }
      match e.key.value {
        case "$ref" =>
          if e.value.Scalar? && IsInternal(e.value.value) {
            ref := Some(e.value.value);
          }
        case "summary" =>
        case "description" =>
        case _ => extraOK := false;
      }
    }
    assert n.entries[..|n.entries|] == n.entries;
    if !extraOK {
      return None;
    }
  }

  function Find(es: seq<Entry>, name: string): (i: Option<nat>)
    ensures i.Some? ==> i.value < |es| && es[i.value].key == Scalar(name)
  {
    if es == [] then None
    else if es[0].key == Scalar(name) then Some(0)
    else
      var rest := Find(es[1..], name);
      if rest.Some? then Some(rest.value + 1) else None
  }

  function Child(syntax: Syntax, n: Node, token: string): (c: Option<Node>)
    ensures c.Some? ==> c.value < n
  {
    match n
    case Scalar(_) => None
    case Mapping(entries) =>
      var i := Find(entries, token);
      if i.Some? then Some(entries[i.value].value) else None
    case Sequence(items) =>
      var i := syntax.index(token);
      if i.Some? && i.value < |items| then Some(items[i.value]) else None
  }

  // One step of a pointer: the first entry of that name, or the item of that index.
  lemma ChildIs(syntax: Syntax, n: Node, token: string, c: Node)
    ensures Child(syntax, n, token) == Some(c) <==>
            || (n.Mapping? && exists i :: 0 <= i < |n.entries| && n.entries[i] == Entry(Scalar(token), c) &&
                                          forall j :: 0 <= j < i ==> n.entries[j].key != Scalar(token))
            || (n.Sequence? && syntax.index(token).Some? && syntax.index(token).value < |n.items| &&
                n.items[syntax.index(token).value] == c)
  {
    if n.Mapping? { FindIs(n.entries, token); }
  }

  lemma {:induction false} FindIs(es: seq<Entry>, name: string)
    ensures var found := Find(es, name);
            if found.Some? then forall j :: 0 <= j < found.value ==> es[j].key != Scalar(name)
            else forall j :: 0 <= j < |es| ==> es[j].key != Scalar(name)
  {
    if es != [] {
      FindIs(es[1..], name);
      assert forall j :: 1 <= j < |es| ==> es[j] == es[1..][j - 1];
    }
  }

  function Walk(syntax: Syntax, n: Node, tokens: seq<string>): Option<Node>
    decreases tokens
  {
    if tokens == [] then Some(n)
    else
      var c := Child(syntax, n, tokens[0]);
      if c.None? then None else Walk(syntax, c.value, tokens[1..])
  }

  // JSON Pointer resolution (RFC 6901, section 4): no reference is followed on the way.
  function Resolve(syntax: Syntax, root: Node, ref: string): Option<Node> {
    var tokens := syntax.tokens(ref);
    if tokens.None? then None else Walk(syntax, root, tokens.value)
  }

  // Every scalar of a tree; a reference string is always one of them.
  function Strings(n: Node): set<string> {
    match n
    case Scalar(value) => {value}
    case Mapping(entries) => set e, s | e in entries && s in Strings(e.value) :: s
    case Sequence(items) => set i, s | i in items && s in Strings(i) :: s
  }

  function EntryStrings(es: seq<Entry>): set<string> {
    Strings(Mapping(es))
  }

  function ItemStrings(ns: seq<Node>): set<string> {
    Strings(Sequence(ns))
  }

  // Where a node hangs: at the top, inside a node that hangs somewhere itself, or in a fresh copy
  // next to the document.
  datatype Place =
    | Whole
    | InEntry(up: Place, before: seq<Entry>, key: Node, after: seq<Entry>)
    | InItem(up: Place, left: seq<Node>, right: seq<Node>)
    | Detached(root: Node)

  // The document when `n` hangs at `place`.
  function Document(place: Place, n: Node): Node
    decreases place
  {
    match place
    case Whole => n
    case InEntry(up, before, key, after) => Document(up, Mapping(before + [Entry(key, n)] + after))
    case InItem(up, left, right) => Document(up, Sequence(left + [n] + right))
    case Detached(root) => root
  }

  function PlaceStrings(place: Place): set<string> {
    match place
    case Whole => {}
    case InEntry(up, before, _, after) => PlaceStrings(up) + EntryStrings(before) + EntryStrings(after)
    case InItem(up, left, right) => PlaceStrings(up) + ItemStrings(left) + ItemStrings(right)
    case Detached(root) => Strings(root)
  }

  lemma {:induction false} DocumentStrings(place: Place, n: Node)
    ensures Strings(Document(place, n)) <= PlaceStrings(place) + Strings(n)
    decreases place
  {
    match place
    case Whole =>
    case InEntry(up, before, key, after) =>
      EntryStringsAround(before, Entry(key, n), after);
      DocumentStrings(up, Mapping(before + [Entry(key, n)] + after));
    case InItem(up, left, right) =>
      ItemStringsAround(left, n, right);
      DocumentStrings(up, Sequence(left + [n] + right));
    case Detached(_) =>
  }

  lemma EntryStringsAround(before: seq<Entry>, e: Entry, after: seq<Entry>)
    ensures EntryStrings(before + [e] + after) == EntryStrings(before) + Strings(e.value) + EntryStrings(after)
  {
    assert forall x :: x in before + [e] + after <==> x in before || x == e || x in after;
  }

  lemma ItemStringsAround(left: seq<Node>, n: Node, right: seq<Node>)
    ensures ItemStrings(left + [n] + right) == ItemStrings(left) + Strings(n) + ItemStrings(right)
  {
    assert forall x :: x in left + [n] + right <==> x in left || x == n || x in right;
  }

  lemma {:induction false} WalkStrings(syntax: Syntax, n: Node, tokens: seq<string>)
    requires Walk(syntax, n, tokens).Some?
    ensures Strings(Walk(syntax, n, tokens).value) <= Strings(n)
    decreases tokens
  {
    if tokens != [] {
      var c := Child(syntax, n, tokens[0]).value;
      assert Strings(c) <= Strings(n) by {
        if n.Mapping? { assert n.entries[Find(n.entries, tokens[0]).value] in n.entries; }
      }
      WalkStrings(syntax, c, tokens[1..]);
    }
  }

  lemma RefIsString(n: Node)
    ensures InternalRef(n).Some? ==> InternalRef(n).value in Strings(n)
  {
    if n.Mapping? { LastRefIsString(n.entries); }
  }

  lemma {:induction false} LastRefIsString(es: seq<Entry>)
    ensures LastRef(es).Some? ==> LastRef(es).value in EntryStrings(es)
  {
    if es != [] {
      var front, last := es[..|es| - 1], es[|es| - 1];
      LastRefIsString(front);
      assert es == front + [last] + [];
      EntryStringsAround(front, last, []);
    }
  }

  lemma SeenGrows(all: set<string>, seen: set<string>, ref: string)
    requires ref in all && ref !in seen
    ensures |all - (seen + {ref})| < |all - seen|
  {
    assert all - (seen + {ref}) == all - seen - {ref};
  }

  // expandMapping on the node `n` at `place`. Only mappings are rewritten. `all` bounds the
  // reference strings that can occur; `seen` holds the references being expanded.
  function ExpandMapping(syntax: Syntax, place: Place, n: Node, seen: set<string>, ghost all: set<string>)
    : (r: Result<Node, ExpandError>)
    requires PlaceStrings(place) <= all && Strings(n) <= all
    ensures r.Ok? ==> Strings(r.value) <= all
    decreases |all - seen|, true, n, 1
  {
    if !n.Mapping? then Ok(n)
    else
      var entries :- ExpandEntries(syntax, place, [], n.entries, seen, all);
      Ok(Mapping(entries))
  }

  function ExpandEntries(syntax: Syntax, up: Place, before: seq<Entry>, after: seq<Entry>, seen: set<string>, ghost all: set<string>)
    : (r: Result<seq<Entry>, ExpandError>)
    requires PlaceStrings(up) <= all && EntryStrings(before) <= all && EntryStrings(after) <= all
    ensures r.Ok? ==> EntryStrings(r.value) <= all
    decreases |all - seen|, true, after, 0
  {
    if after == [] then Ok(before)
    else
      assert after == [] + [after[0]] + after[1..];
      EntryStringsAround([], after[0], after[1..]);
      var place := InEntry(up, before, after[0].key, after[1..]);
      var value :- ExpandValue(syntax, place, after[0].value, seen, all);
      var done := Entry(after[0].key, value);
      EntryStringsAround(before, done, []);
      assert before + [done] + [] == before + [done];
      ExpandEntries(syntax, up, before + [done], after[1..], seen, all)
  }

  function ExpandItems(syntax: Syntax, up: Place, left: seq<Node>, right: seq<Node>, seen: set<string>, ghost all: set<string>)
    : (r: Result<seq<Node>, ExpandError>)
    requires PlaceStrings(up) <= all && ItemStrings(left) <= all && ItemStrings(right) <= all
    ensures r.Ok? ==> ItemStrings(r.value) <= all
    decreases |all - seen|, true, right, 0
  {
    if right == [] then Ok(left)
    else
      assert right == [] + [right[0]] + right[1..];
      ItemStringsAround([], right[0], right[1..]);
      var item :- ExpandMapping(syntax, InItem(up, left, right[1..]), right[0], seen, all);
      ItemStringsAround(left, item, []);
      assert left + [item] + [] == left + [item];
      ExpandItems(syntax, up, left + [item], right[1..], seen, all)
  }

  // One value of a mapping: a reference is replaced, other mappings and sequences are entered.
  function ExpandValue(syntax: Syntax, place: Place, v: Node, seen: set<string>, ghost all: set<string>)
    : (r: Result<Node, ExpandError>)
    requires PlaceStrings(place) <= all && Strings(v) <= all
    ensures r.Ok? ==> Strings(r.value) <= all
    decreases |all - seen|, true, v, 2
  {
    match v
    case Scalar(_) => Ok(v)
    case Sequence(items) =>
      var items' :- ExpandItems(syntax, place, [], items, seen, all);
      Ok(Sequence(items'))
    case Mapping(_) =>
      var ref := InternalRef(v);
      if ref.None? then ExpandMapping(syntax, place, v, seen, all)
      else
        RefIsString(v);
        DocumentStrings(place, v);
        var target :- ResolveRef(syntax, Document(place, v), ref.value, seen, all);
        Ok(if target.Some? then target.value else v)
  }

  // One round of the two loops.
  lemma EntriesUnfold(syntax: Syntax, up: Place, before: seq<Entry>, after: seq<Entry>, seen: set<string>, all: set<string>)
    requires PlaceStrings(up) <= all && EntryStrings(before) <= all && EntryStrings(after) <= all && after != []
    ensures PlaceStrings(InEntry(up, before, after[0].key, after[1..])) <= all && Strings(after[0].value) <= all
    ensures EntryStrings(after[1..]) <= all
    ensures var value := ExpandValue(syntax, InEntry(up, before, after[0].key, after[1..]), after[0].value, seen, all);
            if value.Err? then ExpandEntries(syntax, up, before, after, seen, all) == Err(value.error)
            else
              && EntryStrings(before + [Entry(after[0].key, value.value)]) <= all
              && ExpandEntries(syntax, up, before, after, seen, all) ==
                 ExpandEntries(syntax, up, before + [Entry(after[0].key, value.value)], after[1..], seen, all)
  {
    assert after == [] + [after[0]] + after[1..];
    EntryStringsAround([], after[0], after[1..]);
    var value := ExpandValue(syntax, InEntry(up, before, after[0].key, after[1..]), after[0].value, seen, all);
    hide ExpandValue, Strings;
    if value.Ok? {
      EntryStringsAround(before, Entry(after[0].key, value.value), []);
      assert before + [Entry(after[0].key, value.value)] + [] == before + [Entry(after[0].key, value.value)];
    }
  }

  lemma ItemsUnfold(syntax: Syntax, up: Place, left: seq<Node>, right: seq<Node>, seen: set<string>, all: set<string>)
    requires PlaceStrings(up) <= all && ItemStrings(left) <= all && ItemStrings(right) <= all && right != []
    ensures PlaceStrings(InItem(up, left, right[1..])) <= all && Strings(right[0]) <= all
    ensures ItemStrings(right[1..]) <= all
    ensures var item := ExpandMapping(syntax, InItem(up, left, right[1..]), right[0], seen, all);
            if item.Err? then ExpandItems(syntax, up, left, right, seen, all) == Err(item.error)
            else
              && ItemStrings(left + [item.value]) <= all
              && ExpandItems(syntax, up, left, right, seen, all) ==
                 ExpandItems(syntax, up, left + [item.value], right[1..], seen, all)
  {
    assert right == [] + [right[0]] + right[1..];
    ItemStringsAround([], right[0], right[1..]);
    var item := ExpandMapping(syntax, InItem(up, left, right[1..]), right[0], seen, all);
    hide ExpandMapping, Strings;
    if item.Ok? {
      ItemStringsAround(left, item.value, []);
      assert left + [item.value] + [] == left + [item.value];
    }
  }

  // resolveRef: an expanded copy of the target, or nothing for a reference under expansion.
  function ResolveRef(syntax: Syntax, root: Node, ref: string, seen: set<string>, ghost all: set<string>)
    : (r: Result<Option<Node>, ExpandError>)
    requires Strings(root) <= all && ref in all
    ensures r.Ok? && r.value.Some? ==> Strings(r.value.value) <= all
    decreases |all - seen|, false
  {
    if ref in seen then Ok(None)
    else
      var target := Resolve(syntax, root, ref);
      if target.None? then Err(BadPointer(ref))
      else
        WalkStrings(syntax, root, syntax.tokens(ref).value);
        SeenGrows(all, seen, ref);
        var copy :- ExpandMapping(syntax, Detached(root), target.value, seen + {ref}, all);
        Ok(Some(copy))
  }

  // Expand on a whole document.
  function ExpandDocument(syntax: Syntax, doc: Option<Node>): Result<Node, ExpandError> {
    if doc.None? then Err(EmptyDocument)
    else ExpandMapping(syntax, Whole, doc.value, {}, Strings(doc.value))
  }
}
