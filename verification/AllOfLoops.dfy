/**
The loops of allOf merging as the source runs them, each against its specification function.
 */
module AllOfLoops {
  import opened Wrappers
  import opened Schemas
  import opened AllOf
  import opened AllOfProofs

  // mergeNSchemes.
  method MergeNSchemes(ss: seq<Schema>) returns (r: Result<Schema, MergeError>)
    requires ss != []
    ensures r == MergeAll(ss)
  {
    if |ss| == 1 {
      return Ok(ss[0]);
    }
    var root := ss[0];
    var i := 1;
    assert [root] + ss[1..] == ss;
    while i < |ss|
      invariant 1 <= i <= |ss|
      invariant MergeAll([root] + ss[i..]) == MergeAll(ss)
    {
      var rest := [root] + ss[i..];
      assert rest[1] == ss[i] && rest[2..] == ss[i + 1..];
      var merged := Merge(root, ss[i]);
      if merged.Err? {
        return Err(merged.error);
      }
      root := merged.value;
      i := i + 1;
    }
    assert [root] + ss[i..] == [root];
    return Ok(root);
  }

  lemma {:induction false} KeepAppend(small: seq<Json>, v: Json, big: seq<Json>)
    ensures Keep(small + [v], big) == Keep(small, big) + if v in big then [v] else []
  {
    if small == [] {
      assert [v][1..] == [];
    } else {
      assert (small + [v])[1..] == small[1..] + [v];
      KeepAppend(small[1..], v, big);
    }
  }

  // mergeEnums.
  method MergeEnumLists(a: seq<Json>, b: seq<Json>) returns (r: Result<seq<Json>, MergeError>)
    ensures r == MergeEnums(a, b)
  {
    if a == [] {
      return Ok(b);
    }
    if b == [] {
      return Ok(a);
    }
    var small, big := a, b;
    if |a| > |b| {
      small, big := b, a;
    }
    var result: seq<Json> := [];
    for i := 0 to |small|
      invariant result == Keep(small[..i], big)
    {
      assert small[..i + 1] == small[..i] + [small[i]];
      KeepAppend(small[..i], small[i], big);
      if small[i] in big {
        result := result + [small[i]];
      }
    }
    assert small[..|small|] == small;
    if result == [] {
      return Err(EnumsDisjoint);
    }
    return Ok(result);
  }

  // The last entry of that name: later entries overwrite earlier ones in the maps.
  ghost predicate IsLast(known: seq<Property>, name: string, i: nat) {
    i < |known| && known[i].name == name && forall j :: i < j < |known| ==> known[j].name != name
  }

  // The maps of mergeProperties describe the list `known`.
  ghost predicate Indexed(known: seq<Property>, propmap: map<string, Property>, order: map<string, nat>) {
    && propmap.Keys == order.Keys == Names(known)
    && forall name :: name in order ==> IsLast(known, name, order[name]) && propmap[name] == known[order[name]]
  }

  lemma LastIndexIs(known: seq<Property>, name: string, i: nat)
    requires IsLast(known, name, i)
    ensures LastIndex(known, name) == Some(i)
  {
  }

  lemma LastIndexOf(known: seq<Property>, propmap: map<string, Property>, order: map<string, nat>, name: string)
    requires Indexed(known, propmap, order)
    ensures LastIndex(known, name) == if name in order then Some(order[name]) else None
  {
    InNames(known, name);
    if name in order { LastIndexIs(known, name, order[name]); }
  }

  lemma IndexedAppend(known: seq<Property>, propmap: map<string, Property>, order: map<string, nat>, p: Property)
    requires Indexed(known, propmap, order)
    ensures Indexed(known + [p], propmap[p.name := p], order[p.name := |known|])
  {
    assert Names(known + [p]) == Names(known) + {p.name} by {
      assert forall x :: x in known + [p] <==> x in known || x == p;
    }
  }

  lemma IndexedUpdate(known: seq<Property>, propmap: map<string, Property>, order: map<string, nat>, merged: Property)
    requires Indexed(known, propmap, order) && merged.name in order
    ensures Indexed(known[order[merged.name] := merged], propmap[merged.name := merged], order)
  {
    var known' := known[order[merged.name] := merged];
    assert forall j :: 0 <= j < |known| ==> known'[j].name == known[j].name;
    forall name
      ensures name in Names(known') <==> name in Names(known)
    {
      InNames(known', name);
      InNames(known, name);
    }
  }

  // A list without repeated names has as many names as entries, and only then do all recorded
  // positions fit into a slice of that length.
  lemma {:induction false} NamesCount(ps: seq<Property>)
    ensures |Names(ps)| <= |ps|
    ensures |Names(ps)| == |ps| <==> Distinct(ps)
  {
    if ps != [] {
      var front, last := ps[..|ps| - 1], ps[|ps| - 1];
      NamesCount(front);
      assert Names(ps) == Names(front) + {last.name} by {
        assert forall x :: x in ps <==> x in front || x == last;
      }
      InNames(front, last.name);
      hide Names;
      if i :| 0 <= i < |front| && front[i].name == last.name {
        assert Names(ps) == Names(front);
        assert ps[i].name == ps[|ps| - 1].name;
      } else {
        assert Distinct(ps) <==> Distinct(front);
      }
    }
  }

  // mergeProperties: names are looked up in `propmap`, positions remembered in `order`, and the
  // result is filled from the map in any order.
  method MergePropertyLists(s1: Schema, s2: Schema) returns (r: Result<seq<Property>, MergeError>)
    ensures r == MergeProperties(s1, s2)
  {
    var propmap: map<string, Property>, order: map<string, nat>, orderIndex := map[], map[], 0;
    var required: set<string> := {};
    for i := 0 to |s1.required|
      invariant required == set name | name in s1.required[..i]
    {
      required := required + {s1.required[i]};
    }
    assert s1.required[..|s1.required|] == s1.required;
    ghost var left := required;
    for i := 0 to |s2.required|
      invariant required == left + set name | name in s2.required[..i]
    {
      required := required + {s2.required[i]};
    }
    assert s2.required[..|s2.required|] == s2.required;
    assert required == RequiredNames(s1, s2);

    ghost var known: seq<Property> := [];
    for i := 0 to |s1.properties|
      invariant known == s1.properties[..i] && orderIndex == i
      invariant Indexed(known, propmap, order)
    {
      var p := s1.properties[i];
      IndexedAppend(known, propmap, order, p);
      propmap, order, orderIndex, known := propmap[p.name := p], order[p.name := orderIndex], orderIndex + 1, known + [p];
    }
    assert known == s1.properties;

    var n := |s2.properties|;
    for i := 0 to n
      invariant orderIndex == |known|
      invariant Indexed(known, propmap, order)
      invariant MergeInto(known, s2.properties[i..]) == MergeInto(s1.properties, s2.properties)
    {
      var p := s2.properties[i];
      assert s2.properties[i..][1..] == s2.properties[i + 1..];
      LastIndexOf(known, propmap, order, p.name);
      if p.name in propmap {
        var conflict := propmap[p.name];
        var schema := Merge(p.schema, conflict.schema);
        if schema.Err? {
          return Err(schema.error);
        }
        var merged := Property(p.name, schema.value, p.required || conflict.required);
        IndexedUpdate(known, propmap, order, merged);
        propmap, known := propmap[p.name := merged], known[order[p.name] := merged];
      } else {
        IndexedAppend(known, propmap, order, p);
        propmap, order, orderIndex, known := propmap[p.name := p], order[p.name := orderIndex], orderIndex + 1, known + [p];
      }
    }
    assert s2.properties[n..] == [];
    r := FillSlice(propmap, order, required, known);
  }

  // The last loop of mergeProperties: a position outside the slice panics.
  method FillSlice(propmap: map<string, Property>, order: map<string, nat>, required: set<string>, ghost known: seq<Property>)
    returns (r: Result<seq<Property>, MergeError>)
    requires Indexed(known, propmap, order)
    ensures r == if Distinct(known) then Ok(Flagged(known, required)) else Err(IndexPanic)
  {
    NamesCount(known);
    hide Names, Flagged;
    var size := |propmap.Keys|;
    var result := seq(size, _ => Property("", EMPTY, false));
    var todo := propmap.Keys;
    while todo != {}
      invariant todo <= propmap.Keys && |result| == size
      invariant forall name :: name in propmap.Keys - todo ==>
        && order[name] < size
        && result[order[name]] == propmap[name].(required := propmap[name].required || name in required)
      decreases todo
    {
      var name :| name in todo;
      todo := todo - {name};
      if order[name] >= size {
        assert IsLast(known, name, order[name]);
        return Err(IndexPanic);
      }
      var p := propmap[name];
      result := result[order[name] := p.(required := p.required || p.name in required)];
    }
    FilledSlice(propmap, order, required, known, result);
    return Ok(result);
  }

  lemma FilledSlice(propmap: map<string, Property>, order: map<string, nat>, required: set<string>,
                    known: seq<Property>, result: seq<Property>)
    requires Indexed(known, propmap, order) && |result| == |propmap.Keys|
    requires forall name :: name in order ==>
      && order[name] < |result|
      && result[order[name]] == propmap[name].(required := propmap[name].required || name in required)
    ensures Distinct(known) && result == Flagged(known, required)
  {
    AllIndexed(known, propmap, order);
    AllFit(known, propmap, order);
    hide Names, Flagged;
    assert forall i :: 0 <= i < |known| ==> IsLast(known, known[i].name, i);
    SameFlags(known, required, result);
  }

  lemma AllFit(known: seq<Property>, propmap: map<string, Property>, order: map<string, nat>)
    requires Indexed(known, propmap, order)
    requires forall name :: name in order ==> order[name] < |propmap.Keys|
    ensures Distinct(known) && |propmap.Keys| == |known|
  {
    AllIndexed(known, propmap, order);
    NamesCount(known);
    hide Names, Distinct;
    if known != [] {
      assert IsLast(known, known[|known| - 1].name, |known| - 1);
    }
  }

  lemma AllIndexed(known: seq<Property>, propmap: map<string, Property>, order: map<string, nat>)
    requires Indexed(known, propmap, order)
    ensures forall i :: 0 <= i < |known| ==> known[i].name in order
  {
    forall i | 0 <= i < |known|
      ensures known[i].name in order
    {
      InNames(known, known[i].name);
    }
  }

  lemma SameFlags(known: seq<Property>, required: set<string>, result: seq<Property>)
    requires |result| == |known|
    requires forall i :: 0 <= i < |known| ==>
      result[i] == known[i].(required := known[i].required || known[i].name in required)
    ensures result == Flagged(known, required)
  {
  }
}
