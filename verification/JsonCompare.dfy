/**
The loops of the JSON comparison (runtime/codec/equal.go): two iterators that are read in step, the
map of the left members, and the count of the right ones.
 */
module JsonCompare {
  import opened Wrappers
  import opened JsonEqual

  // An iterator: Next moves to the next element, if there is one.
  class Iter<T> {
    const elements: seq<T>
    var read: nat

    constructor (elements: seq<T>)
      ensures this.elements == elements && read == 0
    {
      this.elements, read := elements, 0;
    }

    method Next() returns (ok: bool)
      requires read <= |elements|
      modifies this
      ensures ok <==> old(read) < |elements|
      ensures read == if ok then old(read) + 1 else old(read)
    {
      ok := read < |elements|;
      if ok {
        read := read + 1;
      }
    }
  }

  // equal and Equal.
  method Equal(num: Numbers, a: Value, b: Value) returns (r: Result<bool, Failure>)
    ensures r == Compare(num, a, b)
    decreases b, 2
  {
    if a.Invalid? {
      return Err(Left);
    }
    if b.Invalid? {
      return Err(Right);
    }
    if !SameKind(a, b) {
      return Ok(false);
    }
    match b
    case Null => return Ok(true);
    case Bool(x) => return Ok(a.b == x);
    case Str(s) => return Ok(a.s == s);
    case Num(literal) => return EqualNumber(num, a.literal, literal);
    case Arr(items) => r := EqualArray(num, a.items, items);
    case Obj(members) => r := EqualObject(num, a.members, members);
  }

  // equalArray.
  method EqualArray(num: Numbers, a: seq<Value>, b: seq<Value>) returns (r: Result<bool, Failure>)
    ensures r == CompareItems(num, a, b)
    decreases b
  {
    var liter := new Iter(a);
    var riter := new Iter(b);
    var more := liter.Next();
    assert a[0..] == a && b[0..] == b;
    ghost var i := 0;
    while more
      invariant riter.read == i <= |a| && i <= |b| && riter.elements == b && liter.elements == a
      invariant liter.read == i + (if more then 1 else 0) <= |a| && (more <==> i < |a|)
      invariant CompareItems(num, a[i..], b[i..]) == CompareItems(num, a, b)
      decreases |a| - i
    {
      var also := riter.Next();
      if !also {
        return Ok(false);
      }
      assert a[i..][1..] == a[i + 1..] && b[i..][1..] == b[i + 1..];
      r := Equal(num, a[liter.read - 1], b[riter.read - 1]);
      if r != Ok(true) {
        return;
      }
      more := liter.Next();
      i := i + 1;
    }
    var also := riter.Next();
    return Ok(!also);
  }

  // collectObject.
  method CollectObject(members: seq<Member>) returns (r: Result<map<string, Value>, Failure>)
    ensures r == if AllDecode(members) then Ok(Collect(members)) else Err(Left)
  {
    var m: map<string, Value> := map[];
    for i := 0 to |members|
      invariant AllDecode(members[..i]) && m == Collect(members[..i])
    {
      if !Decodes(members[i].value) {
        return Err(Left);
      }
      m := m[members[i].key := members[i].value];
      assert members[..i + 1][..i] == members[..i];
    }
    assert members[..|members|] == members;
    return Ok(m);
  }

  // equalObject.
  method EqualObject(num: Numbers, a: seq<Member>, b: seq<Member>) returns (r: Result<bool, Failure>)
    ensures r == if AllDecode(a) then CompareMembers(num, Collect(a), b, 0) else Err(Left)
    decreases b
  {
    var lmap :- CollectObject(a);
    var riter := new Iter(b);
    var more := riter.Next();
    assert b[0..] == b;
    var i := 0;
    while more
      invariant i <= |b| && riter.elements == b && riter.read == i + (if more then 1 else 0) <= |b|
      invariant more <==> i < |b|
      invariant CompareMembers(num, lmap, b[i..], i) == CompareMembers(num, lmap, b, 0)
      decreases |b| - i
    {
      var m := b[riter.read - 1];
      assert b[i..][1..] == b[i + 1..];
      if m.key !in lmap {
        return Ok(false);
      }
      i := i + 1;
      if !Decodes(m.value) {
        return Err(Right);
      }
      r := Equal(num, lmap[m.key], m.value);
      if r != Ok(true) {
        return;
      }
      more := riter.Next();
    }
    if |lmap| != i {
      return Ok(false);
    }
    return Ok(true);
  }
}
