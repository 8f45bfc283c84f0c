/**
What the comparison of JSON texts decides: that two values mean the same, whatever the order of their
members, for every left side if and only if the right side has no duplicate keys.
 */
module JsonEqualProofs {
  import opened Wrappers
  import opened JsonEqual

  // ----- Members by key -----

  function Keys(members: seq<Member>): set<string> {
    set i | 0 <= i < |members| :: members[i].key
  }

  lemma {:induction false} CollectedMeaning(members: seq<Member>)
    requires AllPlain(members)
    ensures Collect(members).Keys == DenoteMembers(members).Keys == Keys(members)
    ensures forall k :: k in Collect(members) ==>
              Plain(Collect(members)[k]) && DenoteMembers(members)[k] == Denote(Collect(members)[k])
    decreases |members|
  {
    if members != [] {
      var init := members[..|members| - 1];
      CollectedMeaning(init);
      assert members == init + [members[|members| - 1]];
    }
  }

  // With distinct keys every member counts.
  lemma {:induction false} EveryMemberCounts(members: seq<Member>)
    requires AllPlain(members) && DistinctKeys(members)
    ensures forall i :: 0 <= i < |members| ==>
              members[i].key in DenoteMembers(members) && DenoteMembers(members)[members[i].key] == Denote(members[i].value)
    decreases |members|
  {
    if members != [] {
      EveryMemberCounts(members[..|members| - 1]);
    }
  }

  lemma {:induction false} KeysSize(members: seq<Member>)
    ensures |Keys(members)| <= |members|
    ensures |Keys(members)| == |members| <==> DistinctKeys(members)
    decreases |members|
  {
    if members != [] {
      var n := |members| - 1;
      var init, last := members[..n], members[n];
      KeysSize(init);
      assert Keys(members) == Keys(init) + {last.key} by {
        assert members == init + [last];
      }
      if last.key in Keys(init) {
        var i :| 0 <= i < n && init[i].key == last.key;
        assert members[i].key == members[n].key;
      } else {
        assert DistinctKeys(init) ==> DistinctKeys(members);
      }
    }
  }

  lemma {:induction false} PlainDecodes(v: Value)
    requires Plain(v)
    ensures Decodes(v)
    decreases v
  {
    match v
    case Arr(items) =>
      forall i | 0 <= i < |items|
        ensures Decodes(items[i])
      {
        PlainDecodes(items[i]);
      }
    case Obj(members) =>
      forall i | 0 <= i < |members|
        ensures Decodes(members[i].value)
      {
        PlainDecodes(members[i].value);
      }
    case _ =>
  }

  // ----- What Equal decides -----

  // A right member agrees with the left side.
  predicate Agrees(left: map<string, Value>, m: Member)
    requires Plain(m.value) && forall k :: k in left ==> Plain(left[k])
  {
    m.key in left && Denote(left[m.key]) == Denote(m.value)
  }

  // If no key of the right side comes twice, Equal decides whether the values mean the same.
  lemma {:induction false} EqualMeans(num: Numbers, a: Value, b: Value)
    requires Plain(a) && Plain(b) && NoDuplicates(b)
    ensures Compare(num, a, b) == Ok(Denote(a) == Denote(b))
    decreases b, 1
  {
    if SameKind(a, b) {
      match b
      case Num(literal) =>
        IntegersCompare(num, a.literal, literal);
      case Arr(items) =>
        ItemsMean(num, a.items, items);
      case Obj(members) =>
        ObjectsMean(num, a, b);
      case _ =>
    }
  }

  lemma {:induction false} ItemsMean(num: Numbers, a: seq<Value>, b: seq<Value>)
    requires ItemsPlain(a) && ItemsPlain(b) && forall i :: 0 <= i < |b| ==> NoDuplicates(b[i])
    ensures CompareItems(num, a, b) == Ok(DenoteItems(a) == DenoteItems(b))
    decreases b
  {
    if a != [] && b != [] {
      EqualMeans(num, a[0], b[0]);
      ItemsMean(num, a[1..], b[1..]);
      var x, y := DenoteItems(a), DenoteItems(b);
      assert x[0] == Denote(a[0]) && y[0] == Denote(b[0]);
      assert x[1..] == DenoteItems(a[1..]) && y[1..] == DenoteItems(b[1..]);
    }
  }

  lemma {:induction false} MembersMean(num: Numbers, left: map<string, Value>, b: seq<Member>, count: nat)
    requires AllPlain(b) && (forall k :: k in left ==> Plain(left[k]))
    requires forall i :: 0 <= i < |b| ==> NoDuplicates(b[i].value)
    ensures CompareMembers(num, left, b, count) ==
            Ok((forall i :: 0 <= i < |b| ==> Agrees(left, b[i])) && |left| == count + |b|)
    decreases b
  {
    if b != [] {
      PlainDecodes(b[0].value);
      if b[0].key in left {
        EqualMeans(num, left[b[0].key], b[0].value);
        if Agrees(left, b[0]) {
          MembersMean(num, left, b[1..], count + 1);
          assert forall i :: 0 < i < |b| ==> b[i] == b[1..][i - 1];
        }
      }
    }
  }

  lemma ObjectsMean(num: Numbers, a: Value, b: Value)
    requires a.Obj? && b.Obj? && Plain(a) && Plain(b) && NoDuplicates(b)
    ensures Compare(num, a, b) == Ok(Denote(a) == Denote(b))
    decreases b, 0
  {
    PlainDecodes(a);
    var left := Collect(a.members);
    CollectedMeaning(a.members);
    CollectedMeaning(b.members);
    KeysSize(b.members);
    EveryMemberCounts(b.members);
    MembersMean(num, left, b.members, 0);
    hide Collect, DenoteMembers, CompareMembers, NoDuplicates, DistinctKeys, Keys;
    MapsAgree(left, DenoteMembers(a.members), b.members, DenoteMembers(b.members));
  }

  lemma MapsAgree(left: map<string, Value>, x: map<string, Meaning>, b: seq<Member>, y: map<string, Meaning>)
    requires AllPlain(b) && (forall k :: k in left ==> Plain(left[k]))
    requires x.Keys == left.Keys && forall k :: k in left ==> x[k] == Denote(left[k])
    requires y.Keys == Keys(b) && |Keys(b)| == |b|
    requires forall i :: 0 <= i < |b| ==> b[i].key in y && y[b[i].key] == Denote(b[i].value)
    ensures (forall i :: 0 <= i < |b| ==> Agrees(left, b[i])) && |left| == |b| <==> x == y
  {
    hide Denote, Plain;
    assert |left| == |left.Keys|;
    if (forall i :: 0 <= i < |b| ==> Agrees(left, b[i])) && |left| == |b| {
      SameSize(Keys(b), left.Keys);
      forall k | k in y
        ensures x[k] == y[k]
      {
        var i :| 0 <= i < |b| && b[i].key == k;
        assert Agrees(left, b[i]);
      }
    }
    if x == y {
      assert forall i :: 0 <= i < |b| ==> Agrees(left, b[i]);
    }
  }

  lemma SameSize(x: set<string>, y: set<string>)
    requires |x| == |y| && x <= y
    ensures x == y
  {
    assert y == x + (y - x);
    assert |y - x| == 0;
  }

  // ----- Duplicate keys -----

  // With a duplicate key on the right the answer "equal" is always wrong.
  lemma {:induction false} TrueMeansNoDuplicates(num: Numbers, a: Value, b: Value)
    requires Plain(a) && Plain(b) && Compare(num, a, b) == Ok(true) && Denote(a) == Denote(b)
    ensures NoDuplicates(b)
    decreases b, 1
  {
    match b
    case Arr(items) =>
      TrueItems(num, a.items, items);
    case Obj(members) =>
      TrueObject(num, a, b);
    case _ =>
  }

  lemma {:induction false} TrueItems(num: Numbers, a: seq<Value>, b: seq<Value>)
    requires ItemsPlain(a) && ItemsPlain(b) && CompareItems(num, a, b) == Ok(true) && DenoteItems(a) == DenoteItems(b)
    ensures forall i :: 0 <= i < |b| ==> NoDuplicates(b[i])
    decreases b
  {
    if b != [] {
      assert DenoteItems(a)[0] == Denote(a[0]) && DenoteItems(b)[0] == Denote(b[0]);
      assert DenoteItems(a)[1..] == DenoteItems(a[1..]) && DenoteItems(b)[1..] == DenoteItems(b[1..]);
      TrueMeansNoDuplicates(num, a[0], b[0]);
      TrueItems(num, a[1..], b[1..]);
      assert forall i :: 0 < i < |b| ==> b[i] == b[1..][i - 1];
    }
  }

  // A true answer comes from as many left keys as right members, each of them in order.
  lemma {:induction false} TrueMembers(num: Numbers, left: map<string, Value>, b: seq<Member>, count: nat)
    requires CompareMembers(num, left, b, count) == Ok(true)
    ensures |left| == count + |b|
    ensures forall i :: 0 <= i < |b| ==> b[i].key in left && Compare(num, left[b[i].key], b[i].value) == Ok(true)
    decreases b
  {
    if b != [] {
      TrueMembers(num, left, b[1..], count + 1);
      assert forall i :: 0 < i < |b| ==> b[i] == b[1..][i - 1];
    }
  }

  lemma TrueObject(num: Numbers, a: Value, b: Value)
    requires a.Obj? && b.Obj? && Plain(a) && Plain(b) && Compare(num, a, b) == Ok(true) && Denote(a) == Denote(b)
    ensures NoDuplicates(b)
    decreases b, 0
  {
    var left := Collect(a.members);
    TrueMembers(num, left, b.members, 0);
    CollectedMeaning(a.members);
    CollectedMeaning(b.members);
    KeysSize(b.members);
    assert |left| == |left.Keys|;
    EveryMemberCounts(b.members);
    forall i | 0 <= i < |b.members|
      ensures NoDuplicates(b.members[i].value)
    {
      TrueMeansNoDuplicates(num, left[b.members[i].key], b.members[i].value);
    }
  }

  // Equal answers correctly for every left side exactly if the right side has no duplicate keys.
  ghost predicate RightFor(num: Numbers, b: Value)
    requires Plain(b)
  {
    forall a :: Plain(a) ==> Compare(num, a, b) == Ok(Denote(a) == Denote(b))
  }

  lemma EqualIsRightExactly(num: Numbers, b: Value)
    requires Plain(b)
    ensures RightFor(num, b) <==> NoDuplicates(b)
  {
    if NoDuplicates(b) {
      forall a | Plain(a)
        ensures Compare(num, a, b) == Ok(Denote(a) == Denote(b))
      {
        EqualMeans(num, a, b);
      }
    }
    if RightFor(num, b) {
      TrueMeansNoDuplicates(num, b, b);
    }
  }

  // The two sides may be swapped, although they are treated differently.
  lemma EqualIsSymmetric(num: Numbers, a: Value, b: Value)
    requires Plain(a) && Plain(b) && NoDuplicates(a) && NoDuplicates(b)
    ensures Compare(num, a, b) == Compare(num, b, a)
  {
    EqualMeans(num, a, b);
    EqualMeans(num, b, a);
  }

  // With a duplicate key on the right they may not: {"a": null, "b": null} equals {"a": null, "a": null}
  // one way round only.
  lemma DuplicatesBreakSymmetry(num: Numbers)
    ensures var l := Obj([Member("a", Null), Member("b", Null)]);
            var r := Obj([Member("a", Null), Member("a", Null)]);
            && Compare(num, l, r) == Ok(true) && Compare(num, r, l) == Ok(false)
            && Plain(l) && Plain(r) && Denote(l) != Denote(r)
  {
    var l := [Member("a", Null), Member("b", Null)];
    var r := [Member("a", Null), Member("a", Null)];
    assert l[..1] == [l[0]] && r[..1] == [r[0]] && [l[0]][..0] == [] && [r[0]][..0] == [];
    assert Collect([l[0]]) == map["a" := Null];
    assert Collect(l) == map["a" := Null, "b" := Null] && Collect(r) == map["a" := Null];
    assert l[1..] == [l[1]] && r[1..] == [r[1]] && [l[1]][1..] == [] && [r[1]][1..] == [];
    MemberWalk(num, Collect(l), r);
    assert DenoteMembers([l[0]]) == map["a" := NullIs];
    assert "b" in DenoteMembers(l) && "b" !in DenoteMembers(r);
  }

  lemma MemberWalk(num: Numbers, left: map<string, Value>, r: seq<Member>)
    requires |r| == 2 && left == map["a" := Null, "b" := Null] && r[0] == r[1] == Member("a", Null)
    ensures CompareMembers(num, left, r, 0) == Ok(true)
  {
    assert r[1..][1..] == [];
    assert left.Keys == {"a", "b"} && |left.Keys| == |left|;
    assert CompareMembers(num, left, r[1..][1..], 2) == Ok(true);
    assert CompareMembers(num, left, r[1..], 1) == Ok(true);
  }
}
