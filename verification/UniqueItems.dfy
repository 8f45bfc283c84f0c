/**
The emitted Equal and Hash with their loops (gen/gen_equality.go), and the emitted search for
duplicates (gen/gen_validators_unique.go), which compares an item only with those of the same hash.
 */
module UniqueItems {
  import opened Equality

  // ----- Equal -----

  lemma {:induction false} FieldAt(s: seq<Shape>, v: seq<Value>, i: nat)
    requires HasAll(s, v) && i <= |s|
    ensures |v| == |s| && HasAll(s[i..], v[i..]) && (i < |s| ==> Has(s[i], v[i]))
    decreases i
  {
    if i > 0 {
      FieldAt(s[1..], v[1..], i - 1);
      assert s[1..][i - 1..] == s[i..] && v[1..][i - 1..] == v[i..];
    } else {
      SameLength(s, v);
      assert s[0..] == s && v[0..] == v;
    }
  }

  lemma {:induction false} SameLength(s: seq<Shape>, v: seq<Value>)
    requires HasAll(s, v)
    ensures |v| == |s|
  {
    if s != [] {
      SameLength(s[1..], v[1..]);
    }
  }

  method EqualItems(a: seq<Atom>, b: seq<Atom>) returns (r: Verdict)
    ensures r == Decide(a == b)
  {
    if |a| != |b| {
      return Different;
    }
    for i := 0 to |a|
      invariant a[..i] == b[..i]
    {
      if a[i] != b[i] {
        return Different;
      }
    }
    return Same;
  }

  method EqualEntries(a: map<string, Atom>, b: map<string, Atom>) returns (r: Verdict)
    ensures r == Decide(a == b)
  {
    if |a| != |b| {
      return Different;
    }
    var todo := a.Keys;
    while todo != {}
      invariant todo <= a.Keys
      invariant forall k :: k in a.Keys - todo ==> k in b && a[k] == b[k]
      decreases todo
    {
      var k :| k in todo;
      if k !in b || a[k] != b[k] {
        return Different;
      }
      todo := todo - {k};
    }
    SameKeys(a, b);
    return Same;
  }

  lemma SameKeys(a: map<string, Atom>, b: map<string, Atom>)
    requires |a| == |b| && forall k :: k in a ==> k in b && a[k] == b[k]
    ensures a == b
  {
    assert a.Keys <= b.Keys && |a.Keys| == |a| && |b.Keys| == |b|;
    SubsetOfSameSize(a.Keys, b.Keys);
  }

  lemma SubsetOfSameSize(x: set<string>, y: set<string>)
    requires x <= y && |x| == |y|
    ensures x == y
  {
    assert y == x + (y - x);
    assert |y - x| == 0;
  }

  method EqualField(s: Shape, a: Value, b: Value, depth: nat) returns (r: Verdict)
    requires Has(s, a) && Has(s, b)
    ensures r == CompareField(s, a, b, depth)
    decreases s
  {
    match s
    case APrim => return Decide(a.atom == b.atom);
    case ABytes => return Decide(a.bytes == b.bytes);
    case AnArr => r := EqualItems(a.items, b.items);
    case AMap => r := EqualEntries(a.entries, b.entries);
    case AnOpt(of) =>
      if a.isSet != b.isSet {
        return Different;
      }
      if a.isSet {
        r := EqualField(of, a.value, b.value, depth);
      } else {
        r := Same;
      }
    case ANil(of) =>
      if a.isNull != b.isNull {
        return Different;
      }
      if !a.isNull {
        r := EqualField(of, a.value, b.value, depth);
      } else {
        r := Same;
      }
    case AnObj(fields) =>
      r := Equal(fields, a.fields, b.fields, depth + 1);
  }

  method Equal(s: seq<Shape>, a: seq<Value>, b: seq<Value>, depth: nat) returns (r: Verdict)
    requires HasAll(s, a) && HasAll(s, b)
    ensures r == Compare(s, a, b, depth)
    decreases s, 1
  {
    if depth > MAX_DEPTH {
      return TooDeep;
    }
    FieldAt(s, a, 0);
    FieldAt(s, b, 0);
    for i := 0 to |s|
      invariant HasAll(s[i..], a[i..]) && HasAll(s[i..], b[i..])
      invariant CompareFields(s[i..], a[i..], b[i..], depth) == CompareFields(s, a, b, depth)
    {
      FieldAt(s, a, i);
      FieldAt(s, b, i);
      assert s[i..][1..] == s[i + 1..] && a[i..][1..] == a[i + 1..] && b[i..][1..] == b[i + 1..];
      r := EqualField(s[i], a[i], b[i], depth);
      if r != Same {
        return;
      }
    }
    return Same;
  }

  // ----- Hash -----

  class Hasher {
    var written: seq<nat>

    constructor ()
      ensures written == []
    {
      written := [];
    }

    method Write(bytes: seq<nat>)
      modifies this
      ensures written == old(written) + bytes
    {
      written := written + bytes;
    }
  }

  ghost predicate Ordered(keys: seq<string>) {
    forall i, j :: 0 <= i < j < |keys| ==> keys[i] != keys[j] && LessEq(keys[i], keys[j])
  }

  ghost function Elements(keys: seq<string>): set<string> {
    set k | k in keys
  }

  // One more key at its place among keys in order.
  method Insert(keys: seq<string>, k: string) returns (r: seq<string>)
    requires Ordered(keys) && k !in keys
    ensures Ordered(r) && Elements(r) == Elements(keys) + {k}
  {
    hide LessEq;
    var i := 0;
    while i < |keys| && LessEq(keys[i], k)
      invariant i <= |keys| && forall j :: 0 <= j < i ==> LessEq(keys[j], k)
    {
      i := i + 1;
    }
    r := keys[..i] + [k] + keys[i..];
    forall j | i <= j < |keys|
      ensures LessEq(k, keys[j])
    {
      LessEqTotal(keys[i], k);
      if i < j {
        LessEqTransitive(k, keys[i], keys[j]);
      }
    }
    assert Elements(keys) == Elements(keys[..i]) + Elements(keys[i..]) by {
      assert keys == keys[..i] + keys[i..];
    }
  }

  // The keys of a map, in whatever order the range over it yields them, and then sorted.
  method SortedKeys(entries: map<string, Atom>) returns (keys: seq<string>)
    ensures keys == Sorted(entries.Keys)
  {
    keys := [];
    var todo := entries.Keys;
    while todo != {}
      invariant todo <= entries.Keys && Ordered(keys) && Elements(keys) == entries.Keys - todo
      decreases todo
    {
      var k :| k in todo;
      assert k !in Elements(keys);
      keys := Insert(keys, k);
      todo := todo - {k};
    }
    OrderedIsSorted(keys, entries.Keys);
  }

  // There is only one way to put keys in order.
  lemma {:induction false} OrderedIsSorted(keys: seq<string>, all: set<string>)
    requires Ordered(keys) && Elements(keys) == all
    ensures keys == Sorted(all)
    decreases keys
  {
    if keys != [] {
      assert keys[0] in Elements(keys);
      LeastKey(all);
      var least := Sorted(all)[0];
      assert IsLeast(least, all);
      var i :| 0 <= i < |keys| && keys[i] == least;
      assert keys[0] in all && LessEq(least, keys[0]);
      if i > 0 {
        LessEqAntisymmetric(least, keys[0]);
      }
      assert Elements(keys[1..]) == all - {keys[0]};
      OrderedIsSorted(keys[1..], all - {keys[0]});
    } else {
      assert all == {};
    }
  }

  method WriteItems(env: Env, h: Hasher, items: seq<Atom>)
    modifies h
    ensures h.written == old(h.written) + ShowItems(env, items)
  {
    ghost var before := h.written;
    for i := 0 to |items|
      invariant h.written + ShowItems(env, items[i..]) == before + ShowItems(env, items)
    {
      assert items[i..][1..] == items[i + 1..];
      h.Write(env.show(Prim(items[i])));
    }
  }

  method WriteEntries(env: Env, h: Hasher, entries: map<string, Atom>)
    modifies h
    ensures h.written == old(h.written) + ShowEntries(env, entries, Sorted(entries.Keys), 0)
  {
    var keys := SortedKeys(entries);
    WriteInOrder(env, h, entries, keys);
  }

  method WriteInOrder(env: Env, h: Hasher, entries: map<string, Atom>, keys: seq<string>)
    requires forall k :: k in keys ==> k in entries
    modifies h
    ensures h.written == old(h.written) + ShowEntries(env, entries, keys, 0)
  {
    ghost var done: seq<nat> := [];
    hide Chars;
    for i := 0 to |keys|
      invariant done + ShowEntries(env, entries, keys, i) == ShowEntries(env, entries, keys, 0)
      invariant h.written == old(h.written) + done
    {
      h.Write(Chars(keys[i]));
      h.Write(env.show(Prim(entries[keys[i]])));
      done := done + (Chars(keys[i]) + env.show(Prim(entries[keys[i]])));
    }
  }

  method WriteField(env: Env, h: Hasher, s: Shape, v: Value)
    requires Has(s, v)
    modifies h
    ensures h.written == old(h.written) + HashField(env, s, v)
    decreases s
  {
    match s
    case APrim => h.Write(env.show(v));
    case ABytes => h.Write(env.show(v));
    case AnArr =>
      WriteItems(env, h, v.items);
    case AMap =>
      WriteEntries(env, h, v.entries);
    case AnOpt(of) =>
      if v.isSet {
        h.Write([1]);
        WriteWrapped(env, h, of, v.value);
      } else {
        h.Write([0]);
      }
    case ANil(of) =>
      if v.isNull {
        h.Write([0]);
      } else {
        h.Write([1]);
        WriteWrapped(env, h, of, v.value);
      }
    case AnObj(fields) =>
      var nested := HashObject(env, fields, v.fields);
      h.Write(LittleEndian(nested, 8));
  }

  method WriteWrapped(env: Env, h: Hasher, s: Shape, v: Value)
    requires Has(s, v)
    modifies h
    ensures h.written == old(h.written) + HashWrapped(env, s, v)
    decreases s, 0
  {
    if s.AnObj? {
      var nested := HashObject(env, s.fields, v.fields);
      h.Write(LittleEndian(nested, 8));
    } else {
      h.Write(env.show(v));
    }
  }

  method HashObject(env: Env, s: seq<Shape>, v: seq<Value>) returns (sum: nat)
    requires HasAll(s, v)
    ensures sum == Hash(env, s, v)
    decreases s
  {
    var h := new Hasher();
    FieldAt(s, v, 0);
    for i := 0 to |s|
      invariant HasAll(s[i..], v[i..])
      invariant h.written + HashFields(env, s[i..], v[i..]) == HashFields(env, s, v)
    {
      FieldAt(s, v, i);
      assert s[i..][1..] == s[i + 1..] && v[i..][1..] == v[i + 1..];
      WriteField(env, h, s[i], v[i]);
    }
    assert s[|s|..] == [] && h.written + HashFields(env, s[|s|..], v[|s|..]) == h.written;
    return env.sum(h.written);
  }

  // ----- The search for duplicates -----

  datatype Entry = Entry(item: seq<Value>, index: nat)

  datatype Outcome = NoDuplicates | Duplicate(first: nat, second: nat) | DepthLimit

  // Items that differ in nothing that is set.
  predicate Alike(s: seq<Shape>, a: seq<Value>, b: seq<Value>)
    requires HasAll(s, a) && HasAll(s, b)
  {
    CanonAll(s, a) == CanonAll(s, b)
  }

  ghost predicate AllHave(s: seq<Shape>, items: seq<seq<Value>>) {
    forall i :: 0 <= i < |items| ==> HasAll(s, items[i])
  }

  // No two of the first n items are alike.
  ghost predicate Distinct(s: seq<Shape>, items: seq<seq<Value>>, n: nat)
    requires AllHave(s, items) && n <= |items|
  {
    forall i, j :: 0 <= j < i < n ==> !Alike(s, items[i], items[j])
  }

  function Bucket(buckets: map<nat, seq<Entry>>, hash: nat): seq<Entry> {
    if hash in buckets then buckets[hash] else []
  }

  // The bucket of a hash has the items with that hash among the first n, in their order.
  ghost predicate Candidates(env: Env, s: seq<Shape>, items: seq<seq<Value>>, n: nat, hash: nat, bucket: seq<Entry>)
    requires AllHave(s, items) && n <= |items|
  {
    && (forall j :: 0 <= j < n && Hash(env, s, items[j]) == hash ==> Entry(items[j], j) in bucket)
    && (forall k :: 0 <= k < |bucket| ==> bucket[k].index < n && items[bucket[k].index] == bucket[k].item)
    && (forall k, l :: 0 <= k < l < |bucket| ==> bucket[k].index < bucket[l].index)
  }

  ghost predicate Filed(env: Env, s: seq<Shape>, items: seq<seq<Value>>, n: nat, buckets: map<nat, seq<Entry>>)
    requires AllHave(s, items) && n <= |items|
  {
    forall hash :: Candidates(env, s, items, n, hash, Bucket(buckets, hash))
  }

  lemma OneMoreCandidate(env: Env, s: seq<Shape>, items: seq<seq<Value>>, n: nat, hash: nat, bucket: seq<Entry>)
    requires AllHave(s, items) && n < |items| && Candidates(env, s, items, n, hash, bucket)
    ensures Candidates(env, s, items, n + 1, hash,
                       if Hash(env, s, items[n]) == hash then bucket + [Entry(items[n], n)] else bucket)
  {
    hide HashFields, HasAll;
    var more := if Hash(env, s, items[n]) == hash then bucket + [Entry(items[n], n)] else bucket;
    forall j | 0 <= j < n + 1 && Hash(env, s, items[j]) == hash
      ensures Entry(items[j], j) in more
    {
      if j == n {
        assert more[|bucket|] == Entry(items[n], n);
      } else {
        assert Entry(items[j], j) in bucket;
      }
    }
  }

  lemma FileOne(env: Env, s: seq<Shape>, items: seq<seq<Value>>, n: nat, buckets: map<nat, seq<Entry>>)
    requires AllHave(s, items) && n < |items| && Filed(env, s, items, n, buckets)
    ensures var hash := Hash(env, s, items[n]);
            Filed(env, s, items, n + 1, buckets[hash := Bucket(buckets, hash) + [Entry(items[n], n)]])
  {
    hide Hash, HasAll, Candidates;
    var own := Hash(env, s, items[n]);
    var now := buckets[own := Bucket(buckets, own) + [Entry(items[n], n)]];
    forall hash: nat
      ensures Candidates(env, s, items, n + 1, hash, Bucket(now, hash))
    {
      OneMoreCandidate(env, s, items, n, hash, Bucket(buckets, hash));
    }
  }

  // Items that are alike are found in the same bucket, before anything filed later.
  lemma AlikeInBucket(env: Env, s: seq<Shape>, items: seq<seq<Value>>, n: nat, bucket: seq<Entry>, j: nat)
    returns (l: nat)
    requires AllHave(s, items) && j < n < |items| && Candidates(env, s, items, n, Hash(env, s, items[n]), bucket)
    requires Alike(s, items[n], items[j])
    ensures l < |bucket| && bucket[l] == Entry(items[j], j)
    ensures forall k :: l <= k < |bucket| ==> j <= bucket[k].index
  {
    CanonHashes(env, s, items[n], items[j]);
    hide Hash, HasAll, CanonAll;
    l :| 0 <= l < |bucket| && bucket[l] == Entry(items[j], j);
  }

  // validateUnique: the first item that has an item like it before it, and the first such item;
  // whatever the hash function, and although items of different hashes are never compared.
  method ValidateUnique(env: Env, s: seq<Shape>, items: seq<seq<Value>>) returns (r: Outcome)
    requires AllHave(s, items)
    ensures r == NoDuplicates ==> Distinct(s, items, |items|)
    ensures r.Duplicate? ==>
              && r.first < r.second < |items| && Alike(s, items[r.second], items[r.first])
              && Distinct(s, items, r.second) && NoneBefore(s, items, r.second, r.first)
    ensures r == DepthLimit ==> NestingOfAll(s) > MAX_DEPTH
  {
    if |items| <= 1 {
      return NoDuplicates;
    }
    var buckets: map<nat, seq<Entry>> := map[];
    hide HasAll, Hash, Alike, Candidates;
    for i := 0 to |items|
      invariant Distinct(s, items, i) && Filed(env, s, items, i, buckets)
    {
      var item := items[i];
      var hash := HashObject(env, s, item);
      r := Search(env, s, items, i, item, Bucket(buckets, hash));
      if r != NoDuplicates {
        return;
      }
      FileOne(env, s, items, i, buckets);
      buckets := buckets[hash := Bucket(buckets, hash) + [Entry(item, i)]];
    }
    return NoDuplicates;
  }

  // The loop over one bucket.
  method Search(env: Env, s: seq<Shape>, ghost items: seq<seq<Value>>, i: nat, item: seq<Value>, bucket: seq<Entry>)
    returns (r: Outcome)
    requires AllHave(s, items) && i < |items| && item == items[i]
    requires Candidates(env, s, items, i, Hash(env, s, item), bucket)
    ensures r == NoDuplicates ==> NoneBefore(s, items, i, i)
    ensures r.Duplicate? ==> r.first < r.second == i && Alike(s, item, items[r.first]) && NoneBefore(s, items, i, r.first)
    ensures r == DepthLimit ==> NestingOfAll(s) > MAX_DEPTH
  {
    hide HasAll, Hash, Alike;
    for k := 0 to |bucket|
      invariant forall l :: 0 <= l < k ==> !Alike(s, item, items[bucket[l].index])
    {
      var existing := bucket[k];
      var verdict := Equal(s, item, existing.item, 0);
      CompareMeans(s, item, existing.item);
      if verdict == TooDeep {
        return DepthLimit;
      }
      if verdict == Same {
        NotAlikeBefore(env, s, items, i, bucket, k);
        return Duplicate(existing.index, i);
      }
    }
    NotAlikeBefore(env, s, items, i, bucket, |bucket|);
    return NoDuplicates;
  }

  // None of the first n items is like item i.
  ghost predicate NoneBefore(s: seq<Shape>, items: seq<seq<Value>>, i: nat, n: nat)
    requires AllHave(s, items) && i < |items| && n <= i
  {
    forall j :: 0 <= j < n ==> !Alike(s, items[i], items[j])
  }

  // What the first k entries of the bucket rule out.
  lemma NotAlikeBefore(env: Env, s: seq<Shape>, items: seq<seq<Value>>, i: nat, bucket: seq<Entry>, k: nat)
    requires AllHave(s, items) && i < |items| && k <= |bucket|
    requires Candidates(env, s, items, i, Hash(env, s, items[i]), bucket)
    requires forall l :: 0 <= l < k ==> !Alike(s, items[i], items[bucket[l].index])
    ensures NoneBefore(s, items, i, if k < |bucket| then bucket[k].index else i)
  {
    forall j | 0 <= j < if k < |bucket| then bucket[k].index else i
      ensures !Alike(s, items[i], items[j])
    {
      if Alike(s, items[i], items[j]) {
        var l := AlikeInBucket(env, s, items, i, bucket, j);
      }
    }
  }

  lemma CompareMeans(s: seq<Shape>, a: seq<Value>, b: seq<Value>)
    requires HasAll(s, a) && HasAll(s, b)
    ensures Compare(s, a, b, 0) == Same ==> Alike(s, a, b)
    ensures Compare(s, a, b, 0) == Different ==> !Alike(s, a, b)
    ensures Compare(s, a, b, 0) == TooDeep ==> NestingOfAll(s) > MAX_DEPTH
  {
    EqualMeans(s, a, b, 0);
    if NestingOfAll(s) <= MAX_DEPTH {
      ShallowFields(s, a, b, 0);
    }
  }
}
