/**
The Equal and Hash methods the generator emits for structs (gen/gen_equality.go), as functions of the
values they compare: fields that are primitives, byte slices, arrays and maps of primitives, nested
structs, and optional or nullable ones of these. Floats and pointers are left out: `==` on them does
not line up with how they print.
 */
module Equality {
  import opened Wrappers

  datatype Atom = Text(s: string) | Number(n: int) | Flag(b: bool)

  // The value behind `isSet == false` or `isNull == true` is whatever happens to be there.
  datatype Value =
    | Prim(atom: Atom)
    | Bytes(bytes: seq<nat>)
    | Arr(items: seq<Atom>)
    | Map(entries: map<string, Atom>)
    | Opt(isSet: bool, value: Value)
    | Nil(isNull: bool, value: Value)
    | Obj(fields: seq<Value>)

  // The type of a field.
  datatype Shape = APrim | ABytes | AnArr | AMap | AnOpt(of: Shape) | ANil(of: Shape) | AnObj(fields: seq<Shape>)

  predicate Has(s: Shape, v: Value) {
    match s
    case APrim => v.Prim?
    case ABytes => v.Bytes?
    case AnArr => v.Arr?
    case AMap => v.Map?
    case AnOpt(of) => v.Opt? && Wrappable(of) && Has(of, v.value)
    case ANil(of) => v.Nil? && Wrappable(of) && Has(of, v.value)
    case AnObj(fields) => v.Obj? && HasAll(fields, v.fields)
  }

  // There is no wrapper around a wrapper, and `!=` on byte slices does not compile.
  predicate Wrappable(s: Shape) {
    s.APrim? || s.AnArr? || s.AMap? || s.AnObj?
  }

  predicate HasAll(s: seq<Shape>, v: seq<Value>) {
    if s == [] then v == [] else v != [] && Has(s[0], v[0]) && HasAll(s[1..], v[1..])
  }

  // ----- Equal -----

  datatype Verdict = Same | Different | TooDeep

  const MAX_DEPTH := 10

  function Decide(equal: bool): Verdict {
    if equal then Same else Different
  }

  // A field of a struct that is compared at `depth`.
  function CompareField(s: Shape, a: Value, b: Value, depth: nat): Verdict
    requires Has(s, a) && Has(s, b)
    decreases s
  {
    match s
    case APrim => Decide(a.atom == b.atom)
    case ABytes => Decide(a.bytes == b.bytes)
    case AnArr => Decide(a.items == b.items)
    case AMap => Decide(a.entries == b.entries)
    case AnOpt(of) =>
      if a.isSet != b.isSet then Different
      else if a.isSet then CompareField(of, a.value, b.value, depth) else Same
    case ANil(of) =>
      if a.isNull != b.isNull then Different
      else if !a.isNull then CompareField(of, a.value, b.value, depth) else Same
    case AnObj(fields) => Compare(fields, a.fields, b.fields, depth + 1)
  }

  // Equal: the first field that is not the same decides; a panic of a nested call is passed on.
  function Compare(s: seq<Shape>, a: seq<Value>, b: seq<Value>, depth: nat): Verdict
    requires HasAll(s, a) && HasAll(s, b)
    decreases s, 1
  {
    if depth > MAX_DEPTH then TooDeep else CompareFields(s, a, b, depth)
  }

  function CompareFields(s: seq<Shape>, a: seq<Value>, b: seq<Value>, depth: nat): Verdict
    requires HasAll(s, a) && HasAll(s, b)
    decreases s, 0
  {
    if s == [] then Same
    else
      var first := CompareField(s[0], a[0], b[0], depth);
      if first != Same then first else CompareFields(s[1..], a[1..], b[1..], depth)
  }

  // How many structs are nested below a struct with these fields.
  function Nesting(s: Shape): nat {
    match s
    case AnOpt(of) => Nesting(of)
    case ANil(of) => Nesting(of)
    case AnObj(fields) => 1 + NestingOfAll(fields)
    case _ => 0
  }

  function NestingOfAll(s: seq<Shape>): nat {
    if s == [] then 0 else
      var first, rest := Nesting(s[0]), NestingOfAll(s[1..]);
      if first > rest then first else rest
  }

  // Types that are not nested too deeply never reach the limit.
  lemma {:induction false} ShallowFields(s: seq<Shape>, a: seq<Value>, b: seq<Value>, depth: nat)
    requires HasAll(s, a) && HasAll(s, b) && depth + NestingOfAll(s) <= MAX_DEPTH
    ensures CompareFields(s, a, b, depth) != TooDeep
    decreases s
  {
    if s != [] {
      ShallowField(s[0], a[0], b[0], depth);
      ShallowFields(s[1..], a[1..], b[1..], depth);
    }
  }

  lemma {:induction false} ShallowField(s: Shape, a: Value, b: Value, depth: nat)
    requires Has(s, a) && Has(s, b) && depth + Nesting(s) <= MAX_DEPTH
    ensures CompareField(s, a, b, depth) != TooDeep
    decreases s
  {
    match s
    case AnOpt(of) =>
      ShallowField(of, a.value, b.value, depth);
    case ANil(of) =>
      ShallowField(of, a.value, b.value, depth);
    case AnObj(fields) =>
      ShallowFields(fields, a.fields, b.fields, depth + 1);
    case _ =>
  }

  // ----- What Equal means -----

  // A value with nothing left behind an unset or null wrapper.
  function Canon(s: Shape, v: Value): Value
    requires Has(s, v)
    decreases s
  {
    match s
    case AnOpt(of) => if v.isSet then Opt(true, Canon(of, v.value)) else Opt(false, Prim(Flag(false)))
    case ANil(of) => if v.isNull then Nil(true, Prim(Flag(false))) else Nil(false, Canon(of, v.value))
    case AnObj(fields) => Obj(CanonAll(fields, v.fields))
    case _ => v
  }

  function CanonAll(s: seq<Shape>, v: seq<Value>): seq<Value>
    requires HasAll(s, v)
    decreases s
  {
    if s == [] then [] else [Canon(s[0], v[0])] + CanonAll(s[1..], v[1..])
  }

  // What it is to be the same but for what is not set, kind by kind.
  lemma {:induction false} CanonIs(s: Shape, a: Value, b: Value)
    requires Has(s, a) && Has(s, b)
    ensures Canon(s, a) == Canon(s, b) <==>
            match s
            case APrim => a.atom == b.atom
            case ABytes => a.bytes == b.bytes
            case AnArr => a.items == b.items
            case AMap => a.entries == b.entries
            case AnOpt(of) => a.isSet == b.isSet && (a.isSet ==> Canon(of, a.value) == Canon(of, b.value))
            case ANil(of) => a.isNull == b.isNull && (!a.isNull ==> Canon(of, a.value) == Canon(of, b.value))
            case AnObj(fields) => forall i :: 0 <= i < |fields| ==> SameField(fields, a.fields, b.fields, i)
  {
    if s.AnObj? { CanonAllIs(s.fields, a.fields, b.fields); }
  }

  ghost predicate SameField(s: seq<Shape>, a: seq<Value>, b: seq<Value>, i: nat)
    requires HasAll(s, a) && HasAll(s, b) && i < |s|
  {
    HasAt(s, a, i);
    HasAt(s, b, i);
    Canon(s[i], a[i]) == Canon(s[i], b[i])
  }

  lemma {:induction false} HasAt(s: seq<Shape>, v: seq<Value>, i: nat)
    requires HasAll(s, v) && i < |s|
    ensures |v| == |s| && Has(s[i], v[i])
    decreases i
  {
    if i > 0 {
      HasAt(s[1..], v[1..], i - 1);
    } else {
      HasLength(s, v);
    }
  }

  lemma {:induction false} HasLength(s: seq<Shape>, v: seq<Value>)
    requires HasAll(s, v)
    ensures |v| == |s|
    decreases |s|
  {
    if s != [] { HasLength(s[1..], v[1..]); }
  }

  lemma {:induction false} CanonAllIs(s: seq<Shape>, a: seq<Value>, b: seq<Value>)
    requires HasAll(s, a) && HasAll(s, b)
    ensures CanonAll(s, a) == CanonAll(s, b) <==> forall i :: 0 <= i < |s| ==> SameField(s, a, b, i)
    decreases |s|
  {
    if s != [] {
      CanonAllIs(s[1..], a[1..], b[1..]);
      var ca, cb := CanonAll(s, a), CanonAll(s, b);
      assert ca[0] == Canon(s[0], a[0]) && cb[0] == Canon(s[0], b[0]);
      assert ca[1..] == CanonAll(s[1..], a[1..]) && cb[1..] == CanonAll(s[1..], b[1..]);
      assert ca == [ca[0]] + ca[1..] && cb == [cb[0]] + cb[1..];
      hide Canon, CanonAll, Has, HasAll;
      HasLength(s, a);
      HasLength(s, b);
      assert SameField(s, a, b, 0) <==> ca[0] == cb[0];
      forall i | 0 <= i < |s| - 1
        ensures SameField(s[1..], a[1..], b[1..], i) <==> SameField(s, a, b, i + 1)
      {
      }
      hide SameField;
      if forall i :: 0 <= i < |s| ==> SameField(s, a, b, i) {
        assert forall i :: 0 <= i < |s[1..]| ==> SameField(s[1..], a[1..], b[1..], i);
      } else if ca == cb {
        forall i | 0 <= i < |s|
          ensures SameField(s, a, b, i)
        {
          if i > 0 { assert SameField(s[1..], a[1..], b[1..], i - 1); }
        }
      }
    }
  }

  // Eleven structs deep Equal gives up.
  lemma LimitIs(s: seq<Shape>, a: seq<Value>, b: seq<Value>, depth: nat)
    requires HasAll(s, a) && HasAll(s, b)
    ensures depth > 10 ==> Compare(s, a, b, depth) == TooDeep
    ensures depth + NestingOfAll(s) <= 10 ==> Compare(s, a, b, depth) != TooDeep
  {
    if depth + NestingOfAll(s) <= 10 { ShallowFields(s, a, b, depth); }
  }

  // Unless it gives up, Equal decides whether two values are the same but for what is not set.
  lemma {:induction false} EqualMeans(s: seq<Shape>, a: seq<Value>, b: seq<Value>, depth: nat)
    requires HasAll(s, a) && HasAll(s, b)
    ensures CompareFields(s, a, b, depth) == Same ==> CanonAll(s, a) == CanonAll(s, b)
    ensures CompareFields(s, a, b, depth) == Different ==> CanonAll(s, a) != CanonAll(s, b)
    decreases s
  {
    if s != [] {
      EqualFieldMeans(s[0], a[0], b[0], depth);
      EqualMeans(s[1..], a[1..], b[1..], depth);
      var ca, cb := CanonAll(s, a), CanonAll(s, b);
      assert ca[0] == Canon(s[0], a[0]) && cb[0] == Canon(s[0], b[0]);
      assert ca[1..] == CanonAll(s[1..], a[1..]) && cb[1..] == CanonAll(s[1..], b[1..]);
    }
  }

  lemma {:induction false} EqualFieldMeans(s: Shape, a: Value, b: Value, depth: nat)
    requires Has(s, a) && Has(s, b)
    ensures CompareField(s, a, b, depth) == Same ==> Canon(s, a) == Canon(s, b)
    ensures CompareField(s, a, b, depth) == Different ==> Canon(s, a) != Canon(s, b)
    decreases s
  {
    match s
    case AnOpt(of) =>
      EqualFieldMeans(of, a.value, b.value, depth);
    case ANil(of) =>
      EqualFieldMeans(of, a.value, b.value, depth);
    case AnObj(fields) =>
      EqualMeans(fields, a.fields, b.fields, depth + 1);
      assert CompareField(s, a, b, depth) == Compare(fields, a.fields, b.fields, depth + 1);
      assert Canon(s, a) == Obj(CanonAll(fields, a.fields)) && Canon(s, b) == Obj(CanonAll(fields, b.fields));
    case _ =>
  }

  // ----- Hash -----

  // How fmt prints a value with %v, and FNV-1a of a row of bytes.
  datatype Env = Env(show: Value -> seq<nat>, sum: seq<nat> -> nat)

  function LittleEndian(n: nat, count: nat): seq<nat> {
    if count == 0 then [] else [n % 256] + LittleEndian(n / 256, count - 1)
  }

  function ShowItems(env: Env, items: seq<Atom>): seq<nat> {
    if items == [] then [] else env.show(Prim(items[0])) + ShowItems(env, items[1..])
  }

  // The bytes written for a map whose keys come in the given order, from the i-th key on.
  function ShowEntries(env: Env, entries: map<string, Atom>, keys: seq<string>, i: nat): seq<nat>
    requires i <= |keys| && forall k :: k in keys ==> k in entries
    decreases |keys| - i
  {
    if i == |keys| then []
    else Chars(keys[i]) + env.show(Prim(entries[keys[i]])) + ShowEntries(env, entries, keys, i + 1)
  }

  function Chars(s: string): seq<nat> {
    seq(|s|, i requires 0 <= i < |s| => s[i] as nat)
  }

  ghost function HashField(env: Env, s: Shape, v: Value): seq<nat>
    requires Has(s, v)
    decreases s
  {
    match s
    case APrim => env.show(v)
    case ABytes => env.show(v)
    case AnArr => ShowItems(env, v.items)
    case AMap => ShowEntries(env, v.entries, Sorted(v.entries.Keys), 0)
    case AnOpt(of) => if v.isSet then [1] + HashWrapped(env, of, v.value) else [0]
    case ANil(of) => if v.isNull then [0] else [1] + HashWrapped(env, of, v.value)
    case AnObj(fields) => LittleEndian(env.sum(HashFields(env, fields, v.fields)), 8)
  }

  // Inside a wrapper arrays and maps are printed as a whole.
  ghost function HashWrapped(env: Env, s: Shape, v: Value): seq<nat>
    requires Has(s, v)
    decreases s, 0
  {
    match s
    case AnObj(fields) => LittleEndian(env.sum(HashFields(env, fields, v.fields)), 8)
    case _ => env.show(v)
  }

  ghost function HashFields(env: Env, s: seq<Shape>, v: seq<Value>): seq<nat>
    requires HasAll(s, v)
    decreases s
  {
    if s == [] then [] else HashField(env, s[0], v[0]) + HashFields(env, s[1..], v[1..])
  }

  // Hash.
  ghost function Hash(env: Env, s: seq<Shape>, v: seq<Value>): nat
    requires HasAll(s, v)
  {
    env.sum(HashFields(env, s, v))
  }

  // Values that are the same but for what is not set hash alike.
  lemma {:induction false} CanonHashes(env: Env, s: seq<Shape>, a: seq<Value>, b: seq<Value>)
    requires HasAll(s, a) && HasAll(s, b) && CanonAll(s, a) == CanonAll(s, b)
    ensures HashFields(env, s, a) == HashFields(env, s, b)
    decreases s
  {
    if s != [] {
      var ca, cb := CanonAll(s, a), CanonAll(s, b);
      assert ca[0] == Canon(s[0], a[0]) && cb[0] == Canon(s[0], b[0]);
      assert ca[1..] == CanonAll(s[1..], a[1..]) && cb[1..] == CanonAll(s[1..], b[1..]);
      CanonHashesField(env, s[0], a[0], b[0]);
      CanonHashes(env, s[1..], a[1..], b[1..]);
    }
  }

  lemma {:induction false} CanonHashesField(env: Env, s: Shape, a: Value, b: Value)
    requires Has(s, a) && Has(s, b) && Canon(s, a) == Canon(s, b)
    ensures HashField(env, s, a) == HashField(env, s, b)
    decreases s
  {
    match s
    case AnOpt(of) =>
      if a.isSet && of.AnObj? {
        CanonHashes(env, of.fields, a.value.fields, b.value.fields);
      }
    case ANil(of) =>
      if !a.isNull && of.AnObj? {
        CanonHashes(env, of.fields, a.value.fields, b.value.fields);
      }
    case AnObj(fields) =>
      CanonHashes(env, fields, a.fields, b.fields);
    case _ =>
  }

  // Equal values have equal hashes, whatever the hash function and however values print.
  lemma EqualHashes(env: Env, s: seq<Shape>, a: seq<Value>, b: seq<Value>)
    requires HasAll(s, a) && HasAll(s, b) && Compare(s, a, b, 0) == Same
    ensures Hash(env, s, a) == Hash(env, s, b)
  {
    EqualMeans(s, a, b, 0);
    CanonHashes(env, s, a, b);
  }

  // ----- The order of strings -----

  predicate LessEq(a: string, b: string) {
    if a == [] then true
    else if b == [] then false
    else a[0] < b[0] || (a[0] == b[0] && LessEq(a[1..], b[1..]))
  }

  lemma {:induction false} LessEqTotal(a: string, b: string)
    ensures LessEq(a, b) || LessEq(b, a)
  {
    if a != [] && b != [] {
      LessEqTotal(a[1..], b[1..]);
    }
  }

  lemma {:induction false} LessEqAntisymmetric(a: string, b: string)
    requires LessEq(a, b) && LessEq(b, a)
    ensures a == b
  {
    if a != [] && b != [] {
      LessEqAntisymmetric(a[1..], b[1..]);
      assert a == [a[0]] + a[1..] && b == [b[0]] + b[1..];
    }
  }

  lemma {:induction false} LessEqTransitive(a: string, b: string, c: string)
    requires LessEq(a, b) && LessEq(b, c)
    ensures LessEq(a, c)
  {
    if a != [] && b != [] && c != [] && a[0] == b[0] == c[0] {
      LessEqTransitive(a[1..], b[1..], c[1..]);
    }
  }

  ghost predicate IsLeast(k: string, keys: set<string>) {
    k in keys && forall j :: j in keys ==> LessEq(k, j)
  }

  lemma {:induction false} LeastExists(keys: set<string>) returns (k: string)
    requires keys != {}
    ensures IsLeast(k, keys)
    decreases |keys|
  {
    k :| k in keys;
    var rest := keys - {k};
    LessEqTotal(k, k);
    if rest != {} {
      var j := LeastExists(rest);
      LessEqTotal(j, k);
      if LessEq(j, k) {
        k := j;
      } else {
        forall i | i in rest
          ensures LessEq(k, i)
        {
          LessEqTransitive(k, j, i);
        }
      }
    }
  }

  ghost function Sorted(keys: set<string>): (s: seq<string>)
    ensures forall k :: k in s <==> k in keys
    decreases |keys|
  {
    if keys == {} then []
    else
      LeastKey(keys);
      var k :| IsLeast(k, keys);
      [k] + Sorted(keys - {k})
  }

  lemma LeastKey(keys: set<string>)
    requires keys != {}
    ensures exists k :: IsLeast(k, keys)
  {
    var k := LeastExists(keys);
  }
}
