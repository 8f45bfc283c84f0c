/**
The comparison of two JSON texts (runtime/codec/equal.go), on values as a decoder yields them: an
object is its list of members, in their order and with any duplicates, and text that cannot be
decoded is an invalid value.
 */
module JsonEqual {
  import opened Wrappers

  datatype Value =
    | Invalid
    | Null
    | Bool(b: bool)
    | Str(s: string)
    | Num(literal: string)
    | Arr(items: seq<Value>)
    | Obj(members: seq<Member>)

  datatype Member = Member(key: string, value: Value)

  datatype Failure = Left | Right | Number

  // What the number package does with literals that are no integers: whether one is zero, and
  // whether two are equal as floating point or exact numbers.
  datatype Numbers = Numbers(zero: string -> bool, equal: (string, string) -> Result<bool, Failure>)

  predicate IsDigit(c: char) {
    '0' <= c <= '9'
  }

  predicate IsInt(literal: string) {
    forall i :: 0 <= i < |literal| ==> IsDigit(literal[i]) || literal[i] == '-'
  }

  predicate Zero(num: Numbers, literal: string) {
    if IsInt(literal) then literal == "0" || literal == "-0" else num.zero(literal)
  }

  // equalNumber.
  function EqualNumber(num: Numbers, l: string, r: string): Result<bool, Failure> {
    if Zero(num, l) && Zero(num, r) then Ok(true)
    else if l == r then Ok(true)
    else if IsInt(l) && IsInt(r) then Ok(false)
    else num.equal(l, r)
  }

  // Nothing in the value is invalid.
  predicate Decodes(v: Value) {
    match v
    case Invalid => false
    case Arr(items) => forall i :: 0 <= i < |items| ==> Decodes(items[i])
    case Obj(members) => forall i :: 0 <= i < |members| ==> Decodes(members[i].value)
    case _ => true
  }

  predicate AllDecode(members: seq<Member>) {
    forall i :: 0 <= i < |members| ==> Decodes(members[i].value)
  }

  // The members by key; of members with the same key the last one counts.
  function Collect(members: seq<Member>): map<string, Value> {
    if members == [] then map[]
    else
      var last := members[|members| - 1];
      Collect(members[..|members| - 1])[last.key := last.value]
  }

  predicate SameKind(a: Value, b: Value) {
    || (a.Null? && b.Null?) || (a.Bool? && b.Bool?) || (a.Str? && b.Str?)
    || (a.Num? && b.Num?) || (a.Arr? && b.Arr?) || (a.Obj? && b.Obj?)
  }

  // Equal.
  function Compare(num: Numbers, a: Value, b: Value): Result<bool, Failure>
    decreases b
  {
    if a.Invalid? then Err(Left)
    else if b.Invalid? then Err(Right)
    else if !SameKind(a, b) then Ok(false)
    else match b
      case Null => Ok(true)
      case Bool(x) => Ok(a.b == x)
      case Str(s) => Ok(a.s == s)
      case Num(literal) => EqualNumber(num, a.literal, literal)
      case Arr(items) => CompareItems(num, a.items, items)
      case Obj(members) => if AllDecode(a.members) then CompareMembers(num, Collect(a.members), members, 0) else Err(Left)
  }

  // equalArray.
  function CompareItems(num: Numbers, a: seq<Value>, b: seq<Value>): Result<bool, Failure>
    decreases b
  {
    if a == [] then Ok(b == [])
    else if b == [] then Ok(false)
    else
      var first := Compare(num, a[0], b[0]);
      if first != Ok(true) then first else CompareItems(num, a[1..], b[1..])
  }

  // equalObject: the members of the right side against the collected left side, `count` of them so far.
  function CompareMembers(num: Numbers, left: map<string, Value>, b: seq<Member>, count: nat): Result<bool, Failure>
    decreases b
  {
    if b == [] then Ok(|left| == count)
    else if b[0].key !in left then Ok(false)
    else if !Decodes(b[0].value) then Err(Right)
    else
      var first := Compare(num, left[b[0].key], b[0].value);
      if first != Ok(true) then first else CompareMembers(num, left, b[1..], count + 1)
  }

  // ----- What values mean -----

  datatype Meaning =
    | NullIs
    | BoolIs(b: bool)
    | StrIs(s: string)
    | IntIs(n: int)
    | ArrIs(items: seq<Meaning>)
    | ObjIs(members: map<string, Meaning>)

  function NatOf(digits: string): nat
    requires forall i :: 0 <= i < |digits| ==> IsDigit(digits[i])
  {
    if digits == [] then 0
    else
      assert IsDigit(digits[|digits| - 1]);
      NatOf(digits[..|digits| - 1]) * 10 + (digits[|digits| - 1] as int - '0' as int)
  }

  // A natural number as JSON writes it (RFC 8259, section 6): no zeros in front.
  predicate IsNatural(digits: string) {
    && digits != [] && (forall i :: 0 <= i < |digits| ==> IsDigit(digits[i]))
    && (|digits| > 1 ==> digits[0] != '0')
  }

  predicate IsInteger(literal: string) {
    IsNatural(literal) || (literal != [] && literal[0] == '-' && IsNatural(literal[1..]))
  }

  function IntOf(literal: string): int
    requires IsInteger(literal)
  {
    if IsNatural(literal) then NatOf(literal) else 0 - NatOf(literal[1..])
  }

  // Values with integers for numbers, and nothing invalid.
  predicate Plain(v: Value) {
    match v
    case Invalid => false
    case Num(literal) => IsInteger(literal)
    case Arr(items) => forall i :: 0 <= i < |items| ==> Plain(items[i])
    case Obj(members) => forall i :: 0 <= i < |members| ==> Plain(members[i].value)
    case _ => true
  }

  predicate AllPlain(members: seq<Member>) {
    forall i :: 0 <= i < |members| ==> Plain(members[i].value)
  }

  predicate ItemsPlain(items: seq<Value>) {
    forall i :: 0 <= i < |items| ==> Plain(items[i])
  }

  function Denote(v: Value): Meaning
    requires Plain(v)
  {
    match v
    case Null => NullIs
    case Bool(b) => BoolIs(b)
    case Str(s) => StrIs(s)
    case Num(literal) => IntIs(IntOf(literal))
    case Arr(items) => ArrIs(DenoteItems(items))
    case Obj(members) => ObjIs(DenoteMembers(members))
  }

  function DenoteItems(items: seq<Value>): (m: seq<Meaning>)
    requires ItemsPlain(items)
    ensures |m| == |items|
  {
    if items == [] then [] else [Denote(items[0])] + DenoteItems(items[1..])
  }

  function DenoteMembers(members: seq<Member>): map<string, Meaning>
    requires AllPlain(members)
  {
    if members == [] then map[]
    else
      var last := members[|members| - 1];
      DenoteMembers(members[..|members| - 1])[last.key := Denote(last.value)]
  }

  // What it is to mean the same, kind by kind: of members with the same key the last one counts.
  lemma DenoteIs(a: Value, b: Value)
    requires Plain(a) && Plain(b)
    ensures Denote(a) == Denote(b) <==>
            match (a, b)
            case (Null, Null) => true
            case (Bool(x), Bool(y)) => x == y
            case (Str(s), Str(t)) => s == t
            case (Num(s), Num(t)) => IntOf(s) == IntOf(t)
            case (Arr(s), Arr(t)) => |s| == |t| && forall i :: 0 <= i < |s| ==> Denote(s[i]) == Denote(t[i])
            case (Obj(s), Obj(t)) =>
              && (forall i :: 0 <= i < |s| && IsLast(s, i) ==> HasAlike(t, s[i]))
              && (forall i :: 0 <= i < |t| && IsLast(t, i) ==> HasAlike(s, t[i]))
            case _ => false
  {
    if a.Arr? && b.Arr? {
      DenoteItemsAre(a.items);
      DenoteItemsAre(b.items);
    } else if a.Obj? && b.Obj? {
      MembersAlike(a.members, b.members);
    }
  }

  predicate IsLast(members: seq<Member>, i: nat) {
    i < |members| && forall j :: i < j < |members| ==> members[j].key != members[i].key
  }

  // The last member of that key means the same.
  predicate HasAlike(members: seq<Member>, m: Member)
    requires AllPlain(members) && Plain(m.value)
  {
    exists j :: 0 <= j < |members| && IsLast(members, j) && members[j].key == m.key && Denote(members[j].value) == Denote(m.value)
  }

  lemma {:induction false} DenoteItemsAre(items: seq<Value>)
    requires ItemsPlain(items)
    ensures forall i :: 0 <= i < |items| ==> DenoteItems(items)[i] == Denote(items[i])
  {
    if items != [] { DenoteItemsAre(items[1..]); }
  }

  lemma {:induction false} LastIsDenoted(members: seq<Member>, i: nat)
    requires AllPlain(members) && i < |members| && IsLast(members, i)
    ensures members[i].key in DenoteMembers(members) && DenoteMembers(members)[members[i].key] == Denote(members[i].value)
    decreases |members|
  {
    var n := |members| - 1;
    hide Denote, Plain;
    if i < n {
      var init := members[..n];
      assert init[i] == members[i] && members[i].key != members[n].key;
      LastIsDenoted(init, i);
    }
  }

  lemma {:induction false} DenotedIsLast(members: seq<Member>, k: string) returns (i: nat)
    requires AllPlain(members) && k in DenoteMembers(members)
    ensures i < |members| && IsLast(members, i) && members[i].key == k
    decreases |members|
  {
    var n := |members| - 1;
    hide Denote, Plain;
    if k == members[n].key {
      i := n;
    } else {
      i := DenotedIsLast(members[..n], k);
      forall j | i < j < |members|
        ensures members[j].key != k
      {
        assert j < n ==> members[..n][j] == members[j];
      }
    }
  }

  lemma DenoteMembersAre(members: seq<Member>)
    requires AllPlain(members)
    ensures forall i :: 0 <= i < |members| && IsLast(members, i) ==>
              members[i].key in DenoteMembers(members) && DenoteMembers(members)[members[i].key] == Denote(members[i].value)
    ensures forall k :: k in DenoteMembers(members) ==> exists i :: 0 <= i < |members| && IsLast(members, i) && members[i].key == k
  {
    forall i | 0 <= i < |members| && IsLast(members, i)
      ensures members[i].key in DenoteMembers(members) && DenoteMembers(members)[members[i].key] == Denote(members[i].value)
    {
      LastIsDenoted(members, i);
    }
    forall k | k in DenoteMembers(members)
      ensures exists i :: 0 <= i < |members| && IsLast(members, i) && members[i].key == k
    {
      var i := DenotedIsLast(members, k);
    }
  }

  lemma MembersAlike(s: seq<Member>, t: seq<Member>)
    requires AllPlain(s) && AllPlain(t)
    ensures DenoteMembers(s) == DenoteMembers(t) <==>
            && (forall i :: 0 <= i < |s| && IsLast(s, i) ==> HasAlike(t, s[i]))
            && (forall i :: 0 <= i < |t| && IsLast(t, i) ==> HasAlike(s, t[i]))
  {
    AlikeOneWay(s, t);
    AlikeOneWay(t, s);
    hide DenoteMembers, Denote, HasAlike, IsLast, Plain;
    if Covers(s, t) && Covers(t, s) { assert DenoteMembers(s) == DenoteMembers(t); }
  }

  predicate Covers(s: seq<Member>, t: seq<Member>)
    requires AllPlain(s) && AllPlain(t)
  {
    forall k :: k in DenoteMembers(s) ==> k in DenoteMembers(t) && DenoteMembers(s)[k] == DenoteMembers(t)[k]
  }

  lemma AlikeOneWay(s: seq<Member>, t: seq<Member>)
    requires AllPlain(s) && AllPlain(t)
    ensures (forall i :: 0 <= i < |s| && IsLast(s, i) ==> HasAlike(t, s[i])) <==> Covers(s, t)
  {
    DenoteMembersAre(s);
    DenoteMembersAre(t);
    hide Denote, DenoteMembers, Plain, IsLast;
    var ds, dt := DenoteMembers(s), DenoteMembers(t);
    forall i | 0 <= i < |s| && IsLast(s, i)
      ensures HasAlike(t, s[i]) <==> s[i].key in dt && dt[s[i].key] == ds[s[i].key]
    {
      if s[i].key in dt {
        var j :| 0 <= j < |t| && IsLast(t, j) && t[j].key == s[i].key;
      }
    }
    hide HasAlike;
    if Covers(s, t) {
    } else if forall i :: 0 <= i < |s| && IsLast(s, i) ==> HasAlike(t, s[i]) {
      forall k | k in ds
        ensures k in dt && ds[k] == dt[k]
      {
        var i :| 0 <= i < |s| && IsLast(s, i) && s[i].key == k;
      }
    }
  }

  // No object anywhere in the value has two members with the same key.
  predicate NoDuplicates(v: Value) {
    match v
    case Arr(items) => forall i :: 0 <= i < |items| ==> NoDuplicates(items[i])
    case Obj(members) => DistinctKeys(members) && forall i :: 0 <= i < |members| ==> NoDuplicates(members[i].value)
    case _ => true
  }

  predicate DistinctKeys(members: seq<Member>) {
    forall i, j :: 0 <= i < j < |members| ==> members[i].key != members[j].key
  }

  // ----- Numbers -----

  // Naturals that are written differently are different.
  lemma {:induction false} NaturalsDiffer(s: string, t: string)
    requires IsNatural(s) && IsNatural(t) && NatOf(s) == NatOf(t)
    ensures s == t
    decreases |s|
  {
    var s', t' := s[..|s| - 1], t[..|t| - 1];
    assert NatOf(s') == NatOf(t') && s[|s| - 1] == t[|t| - 1];
    if |s| == 1 || |t| == 1 {
      Positive(s);
      Positive(t);
    } else {
      NaturalsDiffer(s', t');
    }
    assert s == s' + [s[|s| - 1]] && t == t' + [t[|t| - 1]];
  }

  lemma {:induction false} Positive(s: string)
    requires IsNatural(s)
    ensures |s| > 1 ==> NatOf(s[..|s| - 1]) > 0
    decreases |s|
  {
    if |s| > 1 {
      var s' := s[..|s| - 1];
      if |s'| > 1 {
        Positive(s');
      } else {
        assert s'[..0] == [];
      }
    }
  }

  lemma IntegersCompare(num: Numbers, l: string, r: string)
    requires IsInteger(l) && IsInteger(r)
    ensures EqualNumber(num, l, r) == Ok(IntOf(l) == IntOf(r))
  {
    IntegerIsZero(l);
    IntegerIsZero(r);
    var negative := !IsNatural(l);
    if IntOf(l) == IntOf(r) != 0 {
      if negative {
        NaturalsDiffer(l[1..], r[1..]);
        assert l == ['-'] + l[1..] && r == ['-'] + r[1..];
      } else {
        NaturalsDiffer(l, r);
      }
    }
  }

  lemma IntegerIsZero(l: string)
    requires IsInteger(l)
    ensures IsInt(l) && (IntOf(l) == 0 <==> l == "0" || l == "-0")
  {
    var digits := if IsNatural(l) then l else l[1..];
    assert NatOf("0") == 0 by {
      assert "0"[..0] == "";
    }
    if NatOf(digits) == 0 {
      NaturalsDiffer(digits, "0");
    }
    if !IsNatural(l) {
      assert l == ['-'] + l[1..];
    }
  }
}
