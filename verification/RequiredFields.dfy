/**
Required fields: the mask built for a list of fields (internal/bitset/bitset.go), the bits set while an
object is decoded, and the loop that reports what is missing
(internal/integration/orders/aas_json_gen.go).
 */
module RequiredFields {
  import opened Bits
  import opened Strconv

  datatype JsonField = JsonField(name: string, required: bool)

  // ----- Bitsets -----

  function At(b: nat, k: nat): nat {
    8 * b + k
  }

  // The elements of s that byte b holds.
  function InByte(s: set<nat>, b: nat): set<nat> {
    set k: nat | k < 8 && At(b, k) in s
  }

  ghost predicate Represents(bits: seq<byte>, s: set<nat>) {
    && (forall b :: 0 <= b < |bits| ==> Members(bits[b]) == InByte(s, b))
    && (forall i :: i in s ==> i < 8 * |bits|)
  }

  function Required(fields: seq<JsonField>, n: nat): set<nat>
    requires n <= |fields|
  {
    set i: nat | i < n && fields[i].required
  }

  lemma SetBit(bits: seq<byte>, s: set<nat>, i: nat)
    requires Represents(bits, s) && i < 8 * |bits|
    ensures Represents(bits[i / 8 := OrBitAt(bits[i / 8], true, i % 8)], s + {i})
    ensures bits[i / 8 := OrBitAt(bits[i / 8], false, i % 8)] == bits
  {
    OrBitAtMembers(bits[i / 8], i % 8);
    OrNoBit(bits[i / 8], i % 8);
    hide Members, OrBitAt;
    forall b: nat
      ensures InByte(s + {i}, b) == InByte(s, b) + if b == i / 8 then {i % 8} else {}
    {
      OneElement(s, i, b);
    }
  }

  lemma OneElement(s: set<nat>, i: nat, b: nat)
    ensures InByte(s + {i}, b) == InByte(s, b) + if b == i / 8 then {i % 8} else {}
  {
    assert forall k: nat :: k < 8 && At(b, k) == i ==> b == i / 8 && k == i % 8;
    assert b == i / 8 ==> At(b, i % 8) == i;
  }

  // Build with the predicate of RequiredMask.
  method Build(fields: seq<JsonField>) returns (r: seq<byte>)
    ensures |r| == if fields == [] then 1 else (|fields| + 7) / 8
    ensures Represents(r, Required(fields, |fields|))
  {
    var i := 0;
    r := [0];
    NothingSet();
    hide Members, OrBitAt;
    for elemIdx := 0 to |fields|
      invariant i == elemIdx
      invariant |r| == if i == 0 then 1 else (i + 7) / 8
      invariant Represents(r, Required(fields, i))
    {
      var maskIdx := i / 8;
      if |r| <= maskIdx {
        GrowBits(r, Required(fields, i));
        r := r + [0];
      }
      var bitIdx := i % 8;
      SetBit(r, Required(fields, i), i);
      r := r[maskIdx := OrBitAt(r[maskIdx], fields[elemIdx].required, bitIdx)];
      assert Required(fields, i + 1) == if fields[i].required then Required(fields, i) + {i} else Required(fields, i);
      i := i + 1;
    }
  }

  lemma GrowBits(bits: seq<byte>, s: set<nat>)
    requires Represents(bits, s)
    ensures Represents(bits + [0], s)
  {
    NothingSet();
    hide Members;
    assert InByte(s, |bits|) == {};
  }

  // ----- Decoding -----

  predicate DistinctNames(fields: seq<JsonField>) {
    forall i, j :: 0 <= i < j < |fields| ==> fields[i].name != fields[j].name
  }

  // The required fields with one of these keys.
  function Decoded(fields: seq<JsonField>, keys: seq<string>): set<nat> {
    set i: nat | i < |fields| && fields[i].required && fields[i].name in keys
  }

  // The switch over field names: the index of the field with this key, if there is one.
  method FieldIndex(fields: seq<JsonField>, key: string) returns (i: nat)
    requires DistinctNames(fields)
    ensures i <= |fields| && (i < |fields| ==> fields[i].name == key)
    ensures forall j :: 0 <= j < |fields| && j != i ==> fields[j].name != key
  {
    i := 0;
    while i < |fields| && fields[i].name != key
      invariant i <= |fields| && forall j :: 0 <= j < i ==> fields[j].name != key
    {
      i := i + 1;
    }
  }

  // The callback of ObjBytes for every key of the object.
  method ReadKeys(fields: seq<JsonField>, keys: seq<string>, requiredBitSet: array<byte>)
    requires DistinctNames(fields) && |fields| <= 8 * requiredBitSet.Length
    requires forall b :: 0 <= b < requiredBitSet.Length ==> requiredBitSet[b] == 0
    modifies requiredBitSet
    ensures Represents(requiredBitSet[..], Decoded(fields, keys))
  {
    NothingSet();
    assert forall b: nat :: InByte(Decoded(fields, []), b) == {};
    hide Members, OrBitAt;
    for n := 0 to |keys|
      invariant Represents(requiredBitSet[..], Decoded(fields, keys[..n]))
    {
      var i := FieldIndex(fields, keys[n]);
      OneMoreKey(fields, keys, n, i);
      if i < |fields| && fields[i].required {
        SetBit(requiredBitSet[..], Decoded(fields, keys[..n]), i);
        ghost var after := requiredBitSet[..][i / 8 := OrBitAt(requiredBitSet[i / 8], true, i % 8)];
        requiredBitSet[i / 8] := OrBitAt(requiredBitSet[i / 8], true, i % 8);
        assert requiredBitSet[..] == after;
      }
    }
    assert keys[..|keys|] == keys;
  }

  lemma OneMoreKey(fields: seq<JsonField>, keys: seq<string>, n: nat, i: nat)
    requires n < |keys| && i <= |fields| && (i < |fields| ==> fields[i].name == keys[n])
    requires forall j :: 0 <= j < |fields| && j != i ==> fields[j].name != keys[n]
    ensures Decoded(fields, keys[..n + 1]) ==
            Decoded(fields, keys[..n]) + if i < |fields| && fields[i].required then {i} else {}
  {
    assert keys[..n + 1] == keys[..n] + [keys[n]];
  }

  // ----- Reporting -----

  function NameOf(names: seq<string>, i: nat): string {
    if i < |names| then names[i] else Itoa(i)
  }

  function NamesOf(names: seq<string>, indices: seq<nat>): seq<string> {
    if indices == [] then [] else [NameOf(names, indices[0])] + NamesOf(names, indices[1..])
  }

  lemma {:induction false} NamesConcat(names: seq<string>, a: seq<nat>, b: seq<nat>)
    ensures NamesOf(names, a + b) == NamesOf(names, a) + NamesOf(names, b)
  {
    if a == [] {
      assert a + b == b;
    } else {
      assert (a + b)[1..] == a[1..] + b;
      NamesConcat(names, a[1..], b);
    }
  }

  function Shift(indices: seq<nat>, offset: nat): seq<nat> {
    if indices == [] then [] else [offset + indices[0]] + Shift(indices[1..], offset)
  }

  lemma {:induction false} AscendingSplit(s: set<nat>, k: nat, m: nat, n: nat)
    requires k <= m <= n
    ensures Ascending(s, k, n) == Ascending(s, k, m) + Ascending(s, m, n)
    decreases m - k
  {
    if k < m {
      AscendingSplit(s, k + 1, m, n);
    }
  }

  // The elements of one byte are those of the set in its range.
  lemma {:induction false} ByteInRange(s: set<nat>, b: nat, k: nat)
    requires k <= 8
    ensures Shift(Ascending(InByte(s, b), k, 8), At(b, 0)) == Ascending(s, At(b, k), At(b, 8))
    decreases 8 - k
  {
    if k < 8 {
      ByteInRange(s, b, k + 1);
      assert k in InByte(s, b) <==> At(b, k) in s;
      var rest := Ascending(InByte(s, b), k + 1, 8);
      hide InByte;
      assert ([k] + rest)[1..] == rest && [] + rest == rest;
    }
  }

  // The loop over the bits of one byte.
  method ReportByte(names: seq<string>, i: nat, lacking: byte) returns (failures: seq<string>)
    ensures failures == NamesOf(names, Shift(Ascending(Members(lacking), 0, 8), 8 * i))
  {
    hide Members, ResetBitAt, OnesCount, TrailingZeros, Ascending, NameOf;
    failures := [];
    var result := lacking;
    CountAndFirst(result);
    var missed := OnesCount(result);
    ghost var rest := Ascending(Members(result), 0, 8);
    for bitN := 0 to missed
      invariant rest == Ascending(Members(result), 0, 8) && |rest| == missed - bitN
      invariant failures + NamesOf(names, Shift(rest, 8 * i)) ==
                NamesOf(names, Shift(Ascending(Members(lacking), 0, 8), 8 * i))
    {
      CountAndFirst(result);
      var bitIdx := TrailingZeros(result);
      AscendingRest(Members(result), 0, 8);
      var fieldIdx := i * 8 + bitIdx;
      var name := NameOf(names, fieldIdx);
      OneName(names, rest, 8 * i, failures);
      failures := failures + [name];
      ResetBitAtMembers(result, bitIdx);
      result := ResetBitAt(result, bitIdx);
      rest := rest[1..];
    }
  }

  lemma OneName(names: seq<string>, rest: seq<nat>, offset: nat, failures: seq<string>)
    requires rest != []
    ensures failures + NamesOf(names, Shift(rest, offset)) ==
            failures + [NameOf(names, offset + rest[0])] + NamesOf(names, Shift(rest[1..], offset))
  {
    assert Shift(rest, offset)[1..] == Shift(rest[1..], offset);
  }

  // The loop over the mask: the required fields that were not decoded, once each and in their order.
  method ReportMissing(names: seq<string>, mask: seq<byte>, requiredBitSet: array<byte>,
                       ghost required: set<nat>, ghost decoded: set<nat>) returns (failures: seq<string>)
    requires requiredBitSet.Length == |mask| && Represents(mask, required) && Represents(requiredBitSet[..], decoded)
    ensures failures == NamesOf(names, Ascending(required - decoded, 0, 8 * |mask|))
  {
    hide Members, Lacks;
    failures := [];
    ghost var missing := required - decoded;
    for i := 0 to |mask|
      invariant failures == NamesOf(names, Ascending(missing, 0, 8 * i))
    {
      var result := Lacks(requiredBitSet[i], mask[i]);
      assert requiredBitSet[..][i] == requiredBitSet[i];
      MissingInByte(requiredBitSet[i], mask[i], required, decoded, i);
      AscendingSplit(missing, 0, 8 * i, 8 * i + 8);
      NamesConcat(names, Ascending(missing, 0, 8 * i), Ascending(missing, 8 * i, 8 * i + 8));
      if result != 0 {
        var more := ReportByte(names, i, result);
        failures := failures + more;
      }
    }
  }

  lemma InByteDifference(s: set<nat>, t: set<nat>, b: nat)
    ensures InByte(s - t, b) == InByte(s, b) - InByte(t, b)
  {
  }

  // What one byte lacks is what is missing of its range.
  lemma MissingInByte(have: byte, mask: byte, required: set<nat>, decoded: set<nat>, i: nat)
    requires Members(mask) == InByte(required, i) && Members(have) == InByte(decoded, i)
    ensures var result := Lacks(have, mask);
            && Ascending(required - decoded, 8 * i, 8 * i + 8) == Shift(Ascending(Members(result), 0, 8), 8 * i)
            && (result == 0 ==> Ascending(required - decoded, 8 * i, 8 * i + 8) == [])
  {
    LacksMembers(have, mask);
    InByteDifference(required, decoded, i);
    ByteInRange(required - decoded, i, 0);
    NoneMissing(Lacks(have, mask), i);
    hide Members, Lacks, Ascending, InByte, Shift;
  }

  lemma NoneMissing(result: byte, i: nat)
    ensures result == 0 ==> Shift(Ascending(Members(result), 0, 8), 8 * i) == []
  {
    NothingSet();
    NothingAscending(0, 8);
    hide Members;
  }

  lemma {:induction false} NothingAscending(k: nat, n: nat)
    requires k <= n
    ensures Ascending({}, k, n) == []
    decreases n - k
  {
    if k < n {
      NothingAscending(k + 1, n);
    }
  }

  // ----- All of it -----

  // The names of the required fields from the i-th on that none of the keys is for, field by field.
  function MissingNames(fields: seq<JsonField>, keys: seq<string>, i: nat): seq<string>
    requires i <= |fields|
    decreases |fields| - i
  {
    if i == |fields| then []
    else (if fields[i].required && fields[i].name !in keys then [fields[i].name] else [])
         + MissingNames(fields, keys, i + 1)
  }

  function NamesOfFields(fields: seq<JsonField>): seq<string> {
    seq(|fields|, i requires 0 <= i < |fields| => fields[i].name)
  }

  lemma {:induction false} MissingNamesAre(fields: seq<JsonField>, keys: seq<string>, i: nat, n: nat)
    requires i <= n && |fields| <= n
    ensures var missing := Required(fields, |fields|) - Decoded(fields, keys);
            NamesOf(NamesOfFields(fields), Ascending(missing, i, n)) ==
            if i <= |fields| then MissingNames(fields, keys, i) else []
    decreases n - i
  {
    var missing, names := Required(fields, |fields|) - Decoded(fields, keys), NamesOfFields(fields);
    if i < n {
      MissingNamesAre(fields, keys, i + 1, n);
      assert i in missing <==> i < |fields| && fields[i].required && fields[i].name !in keys;
      hide Required, Decoded;
      NamesOneMore(names, missing, i, n);
    }
  }

  lemma NamesOneMore(names: seq<string>, s: set<nat>, i: nat, n: nat)
    requires i < n
    ensures NamesOf(names, Ascending(s, i, n)) ==
            (if i in s then [NameOf(names, i)] else []) + NamesOf(names, Ascending(s, i + 1, n))
  {
    var rest := Ascending(s, i + 1, n);
    hide NameOf;
    assert ([i] + rest)[1..] == rest && [] + rest == rest;
  }

  // Decode: whatever the number of fields and the keys of the object, the failures name exactly the
  // required fields that did not come, once each and in the order of the fields.
  method Decode(fields: seq<JsonField>, keys: seq<string>) returns (failures: seq<string>)
    requires DistinctNames(fields)
    ensures failures == MissingNames(fields, keys, 0)
  {
    var mask := Build(fields);
    var requiredBitSet := new byte[|mask|];
    forall b | 0 <= b < |mask| {
      requiredBitSet[b] := 0;
    }
    ReadKeys(fields, keys, requiredBitSet);
    failures := ReportMissing(NamesOfFields(fields), mask, requiredBitSet, Required(fields, |fields|), Decoded(fields, keys));
    MissingNamesAre(fields, keys, 0, 8 * |mask|);
  }
}
