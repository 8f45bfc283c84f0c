/**
Telling the variants of a oneOf apart without a discriminator (internal/lowering/schema_gen_sum.go): by
field signatures that only one variant has, and by enum values that only one variant lists.
 */
module OneOf {
  import opened Wrappers

  datatype Signature = Signature(name: string, typeID: string)

  datatype EnumValue = StringValue(s: string) | OtherValue

  // What a field's type comes down to without optionals and pointers.
  datatype Base = AnEnum(values: seq<EnumValue>) | NoEnum

  datatype Field = Field(sig: Signature, base: Base)

  datatype Variant = Variant(name: string, isStruct: bool, fields: seq<Field>)

  datatype Failure = NotStruct | CannotInfer | Overlapping

  // ----- Unique signatures -----

  function Signatures(v: Variant): set<Signature> {
    set f | f in v.fields :: f.sig
  }

  // The variant that is filed under a name: the last one with it.
  function Filed(variants: seq<Variant>, k: string): set<Signature> {
    if variants == [] then {}
    else
      var last := variants[|variants| - 1];
      if last.name == k then Signatures(last) else Filed(variants[..|variants| - 1], k)
  }

  // The signatures under a name are those of the fields of its last variant.
  lemma {:induction false} FiledIs(variants: seq<Variant>, k: string, sig: Signature)
    ensures sig in Filed(variants, k) <==>
            exists i :: 0 <= i < |variants| && variants[i].name == k && (forall j :: i < j < |variants| ==> variants[j].name != k) &&
                        exists f :: f in variants[i].fields && f.sig == sig
    decreases |variants|
  {
    if variants != [] {
      var n := |variants| - 1;
      FiledIs(variants[..n], k, sig);
      assert forall i :: 0 <= i < n ==> variants[..n][i] == variants[i];
    }
  }

  function Names(variants: seq<Variant>): set<string> {
    set v | v in variants :: v.name
  }

  // The signatures filed under k and under no other name.
  ghost function Unique(variants: seq<Variant>, k: string): set<Signature> {
    set sig | sig in Filed(variants, k) && forall o :: o in Names(variants) && o != k ==> sig !in Filed(variants, o)
  }

  datatype Inferred = Inferred(uniq: map<string, set<Signature>>, defaultMapping: string)

  // What the inference gives for every list of variants it succeeds on.
  ghost predicate Tells(variants: seq<Variant>, r: Inferred) {
    && r.uniq.Keys == Names(variants)
    && (forall k :: k in r.uniq ==> r.uniq[k] == Unique(variants, k))
    && (forall k :: k in r.uniq && r.uniq[k] == {} ==> k == r.defaultMapping)
    && ((exists k :: k in r.uniq && r.uniq[k] == {}) || r.defaultMapping == "")
  }

  method Collect(variants: seq<Variant>) returns (r: Result<map<string, set<Signature>>, Failure>)
    ensures r.Err? <==> exists v :: v in variants && !v.isStruct
    ensures r.Err? ==> r.error == NotStruct
    ensures r.Ok? ==> r.value.Keys == Names(variants) && forall k :: k in r.value ==> r.value[k] == Filed(variants, k)
  {
    var uniq: map<string, set<Signature>> := map[];
    for i := 0 to |variants|
      invariant forall v :: v in variants[..i] ==> v.isStruct
      invariant uniq.Keys == Names(variants[..i]) && forall k :: k in uniq ==> uniq[k] == Filed(variants[..i], k)
    {
      var s := variants[i];
      assert variants[..i + 1] == variants[..i] + [s] && variants[..i + 1][..i] == variants[..i];
      if !s.isStruct {
        return Err(NotStruct);
      }
      var sigs: set<Signature> := {};
      for j := 0 to |s.fields|
        invariant sigs == set f | f in s.fields[..j] :: f.sig
      {
        assert s.fields[..j + 1] == s.fields[..j] + [s.fields[j]];
        sigs := sigs + {s.fields[j].sig};
      }
      assert s.fields[..|s.fields|] == s.fields;
      uniq := uniq[s.name := sigs];
    }
    assert variants[..|variants|] == variants;
    return Ok(uniq);
  }

  // The signatures that at least two names share.
  ghost predicate IsCommon(uniq: map<string, set<Signature>>, sig: Signature) {
    exists k, o :: k in uniq && o in uniq && k != o && sig in uniq[k] && sig in uniq[o]
  }

  predicate Shared(variants: seq<Variant>, uniq: map<string, set<Signature>>, j: nat, l: nat, sig: Signature)
    requires uniq.Keys == Names(variants) && j < |variants| && l < |variants|
  {
    && variants[j].name != variants[l].name
    && sig in uniq[variants[j].name] && sig in uniq[variants[l].name]
  }

  method CommonSignatures(variants: seq<Variant>, uniq: map<string, set<Signature>>) returns (common: set<Signature>)
    requires uniq.Keys == Names(variants)
    ensures forall sig :: sig in common <==> IsCommon(uniq, sig)
  {
    common := {};
    for i := 0 to |variants|
      invariant forall sig :: sig in common ==> IsCommon(uniq, sig)
      invariant forall j, l, sig :: 0 <= j < i && 0 <= l < |variants| && Shared(variants, uniq, j, l, sig) ==> sig in common
    {
      var k := variants[i].name;
      for n := 0 to |variants|
        invariant forall sig :: sig in common ==> IsCommon(uniq, sig)
        invariant forall j, l, sig :: 0 <= j < i && 0 <= l < |variants| && Shared(variants, uniq, j, l, sig) ==> sig in common
        invariant forall l, sig :: 0 <= l < n && Shared(variants, uniq, i, l, sig) ==> sig in common
      {
        var otherK := variants[n].name;
        if otherK != k {
          common := common + uniq[otherK] * uniq[k];
        }
      }
    }
    forall sig | IsCommon(uniq, sig)
      ensures sig in common
    {
      var k, o :| k in uniq && o in uniq && k != o && sig in uniq[k] && sig in uniq[o];
      var j :| 0 <= j < |variants| && variants[j].name == k;
      var l :| 0 <= l < |variants| && variants[l].name == o;
      assert Shared(variants, uniq, j, l, sig);
    }
  }

  // The unique-field inference: either every variant but at most one has signatures of its own, and
  // the one that has none is the default, or the inference fails.
  method Infer(variants: seq<Variant>) returns (r: Result<Inferred, Failure>)
    ensures r.Ok? ==> Tells(variants, r.value)
    ensures r == Err(NotStruct) <==> exists v :: v in variants && !v.isStruct
    ensures r == Err(CannotInfer) ==>
              exists k, o :: k in Names(variants) && o in Names(variants) && k != o
                             && Unique(variants, k) == {} && Unique(variants, o) == {}
    ensures r != Err(Overlapping)
  {
    var filed :- Collect(variants);
    var common := CommonSignatures(variants, filed);
    var uniq := map k | k in filed :: filed[k] - common;
    forall k | k in uniq
      ensures uniq[k] == Unique(variants, k)
    {
      OwnIsUnique(variants, filed, common, k);
    }
    var noUniqueFields, defaultMapping := WithoutUnique(variants, uniq);
    assert noUniqueFields != {} ==> defaultMapping in noUniqueFields;
    hide Unique, Filed;
    if |noUniqueFields| > 1 {
      TwoOf(noUniqueFields, defaultMapping);
      return Err(CannotInfer);
    }
    forall k | k in uniq && uniq[k] == {}
      ensures k == defaultMapping
    {
      OneOfThem(noUniqueFields, k, defaultMapping);
    }
    return Ok(Inferred(uniq, defaultMapping));
  }

  // The first variant without unique fields.
  ghost predicate IsFirstWithout(variants: seq<Variant>, uniq: map<string, set<Signature>>, k: string) {
    exists i :: 0 <= i < |variants| && variants[i].name == k && k in uniq && uniq[k] == {} &&
                forall j :: 0 <= j < i ==> variants[j].name !in uniq || uniq[variants[j].name] != {}
  }

  lemma FirstWithout(variants: seq<Variant>, v: Variant, uniq: map<string, set<Signature>>)
    requires v.name in uniq && forall w :: w in variants ==> w.name in uniq
    ensures forall k :: IsFirstWithout(variants, uniq, k) ==> IsFirstWithout(variants + [v], uniq, k)
    ensures (forall w :: w in variants ==> uniq[w.name] != {}) && uniq[v.name] == {} ==> IsFirstWithout(variants + [v], uniq, v.name)
  {
    var more := variants + [v];
    assert more[|variants|] == v;
    forall k | IsFirstWithout(variants, uniq, k)
      ensures IsFirstWithout(more, uniq, k)
    {
      var i :| 0 <= i < |variants| && variants[i].name == k && uniq[k] == {} &&
               forall j :: 0 <= j < i ==> variants[j].name !in uniq || uniq[variants[j].name] != {};
      assert more[i] == variants[i] && forall j :: 0 <= j < i ==> more[j] == variants[j];
    }
    assert forall j :: 0 <= j < |variants| ==> more[j] == variants[j];
  }

  // The loop that looks for variants without unique fields, the first of which becomes the default.
  method WithoutUnique(variants: seq<Variant>, uniq: map<string, set<Signature>>)
    returns (noUniqueFields: set<string>, defaultMapping: string)
    requires uniq.Keys == Names(variants)
    ensures forall k :: k in noUniqueFields <==> k in uniq && uniq[k] == {}
    ensures if noUniqueFields == {} then defaultMapping == "" else IsFirstWithout(variants, uniq, defaultMapping)
  {
    noUniqueFields, defaultMapping := {}, "";
    hide IsFirstWithout;
    for i := 0 to |variants|
      invariant forall k :: k in noUniqueFields <==> k in Names(variants[..i]) && uniq[k] == {}
      invariant if noUniqueFields == {} then defaultMapping == "" else IsFirstWithout(variants[..i], uniq, defaultMapping)
    {
      var k := variants[i].name;
      assert variants[..i + 1] == variants[..i] + [variants[i]];
      FirstWithout(variants[..i], variants[i], uniq);
      if uniq[k] == {} {
        if |noUniqueFields| < 1 {
          defaultMapping := k;
        }
        noUniqueFields := noUniqueFields + {k};
      }
    }
    assert variants[..|variants|] == variants;
  }

  lemma OwnIsUnique(variants: seq<Variant>, filed: map<string, set<Signature>>, common: set<Signature>, k: string)
    requires filed.Keys == Names(variants) && (forall n :: n in filed ==> filed[n] == Filed(variants, n))
    requires (forall sig :: sig in common <==> IsCommon(filed, sig)) && k in filed
    ensures filed[k] - common == Unique(variants, k)
  {
    hide Filed;
    forall sig | sig in filed[k]
      ensures sig in common <==> exists o :: o in Names(variants) && o != k && sig in Filed(variants, o)
    {
      if sig in common {
        var n, o :| n in filed && o in filed && n != o && sig in filed[n] && sig in filed[o];
        assert if n != k then sig in Filed(variants, n) else sig in Filed(variants, o);
      }
    }
  }

  lemma TwoOf(s: set<string>, k: string)
    requires |s| > 1 && k in s
    ensures exists o :: o in s && o != k
  {
    var rest := s - {k};
    assert |rest| == |s| - 1;
    var o :| o in rest;
  }

  lemma OneOfThem(s: set<string>, k: string, o: string)
    requires |s| <= 1 && k in s && o in s
    ensures k == o
  {
    var rest := s - {k};
    assert |rest| == |s| - 1;
    assert k != o ==> o in rest;
  }

  predicate DistinctNames(variants: seq<Variant>) {
    forall i, j :: 0 <= i < j < |variants| ==> variants[i].name != variants[j].name
  }

  lemma {:induction false} FiledOwn(variants: seq<Variant>, i: nat)
    requires DistinctNames(variants) && i < |variants|
    ensures Filed(variants, variants[i].name) == Signatures(variants[i])
    decreases |variants|
  {
    if i < |variants| - 1 {
      FiledOwn(variants[..|variants| - 1], i);
    }
  }

  // Where names are distinct, a remaining signature belongs to exactly one variant: what has fields of
  // one variant only is never taken for another.
  lemma UniqueIdentifies(variants: seq<Variant>, r: Inferred, i: nat, j: nat, present: set<Signature>)
    requires DistinctNames(variants) && Tells(variants, r) && i < |variants| && j < |variants|
    requires present <= Signatures(variants[i]) && present * r.uniq[variants[j].name] != {}
    ensures i == j
  {
    var sig :| sig in present && sig in r.uniq[variants[j].name];
    FiledOwn(variants, i);
    assert sig in Filed(variants, variants[i].name);
  }

  // ----- Enum values -----

  function VariantOfType(variants: seq<Variant>, sumName: string, variantType: string): Option<Variant> {
    if variants == [] then None
    else if variants[0].name + sumName == variantType then Some(variants[0])
    else VariantOfType(variants[1..], sumName, variantType)
  }

  function FieldNamed(fields: seq<Field>, name: string): Option<Field> {
    if fields == [] then None else if fields[0].sig.name == name then Some(fields[0]) else FieldNamed(fields[1..], name)
  }

  function Strings(values: seq<EnumValue>): set<string> {
    set v | v in values && v.StringValue? :: v.s
  }

  predicate IsStringEnum(b: Base) {
    b.AnEnum? && b.values != [] && forall v :: v in b.values ==> v.StringValue?
  }

  // The field of a variant type, if there is one.
  function TypeOfField(variants: seq<Variant>, sumName: string, variantType: string, name: string): Option<Base> {
    match VariantOfType(variants, sumName, variantType)
    case None => None
    case Some(v) => match FieldNamed(v.fields, name) case None => None case Some(f) => Some(f.base)
  }

  // The first variant of that type and its first field of that name.
  lemma TypeOfFieldIs(variants: seq<Variant>, sumName: string, variantType: string, name: string, b: Base)
    ensures TypeOfField(variants, sumName, variantType, name) == Some(b) <==>
            exists i, j :: 0 <= i < |variants| && 0 <= j < |variants[i].fields| &&
                           IsFirstVariant(variants, sumName, variantType, i) && IsFirstField(variants[i].fields, name, j) &&
                           variants[i].fields[j].base == b
  {
    VariantOfTypeIs(variants, sumName, variantType);
    var v := VariantOfType(variants, sumName, variantType);
    if v.Some? { FieldNamedIs(v.value.fields, name); }
  }

  predicate IsFirstVariant(variants: seq<Variant>, sumName: string, variantType: string, i: nat) {
    i < |variants| && variants[i].name + sumName == variantType && forall j :: 0 <= j < i ==> variants[j].name + sumName != variantType
  }

  predicate IsFirstField(fields: seq<Field>, name: string, i: nat) {
    i < |fields| && fields[i].sig.name == name && forall j :: 0 <= j < i ==> fields[j].sig.name != name
  }

  lemma {:induction false} VariantOfTypeIs(variants: seq<Variant>, sumName: string, variantType: string)
    ensures match VariantOfType(variants, sumName, variantType)
            case None => forall i :: 0 <= i < |variants| ==> variants[i].name + sumName != variantType
            case Some(v) => exists i :: 0 <= i < |variants| && IsFirstVariant(variants, sumName, variantType, i) && variants[i] == v
  {
    if variants != [] {
      var rest := variants[1..];
      VariantOfTypeIs(rest, sumName, variantType);
      assert forall i :: 1 <= i < |variants| ==> variants[i] == rest[i - 1];
      if variants[0].name + sumName == variantType {
        assert IsFirstVariant(variants, sumName, variantType, 0);
      } else if VariantOfType(rest, sumName, variantType).Some? {
        var i :| 0 <= i < |rest| && IsFirstVariant(rest, sumName, variantType, i) && rest[i] == VariantOfType(rest, sumName, variantType).value;
        assert IsFirstVariant(variants, sumName, variantType, i + 1);
      }
    }
  }

  lemma {:induction false} FieldNamedIs(fields: seq<Field>, name: string)
    ensures match FieldNamed(fields, name)
            case None => forall i :: 0 <= i < |fields| ==> fields[i].sig.name != name
            case Some(f) => exists i :: 0 <= i < |fields| && IsFirstField(fields, name, i) && fields[i] == f
  {
    if fields != [] {
      var rest := fields[1..];
      FieldNamedIs(rest, name);
      assert forall i :: 1 <= i < |fields| ==> fields[i] == rest[i - 1];
      if fields[0].sig.name == name {
        assert IsFirstField(fields, name, 0);
      } else if FieldNamed(rest, name).Some? {
        var i :| 0 <= i < |rest| && IsFirstField(rest, name, i) && rest[i] == FieldNamed(rest, name).value;
        assert IsFirstField(fields, name, i + 1);
      }
    }
  }

  // The enum values of a field in one variant.
  predicate Lists(variants: seq<Variant>, sumName: string, variantType: string, name: string, value: string) {
    var b := TypeOfField(variants, sumName, variantType, name);
    b.Some? && IsStringEnum(b.value) && value in Strings(b.value.values)
  }

  // A value is listed if the field of that type is an enum of nothing but strings with that value among them.
  lemma ListsIs(variants: seq<Variant>, sumName: string, variantType: string, name: string, value: string)
    ensures Lists(variants, sumName, variantType, name, value) <==>
            exists values :: TypeOfField(variants, sumName, variantType, name) == Some(AnEnum(values)) &&
                             StringValue(value) in values && OtherValue !in values
  {
    var b := TypeOfField(variants, sumName, variantType, name);
    if b.Some? && b.value.AnEnum? {
      assert StringValue(value) in b.value.values <==> value in Strings(b.value.values);
      assert OtherValue !in b.value.values <==> forall v :: v in b.value.values ==> v.StringValue?;
    }
  }

  predicate AllStringEnums(variants: seq<Variant>, sumName: string, types: seq<string>, name: string) {
    forall t :: t in types ==>
      TypeOfField(variants, sumName, t, name).Some? && IsStringEnum(TypeOfField(variants, sumName, t, name).value)
  }

  ghost predicate Clash(variants: seq<Variant>, sumName: string, types: seq<string>, name: string, value: string) {
    exists t, u :: t in types && u in types && t != u && Lists(variants, sumName, t, name, value) && Lists(variants, sumName, u, name, value)
  }

  predicate NoRepeats(types: seq<string>) {
    forall i, j :: 0 <= i < j < |types| ==> types[i] != types[j]
  }

  // canUseValueDiscrimination: a map from every enum value to the only variant type that lists it, an
  // error if a value is listed twice, and nothing if the field is not a string enum everywhere.
  method ValueDiscriminator(variants: seq<Variant>, sumName: string, types: seq<string>, name: string)
    returns (r: Result<Option<map<string, string>>, Failure>)
    ensures var usable := |types| >= 2 && NoRepeats(types) && AllStringEnums(variants, sumName, types, name);
            && (r == Ok(None) ==> !usable)
            && (r.Err? ==> usable && exists value :: Clash(variants, sumName, types, name, value))
            && (r.Ok? && r.value.Some? ==> usable)
    ensures r.Ok? && r.value.Some? ==>
              && (forall t, v :: t in types && Lists(variants, sumName, t, name, v) ==> v in r.value.value && r.value.value[v] == t)
              && (forall v :: v in r.value.value ==> r.value.value[v] in types && Lists(variants, sumName, r.value.value[v], name, v))
  {
    if |types| < 2 {
      return Ok(None);
    }
    var enums := CollectEnums(variants, sumName, types, name);
    if enums.None? {
      return Ok(None);
    }
    CountTypes(types, enums.value.Keys);
    if |enums.value| != |types| {
      return Ok(None);
    }
    var valueToVariant, overlapping := Invert(enums.value);
    if overlapping != {} {
      var v :| v in overlapping;
      assert Clash(variants, sumName, types, name, v);
      return Err(Overlapping);
    }
    return Ok(Some(valueToVariant));
  }

  // The loop over the variants that have the field.
  method CollectEnums(variants: seq<Variant>, sumName: string, types: seq<string>, name: string)
    returns (r: Option<map<string, set<string>>>)
    ensures r.None? ==> !AllStringEnums(variants, sumName, types, name)
    ensures r.Some? ==>
              && (forall t :: t in r.value ==> t in types)
              && (forall t :: t in types ==> (t in r.value <==> TypeOfField(variants, sumName, t, name).Some?))
              && (forall t, v :: t in r.value ==> (v in r.value[t] <==> Lists(variants, sumName, t, name, v)))
              && (forall t :: t in r.value ==> IsStringEnum(TypeOfField(variants, sumName, t, name).value))
  {
    var enums: map<string, set<string>> := map[];
    for i := 0 to |types|
      invariant forall t :: t in enums ==> t in types[..i]
      invariant forall t :: t in types[..i] ==> (t in enums <==> TypeOfField(variants, sumName, t, name).Some?)
      invariant forall t, v :: t in enums ==> (v in enums[t] <==> Lists(variants, sumName, t, name, v))
      invariant forall t :: t in enums ==> IsStringEnum(TypeOfField(variants, sumName, t, name).value)
    {
      var t := types[i];
      assert types[..i + 1] == types[..i] + [t];
      var base := TypeOfField(variants, sumName, t, name);
      if base.None? {
        continue;
      }
      if !IsStringEnum(base.value) {
        assert t in types;
        return None;
      }
      enums := enums[t := Strings(base.value.values)];
    }
    assert types[..|types|] == types;
    return Some(enums);
  }

  lemma {:induction false} CountTypes(types: seq<string>, found: set<string>)
    requires forall t :: t in found ==> t in types
    ensures |found| <= |types|
    ensures |found| == |types| <==> NoRepeats(types) && forall t :: t in types ==> t in found
    decreases |types|
  {
    if types == [] {
      assert found == {};
    } else {
      var n := |types| - 1;
      var init, last := types[..n], types[n];
      assert types == init + [last];
      CountTypes(init, found - {last});
      if last in found {
        assert |found - {last}| == |found| - 1;
      } else {
        assert found - {last} == found;
      }
      if last in init {
        var i :| 0 <= i < n && init[i] == last;
        assert types[i] == types[n];
      }
    }
  }

  // The variant types that list each value.
  method ListedBy(enums: map<string, set<string>>) returns (listed: map<string, set<string>>)
    ensures forall v, t :: v in listed && t in listed[v] <==> t in enums && v in enums[t]
    ensures forall v :: v in listed ==> listed[v] != {}
  {
    listed := map[];
    var todo := enums.Keys;
    while todo != {}
      invariant todo <= enums.Keys
      invariant forall v, t :: v in listed && t in listed[v] <==> t in enums && t !in todo && v in enums[t]
      invariant forall v :: v in listed ==> listed[v] != {}
      decreases todo
    {
      var t :| t in todo;
      listed := listed + map v | v in enums[t] :: (if v in listed then listed[v] else {}) + {t};
      todo := todo - {t};
    }
  }

  // The values listed twice, and the variant type of each value.
  method Invert(enums: map<string, set<string>>) returns (valueToVariant: map<string, string>, overlapping: set<string>)
    ensures forall v :: v in overlapping ==> exists t, u :: t in enums && u in enums && t != u && v in enums[t] && v in enums[u]
    ensures overlapping == {} ==> forall t, v :: t in enums && v in enums[t] ==> v in valueToVariant && valueToVariant[v] == t
    ensures forall v :: v in valueToVariant ==> valueToVariant[v] in enums && v in enums[valueToVariant[v]]
  {
    var listed := ListedBy(enums);
    overlapping := set v | v in listed && |listed[v]| > 1;
    forall v | v in overlapping
      ensures exists t, u :: t in enums && u in enums && t != u && v in enums[t] && v in enums[u]
    {
      var t :| t in listed[v];
      TwoOf(listed[v], t);
      var u :| u in listed[v] && u != t;
      assert t in enums && u in enums;
    }
    valueToVariant := map[];
    var todo := enums.Keys;
    while todo != {}
      invariant todo <= enums.Keys
      invariant forall v :: v in valueToVariant ==> valueToVariant[v] in enums && v in enums[valueToVariant[v]]
      invariant forall t, v :: t in enums && t !in todo && v in enums[t] ==> v in valueToVariant
      decreases todo
    {
      var t :| t in todo;
      valueToVariant := valueToVariant + map v | v in enums[t] :: t;
      todo := todo - {t};
    }
    if overlapping == {} {
      forall t, v | t in enums && v in enums[t]
        ensures v in valueToVariant && valueToVariant[v] == t
      {
        assert v !in overlapping;
        OneOfThem(listed[v], t, valueToVariant[v]);
      }
    }
  }
}
