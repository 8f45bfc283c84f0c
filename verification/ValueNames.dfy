/**
Names for enum values and discriminator keys (valueMappingNameGen in internal/lowering/names.go): the
first of four ways to name them that gives every value a name of its own, and a generator that
remembers by index how each value was printed.
 */
module ValueNames {
  import opened Naming
  import opened Strconv
  import opened Wrappers

  datatype Strategy = PascalName | PascalSpecialName | CleanSuffix | IndexSuffix

  // How a printed value starts: with a character that has a name, with U+FFFD (which decoding also
  // yields for malformed UTF-8), or otherwise.
  datatype First = Special | Broken | Ordinary

  // What stands for a printed value in its name.
  function NonEmpty(value: string): string {
    if value == "" then "Empty" else value
  }

  function FirstOf(value: string): First {
    if value == "" then Ordinary
    else if value[0] == REPLACEMENT then Broken
    else if NamedChar(value[0]).Some? then Special
    else Ordinary
  }

  function NameWith(l: Letters, s: Strategy, name: string, vstr: string, idx: nat): Option<string> {
    match s
    case PascalName => Generated(l, false, name + " " + vstr)
    case PascalSpecialName => Generated(l, true, name + " " + vstr)
    case CleanSuffix => Some(name + "_" + Cleaned(l, true, vstr))
    case IndexSuffix => Some(name + "_" + Itoa(idx))
  }

  function NameAt(l: Letters, s: Strategy, name: string, values: seq<string>, idx: nat): Option<string>
    requires idx < |values|
  {
    NameWith(l, s, name, NonEmpty(values[idx]), idx)
  }

  // The first n values all get names, different ones, and none gets the name of the type.
  ghost predicate NamesApart(l: Letters, s: Strategy, name: string, values: seq<string>, n: nat)
    requires n <= |values|
  {
    && (forall i :: 0 <= i < n ==> NameAt(l, s, name, values, i).Some? && NameAt(l, s, name, values, i).value != name)
    && (forall i, j :: 0 <= i < j < n ==> NameAt(l, s, name, values, i) != NameAt(l, s, name, values, j))
  }

  // Some value starts in that way.
  ghost predicate Starts(values: seq<string>, first: First) {
    exists v :: v in values && FirstOf(NonEmpty(v)) == first
  }

  // The naming panics only if the first strategy names all values and one starts with U+FFFD,
  ghost predicate MayPanic(l: Letters, name: string, values: seq<string>) {
    NamesApart(l, PascalName, name, values, |values|) && Starts(values, Broken)
  }

  // and then always, unless a value that starts with a named character may be looked at before it.
  ghost predicate MustPanic(l: Letters, name: string, values: seq<string>) {
    MayPanic(l, name, values) && !Starts(values, Special)
  }

  // Numbering always works.
  lemma IndicesApart(l: Letters, name: string, values: seq<string>)
    ensures NamesApart(l, IndexSuffix, name, values, |values|)
  {
    forall i, j | 0 <= i < j < |values|
      ensures NameAt(l, IndexSuffix, name, values, i) != NameAt(l, IndexSuffix, name, values, j)
    {
      var prefix := name + "_";
      if prefix + Itoa(i) == prefix + Itoa(j) {
        assert (prefix + Itoa(i))[|prefix|..] == Itoa(i) && (prefix + Itoa(j))[|prefix|..] == Itoa(j);
        ItoaDiffers(i, j);
      }
    }
    forall i | 0 <= i < |values|
      ensures NameAt(l, IndexSuffix, name, values, i).value != name
    {
      assert |name + "_" + Itoa(i)| > |name|;
    }
  }

  // A value without letters and digits gets the name of the type from the first strategy: no panic,
  // even if it starts with U+FFFD.
  lemma NoLettersNoPanic(l: Letters, name: string, values: seq<string>, i: nat)
    requires !l.allowed(' ') && l.initialism("").None? && Generated(l, false, name) == Some(name)
    requires i < |values| && values[i] != "" && forall k :: 0 <= k < |values[i]| ==> !l.allowed(values[i][k])
    ensures !MayPanic(l, name, values)
  {
    PascalSplit(l, false, name, values[i]);
    NothingLeft(l, values[i], true);
    assert Join(Words(l, false, name, "", true)) + "" == Join(Words(l, false, name, "", true));
    assert NameAt(l, PascalName, name, values, i) == Some(name);
  }

  // Letters and digits, upper case, and no initialism in the way.
  predicate Usual(l: Letters) {
    && (forall c :: 'a' <= c <= 'z' || 'A' <= c <= 'Z' ==> l.allowed(c))
    && !l.allowed(' ') && !l.allowed(REPLACEMENT)
    && l.upper('S') == 'S' && l.upper('a') == 'A'
    && l.initialism("").None? && l.initialism("Status").None? && l.initialism("A").None?
    && l.identifier("Status") && l.identifier("StatusA") && !l.camel
  }

  // The well-formed value U+FFFD "a" makes the naming panic; the malformed value of one byte does not.
  lemma PanicsOnText(l: Letters)
    requires Usual(l)
    ensures MustPanic(l, "Status", [[REPLACEMENT, 'a']])
    ensures !MayPanic(l, "Status", [[REPLACEMENT]])
  {
    var v := [REPLACEMENT, 'a'];
    NameOfText(l);
    StatusWords(l);
    NoLettersNoPanic(l, "Status", [[REPLACEMENT]], 0);
    hide Generated, Usual;
    assert NameAt(l, PascalName, "Status", [v], 0) == Some("StatusA");
    assert v in [v] && NonEmpty(v) == v && FirstOf(v) == Broken;
  }

  lemma NameOfText(l: Letters)
    requires Usual(l)
    ensures Generated(l, false, "Status" + " " + [REPLACEMENT, 'a']) == Some("StatusA")
  {
    StatusWords(l);
    PascalSplit(l, false, "Status", [REPLACEMENT, 'a']);
    TextWords(l);
    hide Words, Join;
    assert "Status" + "A" == "StatusA";
  }

  lemma TextWords(l: Letters)
    requires Usual(l)
    ensures Join(Words(l, false, [REPLACEMENT, 'a'], "", true)) == "A"
  {
    var v := [REPLACEMENT, 'a'];
    assert v[0] == REPLACEMENT && v[1..] == "a" && "a"[1..] == "" && "" + "A" == "A";
    assert Words(l, false, "a", "", true) == ["A"];
    assert Words(l, false, v, "", true) == [""] + ["A"];
    hide Words;
    assert ["A"][1..] == [];
    JoinConcat([""], ["A"]);
  }

  lemma StatusWords(l: Letters)
    requires Usual(l)
    ensures Join(Words(l, false, "Status", "", true)) == "Status" && Generated(l, false, "Status") == Some("Status")
  {
    OneWord(l, false, "Status", "", true);
    assert "" + "Status" == "Status";
    hide Words;
    assert Join(["Status"]) == "Status" by { assert ["Status"][1..] == []; }
  }

  datatype Chosen = Chosen(strategy: Strategy) | Panic | NoStrategy

  class Generator {
    const letters: Letters
    const name: string
    var vstrCache: map<nat, string>

    constructor (letters: Letters, name: string)
      ensures this.letters == letters && this.name == name && vstrCache == map[]
    {
      this.letters, this.name, vstrCache := letters, name, map[];
    }

    // What is remembered is how the values were printed.
    ghost predicate Remembers(values: seq<string>)
      reads this
    {
      forall i :: i in vstrCache ==> i < |values| && vstrCache[i] == NonEmpty(values[i])
    }

    // nameGen: an index that was named before is named the same, whatever value comes with it.
    method NameGen(s: Strategy, value: string, idx: nat) returns (r: Option<string>)
      modifies this
      ensures vstrCache == if idx in old(vstrCache) then old(vstrCache) else old(vstrCache)[idx := NonEmpty(value)]
      ensures r == NameWith(letters, s, name, vstrCache[idx], idx)
    {
      if idx !in vstrCache {
        var vstr := value;
        if vstr == "" {
          vstr := "Empty";
        }
        vstrCache := vstrCache[idx := vstr];
      }
      var vstr := vstrCache[idx];
      match s {
        case PascalName =>
          var g := new Naming.NameGen(letters, name + " " + vstr, false);
          r := g.Generate();
        case PascalSpecialName =>
          var g := new Naming.NameGen(letters, name + " " + vstr, true);
          r := g.Generate();
        case CleanSuffix =>
          var g := new Naming.NameGen(letters, vstr, true);
          var suffix := g.Clean();
          r := Some(name + "_" + suffix);
        case IndexSuffix =>
          r := Some(name + "_" + Itoa(idx));
      }
    }

    // One round of the loop over strategies, up to the exception.
    method TryStrategy(s: Strategy, values: seq<string>) returns (ok: bool)
      requires Remembers(values)
      modifies this
      ensures Remembers(values) && forall i :: i in old(vstrCache) ==> i in vstrCache
      ensures ok <==> NamesApart(letters, s, name, values, |values|)
      ensures ok ==> forall i :: 0 <= i < |values| ==> i in vstrCache
    {
      hide NameWith, NonEmpty;
      var names := {name};
      for idx := 0 to |values|
        invariant Remembers(values) && forall i :: i in old(vstrCache) ==> i in vstrCache
        invariant forall i :: 0 <= i < idx ==> i in vstrCache
        invariant NamesApart(letters, s, name, values, idx)
        invariant forall n :: n in names <==> n == name || exists i :: 0 <= i < idx && NameAt(letters, s, name, values, i) == Some(n)
      {
        var k := NameGen(s, values[idx], idx);
        assert k == NameAt(letters, s, name, values, idx);
        if k.None? {
          return false;
        }
        if k.value in names {
          return false;
        }
        names := names + {k.value};
      }
      return true;
    }

    // isException, for the first strategy: the values in any order, up to one that starts with a
    // special character.
    method IsException(values: seq<string>) returns (exception: bool, panic: bool)
      requires Remembers(values)
      ensures exception ==> Starts(values, Special)
      ensures panic ==> Starts(values, Broken)
      ensures !exception && !panic ==> forall i :: i in vstrCache ==> FirstOf(vstrCache[i]) == Ordinary
      ensures !(exception && panic)
    {
      var todo := vstrCache.Keys;
      while todo != {}
        invariant todo <= vstrCache.Keys
        invariant forall i :: i in vstrCache && i !in todo ==> FirstOf(vstrCache[i]) == Ordinary
        decreases todo
      {
        var i :| i in todo;
        assert values[i] in values;
        var first := FirstOf(vstrCache[i]);
        if first == Broken {
          return false, true;
        }
        if first == Special {
          return true, false;
        }
        todo := todo - {i};
      }
      return false, false;
    }

    // The loop over strategies.
    method FirstStrategy(values: seq<string>, allowSpecial: bool) returns (r: Chosen)
      requires vstrCache == map[]
      modifies this
      ensures r == NoStrategy ==> !NamesApart(letters, IndexSuffix, name, values, |values|)
      ensures r == Panic ==> MayPanic(letters, name, values)
      ensures MustPanic(letters, name, values) ==> r == Panic
      ensures r.Chosen? ==> Ready(r.strategy, values)
      ensures r == Chosen(PascalSpecialName) ==> allowSpecial
      ensures r == Chosen(PascalName) ==> forall v :: v in values ==> FirstOf(NonEmpty(v)) == Ordinary
      ensures NamesApart(letters, PascalName, name, values, |values|) && !Starts(values, Broken) && !Starts(values, Special) ==>
                r == Chosen(PascalName)
    {
      hide NamesApart;
      var strategies := [PascalName, PascalSpecialName, CleanSuffix, IndexSuffix];
      for i := 0 to 4
        invariant Remembers(values) && (i == 4 ==> !NamesApart(letters, IndexSuffix, name, values, |values|))
        invariant i > 0 && NamesApart(letters, PascalName, name, values, |values|) ==> Starts(values, Special)
      {
        var strategy := strategies[i];
        if !allowSpecial && strategy == PascalSpecialName {
          continue;
        }
        var ok := TryStrategy(strategy, values);
        if !ok {
          continue;
        }
        if strategy == PascalName {
          var exception, panic := IsException(values);
          if panic {
            return Panic;
          }
          if exception {
            continue;
          }
        }
        return Chosen(strategy);
      }
      return NoStrategy;
    }

    // valueMappingNameGen: a strategy is always found, unless the way a value starts makes it panic.
    method Choose(values: seq<string>, allowSpecial: bool) returns (r: Chosen)
      requires vstrCache == map[]
      modifies this
      ensures r != NoStrategy
      ensures r == Panic ==> MayPanic(letters, name, values)
      ensures MustPanic(letters, name, values) ==> r == Panic
      ensures r.Chosen? ==> Ready(r.strategy, values)
      ensures r == Chosen(PascalSpecialName) ==> allowSpecial
      ensures r == Chosen(PascalName) ==> forall v :: v in values ==> FirstOf(NonEmpty(v)) == Ordinary
      ensures NamesApart(letters, PascalName, name, values, |values|) && !Starts(values, Broken) && !Starts(values, Special) ==>
                r == Chosen(PascalName)
    {
      IndicesApart(letters, name, values);
      hide NamesApart;
      r := FirstStrategy(values, allowSpecial);
    }

    // The generator has seen all the values and names them apart.
    ghost predicate Ready(s: Strategy, values: seq<string>)
      reads this
    {
      && Remembers(values) && (forall i :: 0 <= i < |values| ==> i in vstrCache)
      && NamesApart(letters, s, name, values, |values|)
    }

    // The closure handed out: asked for an index it has seen, it gives the name that was checked, even
    // if the value is now printed differently (a discriminator key with its underscores back).
    method Name(s: Strategy, value: string, idx: nat, ghost values: seq<string>) returns (r: Option<string>)
      requires Ready(s, values) && idx < |values|
      modifies this
      ensures vstrCache == old(vstrCache)
      ensures r == NameAt(letters, s, name, values, idx) && r.Some? && r.value != name
      ensures forall j :: 0 <= j < |values| && j != idx ==> r != NameAt(letters, s, name, values, j)
    {
      r := NameGen(s, value, idx);
    }
  }
}
