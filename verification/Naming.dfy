/**
Go names from arbitrary text (nameGen in internal/lowering/names.go): the text is cut into words, each
word may be replaced by an initialism, and the words are put together. Text is a sequence of characters
as Go's conversion to runes yields them: every malformed byte is a U+FFFD.
 */
module Naming {
  import opened Wrappers

  // What the Unicode tables, the rule set and the Go syntax say: the characters that may stay (letters
  // and digits), upper case, the replacement of a word, and identifiers. `camel` is the option that also
  // cuts between lower and upper case.
  datatype Letters = Letters(
    allowed: char -> bool,
    upper: char -> char,
    isUpper: char -> bool,
    initialism: string -> Option<string>,
    identifier: string -> bool,
    camel: bool)

  const REPLACEMENT := '\U{FFFD}'

  function NamedChar(c: char): Option<string> {
    match c
    case '+' => Some("Plus")
    case '-' => Some("Minus")
    case '/' => Some("Slash")
    case '<' => Some("Less")
    case '>' => Some("Greater")
    case '=' => Some("Eq")
    case '.' => Some("Dot")
    case _ => None
  }

  // checkPart.
  function Part(l: Letters, part: string): string {
    if l.initialism(part).Some? then l.initialism(part).value else part
  }

  function Join(parts: seq<string>): string {
    if parts == [] then "" else parts[0] + Join(parts[1..])
  }

  function Cuts(l: Letters, part: string, c: char): bool {
    l.camel && part != "" && l.isUpper(c) && !l.isUpper(part[|part| - 1])
  }

  // What a character that may not stay leaves behind, after the word before it.
  function Gap(l: Letters, special: bool, part: string, c: char): seq<string> {
    [Part(l, part)] + if special && NamedChar(c).Some? then [Part(l, NamedChar(c).value)] else []
  }

  // The words of a text, of which `part` is read already; the next letter is put in upper case if `upper`.
  function Words(l: Letters, special: bool, src: string, part: string, upper: bool): seq<string> {
    if src == "" then [Part(l, part)]
    else
      var c := src[0];
      if !l.allowed(c) then Gap(l, special, part, c) + Words(l, special, src[1..], "", true)
      else if Cuts(l, part, c) then [Part(l, part)] + Words(l, special, src[1..], [l.upper(c)], false)
      else Words(l, special, src[1..], part + [if upper then l.upper(c) else c], false)
  }

  // The words with the case as it is.
  function CleanWords(l: Letters, special: bool, src: string, part: string): seq<string> {
    if src == "" then [Part(l, part)]
    else if !l.allowed(src[0]) then Gap(l, special, part, src[0]) + CleanWords(l, special, src[1..], "")
    else CleanWords(l, special, src[1..], part + [src[0]])
  }

  // Names do not start with a digit.
  function Prefixed(name: string): string {
    if name != "" && '0' <= name[0] <= '9' then "R" + name else name
  }

  function Generated(l: Letters, special: bool, src: string): Option<string> {
    var name := Prefixed(Join(Words(l, special, src, "", true)));
    if l.identifier(name) then Some(name) else None
  }

  function Cleaned(l: Letters, special: bool, src: string): string {
    Join(CleanWords(l, special, src, ""))
  }

  lemma {:induction false} JoinConcat(a: seq<string>, b: seq<string>)
    ensures Join(a + b) == Join(a) + Join(b)
  {
    if a == [] {
      assert a + b == b;
    } else {
      assert (a + b)[1..] == a[1..] + b;
      JoinConcat(a[1..], b);
    }
  }

  // A separator cuts a text in two: the words are those of both sides.
  lemma {:induction false} WordsSplit(l: Letters, special: bool, s: string, c: char, t: string, part: string, upper: bool)
    requires !l.allowed(c) && !(special && NamedChar(c).Some?)
    ensures Words(l, special, s + [c] + t, part, upper) == Words(l, special, s, part, upper) + Words(l, special, t, "", true)
    decreases s
  {
    var src := s + [c] + t;
    if s == "" {
      assert src[0] == c && src[1..] == t;
      assert Gap(l, special, part, c) == [Part(l, part)];
    } else {
      assert src[0] == s[0] && src[1..] == s[1..] + [c] + t;
      if !l.allowed(s[0]) {
        WordsSplit(l, special, s[1..], c, t, "", true);
      } else if Cuts(l, part, s[0]) {
        WordsSplit(l, special, s[1..], c, t, [l.upper(s[0])], false);
      } else {
        WordsSplit(l, special, s[1..], c, t, part + [if upper then l.upper(s[0]) else s[0]], false);
      }
    }
  }

  // The name of two texts is made of the words of the first and then those of the second.
  lemma PascalSplit(l: Letters, special: bool, s: string, t: string)
    requires !l.allowed(' ')
    ensures Join(Words(l, special, s + " " + t, "", true)) ==
            Join(Words(l, special, s, "", true)) + Join(Words(l, special, t, "", true))
  {
    WordsSplit(l, special, s, ' ', t, "", true);
    JoinConcat(Words(l, special, s, "", true), Words(l, special, t, "", true));
  }

  // A text without letters and digits adds nothing, unless its characters have names.
  lemma {:induction false} NothingLeft(l: Letters, t: string, upper: bool)
    requires l.initialism("").None? && forall i :: 0 <= i < |t| ==> !l.allowed(t[i])
    ensures Join(Words(l, false, t, "", upper)) == ""
    decreases t
  {
    if t != "" {
      NothingLeft(l, t[1..], true);
      assert Gap(l, false, "", t[0]) == [""];
      JoinConcat([""], Words(l, false, t[1..], "", true));
    }
  }

  // A word that is one already stays as it is.
  lemma {:induction false} OneWord(l: Letters, special: bool, t: string, part: string, upper: bool)
    requires !l.camel && forall i :: 0 <= i < |t| ==> l.allowed(t[i])
    requires upper && t != "" ==> l.upper(t[0]) == t[0]
    ensures Words(l, special, t, part, upper) == [Part(l, part + t)]
    decreases t
  {
    if t == "" {
      assert part + t == part;
    } else {
      OneWord(l, special, t[1..], part + [t[0]], false);
      assert part + [t[0]] + t[1..] == part + t;
    }
  }

  lemma Regroup(a: seq<string>, b: seq<string>, c: seq<string>)
    ensures a + (b + c) == (a + b) + c
  {
  }

  class NameGen {
    const letters: Letters
    const src: string
    const allowSpecial: bool
    var parts: seq<string>
    var pos: nat

    constructor (letters: Letters, src: string, allowSpecial: bool)
      ensures this.letters == letters && this.src == src && this.allowSpecial == allowSpecial
      ensures parts == [] && pos == 0
    {
      this.letters, this.src, this.allowSpecial := letters, src, allowSpecial;
      parts, pos := [], 0;
    }

    // next.
    method Next() returns (r: Option<char>)
      requires pos <= |src|
      modifies this`pos
      ensures r == if old(pos) < |src| then Some(src[old(pos)]) else None
      ensures pos == if r.Some? then old(pos) + 1 else old(pos)
    {
      if pos == |src| {
        return None;
      }
      r := Some(src[pos]);
      pos := pos + 1;
    }

    method PushPart(part: string)
      modifies this`parts
      ensures parts == old(parts) + [Part(letters, part)]
    {
      var rule := letters.initialism(part);
      parts := parts + [if rule.Some? then rule.value else part];
    }

    // generate.
    method Generate() returns (r: Option<string>)
      requires pos == 0 && parts == []
      modifies this
      ensures r == Generated(letters, allowSpecial, src)
    {
      var part, upper := "", true;
      assert src[0..] == src;
      while true
        invariant pos <= |src|
        invariant parts + Words(letters, allowSpecial, src[pos..], part, upper) == Words(letters, allowSpecial, src, "", true)
        decreases |src| - pos
      {
        var c := Next();
        if c.None? {
          PushPart(part);
          break;
        }
        assert src[pos - 1..][0] == c.value && src[pos - 1..][1..] == src[pos..];
        ghost var before, start, rest := parts, part, src[pos..];
        if letters.allowed(c.value) {
          if letters.camel && |part| > 0 && letters.isUpper(c.value) && !letters.isUpper(part[|part| - 1]) {
            PushPart(part);
            part, upper := "", true;
          }
          var kept := c.value;
          if upper {
            kept := letters.upper(kept);
            upper := false;
          }
          part := part + [kept];
          assert "" + [kept] == [kept];
          Regroup(before, [Part(letters, start)], Words(letters, allowSpecial, rest, part, upper));
          continue;
        }
        upper := true;
        if allowSpecial && NamedChar(c.value).Some? {
          PushPart(part);
          part := NamedChar(c.value).value;
        }
        PushPart(part);
        part := "";
        assert parts == before + Gap(letters, allowSpecial, start, c.value);
        Regroup(before, Gap(letters, allowSpecial, start, c.value), Words(letters, allowSpecial, rest, part, upper));
      }
      var name := Join(parts);
      if |name| > 0 && '0' <= name[0] <= '9' {
        name := "R" + name;
      }
      if !letters.identifier(name) {
        return None;
      }
      return Some(name);
    }

    // clean.
    method Clean() returns (r: string)
      requires pos == 0 && parts == []
      modifies this
      ensures r == Cleaned(letters, allowSpecial, src)
    {
      var part := "";
      assert src[0..] == src;
      while true
        invariant pos <= |src|
        invariant parts + CleanWords(letters, allowSpecial, src[pos..], part) == CleanWords(letters, allowSpecial, src, "")
        decreases |src| - pos
      {
        var c := Next();
        if c.None? {
          PushPart(part);
          return Join(parts);
        }
        assert src[pos - 1..][0] == c.value && src[pos - 1..][1..] == src[pos..];
        ghost var before, start, rest := parts, part, src[pos..];
        if letters.allowed(c.value) {
          part := part + [c.value];
          continue;
        }
        if allowSpecial && NamedChar(c.value).Some? {
          PushPart(part);
          part := NamedChar(c.value).value;
        }
        PushPart(part);
        part := "";
        assert parts == before + Gap(letters, allowSpecial, start, c.value);
        Regroup(before, Gap(letters, allowSpecial, start, c.value), CleanWords(letters, allowSpecial, rest, part));
      }
    }
  }
}
