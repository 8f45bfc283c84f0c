/**
What the replaced pieces of a pattern stand for: the converted text is read back by a small reader of RE2
character classes and escapes, which knows nothing of how they are written.
 */
module RegexMeaning {
  import opened Wrappers
  import opened Utf8
  import opened RegexText
  import opened RegexProofs

  // ----- A reader of RE2 text that stands for one character -----

  function Characters(s: seq<byte>): seq<int>
    decreases |s|
  {
    if s == [] then []
    else
      var (r, width) := DecodeRune(s);
      if width > |s| then [] else [r] + Characters(s[width..])
  }

  function DigitOf(c: int): Option<nat> {
    if 0x30 <= c <= 0x39 then Some(c - 0x30)
    else if 0x61 <= c <= 0x66 then Some(c - 0x57)
    else if 0x41 <= c <= 0x46 then Some(c - 0x37)
    else None
  }

  // The number some digits stand for.
  function Number(ds: seq<int>, base: nat): Option<nat> {
    if ds == [] then Some(0)
    else
      var front, d := Number(ds[..|ds| - 1], base), DigitOf(ds[|ds| - 1]);
      if front.None? || d.None? || d.value >= base then None else Some(front.value * base + d.value)
  }

  // `\0`, `\xHH` and `\x{H..}`.
  function EscapeValue(t: seq<int>): Option<nat> {
    if t == [0x5C, 0x30] then Some(0)
    else if |t| == 4 && t[..2] == [0x5C, 0x78] then Number(t[2..], 16)
    else if |t| > 4 && t[..3] == [0x5C, 0x78, 0x7B] && t[|t| - 1] == 0x7D then Number(t[3..|t| - 1], 16)
    else None
  }

  // Between the brackets: characters, `\xHH` and ranges of them.
  function First(t: seq<int>): Option<(int, nat)> {
    if t == [] then None
    else if t[0] != 0x5C then Some((t[0], 1))
    else if |t| >= 4 && EscapeValue(t[..4]).Some? then Some((EscapeValue(t[..4]).value, 4))
    else None
  }

  predicate Lists(t: seq<int>, c: int)
    decreases |t|
  {
    var first := First(t);
    first.Some? &&
    var (low, width) := first.value;
    var rest := t[width..];
    var second := if |rest| > 1 && rest[0] == 0x2D then First(rest[1..]) else None;
    if second.Some? then low <= c <= second.value.0 || Lists(rest[1 + second.value.1..], c)
    else low == c || Lists(rest, c)
  }

  // The text matches exactly the character c: it is a class that has it, or an escape of it.
  predicate Matches(text: seq<byte>, c: int) {
    var t := Characters(text);
    if |t| > 2 && t[0] == 0x5B && t[|t| - 1] == 0x5D then
      if t[1] == 0x5E then !Lists(t[2..|t| - 1], c) else Lists(t[1..|t| - 1], c)
    else EscapeValue(t) == Some(c)
  }

  // ----- Reading back what was encoded -----

  predicate IsCharacter(r: int) {
    0 <= r <= 0x10FFFF && !(0xD800 <= r <= 0xDFFF)
  }

  lemma DecodeEncode(r: int, t: seq<byte>)
    requires IsCharacter(r)
    ensures DecodeRune(EncodeRune(r) + t) == (r, |EncodeRune(r)|)
  {
    var s := EncodeRune(r);
    EncodingDecodes(r);
    assert DecodeRune(s).0 == r by { DecodesTo(r); }
    hide EncodeRune, DecodeRune;
    DecodePrefix(s, t);
  }

  lemma DecodesTo(r: int)
    requires IsCharacter(r)
    ensures DecodeRune(EncodeRune(r)).0 == r
  {
    hide DecodeRune;
    if r < 0x80 {
      ShortDecodesTo(r, 0, r);
    } else if r < 0x800 {
      ShortDecodesTo(r, r / 0x40, r % 0x40);
    } else if r < 0x10000 {
      MiddleDecodes(r);
    } else {
      LongDecodes(r);
    }
  }

  lemma MiddleDecodes(r: int)
    requires IsCharacter(r) && 0x800 <= r < 0x10000
    ensures DecodeRune(EncodeRune(r)).0 == r
  {
    hide DecodeRune;
    var a, b, c := r / 0x1000, r / 0x40 % 0x40, r % 0x40;
    assert EncodeRune(r) == [0xE0 + a, 0x80 + b, 0x80 + c];
    MiddleDecodesTo(r, a, b, c);
  }

  lemma LongDecodes(r: int)
    requires 0x10000 <= r <= 0x10FFFF
    ensures DecodeRune(EncodeRune(r)).0 == r
  {
    hide DecodeRune;
    var a, b, c, d := r / 0x40000, r / 0x1000 % 0x40, r / 0x40 % 0x40, r % 0x40;
    LongSplit(r);
    assert EncodeRune(r) == [0xF0 + a, 0x80 + b, 0x80 + c, 0x80 + d];
    hide EncodeRune;
    LongDecodesTo(r, a, b, c, d);
  }

  lemma LongSplit(r: int)
    requires 0x10000 <= r <= 0x10FFFF
    ensures r == r / 0x40000 * 0x40000 + r / 0x1000 % 0x40 * 0x1000 + r / 0x40 % 0x40 * 0x40 + r % 0x40
    ensures 0 <= r / 0x40000 < 5 && (r / 0x40000 == 0 ==> r / 0x1000 % 0x40 >= 0x10) && (r / 0x40000 == 4 ==> r / 0x1000 % 0x40 < 0x10)
  {
  }

  lemma ShortDecodesTo(r: int, a: int, b: int)
    requires 0 <= a < 0x20 && 0 <= b < (if a == 0 then 0x80 else 0x40) && a != 1 && r == a * 0x40 + b
    ensures a == 0 ==> DecodeRune([b]).0 == r
    ensures a > 0 ==> DecodeRune([0xC0 + a, 0x80 + b]).0 == r
  {
  }

  lemma MiddleDecodesTo(r: int, a: int, b: int, c: int)
    requires 0 <= a < 0x10 && 0 <= b < 0x40 && 0 <= c < 0x40 && (a == 0 ==> b >= 0x20) && (a == 0xD ==> b < 0x20)
    requires r == a * 0x1000 + b * 0x40 + c
    ensures DecodeRune([0xE0 + a, 0x80 + b, 0x80 + c]).0 == r
  {
  }

  lemma LongDecodesTo(r: int, a: int, b: int, c: int, d: int)
    requires 0 <= a < 5 && 0 <= b < 0x40 && 0 <= c < 0x40 && 0 <= d < 0x40
    requires (a == 0 ==> b >= 0x10) && (a == 4 ==> b < 0x10)
    requires r == a * 0x40000 + b * 0x1000 + c * 0x40 + d
    ensures DecodeRune([0xF0 + a, 0x80 + b, 0x80 + c, 0x80 + d]).0 == r
  {
  }

  lemma {:induction false} CharactersOfRunes(rs: seq<int>)
    requires forall r :: r in rs ==> IsCharacter(r)
    ensures Characters(Runes(rs)) == rs
  {
    if rs != [] {
      var s, t := EncodeRune(rs[0]), Runes(rs[1..]);
      CharactersOfRunes(rs[1..]);
      DecodeEncode(rs[0], t);
      EncodingDecodes(rs[0]);
      hide EncodeRune, DecodeRune, IsCharacter;
      assert (s + t)[|s|..] == t;
    }
  }

  lemma {:induction false} CharactersOfAscii(s: seq<byte>)
    requires forall i :: 0 <= i < |s| ==> s[i] < 0x80
    ensures Characters(s) == s
  {
    if s != [] { CharactersOfAscii(s[1..]); }
  }

  lemma {:induction false} RunesConcat(a: seq<int>, b: seq<int>)
    ensures Runes(a + b) == Runes(a) + Runes(b)
  {
    if a == [] {
      assert a + b == b;
    } else {
      assert (a + b)[1..] == a[1..] + b;
      RunesConcat(a[1..], b);
      hide EncodeRune;
    }
  }

  // ----- Walking through a short pattern -----

  predicate IsAscii(str: seq<byte>) {
    forall i :: 0 <= i < |str| ==> str[i] < 0x80
  }

  // The cursor at a place of an ASCII pattern.
  function At(str: seq<byte>, at: nat, out: seq<byte>): (c: Cursor)
    requires IsAscii(str) && at <= |str|
    ensures InPlace(str, c)
  {
    if at == |str| then Cursor(EOF, at, at, out, None)
    else
      assert str[at..at + 1] == [str[at]];
      Cursor(str[at], at, at + 1, out, None)
  }

  lemma Steps(str: seq<byte>, at: nat, out: seq<byte>, text: seq<byte>)
    requires IsAscii(str) && at < |str|
    ensures Put(At(str, at, out), text) == At(str, at, out + text)
    ensures Read(str, At(str, at, out)) == At(str, at + 1, out)
    ensures Pass(str, At(str, at, out)) == At(str, at + 1, out + [str[at]])
  {
  }

  lemma StepsAtEnd(str: seq<byte>, out: seq<byte>, text: seq<byte>)
    requires IsAscii(str)
    ensures Put(At(str, |str|, out), text) == At(str, |str|, out + text)
    ensures Scan(str, At(str, |str|, out)) == At(str, |str|, out)
  {
  }

  // One round of the scanners.
  lemma ScanRound(str: seq<byte>, c: Cursor)
    requires InPlace(str, c) && c.chr != EOF
    ensures c.chr == 0x5B ==> Scan(str, c) == Scan(str, Bracket(str, c))
    ensures c.chr == 0x2E ==> Scan(str, c) == Scan(str, Read(str, Put(c, DOT)))
    ensures c.chr == 0x5C ==> Scan(str, c) == Scan(str, Escape(str, Read(str, c), false))
    ensures c.chr !in {0x28, 0x29, 0x2E, 0x5B, 0x5C} ==> Scan(str, c) == Scan(str, Pass(str, c))
  {
    hide Bracket, Escape, Group, Pass, Put;
  }

  lemma BodyRound(str: seq<byte>, c: Cursor)
    requires InPlace(str, c) && c.chr != EOF
    ensures c.chr == 0x5D ==> BracketBody(str, c) == Pass(str, c)
    ensures c.chr == 0x5C ==> BracketBody(str, c) == BracketBody(str, Escape(str, Read(str, c), true))
    ensures c.chr !in {0x5C, 0x5D} ==> BracketBody(str, c) == BracketBody(str, Pass(str, c))
  {
    hide Escape, Pass, Read;
  }

  lemma ConvertedFrom(str: seq<byte>)
    requires str != [] && IsAscii(str)
    ensures var d := Scan(str, At(str, 0, [])); Converted(str) == if d.err.Some? then None else Some(d.out)
  {
    hide Scan;
    assert Read(str, Cursor(0, 0, 0, [], None)) == At(str, 0, []);
  }

  lemma OneOfs(chr: int)
    ensures IsOneOf(chr, "01234567") <==> 0x30 <= chr <= 0x37
    ensures IsOneOf(chr, "89") <==> chr in {0x38, 0x39}
    ensures IsOneOf(chr, "bBdDwW\\fnrtv") <==> chr in {0x62, 0x42, 0x64, 0x44, 0x77, 0x57, 0x5C, 0x66, 0x6E, 0x72, 0x74, 0x76}
    ensures IsOneOf(chr, "sS") <==> chr in {0x73, 0x53}
    ensures IsOneOf(chr, "pP") <==> chr in {0x70, 0x50}
  {
    if 0x30 <= chr <= 0x37 { assert "01234567"[chr - 0x30] as int == chr; }
    assert "89"[0] as int == 0x38 && "89"[1] as int == 0x39;
    assert "sS"[0] as int == 0x73 && "sS"[1] as int == 0x53 && "pP"[0] as int == 0x70 && "pP"[1] as int == 0x50;
    var kept := "bBdDwW\\fnrtv";
    assert kept[0] as int == 0x62 && kept[1] as int == 0x42 && kept[2] as int == 0x64 && kept[3] as int == 0x44;
    assert kept[4] as int == 0x77 && kept[5] as int == 0x57 && kept[6] as int == 0x5C && kept[7] as int == 0x66;
    assert kept[8] as int == 0x6E && kept[9] as int == 0x72 && kept[10] as int == 0x74 && kept[11] as int == 0x76;
  }

  // What an escape comes to, by its first character.
  lemma EscapeRound(str: seq<byte>, c: Cursor, inClass: bool)
    requires InPlace(str, c) && c.at > 0
    ensures 0x30 <= c.chr <= 0x37 ==> Escape(str, c, inClass) == Octal(str, c)
    ensures c.chr in {0x38, 0x39} ==> Escape(str, c, inClass) == Fail(str, Read(str, c), Unsupported)
    ensures c.chr == 0x78 ==> Escape(str, c, inClass) == CodePoint(str, Read(str, c), c.at, 2)
    ensures c.chr == 0x75 ==> Escape(str, c, inClass) == Unicode(str, c)
    ensures c.chr == 0x62 && inClass ==> Escape(str, c, inClass) == Read(str, Put(c, Ascii("\\x08")))
    ensures c.chr == 0x63 ==> Escape(str, c, inClass) == Control(str, Read(str, c))
    ensures c.chr in {0x73, 0x53} ==> Escape(str, c, inClass) == Whitespace(str, c, inClass)
    ensures c.chr in {0x70, 0x50} ==> Escape(str, c, inClass) == Property(str, c)
    ensures c.chr in {0x42, 0x64, 0x44, 0x77, 0x57, 0x5C, 0x66, 0x6E, 0x72, 0x74, 0x76} || (c.chr == 0x62 && !inClass) ==>
              Escape(str, c, inClass) == Verbatim(str, c)
    ensures 0 <= c.chr < 0x80 && !(0x30 <= c.chr <= 0x39) && !(0x41 <= c.chr <= 0x5A) && !(0x61 <= c.chr <= 0x7A) && c.chr != 0x5F ==>
              Escape(str, c, inClass) == Verbatim(str, c)
    ensures c.chr == 0x5F || (0x41 <= c.chr <= 0x5A && c.chr !in {0x42, 0x44, 0x50, 0x53, 0x57}) ||
            (0x61 <= c.chr <= 0x7A && c.chr !in {0x62, 0x63, 0x64, 0x66, 0x6E, 0x70, 0x72, 0x73, 0x74, 0x75, 0x76, 0x77, 0x78}) ==>
              Escape(str, c, inClass) == Pass(str, c)
  {
    OneOfs(c.chr);
    hide IsOneOf, Octal, Read, Fail, CodePoint, Unicode, Control, Whitespace, Verbatim, Property, Pass, Put, Ascii;
  }

  // A pattern that starts with an escape, for which `text` is written.
  lemma EscapeConverted(str: seq<byte>, text: seq<byte>)
    requires IsAscii(str) && |str| >= 2 && str[0] == 0x5C
    requires Escape(str, At(str, 1, []), false) == At(str, |str|, text)
    ensures Converted(str) == Some(text)
  {
    AtIs(str, 0, []);
    AtIs(str, |str|, text);
    hide Escape, Scan, At;
    Steps(str, 0, [], []);
    ScanRound(str, At(str, 0, []));
    StepsAtEnd(str, text, []);
    ConvertedFrom(str);
  }

  lemma EscapeFails(str: seq<byte>)
    requires IsAscii(str) && |str| >= 2 && str[0] == 0x5C
    requires Escape(str, At(str, 1, []), false).err.Some? && Escape(str, At(str, 1, []), false).chr == EOF
    ensures Converted(str) == None
  {
    AtIs(str, 0, []);
    hide Escape, At;
    Steps(str, 0, [], []);
    ScanRound(str, At(str, 0, []));
    ConvertedFrom(str);
  }

  lemma AtIs(str: seq<byte>, at: nat, out: seq<byte>)
    requires IsAscii(str) && at <= |str|
    ensures At(str, at, out).chr == if at < |str| then str[at] else EOF
    ensures At(str, at, out).err.None? && At(str, at, out).out == out && At(str, at, out).at == at
    ensures InPlace(str, At(str, at, out))
  {
  }

  // ----- Classes and the dot -----

  predicate PlainList(t: seq<int>) {
    forall i :: 0 <= i < |t| ==> t[i] != 0x5C && t[i] != 0x2D
  }

  lemma {:induction false} ListsIsIn(t: seq<int>, c: int)
    requires PlainList(t)
    ensures Lists(t, c) <==> c in t
    decreases |t|
  {
    if t != [] { ListsIsIn(t[1..], c); }
  }

  // The text of a class, opened in one way or the other.
  lemma ClassMatches(open: seq<int>, t: seq<int>, c: int)
    requires (open == [0x5B] && t != [] && t[0] != 0x5E) || open == [0x5B, 0x5E]
    requires forall r :: r in t ==> IsCharacter(r)
    ensures |t| > 0 ==> (Matches(Runes(open + t + [0x5D]), c) <==> if |open| == 1 then Lists(t, c) else !Lists(t, c))
  {
    var all := open + t + [0x5D];
    CharactersOfRunes(all);
    hide Lists, Characters, Runes;
    assert all[|open|..|all| - 1] == t;
  }

  predicate IsWhiteSpace(c: int) {
    || c in {9, 10, 11, 12, 13, 0x20, 0xA0, 0x1680, 0x2028, 0x2029, 0x202F, 0x205F, 0x3000, 0xFEFF}
    || 0x2000 <= c <= 0x200A
  }

  lemma SpacesAre(c: int)
    ensures c in SPACES <==> IsWhiteSpace(c)
  {
    if 0x2000 <= c <= 0x200A { assert SPACES[8 + (c - 0x2000)] == c; }
  }

  // The empty class matches nothing, and its negation anything, up to U+1FFFF; above, it is the other way
  // round.
  lemma EmptyClassMeans(c: int)
    ensures Converted([0x5B, 0x5D]).Some? && (Matches(Converted([0x5B, 0x5D]).value, c) <==> !(0 <= c <= 0x1FFFF))
    ensures Converted([0x5B, 0x5E, 0x5D]).Some? && (Matches(Converted([0x5B, 0x5E, 0x5D]).value, c) <==> 0 <= c <= 0x1FFFF)
  {
    RangeLists(c);
    assert EMPTY_CLASS == [0x5B, 0x5E] + [0x00, 0x2D, 0x1FFFF] + [0x5D];
    assert FULL_CLASS == [0x5B] + [0x00, 0x2D, 0x1FFFF] + [0x5D];
    ClassMatches([0x5B, 0x5E], [0x00, 0x2D, 0x1FFFF], c);
    ClassMatches([0x5B], [0x00, 0x2D, 0x1FFFF], c);
    hide Matches, Lists, Runes;
    EmptyConverted();
    FullConverted();
  }

  lemma RangeLists(c: int)
    ensures Lists([0x00, 0x2D, 0x1FFFF], c) <==> 0 <= c <= 0x1FFFF
  {
    var t := [0x00, 0x2D, 0x1FFFF];
    assert t[1..] == [0x2D, 0x1FFFF] && t[1..][1..] == [0x1FFFF];
    assert [0x1FFFF][1..] == [];
  }

  lemma EmptyConverted()
    ensures Converted([0x5B, 0x5D]) == Some(NOTHING)
  {
    var str: seq<byte> := [0x5B, 0x5D];
    BracketConverted(str, NOTHING);
  }

  lemma FullConverted()
    ensures Converted([0x5B, 0x5E, 0x5D]) == Some(ANYTHING)
  {
    var str: seq<byte> := [0x5B, 0x5E, 0x5D];
    assert ([0x5B, 0x5D])[1] != str[1];
    BracketConverted(str, ANYTHING);
  }

  lemma BracketConverted(str: seq<byte>, text: seq<byte>)
    requires (str == [0x5B, 0x5D] && text == NOTHING) || (str == [0x5B, 0x5E, 0x5D] && text == ANYTHING && !([0x5B, 0x5D] <= str))
    ensures Converted(str) == Some(text)
  {
    var c := At(str, 0, []);
    BracketStarts();
    assert str[0..] == str && [] + text == text;
    assert Bracket(str, c) == At(str, |str|, text) by { hide BracketBody, Pass, Runes; }
    ScanRound(str, c);
    hide Bracket, Scan, Runes;
    StepsAtEnd(str, text, []);
    ConvertedFrom(str);
  }

  lemma BracketStarts()
    ensures Ascii("[]") == [0x5B, 0x5D] && Ascii("[^]") == [0x5B, 0x5E, 0x5D]
  {
  }

  // A dot matches all but the four line ends.
  lemma DotMeans(c: int)
    ensures Converted([0x2E]).Some?
    ensures Matches(Converted([0x2E]).value, c) <==> c !in {0x0A, 0x0D, 0x2028, 0x2029}
  {
    var ends := [0x0D, 0x0A, 0x2028, 0x2029];
    assert DOT_CLASS == [0x5B, 0x5E] + ends + [0x5D];
    ClassMatches([0x5B, 0x5E], ends, c);
    ListsIsIn(ends, c);
    hide Matches, Lists, Runes;
    DotConverted();
  }

  lemma DotConverted()
    ensures Converted([0x2E]) == Some(DOT)
  {
    hide Runes;
    var str: seq<byte> := [0x2E];
    Steps(str, 0, [], DOT);
    Steps(str, 0, DOT, []);
    assert [] + DOT == DOT;
    ScanRound(str, At(str, 0, []));
    hide Scan;
    StepsAtEnd(str, DOT, []);
    ConvertedFrom(str);
  }

  // White space as ECMA-262 has it, where RE2 has less: `\s`, `\S`, `[\s]` and `[^\s]`; `\S` in a class
  // cannot be written.
  lemma SpacesMean(c: int)
    ensures Converted([0x5C, 0x73]).Some? && (Matches(Converted([0x5C, 0x73]).value, c) <==> IsWhiteSpace(c))
    ensures Converted([0x5C, 0x53]).Some? && (Matches(Converted([0x5C, 0x53]).value, c) <==> !IsWhiteSpace(c))
    ensures Converted([0x5B, 0x5C, 0x73, 0x5D]).Some? && (Matches(Converted([0x5B, 0x5C, 0x73, 0x5D]).value, c) <==> IsWhiteSpace(c))
    ensures Converted([0x5B, 0x5E, 0x5C, 0x73, 0x5D]).Some?
    ensures Matches(Converted([0x5B, 0x5E, 0x5C, 0x73, 0x5D]).value, c) <==> !IsWhiteSpace(c)
    ensures Converted([0x5B, 0x5C, 0x53, 0x5D]).None? && Converted([0x5B, 0x5E, 0x5C, 0x53, 0x5D]).None?
  {
    hide *;
    SpacesClass([0x5B], c);
    SpacesClass([0x5B, 0x5E], c);
    assert IsAscii([0x5C, 0x73]) && IsAscii([0x5C, 0x53]) by { ThoseAreAscii(); }
    assert IsAscii([0x5B, 0x5C, 0x73, 0x5D]) && IsAscii([0x5B, 0x5E, 0x5C, 0x73, 0x5D]) by { ThoseAreAscii(); }
    SpacesConverted([0x5C, 0x73]);
    SpacesConverted([0x5C, 0x53]);
    var listed: seq<byte>, negated: seq<byte> := [0x5B, 0x5C, 0x73, 0x5D], [0x5B, 0x5E, 0x5C, 0x73, 0x5D];
    ListedSpaces(listed, 1);
    ListedSpaces(negated, 2);
    assert listed[..1] == [0x5B] && negated[..2] == [0x5B, 0x5E];
    NoNegatedSpaces([0x5B, 0x5C, 0x53, 0x5D]);
    NoNegatedSpaces([0x5B, 0x5E, 0x5C, 0x53, 0x5D]);
  }

  lemma ThoseAreAscii()
    ensures IsAscii([0x5C, 0x73]) && IsAscii([0x5C, 0x53])
    ensures IsAscii([0x5B, 0x5C, 0x73, 0x5D]) && IsAscii([0x5B, 0x5E, 0x5C, 0x73, 0x5D])
  {
  }

  lemma SpacesClass(open: seq<byte>, c: int)
    requires open == [0x5B] || open == [0x5B, 0x5E]
    ensures Matches(Class(open, WHITESPACE), c) <==> (IsWhiteSpace(c) <==> |open| == 1)
  {
    hide *;
    SpacesAre(c);
    SpacesPlain();
    SpacesEncoded();
    ListsIsIn(SPACES, c);
    ClassMatches(open, SPACES, c);
    SpacesText(open, SPACES);
  }

  lemma SpacesEncoded()
    ensures WHITESPACE == Runes(SPACES)
  {
    hide Runes;
  }

  lemma SpacesPlain()
    ensures PlainList(SPACES) && SPACES != [] && SPACES[0] == 0x20 && forall r :: r in SPACES ==> IsCharacter(r)
  {
  }

  lemma SpacesText(open: seq<byte>, list: seq<int>)
    requires open == [0x5B] || open == [0x5B, 0x5E]
    ensures Runes(open + list + [0x5D]) == Class(open, Runes(list))
  {
    var l: seq<int> := open;
    assert Runes(l) == open by {
      assert l[0] == 0x5B && (|l| == 2 ==> l[1..] == [0x5E] && Runes([0x5E]) == [0x5E]);
      assert |l| == 1 ==> l[1..] == [];
    }
    assert Runes([0x5D]) == [0x5D];
    hide Runes;
    RunesConcat(l + list, [0x5D]);
    RunesConcat(l, list);
  }

  lemma SpacesConverted(str: seq<byte>)
    requires IsAscii(str) && |str| == 2 && str[0] == 0x5C && str[1] in {0x73, 0x53}
    ensures Converted(str) == Some(Class(if str[1] == 0x73 then [0x5B] else [0x5B, 0x5E], WHITESPACE))
  {
    var text := Class(if str[1] == 0x73 then [0x5B] else [0x5B, 0x5E], WHITESPACE);
    hide *;
    AtIs(str, 1, []);
    EscapeRound(str, At(str, 1, []), false);
    WhitespaceAt(str, 1, [], false);
    assert [] + text == text;
    EscapeConverted(str, text);
  }

  lemma WhitespaceAt(str: seq<byte>, at: nat, out: seq<byte>, inClass: bool)
    requires IsAscii(str) && 0 < at < |str| && (str[at] == 0x73 || (str[at] == 0x53 && !inClass))
    ensures Whitespace(str, At(str, at, out), inClass) == At(str, at + 1, out + (
              if inClass then WHITESPACE else Class(if str[at] == 0x73 then [0x5B] else [0x5B, 0x5E], WHITESPACE)))
  {
    hide Class, At, IsAscii, Read, Put, Runes;
    AtIs(str, at, out);
    var text := WhitespaceText(str[at], inClass);
    Steps(str, at, out, text);
    Steps(str, at, out + text, []);
  }

  lemma ListedSpaces(str: seq<byte>, k: nat)
    requires IsAscii(str) && |str| == k + 3 && (k == 1 || k == 2) && str[0] == 0x5B && (k == 2 ==> str[1] == 0x5E)
    requires str[k] == 0x5C && str[k + 1] == 0x73 && str[k + 2] == 0x5D
    ensures Converted(str) == Some(Class(str[..k], WHITESPACE))
  {
    hide *;
    Opened(str, k);
    ListedFrom(str, k, str[..k]);
    Closed(str, str[..k] + WHITESPACE);
    ClassIs(str[..k], WHITESPACE);
  }

  lemma ClassIs(open: seq<byte>, characters: seq<byte>)
    ensures Class(open, characters) == open + characters + [0x5D]
  {
  }

  // From the backslash of a `\s` in a class to what follows.
  lemma ListedFrom(str: seq<byte>, k: nat, out: seq<byte>)
    requires IsAscii(str) && 0 < k < |str| - 2 && str[k] == 0x5C && str[k + 1] == 0x73
    ensures BracketBody(str, At(str, k, out)) == BracketBody(str, At(str, k + 2, out + WHITESPACE))
  {
    hide *;
    AtIs(str, k, out);
    AtIs(str, k + 1, out);
    assert At(str, k, out).chr == 0x5C;
    BodyRound(str, At(str, k, out));
    Steps(str, k, out, []);
    EscapeRound(str, At(str, k + 1, out), true);
    WhitespaceAt(str, k + 1, out, true);
  }

  // The bracket that closes a class ends the pattern.
  lemma Closed(str: seq<byte>, out: seq<byte>)
    requires IsAscii(str) && str != [] && str[|str| - 1] == 0x5D
    requires Scan(str, At(str, 0, [])) == Scan(str, BracketBody(str, At(str, |str| - 1, out)))
    ensures Converted(str) == Some(out + [0x5D])
  {
    AtIs(str, |str| - 1, out);
    AtIs(str, |str|, out + [0x5D]);
    hide At, Scan, BracketBody, Pass, IsAscii;
    BodyRound(str, At(str, |str| - 1, out));
    Steps(str, |str| - 1, out, []);
    StepsAtEnd(str, out + [0x5D], []);
    ConvertedFrom(str);
  }

  // The scanner is inside the brackets.
  lemma Opened(str: seq<byte>, k: nat)
    requires IsAscii(str) && |str| > k && (k == 1 || k == 2) && str[0] == 0x5B && (k == 2 ==> str[1] == 0x5E) && str[k] !in {0x5D, 0x5E}
    ensures Scan(str, At(str, 0, [])) == Scan(str, BracketBody(str, At(str, k, str[..k])))
  {
    AtIs(str, 0, []);
    Steps(str, 0, [], []);
    BracketOpens(str, k);
    assert [] + [str[0]] == str[..1];
    if k == 2 { Negated(str); }
    hide Bracket, BracketBody, Scan, Pass, At, IsAscii;
    ScanRound(str, At(str, 0, []));
  }

  lemma Negated(str: seq<byte>)
    requires IsAscii(str) && |str| > 1 && str[1] == 0x5E
    ensures BracketBody(str, At(str, 1, str[..1])) == BracketBody(str, At(str, 2, str[..2]))
  {
    AtIs(str, 1, str[..1]);
    hide At, BracketBody, Pass, IsAscii;
    BodyRound(str, At(str, 1, str[..1]));
    Steps(str, 1, str[..1], []);
    assert str[..1] + [str[1]] == str[..2];
  }

  lemma BracketOpens(str: seq<byte>, k: nat)
    requires IsAscii(str) && |str| > k && (k == 1 || k == 2) && str[0] == 0x5B && (k == 2 ==> str[1] == 0x5E) && str[k] !in {0x5D, 0x5E}
    ensures Bracket(str, At(str, 0, [])) == BracketBody(str, Pass(str, At(str, 0, [])))
  {
    BracketStarts();
    assert str[0..] == str;
    var empty, full: seq<byte> := [0x5B, 0x5D], [0x5B, 0x5E, 0x5D];
    assert !(empty <= str) by { assert empty[1] != str[1]; }
    assert !(full <= str) by { assert full[k] != str[k]; }
    hide BracketBody, Pass, Ascii, Runes;
  }

  lemma NoNegatedSpaces(str: seq<byte>)
    requires str == [0x5B, 0x5C, 0x53, 0x5D] || str == [0x5B, 0x5E, 0x5C, 0x53, 0x5D]
    ensures Converted(str) == None
  {
    var k := |str| - 3;
    assert IsAscii(str) && str[k] == 0x5C && str[k + 1] == 0x53;
    Opened(str, k);
    AtIs(str, k, str[..k]);
    AtIs(str, k + 1, str[..k]);
    hide At, Escape, Runes, IsAscii, Read;
    BodyRound(str, At(str, k, str[..k]));
    Steps(str, k, str[..k], []);
    EscapeRound(str, At(str, k + 1, str[..k]), true);
    var d := Escape(str, At(str, k + 1, str[..k]), true);
    assert d.err.Some? && d.chr == EOF by { hide Converted, Scan, BracketBody; }
    StuckAtFailure(str, d);
    hide Scan, BracketBody;
    ConvertedFrom(str);
  }

  lemma StuckAtFailure(str: seq<byte>, d: Cursor)
    requires InPlace(str, d) && d.err.Some?
    ensures Scan(str, BracketBody(str, d)).err.Some?
  {
  }

  // ----- Numbers in escapes -----

  lemma EscapeMatches(text: seq<byte>, c: int)
    requires IsAscii(text) && text != [] && text[0] == 0x5C
    ensures Matches(text, c) <==> EscapeValue(text) == Some(c)
  {
    CharactersOfAscii(text);
    hide Lists, Characters, EscapeValue;
  }

  lemma {:induction false} HexNatLength(v: nat)
    ensures |HexNat(v)| >= (if v < 16 then 1 else if v < 256 then 2 else 3)
    ensures forall i :: 0 <= i < |HexNat(v)| ==> HexNat(v)[i] < 0x80 && HexNat(v)[i] != 0x7B
  {
    if v >= 16 { HexNatLength(v / 16); }
  }

  // The two digits written for a small number are read back; a longer number is not read at all.
  lemma HexEscapeMatches(v: int, c: int)
    ensures Matches(HexEscape(v), c) <==> c == v && 0 <= v < 256
  {
    var text := HexEscape(v);
    HexEscapeIs(v);
    hide HexEscape, Matches, HexNat, HexDigit;
    EscapeMatches(text, c);
    if 0 <= v < 256 {
      TwoDigits(v);
    } else {
      assert text[..3] != [0x5C, 0x78, 0x7B] by { assert text[2] != 0x7B; }
    }
  }

  lemma HexEscapeIs(v: int)
    ensures var text := HexEscape(v);
            && IsAscii(text) && |text| > 2 && text[0] == 0x5C && text[..2] == [0x5C, 0x78]
            && (if 0 <= v < 256 then |text| == 4 && text[2..] == [HexDigit(v / 16), HexDigit(v % 16)] else |text| > 4 && text[2] != 0x7B)
  {
    HexNatLength(if v < 0 then -v else v);
    assert Ascii("\\x") == [0x5C, 0x78] && Ascii("\\x0") == [0x5C, 0x78, 0x30] && Ascii("-") == [0x2D];
    if 0 <= v < 256 { TwoDigits(v); }
  }

  lemma TwoDigits(v: nat)
    requires v < 256
    ensures HexNat(v) == if v < 16 then [HexDigit(v)] else [HexDigit(v / 16), HexDigit(v % 16)]
    ensures HexDigit(0) == 0x30 && Number([HexDigit(v / 16), HexDigit(v % 16)], 16) == Some(v)
  {
    var x, y := v / 16, v % 16;
    assert v == x * 16 + y;
    HexNatIs(x, y);
    hide HexNat, HexDigit, DigitOf, Number;
    DigitIsRead(x);
    DigitIsRead(y);
    PairIsRead(HexDigit(x), HexDigit(y), x, y);
  }

  lemma HexNatIs(x: nat, y: nat)
    requires x < 16 && y < 16
    ensures HexNat(x * 16 + y) == if x == 0 then [HexDigit(y)] else [HexDigit(x), HexDigit(y)]
    ensures HexDigit(0) == 0x30
  {
    assert (x * 16 + y) / 16 == x && (x * 16 + y) % 16 == y;
    assert HexNat(x) == [HexDigit(x)];
  }

  lemma DigitIsRead(d: nat)
    requires d < 16
    ensures DigitOf(HexDigit(d)) == Some(d)
  {
  }

  lemma PairIsRead(a: int, b: int, x: nat, y: nat)
    requires DigitOf(a) == Some(x) && DigitOf(b) == Some(y) && x < 16 && y < 16
    ensures Number([a, b], 16) == Some(x * 16 + y)
  {
    hide DigitOf;
    var one: seq<int> := [a];
    assert [a, b][..1] == one && one[..0] == [];
    assert Number(one, 16) == Some(x);
  }

  // `\cX` is the letter modulo 32.
  lemma ControlMeans(x: byte, c: int)
    requires 0x41 <= x <= 0x5A || 0x61 <= x <= 0x7A
    ensures Converted([0x5C, 0x63, x]).Some?
    ensures Matches(Converted([0x5C, 0x63, x]).value, c) <==> c == x % 32
  {
    assert IsAscii([0x5C, 0x63, x]);
    hide *;
    HexEscapeMatches(x % 32, c);
    ControlConverted([0x5C, 0x63, x]);
  }

  lemma ControlConverted(str: seq<byte>)
    requires IsAscii(str) && |str| == 3 && str[0] == 0x5C && str[1] == 0x63 && (0x41 <= str[2] <= 0x5A || 0x61 <= str[2] <= 0x7A)
    ensures Converted(str) == Some(HexEscape(str[2] % 32))
  {
    var text := HexEscape(str[2] % 32);
    ControlAt(str, text);
    hide *;
    AtIs(str, 1, []);
    Steps(str, 1, [], []);
    EscapeRound(str, At(str, 1, []), false);
    EscapeConverted(str, text);
  }

  lemma ControlAt(str: seq<byte>, text: seq<byte>)
    requires IsAscii(str) && |str| == 3 && (0x41 <= str[2] <= 0x5A || 0x61 <= str[2] <= 0x7A) && text == HexEscape(str[2] % 32)
    ensures Control(str, At(str, 2, [])) == At(str, 3, text)
  {
    AtIs(str, 2, []);
    hide At, IsAscii, Read, Put, HexEscape;
    Steps(str, 2, [], text);
    Steps(str, 2, text, []);
    assert [] + text == text;
  }

  // `\b` in a class is the backspace.
  lemma BackspaceMeans(c: int)
    ensures Converted([0x5B, 0x5C, 0x62, 0x5D]).Some?
    ensures Matches(Converted([0x5B, 0x5C, 0x62, 0x5D]).value, c) <==> c == 8
  {
    assert IsAscii([0x5B, 0x5C, 0x62, 0x5D]);
    hide *;
    ListedBackspace(c);
    BackspaceConverted([0x5B, 0x5C, 0x62, 0x5D]);
  }

  lemma BackspaceConverted(str: seq<byte>)
    requires IsAscii(str) && |str| == 4 && str[0] == 0x5B && str[1] == 0x5C && str[2] == 0x62 && str[3] == 0x5D
    ensures Converted(str) == Some([0x5B, 0x5C, 0x78, 0x30, 0x38, 0x5D])
  {
    hide *;
    Opened(str, 1);
    BackspaceAt(str, str[..1]);
    Closed(str, str[..1] + [0x5C, 0x78, 0x30, 0x38]);
    assert str[..1] + [0x5C, 0x78, 0x30, 0x38] + [0x5D] == [0x5B, 0x5C, 0x78, 0x30, 0x38, 0x5D];
  }

  lemma BackspaceAt(str: seq<byte>, out: seq<byte>)
    requires IsAscii(str) && |str| == 4 && str[1] == 0x5C && str[2] == 0x62
    ensures BracketBody(str, At(str, 1, out)) == BracketBody(str, At(str, 3, out + [0x5C, 0x78, 0x30, 0x38]))
  {
    assert Ascii("\\x08") == [0x5C, 0x78, 0x30, 0x38];
    hide *;
    AtIs(str, 1, out);
    AtIs(str, 2, out);
    BodyRound(str, At(str, 1, out));
    Steps(str, 1, out, []);
    EscapeRound(str, At(str, 2, out), true);
    Steps(str, 2, out, [0x5C, 0x78, 0x30, 0x38]);
    Steps(str, 2, out + [0x5C, 0x78, 0x30, 0x38], []);
  }

  lemma ListedBackspace(c: int)
    ensures Matches([0x5B, 0x5C, 0x78, 0x30, 0x38, 0x5D], c) <==> c == 8
  {
    var text: seq<byte> := [0x5B, 0x5C, 0x78, 0x30, 0x38, 0x5D];
    CharactersOfAscii(text);
    hide Characters;
    var t: seq<int> := [0x5C, 0x78, 0x30, 0x38];
    assert text[1..|text| - 1] == t && t[..4] == t && t[4..] == [];
    assert Number(t[2..], 16) == Some(8) by {
      assert t[2..] == [0x30, 0x38] && [0x30, 0x38][..1] == [0x30] && [0x30][..0] == [];
      assert Number([0x30], 16) == Some(0);
    }
    assert t[..2] == [0x5C, 0x78];
    hide Number;
    assert First(t) == Some((8, 4));
    assert Lists(t, c) <==> c == 8;
  }

  // ----- Octal and hexadecimal escapes -----

  predicate Digits(ds: seq<int>, base: nat) {
    forall i :: 0 <= i < |ds| ==> DigitOf(ds[i]).Some? && DigitOf(ds[i]).value < base
  }

  lemma DigitAgrees(b: int)
    ensures if DigitOf(b).Some? then DigitValue(b) == DigitOf(b).value < 16 else DigitValue(b) == 16
  {
  }

  lemma {:induction false} DigitsAreNumber(ds: seq<int>, base: nat)
    requires Digits(ds, base)
    ensures Number(ds, base).Some?
  {
    if ds != [] {
      DigitsAreNumber(ds[..|ds| - 1], base);
      hide DigitOf;
    }
  }

  lemma NextDigit(ds: seq<int>, n: nat, base: nat)
    requires n < |ds| && Number(ds[..n], base).Some? && DigitOf(ds[n]).Some? && DigitOf(ds[n]).value < base
    ensures Number(ds[..n + 1], base) == Some(Number(ds[..n], base).value * base + DigitOf(ds[n]).value)
  {
    assert ds[..n + 1][..n] == ds[..n];
    hide DigitOf;
  }

  lemma WrapStep(v: int, d: int)
    ensures Wrap64(Wrap64(v) * 8 + d) == Wrap64(v * 8 + d)
  {
    var q := (v + 0x8000_0000_0000_0000) / 0x1_0000_0000_0000_0000;
    assert Wrap64(v) == v - q * 0x1_0000_0000_0000_0000;
    assert Wrap64(v) * 8 + d == v * 8 + d - 8 * q * 0x1_0000_0000_0000_0000;
    WrapShift(v * 8 + d, 8 * q);
  }

  lemma WrapShift(x: int, k: int)
    ensures Wrap64(x - k * 0x1_0000_0000_0000_0000) == Wrap64(x)
  {
  }

  lemma WrapSmall()
    ensures forall v :: 0 <= v < 256 ==> Wrap64(v) == v
  {
  }

  lemma OctalsRound(str: seq<byte>, at: nat, value: int, size: nat)
    requires IsAscii(str) && at <= |str|
    ensures at == |str| ==> Octals(str, At(str, at, []), value, size) == (At(str, at, []), value, size)
    ensures at < |str| && DigitOf(str[at]).Some? && DigitOf(str[at]).value < 8 ==>
              Octals(str, At(str, at, []), value, size) ==
              Octals(str, At(str, at + 1, []), Wrap64(value * 8 + DigitOf(str[at]).value), size + 1)
  {
    AtIs(str, at, []);
    if at < |str| {
      DigitAgrees(str[at]);
      Steps(str, at, [], []);
    }
    hide At, IsAscii, Wrap64, DigitOf, Read;
  }

  // All octal digits that follow are taken together, in 64 bits.
  lemma {:induction false} OctalsRead(str: seq<byte>, n: nat, ds: seq<int>)
    requires IsAscii(str) && |str| > n && |ds| == |str| - 1 && ds == str[1..] && Digits(ds, 8)
    ensures Number(ds[..n], 8).Some? && Number(ds, 8).Some?
    ensures Octals(str, At(str, n + 1, []), Wrap64(Number(ds[..n], 8).value), n) ==
            (At(str, |str|, []), Wrap64(Number(ds, 8).value), |ds|)
    decreases |str| - n
  {
    hide *;
    if n == |ds| {
      assert ds[..n] == ds;
      DigitsAreNumber(ds, 8);
      OctalsRound(str, |str|, Wrap64(Number(ds, 8).value), n);
    } else {
      PrefixIsNumber(ds, n);
      var d := DigitOf(ds[n]).value;
      OctalStep(str, n + 1, Number(ds[..n], 8).value, d, n);
      OctalsRead(str, n + 1, ds);
    }
  }

  lemma PrefixIsNumber(ds: seq<int>, n: nat)
    requires n < |ds| && Digits(ds, 8)
    ensures Number(ds[..n], 8).Some? && DigitOf(ds[n]).Some? && DigitOf(ds[n]).value < 8
    ensures Number(ds[..n + 1], 8) == Some(Number(ds[..n], 8).value * 8 + DigitOf(ds[n]).value)
  {
    DigitsAreNumber(ds[..n], 8);
    hide Number;
    NextDigit(ds, n, 8);
  }

  lemma OctalStep(str: seq<byte>, at: nat, v: nat, d: nat, size: nat)
    requires IsAscii(str) && at < |str| && d < 8 && DigitOf(str[at]) == Some(d)
    ensures Octals(str, At(str, at, []), Wrap64(v), size) == Octals(str, At(str, at + 1, []), Wrap64(v * 8 + d), size + 1)
  {
    hide *;
    OctalsRound(str, at, Wrap64(v), size);
    WrapStep(v, d);
  }

  // Two and more octal digits are the character of that number if and only if it is below 256: from there on
  // the hexadecimal digits written are too many for RE2 to read them all.
  lemma OctalMeans(ds: seq<byte>, c: int)
    requires |ds| >= 2 && Digits(ds, 8)
    ensures Converted([0x5C] + ds).Some? && Number(ds, 8).Some?
    ensures var v := Number(ds, 8).value;
            && (Matches(Converted([0x5C] + ds).value, v) <==> v < 256)
            && (v < 256 ==> (Matches(Converted([0x5C] + ds).value, c) <==> c == v))
  {
    DigitsAreNumber(ds, 8);
    var str, v := [0x5C] + ds, Number(ds, 8).value;
    DigitsAreAscii(ds, 8);
    assert str[1..] == ds && str[0] == 0x5C && IsAscii(str);
    hide *;
    WrapSmall();
    OctalConverted(str, ds);
    HexEscapeMatches(Wrap64(v), c);
    HexEscapeMatches(Wrap64(v), v);
  }

  lemma DigitsAreAscii(ds: seq<byte>, base: nat)
    requires Digits(ds, base)
    ensures IsAscii(ds)
  {
  }

  lemma OctalConverted(str: seq<byte>, ds: seq<int>)
    requires IsAscii(str) && |str| >= 3 && str[0] == 0x5C && ds == str[1..] && Digits(ds, 8)
    ensures Number(ds, 8).Some? && Converted(str) == Some(HexEscape(Wrap64(Number(ds, 8).value)))
  {
    AtIs(str, 1, []);
    OctalsRead(str, 0, ds);
    assert ds[..0] == [] && Number([], 8) == Some(0) && Wrap64(0) == 0;
    assert ds[0] == str[1];
    var text := HexEscape(Wrap64(Number(ds, 8).value));
    assert [] + text == text;
    StepsAtEnd(str, [], text);
    assert 0x30 <= str[1] <= 0x37;
    hide Number, At, Octals, HexEscape, Escape, Converted, IsAscii, Put, Scan, DigitOf, Digits, Wrap64;
    EscapeRound(str, At(str, 1, []), false);
    assert Octal(str, At(str, 1, [])) == At(str, |str|, text);
    hide Octal;
    EscapeConverted(str, text);
  }

  // One digit: `\0` is the character 0, the others would be references to groups.
  lemma DigitMeans(d: byte, c: int)
    requires 0x30 <= d <= 0x39
    ensures Converted([0x5C, d]).Some? <==> d == 0x30
    ensures d == 0x30 ==> (Matches(Converted([0x5C, d]).value, c) <==> c == 0)
  {
    assert IsAscii([0x5C, d]);
    hide Converted, Matches;
    DigitConverted([0x5C, d]);
    if d == 0x30 { EscapeMatches([0x5C, d], c); }
  }

  lemma DigitConverted(str: seq<byte>)
    requires IsAscii(str) && |str| == 2 && str[0] == 0x5C && 0x30 <= str[1] <= 0x39
    ensures Converted(str) == if str[1] == 0x30 then Some(str) else None
  {
    hide *;
    AtIs(str, 1, []);
    EscapeRound(str, At(str, 1, []), false);
    if str[1] >= 0x38 {
      Steps(str, 1, [], []);
      AtIs(str, 2, []);
      Failed(str, At(str, 2, []));
      EscapeFails(str);
    } else {
      OctalDigit(str);
      if str[1] == 0x30 { EscapeConverted(str, str); } else { EscapeFails(str); }
    }
  }

  lemma Failed(str: seq<byte>, c: Cursor)
    requires c.err.None?
    ensures Fail(str, c, Unsupported).err.Some? && Fail(str, c, Unsupported).chr == EOF
  {
  }

  lemma OctalDigit(str: seq<byte>)
    requires IsAscii(str) && |str| == 2 && 0x30 <= str[1] <= 0x37
    ensures var d := Octal(str, At(str, 1, [])); if str[1] == 0x30 then d == At(str, 2, str) else d.err.Some? && d.chr == EOF
  {
    OneOctal(str);
    AtIs(str, 1, []);
    AtIs(str, 2, []);
    StepsAtEnd(str, [], str);
    assert str[0..2] == str && [] + str == str;
    hide Octals, At, IsAscii, Put;
  }

  lemma OneOctal(str: seq<byte>)
    requires IsAscii(str) && |str| == 2 && 0x30 <= str[1] <= 0x37
    ensures Octals(str, At(str, 1, []), 0, 0) == (At(str, 2, []), str[1] - 0x30, 1)
  {
    var ds: seq<int> := str[1..];
    assert ds == [str[1]] && ds[..0] == [];
    assert DigitOf(ds[0]) == Some(str[1] - 0x30);
    assert Number([], 8) == Some(0) && Wrap64(0) == 0;
    NextDigit(ds, 0, 8);
    assert ds[..1] == ds;
    OctalsRead(str, 0, ds);
    hide Octals, At;
  }

  lemma HexesRound(str: seq<byte>, at: nat, n: nat, d: nat)
    requires IsAscii(str) && at < |str| && n > 0 && DigitOf(str[at]) == Some(d)
    ensures Hexes(str, At(str, at, []), n) == Hexes(str, At(str, at + 1, []), n - 1)
    ensures HexesInBraces(str, At(str, at, [])) == HexesInBraces(str, At(str, at + 1, []))
  {
    AtIs(str, at, []);
    DigitAgrees(str[at]);
    assert str[at] != 0x7D;
    Steps(str, at, [], []);
    hide At, IsAscii, DigitOf, Read, DigitValue;
  }

  // All the digits are there.
  lemma {:induction false} HexesRead(str: seq<byte>, at: nat, end: nat)
    requires IsAscii(str) && at <= end <= |str| && forall i :: at <= i < end ==> DigitOf(str[i]).Some?
    ensures Hexes(str, At(str, at, []), end - at) == (At(str, end, []), true)
    ensures end < |str| && str[end] == 0x7D ==> HexesInBraces(str, At(str, at, [])) == (At(str, end, []), true)
    decreases end - at
  {
    hide *;
    if at == end {
      NoMoreHexes(str, at);
    } else {
      HexesRound(str, at, end - at, DigitOf(str[at]).value);
      HexesRead(str, at + 1, end);
    }
  }

  lemma NoMoreHexes(str: seq<byte>, at: nat)
    requires IsAscii(str) && at <= |str|
    ensures Hexes(str, At(str, at, []), 0) == (At(str, at, []), true)
    ensures at < |str| && str[at] == 0x7D ==> HexesInBraces(str, At(str, at, [])) == (At(str, at, []), true)
  {
    AtIs(str, at, []);
    hide At, IsAscii, Read, DigitValue;
  }

  lemma DigitsAt(str: seq<byte>, at: nat, end: nat)
    requires at <= end <= |str| && Digits(str[at..end], 16)
    ensures forall i :: at <= i < end ==> DigitOf(str[i]).Some?
  {
    var ds := str[at..end];
    assert forall i :: at <= i < end ==> str[i] == ds[i - at];
  }

  // What stands for the number of some hexadecimal digits: `\xHH`, `\x{H..}`.
  lemma HexMatches(ds: seq<byte>, c: int)
    requires ds != [] && Digits(ds, 16)
    ensures Number(ds, 16).Some?
    ensures |ds| == 2 ==> (Matches([0x5C, 0x78] + ds, c) <==> Number(ds, 16) == Some(c))
    ensures Matches([0x5C, 0x78, 0x7B] + ds + [0x7D], c) <==> Number(ds, 16) == Some(c)
  {
    DigitsAreNumber(ds, 16);
    DigitsAreAscii(ds, 16);
    hide *;
    if |ds| == 2 { PairMatches([0x5C, 0x78] + ds, ds, c); }
    BracedMatches([0x5C, 0x78, 0x7B] + ds + [0x7D], ds, c);
  }

  lemma PairMatches(text: seq<byte>, ds: seq<byte>, c: int)
    requires IsAscii(ds) && |ds| == 2 && text == [0x5C, 0x78] + ds
    ensures Matches(text, c) <==> Number(ds, 16) == Some(c)
  {
    assert IsAscii(text) && text[0] == 0x5C;
    hide Matches, Number, IsAscii;
    assert text[..2] == [0x5C, 0x78] && text[2..] == ds;
    EscapeMatches(text, c);
  }

  lemma BracedMatches(text: seq<byte>, ds: seq<byte>, c: int)
    requires IsAscii(ds) && |ds| > 0 && text == [0x5C, 0x78, 0x7B] + ds + [0x7D]
    ensures Matches(text, c) <==> Number(ds, 16) == Some(c)
  {
    assert IsAscii(text) && text[0] == 0x5C by { Around([0x5C, 0x78, 0x7B], ds, [0x7D]); }
    assert text[..3] == [0x5C, 0x78, 0x7B] && text[3..|text| - 1] == ds && text[|text| - 1] == 0x7D;
    hide Matches, Number, IsAscii, EscapeValue;
    EscapeMatches(text, c);
    BracedValue(text);
  }

  lemma Around(a: seq<byte>, b: seq<byte>, c: seq<byte>)
    requires IsAscii(a) && IsAscii(b) && IsAscii(c)
    ensures IsAscii(a + b + c)
  {
  }

  lemma BracedValue(t: seq<int>)
    requires |t| > 4 && t[..3] == [0x5C, 0x78, 0x7B] && t[|t| - 1] == 0x7D
    ensures EscapeValue(t) == Number(t[3..|t| - 1], 16)
  {
    hide Number;
  }

  // `\xHH`, `\uHHHH` and `\u{H..}` are the character of that number.
  lemma HexMeans(ds: seq<byte>, c: int)
    requires ds != [] && Digits(ds, 16)
    ensures Number(ds, 16).Some?
    ensures |ds| == 2 ==> Converted([0x5C, 0x78] + ds).Some? && (Matches(Converted([0x5C, 0x78] + ds).value, c) <==> c == Number(ds, 16).value)
    ensures |ds| == 4 ==> Converted([0x5C, 0x75] + ds).Some? && (Matches(Converted([0x5C, 0x75] + ds).value, c) <==> c == Number(ds, 16).value)
    ensures Converted([0x5C, 0x75, 0x7B] + ds + [0x7D]).Some?
    ensures Matches(Converted([0x5C, 0x75, 0x7B] + ds + [0x7D]).value, c) <==> c == Number(ds, 16).value
  {
    HexMatches(ds, c);
    HexesConverted(ds);
    hide *;
  }

  lemma HexesConverted(ds: seq<byte>)
    requires ds != [] && Digits(ds, 16)
    ensures |ds| == 2 ==> Converted([0x5C, 0x78] + ds) == Some([0x5C, 0x78] + ds)
    ensures |ds| == 4 ==> Converted([0x5C, 0x75] + ds) == Some([0x5C, 0x78, 0x7B] + ds + [0x7D])
    ensures Converted([0x5C, 0x75, 0x7B] + ds + [0x7D]) == Some([0x5C, 0x78, 0x7B] + ds + [0x7D])
  {
    DigitsAreAscii(ds, 16);
    var x, u, braced := [0x5C, 0x78] + ds, [0x5C, 0x75] + ds, [0x5C, 0x75, 0x7B] + ds + [0x7D];
    assert IsAscii(x) && IsAscii(u) && IsAscii(braced);
    assert x[2..] == ds && u[2..] == ds && braced[3..|braced| - 1] == ds;
    assert braced[|braced| - 1] == 0x7D && |braced| == |ds| + 4;
    assert DigitOf(ds[0]).Some? && u[2] == ds[0] != 0x7B;
    hide *;
    if |ds| == 2 { PairConverted(x); }
    if |ds| == 4 { UnicodeConverted(u); }
    BracedConverted(braced);
  }

  lemma PairConverted(str: seq<byte>)
    requires IsAscii(str) && |str| == 4 && str[0] == 0x5C && str[1] == 0x78 && Digits(str[2..], 16)
    ensures Converted(str) == Some(str)
  {
    assert str[2..4] == str[2..] && str[0..4] == str && [] + str == str;
    DigitsAt(str, 2, 4);
    HexesRead(str, 2, 4);
    AtIs(str, 1, []);
    AtIs(str, 2, []);
    AtIs(str, 4, []);
    hide At, IsAscii, Hexes, Digits, Escape, Converted, HexesInBraces, Put, Read;
    Steps(str, 1, [], []);
    EscapeRound(str, At(str, 1, []), false);
    StepsAtEnd(str, [], str);
    assert CodePoint(str, At(str, 2, []), 1, 2) == At(str, 4, str);
    hide CodePoint;
    EscapeConverted(str, str);
  }

  lemma UnicodeConverted(str: seq<byte>)
    requires IsAscii(str) && |str| == 6 && str[0] == 0x5C && str[1] == 0x75 && Digits(str[2..], 16) && str[2] != 0x7B
    ensures Converted(str) == Some([0x5C, 0x78, 0x7B] + str[2..] + [0x7D])
  {
    var open: seq<byte> := [0x5C, 0x78, 0x7B];
    assert str[2..6] == str[2..] && [] + open == open;
    assert Ascii("\\x{") == open && Ascii("}") == [0x7D];
    DigitsAt(str, 2, 6);
    HexesRead(str, 2, 6);
    AtIs(str, 1, []);
    AtIs(str, 2, []);
    AtIs(str, 6, []);
    hide At, IsAscii, Hexes, Digits, Escape, Converted, HexesInBraces, Put, Read, Ascii;
    Steps(str, 1, [], []);
    EscapeRound(str, At(str, 1, []), false);
    StepsAtEnd(str, [], open);
    StepsAtEnd(str, open, str[2..6]);
    StepsAtEnd(str, open + str[2..6], [0x7D]);
    assert CodePoint(str, At(str, 2, []), 1, 4) == At(str, 6, open + str[2..6] + [0x7D]);
    hide CodePoint;
    EscapeConverted(str, open + str[2..6] + [0x7D]);
  }

  lemma BracedConverted(str: seq<byte>)
    requires IsAscii(str) && |str| >= 5 && str[0] == 0x5C && str[1] == 0x75 && str[2] == 0x7B && str[|str| - 1] == 0x7D
    requires Digits(str[3..|str| - 1], 16)
    ensures Converted(str) == Some([0x5C, 0x78, 0x7B] + str[3..|str| - 1] + [0x7D])
  {
    var open: seq<byte>, ds, n := [0x5C, 0x78, 0x7B], str[3..|str| - 1], |str| - 1;
    assert [] + open == open;
    assert Ascii("\\x{") == open;
    DigitsAt(str, 3, n);
    HexesRead(str, 3, n);
    AtIs(str, 0, []);
    AtIs(str, 1, []);
    AtIs(str, 2, []);
    AtIs(str, 3, []);
    AtIs(str, n, []);
    AtIs(str, n, open + ds);
    AtIs(str, n + 1, open + ds + [0x7D]);
    hide At, IsAscii, Hexes, Digits, Escape, Converted, HexesInBraces, Put, Read, Ascii, Pass, Scan;
    Steps(str, 0, [], []);
    Steps(str, 1, [], []);
    Steps(str, 2, [], []);
    EscapeRound(str, At(str, 1, []), false);
    Steps(str, n, [], open);
    Steps(str, n, open, ds);
    Steps(str, n, open + ds, []);
    assert open + ds + [] == open + ds;
    assert CodePoint(str, At(str, 3, []), 1, 0) == At(str, n, open + ds);
    hide CodePoint;
    ScanRound(str, At(str, 0, []));
    ScanRound(str, At(str, n, open + ds));
    StepsAtEnd(str, open + ds + [0x7D], []);
    ConvertedFrom(str);
  }

  // ----- What stays as it is, and what cannot be written -----

  // The letters RE2 reads like ECMA-262, and all signs.
  predicate KeepsBackslash(x: int) {
    if IsLetterOrDigit(x) then x in {0x42, 0x44, 0x57, 0x62, 0x64, 0x66, 0x6E, 0x72, 0x74, 0x76, 0x77} else x != 0x5F
  }

  // Those that mean nothing after a backslash.
  predicate LosesBackslash(x: int) {
    || x == 0x5F
    || (0x41 <= x <= 0x5A && x !in {0x42, 0x44, 0x50, 0x53, 0x57})
    || (0x61 <= x <= 0x7A && x !in {0x62, 0x63, 0x64, 0x66, 0x6E, 0x70, 0x72, 0x73, 0x74, 0x75, 0x76, 0x77, 0x78})
  }

  predicate IsLetterOrDigit(x: int) {
    0x30 <= x <= 0x39 || 0x41 <= x <= 0x5A || 0x61 <= x <= 0x7A
  }

  // Every escape of one ASCII character without digits, white space or property behind it.
  lemma LetterMeans(x: byte)
    requires x < 0x80
    ensures KeepsBackslash(x) ==> Converted([0x5C, x]) == Some([0x5C, x])
    ensures LosesBackslash(x) ==> Converted([0x5C, x]) == Some([x])
  {
    assert IsAscii([0x5C, x]);
    hide Converted, KeepsBackslash, LosesBackslash;
    LetterConverted([0x5C, x]);
  }

  lemma LetterConverted(str: seq<byte>)
    requires IsAscii(str) && |str| == 2 && str[0] == 0x5C
    ensures KeepsBackslash(str[1]) ==> Converted(str) == Some(str)
    ensures LosesBackslash(str[1]) ==> Converted(str) == Some([str[1]])
  {
    AtIs(str, 1, []);
    EscapeRound(str, At(str, 1, []), false);
    VerbatimAt(str);
    Steps(str, 1, [], []);
    assert [] + [str[1]] == [str[1]];
    hide At, IsAscii, Escape, Converted, Verbatim, Pass;
    if KeepsBackslash(str[1]) { EscapeConverted(str, str); }
    if LosesBackslash(str[1]) { EscapeConverted(str, [str[1]]); }
  }

  lemma VerbatimAt(str: seq<byte>)
    requires IsAscii(str) && |str| == 2
    ensures Verbatim(str, At(str, 1, [])) == At(str, 2, str)
  {
    assert str[0..2] == str && [] + str == str;
    Steps(str, 1, [], str);
    Steps(str, 1, str, []);
    hide IsAscii, Read;
  }

  // Groups that look ahead or behind, and parentheses that close nothing, fail whatever follows.
  lemma GroupFails(x: byte, rest: seq<byte>)
    requires IsAscii(rest) && x in {0x3D, 0x21, 0x3C}
    ensures Converted([0x28, 0x3F, x] + rest) == None
    ensures Converted([0x29] + rest) == None
  {
    var str, other := [0x28, 0x3F, x] + rest, [0x29] + rest;
    assert IsAscii(str) && IsAscii(other);
    hide *;
    LookaroundFails(str);
    ClosingFails(other);
  }

  lemma LookaroundFails(str: seq<byte>)
    requires IsAscii(str) && |str| >= 3 && str[0] == 0x28 && str[1] == 0x3F && str[2] in {0x3D, 0x21, 0x3C}
    ensures Converted(str) == None
  {
    var c := At(str, 0, []);
    AtIs(str, 0, []);
    Steps(str, 0, [], []);
    var d := At(str, 1, [] + [str[0]]);
    AtIs(str, 1, [] + [str[0]]);
    hide At, IsAscii, Converted, Escape, Bracket, GroupBody, Read, Pass;
    var e := Group(str, d);
    assert e.err.Some? && e.chr == EOF;
    hide Group;
    assert Scan(str, c) == Scan(str, e);
    assert Scan(str, e) == e;
    hide Scan;
    ConvertedFrom(str);
  }

  lemma ClosingFails(str: seq<byte>)
    requires IsAscii(str) && str != [] && str[0] == 0x29
    ensures Converted(str) == None
  {
    AtIs(str, 0, []);
    hide At, IsAscii, Converted, Escape, Bracket, Group, Read, Pass;
    assert Scan(str, At(str, 0, [])).err.Some?;
    hide Scan;
    ConvertedFrom(str);
  }

  // ----- Classes and properties that are kept -----

  lemma {:induction false} BodyKept(str: seq<byte>, at: nat, end: nat)
    requires IsAscii(str) && at <= end < |str| && forall i :: at <= i < end ==> str[i] != 0x5C && str[i] != 0x5D
    ensures BracketBody(str, At(str, at, str[..at])) == BracketBody(str, At(str, end, str[..end]))
    decreases end - at
  {
    hide *;
    if at < end {
      AtIs(str, at, str[..at]);
      BodyRound(str, At(str, at, str[..at]));
      Steps(str, at, str[..at], []);
      assert str[..at] + [str[at]] == str[..at + 1];
      BodyKept(str, at + 1, end);
    }
  }

  // A class without escapes stays as it is, unless it is one of the two that RE2 does not have.
  lemma ClassIsKept(body: seq<byte>)
    requires IsAscii(body) && body != [] && body != [0x5E] && forall i :: 0 <= i < |body| ==> body[i] != 0x5C && body[i] != 0x5D
    ensures Converted([0x5B] + body + [0x5D]) == Some([0x5B] + body + [0x5D])
  {
    var str: seq<byte> := [0x5B] + body + [0x5D];
    Around([0x5B], body, [0x5D]);
    assert str[0] == 0x5B && str[1] == body[0] && (forall i :: 1 <= i <= |body| ==> str[i] == body[i - 1]);
    var k := if str[1] == 0x5E then 2 else 1;
    hide *;
    if k == 1 { Opened(str, 1); } else { OpenedNegated(str); }
    BodyKept(str, k, |str| - 1);
    Closed(str, str[..|str| - 1]);
    assert str[..|str| - 1] + [0x5D] == str;
  }

  lemma OpenedNegated(str: seq<byte>)
    requires IsAscii(str) && |str| > 3 && str[0] == 0x5B && str[1] == 0x5E && str[2] != 0x5D
    ensures Scan(str, At(str, 0, [])) == Scan(str, BracketBody(str, At(str, 2, str[..2])))
  {
    AtIs(str, 0, []);
    Steps(str, 0, [], []);
    NegatedOpens(str);
    assert [] + [str[0]] == str[..1];
    Negated(str);
    hide Bracket, BracketBody, Scan, Pass, At, IsAscii;
    ScanRound(str, At(str, 0, []));
  }

  lemma NegatedOpens(str: seq<byte>)
    requires IsAscii(str) && |str| > 3 && str[0] == 0x5B && str[1] == 0x5E && str[2] != 0x5D
    ensures Bracket(str, At(str, 0, [])) == BracketBody(str, Pass(str, At(str, 0, [])))
  {
    BracketStarts();
    assert str[0..] == str;
    var empty, full: seq<byte> := [0x5B, 0x5D], [0x5B, 0x5E, 0x5D];
    assert !(empty <= str) by { assert empty[1] != str[1]; }
    assert !(full <= str) by { assert full[2] != str[2]; }
    hide BracketBody, Pass, Ascii, Runes;
  }

  // A Unicode property with a name stays as it is; without braces or name it cannot be written.
  lemma PropertyIsKept(letter: byte, name: seq<byte>)
    requires letter in {0x70, 0x50} && IsAscii(name) && forall i :: 0 <= i < |name| ==> name[i] != 0x7D
    ensures Converted([0x5C, letter, 0x7B] + name + [0x7D]) == if name == [] then None else Some([0x5C, letter, 0x7B] + name + [0x7D])
  {
    var str: seq<byte> := [0x5C, letter, 0x7B] + name + [0x7D];
    Around([0x5C, letter, 0x7B], name, [0x7D]);
    assert (forall i :: 3 <= i < 3 + |name| ==> str[i] == name[i - 3]) && str[|str| - 1] == 0x7D;
    hide *;
    PropertyConverted(str);
  }

  lemma PropertyConverted(str: seq<byte>)
    requires IsAscii(str) && |str| > 3 && str[0] == 0x5C && str[1] in {0x70, 0x50} && str[2] == 0x7B && str[|str| - 1] == 0x7D
    requires forall i :: 3 <= i < |str| - 1 ==> str[i] != 0x7D
    ensures Converted(str) == if |str| == 4 then None else Some(str)
  {
    var n := |str|;
    var c := At(str, 1, []);
    AtIs(str, 1, []);
    AtIs(str, 3, str[..3]);
    PropertyStarts(str);
    assert str[..n] == str;
    if n > 4 { NameKept(str, 3); }
    hide At, IsAscii, Escape, Converted, PropertyName, Property, Scan;
    if n > 4 { EscapeConverted(str, str); } else { EscapeFails(str); }
  }

  lemma PropertyStarts(str: seq<byte>)
    requires IsAscii(str) && |str| > 3 && str[0] == 0x5C && str[1] in {0x70, 0x50} && str[2] == 0x7B
    ensures var d := Escape(str, At(str, 1, []), false);
            if str[3] == 0x7D then d.err.Some? && d.chr == EOF else d == PropertyName(str, At(str, 3, str[..3]))
  {
    hide *;
    AtIs(str, 1, []);
    AtIs(str, 2, str[..2]);
    AtIs(str, 3, str[..3]);
    AtIs(str, 1, str[..1]);
    EscapeRound(str, At(str, 1, []), false);
    Steps(str, 1, [], [0x5C]);
    Steps(str, 1, str[..1], []);
    assert [] + [0x5C] == str[..1] && str[..1] + [str[1]] == str[..2];
    Steps(str, 2, str[..2], []);
    assert str[..2] + [str[2]] == str[..3];
    PropertyRound(str, At(str, 1, []));
  }

  // One character after the letter has to be a brace, and the next none.
  lemma PropertyRound(str: seq<byte>, c: Cursor)
    requires InPlace(str, c)
    requires InPlace(str, Put(c, [0x5C])) && InPlace(str, Pass(str, Put(c, [0x5C])))
    ensures var d := Pass(str, Put(c, [0x5C]));
            d.chr == 0x7B && d.err.None? ==>
              var e := Pass(str, d);
              if e.chr == 0x7D then Property(str, c).err.Some? && Property(str, c).chr == EOF else Property(str, c) == PropertyName(str, e)
  {
    assert Ascii("\\") == [0x5C];
    hide PropertyName, Pass, Put, Ascii;
  }

  lemma NameRound(str: seq<byte>, c: Cursor)
    requires InPlace(str, c) && InPlace(str, Pass(str, c)) && Pass(str, c).chr != EOF
    ensures PropertyName(str, c) == if Pass(str, c).chr == 0x7D then Pass(str, Pass(str, c)) else PropertyName(str, Pass(str, c))
  {
    hide Pass;
  }

  lemma {:induction false} NameKept(str: seq<byte>, at: nat)
    requires IsAscii(str) && 3 <= at < |str| - 1 && str[|str| - 1] == 0x7D && forall i :: at <= i < |str| - 1 ==> str[i] != 0x7D
    ensures PropertyName(str, At(str, at, str[..at])) == At(str, |str|, str)
    decreases |str| - at
  {
    hide *;
    AtIs(str, at, str[..at]);
    AtIs(str, at + 1, str[..at + 1]);
    Steps(str, at, str[..at], []);
    assert str[..at] + [str[at]] == str[..at + 1];
    NameRound(str, At(str, at, str[..at]));
    if at + 1 == |str| - 1 {
      Steps(str, at + 1, str[..at + 1], []);
      assert str[..at + 1] + [str[at + 1]] == str;
    } else {
      NameKept(str, at + 1);
    }
  }
}
