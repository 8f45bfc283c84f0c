/**
What the conversion of regular expressions keeps: only well-formed UTF-8 is converted, the result is
well-formed UTF-8, and a pattern with nothing special in it comes out as it went in.
 */
module RegexProofs {
  import opened Wrappers
  import opened Utf8
  import opened RegexText

  // What has been read and what has been put out is well-formed so far.
  ghost predicate Clean(str: seq<byte>, c: Cursor)
    requires c.at <= c.next <= |str|
  {
    c.err.None? ==> Valid(c.out) && Valid(str[..c.at]) && Valid(str[c.at..c.next])
  }

  lemma ReadClean(str: seq<byte>, c: Cursor)
    requires c.next <= |str| && (c.err.Some? ==> c.next == |str| && c.out == [])
    requires c.err.None? ==> Valid(c.out) && Valid(str[..c.next])
    ensures Clean(str, Read(str, c))
  {
    if c.err.None? && c.next < |str| && !Malformed(str[c.next..]) {
      var rest, width := str[c.next..], DecodeRune(str[c.next..]).1;
      EncodeDecode(rest);
      assert rest[..width] == str[c.next..c.next + width];
      OneRune(rest);
    }
  }

  lemma OneRune(s: seq<byte>)
    requires s != [] && !Malformed(s)
    ensures DecodeRune(s).1 <= |s| && Valid(s[..DecodeRune(s).1])
  {
    EncodeDecode(s);
    var w := s[..DecodeRune(s).1];
    assert DecodeRune(w) == DecodeRune(s);
    assert w[|w|..] == [];
  }

  // A slice between two places that end well-formed prefixes is well-formed.
  lemma SliceClean(str: seq<byte>, start: nat, end: nat)
    requires start <= end <= |str| && Valid(str[..start]) && Valid(str[..end])
    ensures Valid(str[start..end])
  {
    assert str[..start] + str[start..end] == str[..end];
    ValidConcat(str[..start], str[start..end]);
  }

  lemma PutClean(str: seq<byte>, c: Cursor, bytes: seq<byte>)
    requires c.at <= c.next <= |str| && Clean(str, c) && Valid(bytes)
    ensures Clean(str, Put(c, bytes))
  {
    if c.err.None? {
      ValidConcat(c.out, bytes);
    }
  }

  lemma ReadOn(str: seq<byte>, c: Cursor)
    requires InPlace(str, c) && Clean(str, c)
    ensures Clean(str, Read(str, c))
  {
    if c.err.None? {
      assert str[..c.next] == str[..c.at] + str[c.at..c.next];
      ValidConcat(str[..c.at], str[c.at..c.next]);
    }
    ReadClean(str, c);
  }

  lemma PassClean(str: seq<byte>, c: Cursor)
    requires InPlace(str, c) && Clean(str, c)
    ensures Clean(str, Pass(str, c))
  {
    if c.chr == EOF {
      ReadOn(str, c);
    } else {
      PutClean(str, c, EncodeRune(c.chr));
      ReadOn(str, Put(c, EncodeRune(c.chr)));
    }
  }

  lemma {:induction false} AsciiIsValid(s: seq<byte>)
    requires forall i :: 0 <= i < |s| ==> s[i] < RUNE_SELF
    ensures Valid(s)
    decreases |s|
  {
    if s != [] {
      AsciiIsValid(s[1..]);
    }
  }

  lemma {:induction false} HexNatIsAscii(v: nat)
    ensures forall i :: 0 <= i < |HexNat(v)| ==> HexNat(v)[i] < RUNE_SELF
  {
    if v >= 16 {
      HexNatIsAscii(v / 16);
    }
  }

  lemma HexEscapeIsValid(v: int)
    ensures Valid(HexEscape(v))
  {
    HexNatIsAscii(if v < 0 then -v else v);
    AsciiIsValid(HexEscape(v));
  }

  lemma {:induction false} OctalsClean(str: seq<byte>, c: Cursor, value: int, size: nat)
    requires InPlace(str, c) && Clean(str, c)
    ensures Clean(str, Octals(str, c, value, size).0)
    decreases Left(str, c)
  {
    if DigitValue(c.chr) < 8 {
      ReadOn(str, c);
      OctalsClean(str, Read(str, c), Wrap64(value * 8 + DigitValue(c.chr)), size + 1);
    }
  }

  lemma {:induction false} HexesClean(str: seq<byte>, c: Cursor, n: nat)
    requires InPlace(str, c) && Clean(str, c)
    ensures Clean(str, Hexes(str, c, n).0)
    decreases n
  {
    if n > 0 && DigitValue(c.chr) < 16 {
      ReadOn(str, c);
      HexesClean(str, Read(str, c), n - 1);
    }
  }

  lemma {:induction false} HexesInBracesClean(str: seq<byte>, c: Cursor)
    requires InPlace(str, c) && Clean(str, c)
    ensures Clean(str, HexesInBraces(str, c).0)
    decreases Left(str, c)
  {
    if c.chr != '}' as int && c.chr != EOF && DigitValue(c.chr) < 16 {
      ReadOn(str, c);
      HexesInBracesClean(str, Read(str, c));
    }
  }

  lemma CopyClean(str: seq<byte>, c: Cursor, start: nat, end: nat)
    requires c.at <= c.next <= |str| && Clean(str, c) && start <= end <= |str|
    requires c.err.None? ==> Valid(str[..start]) && Valid(str[..end])
    ensures Clean(str, Copy(str, c, start, end))
  {
    if c.err.None? {
      SliceClean(str, start, end);
      PutClean(str, c, str[start..end]);
    }
  }

  lemma OctalClean(str: seq<byte>, c: Cursor)
    requires InPlace(str, c) && Clean(str, c) && c.at > 0 && (c.err.None? ==> Valid(str[..c.at - 1]))
    ensures Clean(str, Octal(str, c))
  {
    var (d, value, size) := Octals(str, c, 0, 0);
    OctalsClean(str, c, 0, 0);
    if c.err.Some? {
      assert d == c;
    }
    hide Octals;
    if size == 1 {
      if value == 0 {
        CopyClean(str, d, c.at - 1, d.at);
      }
    } else {
      HexEscapeIsValid(value);
      PutClean(str, d, HexEscape(value));
    }
  }

  lemma CodePointClean(str: seq<byte>, c: Cursor, start: nat, length: nat)
    requires InPlace(str, c) && Clean(str, c) && 0 < start <= c.at
    requires c.err.None? ==> Valid(str[..start - 1]) && Valid(str[..start])
    ensures Clean(str, CodePoint(str, c, start, length))
  {
    var (d, ok) := if length > 0 then Hexes(str, c, length) else HexesInBraces(str, c);
    HexesClean(str, c, length);
    HexesInBracesClean(str, c);
    StaysFailed(str, c, length);
    hide Hexes, HexesInBraces;
    if !ok {
      CopyClean(str, d, start, d.at);
    } else if length == 2 {
      CopyClean(str, d, start - 1, c.at + 2);
    } else {
      InBracesClean(str, d, c.at, if length != 0 then Ascii("}") else []);
    }
  }

  lemma InBracesClean(str: seq<byte>, c: Cursor, start: nat, close: seq<byte>)
    requires InPlace(str, c) && Clean(str, c) && start <= c.at && (c.err.None? ==> Valid(str[..start]))
    requires close == Ascii("}") || close == []
    ensures Clean(str, Put(Copy(str, Put(c, Ascii("\\x{")), start, c.at), close))
  {
    AsciiIsValid(Ascii("\\x{"));
    AsciiIsValid(close);
    hide Ascii;
    var d := Put(c, Ascii("\\x{"));
    PutClean(str, c, Ascii("\\x{"));
    CopyClean(str, d, start, c.at);
    PutClean(str, Copy(str, d, start, c.at), close);
  }

  // Nothing after a failure undoes it.
  lemma StaysFailed(str: seq<byte>, c: Cursor, n: nat)
    requires InPlace(str, c)
    ensures c.err.Some? ==> Hexes(str, c, n).0.err.Some? && HexesInBraces(str, c).0.err.Some?
  {
  }

  lemma {:induction false} PropertyNameClean(str: seq<byte>, c: Cursor)
    requires InPlace(str, c) && Clean(str, c)
    ensures Clean(str, PropertyName(str, c))
    decreases Left(str, c)
  {
    var d := Pass(str, c);
    PassClean(str, c);
    if d.chr == '}' as int {
      PassClean(str, d);
    } else if d.chr != EOF {
      PropertyNameClean(str, d);
    }
  }

  lemma PropertyClean(str: seq<byte>, c: Cursor)
    requires InPlace(str, c) && Clean(str, c)
    ensures Clean(str, Property(str, c))
  {
    AsciiIsValid(Ascii("\\"));
    PutClean(str, c, Ascii("\\"));
    PassClean(str, Put(c, Ascii("\\")));
    var d := Pass(str, Put(c, Ascii("\\")));
    if d.chr == '{' as int {
      PassClean(str, d);
      PropertyNameClean(str, Pass(str, d));
    }
  }

  lemma ControlClean(str: seq<byte>, c: Cursor)
    requires InPlace(str, c) && Clean(str, c)
    ensures Clean(str, Control(str, c))
  {
    var lower, upper := c.chr - 'a' as int + 1, c.chr - 'A' as int + 1;
    HexEscapeIsValid(lower);
    HexEscapeIsValid(upper);
    AsciiIsValid(Ascii("c"));
    hide HexEscape;
    PutClean(str, c, HexEscape(lower));
    PutClean(str, c, HexEscape(upper));
    PutClean(str, c, Ascii("c"));
    ReadOn(str, Put(c, HexEscape(lower)));
    ReadOn(str, Put(c, HexEscape(upper)));
  }

  lemma WhitespaceClean(str: seq<byte>, c: Cursor, inClass: bool)
    requires InPlace(str, c) && Clean(str, c)
    ensures Clean(str, Whitespace(str, c, inClass))
  {
    WhitespaceIsValid(c.chr, inClass);
    hide WhitespaceText;
    PutClean(str, c, WhitespaceText(c.chr, inClass));
    ReadOn(str, Put(c, WhitespaceText(c.chr, inClass)));
  }

  lemma WhitespaceIsValid(chr: int, inClass: bool)
    ensures Valid(WhitespaceText(chr, inClass))
  {
    ValidPieces();
    hide Class, Valid, Runes;
    ClassIsValid([0x5B], WHITESPACE);
    ClassIsValid([0x5B, 0x5E], WHITESPACE);
  }

  lemma ClassIsValid(open: seq<byte>, characters: seq<byte>)
    requires Valid(characters) && forall i :: 0 <= i < |open| ==> open[i] < RUNE_SELF
    ensures Valid(Class(open, characters))
  {
    AsciiIsValid(open);
    AsciiIsValid([0x5D]);
    ValidConcat(open, characters);
    ValidConcat(open + characters, [0x5D]);
  }

  lemma ValidPieces()
    ensures Valid(WHITESPACE) && Valid(DOT) && Valid(NOTHING) && Valid(ANYTHING)
  {
    RunesAreValid(SPACES);
    RunesAreValid(DOT_CLASS);
    RunesAreValid(EMPTY_CLASS);
    RunesAreValid(FULL_CLASS);
  }

  lemma {:induction false} RunesAreValid(rs: seq<int>)
    ensures Valid(Runes(rs))
  {
    if rs != [] {
      EncodingIsValid(rs[0]);
      RunesAreValid(rs[1..]);
      ValidConcat(EncodeRune(rs[0]), Runes(rs[1..]));
    }
  }

  lemma VerbatimClean(str: seq<byte>, c: Cursor)
    requires InPlace(str, c) && Clean(str, c) && c.at > 0 && (c.err.None? ==> Valid(str[..c.at - 1]))
    ensures Clean(str, Verbatim(str, c))
  {
    if c.err.None? {
      assert str[..c.next] == str[..c.at] + str[c.at..c.next];
      ValidConcat(str[..c.at], str[c.at..c.next]);
      CopyClean(str, c, c.at - 1, c.next);
    }
    ReadOn(str, Copy(str, c, c.at - 1, c.next));
  }

  lemma EscapeClean(str: seq<byte>, c: Cursor, inClass: bool)
    requires InPlace(str, c) && Clean(str, c) && c.at > 0 && (c.err.None? ==> Valid(str[..c.at - 1]))
    ensures Clean(str, Escape(str, c, inClass))
  {
    hide Octal, CodePoint, Control, Verbatim, Whitespace, Property, Pass, Clean, Read, Put, Unicode;
    VerbatimClean(str, c);
    WhitespaceClean(str, c, inClass);
    PropertyClean(str, c);
    PassClean(str, c);
    OctalClean(str, c);
    ReadOn(str, c);
    FailClean(str, c);
    FailClean(str, Read(str, c));
    ControlClean(str, Read(str, c));
    UnicodeClean(str, c);
    BackspaceClean(str, c);
  }

  lemma FailClean(str: seq<byte>, c: Cursor)
    requires InPlace(str, c)
    ensures forall failure :: Clean(str, Fail(str, c, failure))
  {
  }

  lemma BackspaceClean(str: seq<byte>, c: Cursor)
    requires InPlace(str, c) && Clean(str, c)
    ensures InPlace(str, Put(c, Ascii("\\x08"))) && Clean(str, Read(str, Put(c, Ascii("\\x08"))))
  {
    AsciiIsValid(Ascii("\\x08"));
    PutClean(str, c, Ascii("\\x08"));
    ReadOn(str, Put(c, Ascii("\\x08")));
  }

  lemma UnicodeClean(str: seq<byte>, c: Cursor)
    requires InPlace(str, c) && Clean(str, c) && c.at > 0 && (c.err.None? ==> Valid(str[..c.at - 1]))
    ensures Clean(str, Unicode(str, c)) && Clean(str, CodePoint(str, Read(str, c), c.at, 2))
  {
    var d := Read(str, c);
    hide CodePoint, Read;
    ReadOn(str, c);
    CodePointClean(str, d, c.at, 2);
    if d.chr == '{' as int {
      ReadOn(str, d);
      CodePointClean(str, Read(str, d), c.at, 0);
    } else {
      CodePointClean(str, d, c.at, 4);
    }
  }

  lemma BackslashClean(str: seq<byte>, c: Cursor, inClass: bool)
    requires InPlace(str, c) && Clean(str, c) && c.chr == '\\' as int
    ensures Clean(str, Escape(str, Read(str, c), inClass))
  {
    hide Escape;
    ReadOn(str, c);
    EscapeClean(str, Read(str, c), inClass);
  }

  lemma DotClean(str: seq<byte>, c: Cursor)
    requires InPlace(str, c) && Clean(str, c)
    ensures Clean(str, Read(str, Put(c, DOT)))
  {
    ValidPieces();
    hide Runes;
    PutClean(str, c, DOT);
    ReadOn(str, Put(c, DOT));
  }

  lemma {:induction false} BracketBodyClean(str: seq<byte>, c: Cursor)
    requires InPlace(str, c) && Clean(str, c)
    ensures Clean(str, BracketBody(str, c))
    decreases Left(str, c)
  {
    hide Clean, Escape, Pass, Read;
    PassClean(str, c);
    FailClean(str, c);
    if c.chr == '\\' as int {
      BackslashClean(str, c, true);
      BracketBodyClean(str, Escape(str, Read(str, c), true));
    } else if c.chr != EOF && c.chr != ']' as int {
      BracketBodyClean(str, Pass(str, c));
    }
  }

  lemma BracketClean(str: seq<byte>, c: Cursor)
    requires InPlace(str, c) && Clean(str, c) && c.chr == '[' as int
    ensures Clean(str, Bracket(str, c))
  {
    ValidPieces();
    hide BracketBody, Pass, Runes, Valid;
    if Ascii("[]") <= str[c.at..] {
      SkipClean(str, c, NOTHING, 2);
    } else if Ascii("[^]") <= str[c.at..] {
      SkipClean(str, c, ANYTHING, 3);
    } else {
      PassClean(str, c);
      BracketBodyClean(str, Pass(str, c));
    }
  }

  // A few characters of the pattern are replaced at once.
  lemma SkipClean(str: seq<byte>, c: Cursor, bytes: seq<byte>, width: nat)
    requires InPlace(str, c) && Clean(str, c) && c.err.None? && Valid(bytes) && c.at + width <= |str|
    requires forall i :: c.at <= i < c.at + width ==> str[i] < RUNE_SELF
    ensures Clean(str, Read(str, Put(c, bytes).(next := c.at + width)))
  {
    hide Valid, Read;
    PutClean(str, c, bytes);
    AsciiIsValid(str[c.at..c.at + width]);
    assert str[..c.at + width] == str[..c.at] + str[c.at..c.at + width];
    ValidConcat(str[..c.at], str[c.at..c.at + width]);
    ReadClean(str, Put(c, bytes).(next := c.at + width));
  }

  lemma {:induction false} GroupClean(str: seq<byte>, c: Cursor)
    requires InPlace(str, c) && Clean(str, c)
    ensures Clean(str, Group(str, c)) && Clean(str, GroupBody(str, c))
    decreases Left(str, c)
  {
    hide Clean, Escape, Pass, Read, Bracket;
    PassClean(str, c);
    FailClean(str, c);
    if c.chr == EOF || c.chr == ')' as int {
    } else if c.chr == '\\' as int {
      BackslashClean(str, c, false);
      GroupClean(str, Escape(str, Read(str, c), false));
    } else if c.chr == '(' as int {
      GroupClean(str, Pass(str, c));
      GroupClean(str, Group(str, Pass(str, c)));
    } else if c.chr == '[' as int {
      BracketClean(str, c);
      GroupClean(str, Bracket(str, c));
    } else if c.chr == '.' as int {
      DotClean(str, c);
      GroupClean(str, Read(str, Put(c, DOT)));
    } else {
      GroupClean(str, Pass(str, c));
    }
  }

  lemma {:induction false} ScanClean(str: seq<byte>, c: Cursor)
    requires InPlace(str, c) && Clean(str, c)
    ensures Clean(str, Scan(str, c))
    decreases Left(str, c)
  {
    hide Clean, Escape, Pass, Read, Bracket, Group;
    PassClean(str, c);
    FailClean(str, c);
    if c.chr == EOF || c.chr == ')' as int {
    } else if c.chr == '\\' as int {
      BackslashClean(str, c, false);
      ScanClean(str, Escape(str, Read(str, c), false));
    } else if c.chr == '(' as int {
      GroupClean(str, Pass(str, c));
      ScanClean(str, Group(str, Pass(str, c)));
    } else if c.chr == '[' as int {
      BracketClean(str, c);
      ScanClean(str, Bracket(str, c));
    } else if c.chr == '.' as int {
      DotClean(str, c);
      ScanClean(str, Read(str, Put(c, DOT)));
    } else {
      ScanClean(str, Pass(str, c));
    }
  }

  // Only well-formed UTF-8 is converted, and it is converted to well-formed UTF-8.
  lemma ConvertedIsWellFormed(pattern: seq<byte>)
    requires Converted(pattern).Some?
    ensures Valid(pattern) && Valid(Converted(pattern).value)
  {
    if pattern != [] {
      var start := Cursor(0, 0, 0, [], None);
      ReadClean(pattern, start);
      var first := Read(pattern, start);
      hide Scan, Read, Valid;
      ScanClean(pattern, first);
      assert pattern[..|pattern|] == pattern;
    }
  }

  // ----- Patterns with nothing to convert -----

  predicate Plain(pattern: seq<byte>) {
    forall i :: 0 <= i < |pattern| ==>
      pattern[i] !in {'\\' as int, '(' as int, ')' as int, '[' as int, '.' as int}
  }

  lemma {:induction false} PlainScan(str: seq<byte>, c: Cursor)
    requires Plain(str) && InPlace(str, c) && c.err.None? && c.out == str[..c.at] && Valid(str[c.at..])
    ensures Scan(str, c).err.None? && Scan(str, c).out == str
    decreases Left(str, c)
  {
    hide Scan, Plain, Pass, Valid, Malformed, EncodeRune;
    if c.chr == EOF {
      ScanEnds(str, c);
      assert str[..|str|] == str;
    } else {
      PlainStep(str, c);
      PlainScan(str, Pass(str, c));
    }
  }

  lemma ScanEnds(str: seq<byte>, c: Cursor)
    requires InPlace(str, c) && c.chr == EOF
    ensures Scan(str, c) == c
  {
  }

  // A character that is not special is copied.
  lemma PlainStep(str: seq<byte>, c: Cursor)
    requires Plain(str) && InPlace(str, c) && c.chr != EOF && c.out == str[..c.at] && Valid(str[c.at..])
    ensures Scan(str, c) == Scan(str, Pass(str, c))
    ensures var d := Pass(str, c); d.err.None? && d.out == str[..d.at] && Valid(str[d.at..])
  {
    FirstRune(str, c);
    PlainPass(str, c);
    hide Pass, Escape, Group, Bracket, Read, Valid;
  }

  lemma PlainPass(str: seq<byte>, c: Cursor)
    requires InPlace(str, c) && c.chr != EOF && c.out == str[..c.at]
    requires Valid(str[c.next..]) && (c.next < |str| ==> !Malformed(str[c.next..]))
    requires str[..c.next] == str[..c.at] + EncodeRune(c.chr)
    ensures var d := Pass(str, c); d.err.None? && d.out == str[..d.at] && Valid(str[d.at..])
  {
    hide Valid, EncodeRune;
  }

  // The current character is the first of the rest.
  lemma FirstRune(str: seq<byte>, c: Cursor)
    requires InPlace(str, c) && c.chr != EOF && Valid(str[c.at..])
    ensures c.chr < RUNE_SELF ==> str[c.at] == c.chr
    ensures Valid(str[c.next..]) && (c.next < |str| ==> !Malformed(str[c.next..]))
    ensures str[..c.next] == str[..c.at] + EncodeRune(c.chr)
  {
    var rest := str[c.at..];
    EncodeDecode(rest);
    EncodingIsValid(c.chr);
    assert rest == str[c.at..c.next] + str[c.next..];
    ValidConcat(str[c.at..c.next], str[c.next..]);
  }

  // A pattern with nothing special in it is converted exactly when it is well-formed, and unchanged.
  lemma PlainIsUnchanged(pattern: seq<byte>)
    requires Plain(pattern)
    ensures Converted(pattern) == if Valid(pattern) then Some(pattern) else None
  {
    if Converted(pattern).Some? {
      ConvertedIsWellFormed(pattern);
    }
    if Valid(pattern) && pattern != [] {
      assert pattern[0..] == pattern;
      PlainScan(pattern, Read(pattern, Cursor(0, 0, 0, [], None)));
    }
  }
}
