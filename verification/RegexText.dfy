/**
The conversion of ECMA-262 regular expressions to RE2 syntax (runtime/ogenregex/convert.go) written
plainly: every character read is either appended to the result or replaced, one at a time. The
converter itself, which copies only when it must, is compared with this in RegexParser.
 */
module RegexText {
  import opened Wrappers
  import opened Utf8

  datatype Failure = Syntax | Unsupported

  // The current character is str[at..next]; EOF is also what follows a failure, and a failed
  // conversion has no result.
  datatype Cursor = Cursor(chr: int, at: nat, next: nat, out: seq<byte>, err: Option<Failure>)

  const EOF := -1

  // The bytes of an ASCII text. (A question mark stands for any other character; none is used.)
  function Ascii(s: string): (r: seq<byte>)
    ensures |r| == |s| && forall i :: 0 <= i < |r| ==> r[i] < 0x80
  {
    seq(|s|, i requires 0 <= i < |s| => if s[i] < 128 as char then s[i] as int else 0x3F)
  }

  function Runes(rs: seq<int>): seq<byte> {
    if rs == [] then [] else EncodeRune(rs[0]) + Runes(rs[1..])
  }

  const SPACES :=
    [0x20, 0x0C, 0x0A, 0x0D, 0x09, 0x0B, 0xA0, 0x1680,
     0x2000, 0x2001, 0x2002, 0x2003, 0x2004, 0x2005, 0x2006, 0x2007, 0x2008, 0x2009, 0x200A,
     0x2028, 0x2029, 0x202F, 0x205F, 0x3000, 0xFEFF]
  const DOT_CLASS := [0x5B, 0x5E, 0x0D, 0x0A, 0x2028, 0x2029, 0x5D]
  const EMPTY_CLASS := [0x5B, 0x5E, 0x00, 0x2D, 0x1FFFF, 0x5D]
  const FULL_CLASS := [0x5B, 0x00, 0x2D, 0x1FFFF, 0x5D]

  const WHITESPACE: seq<byte> := Runes(SPACES)
  const DOT: seq<byte> := Runes(DOT_CLASS)
  const NOTHING: seq<byte> := Runes(EMPTY_CLASS)
  const ANYTHING: seq<byte> := Runes(FULL_CLASS)

  function DigitValue(chr: int): nat {
    if '0' as int <= chr <= '9' as int then chr - '0' as int
    else if 'a' as int <= chr <= 'f' as int then chr - 'a' as int + 10
    else if 'A' as int <= chr <= 'F' as int then chr - 'A' as int + 10
    else 16
  }

  // Of the characters below RUNE_SELF only; the Unicode tables are never asked.
  predicate IsIdentifierPart(chr: int) {
    || chr == '$' as int || chr == '_' as int || chr == '\\' as int
    || 'a' as int <= chr <= 'z' as int || 'A' as int <= chr <= 'Z' as int || '0' as int <= chr <= '9' as int
  }

  predicate IsOneOf(chr: int, s: string) {
    exists i :: 0 <= i < |s| && s[i] as int == chr
  }

  // int64 arithmetic.
  function Wrap64(x: int): int {
    (x + 0x8000_0000_0000_0000) % 0x1_0000_0000_0000_0000 - 0x8000_0000_0000_0000
  }

  function HexDigit(d: nat): byte
    requires d < 16
  {
    if d < 10 then '0' as int + d else 'a' as int + d - 10
  }

  function HexNat(v: nat): seq<byte> {
    if v < 16 then [HexDigit(v)] else HexNat(v / 16) + [HexDigit(v % 16)]
  }

  // strconv.AppendInt(_, v, 16).
  function Hex(v: int): seq<byte> {
    if v < 0 then Ascii("-") + HexNat(-v) else HexNat(v)
  }

  function HexEscape(v: int): seq<byte> {
    (if v >= 16 then Ascii("\\x") else Ascii("\\x0")) + Hex(v)
  }

  // ----- Single steps -----

  predicate InPlace(str: seq<byte>, c: Cursor) {
    && c.at <= c.next <= |str|
    && (c.chr == EOF ==> c.next == |str|)
    && (c.chr == EOF && c.err.None? ==> c.at == |str|)
    && (c.chr != EOF ==> c.err.None? && 0 <= c.chr && c.at < c.next && EncodeRune(c.chr) == str[c.at..c.next])
    && (c.err.Some? ==> c.chr == EOF && c.out == [])
  }

  // What is left to read; every loop of the scanners makes it smaller.
  function Left(str: seq<byte>, c: Cursor): nat
    requires InPlace(str, c)
  {
    if c.chr == EOF then 0 else |str| - c.at
  }

  function Fail(str: seq<byte>, c: Cursor, failure: Failure): Cursor {
    if c.err.Some? then c else c.(err := Some(failure), out := [], next := |str|, chr := EOF)
  }

  function Read(str: seq<byte>, c: Cursor): (r: Cursor)
    requires c.next <= |str| && (c.err.Some? ==> c.next == |str| && c.out == [])
    ensures InPlace(str, r) && Left(str, r) <= |str| - c.next
    ensures r.err.None? ==> r.at == c.next && r.out == c.out
    ensures r.at >= c.next
  {
    if c.next < |str| then
      var (chr, width) := DecodeRune(str[c.next..]);
      if Malformed(str[c.next..]) then Fail(str, c.(at := c.next), Syntax)
      else
        EncodeDecode(str[c.next..]);
        assert str[c.next..][..width] == str[c.next..c.next + width];
        c.(at := c.next, next := c.next + width, chr := chr)
    else c.(at := |str|, chr := EOF)
  }

  function Put(c: Cursor, bytes: seq<byte>): Cursor {
    if c.err.Some? then c else c.(out := c.out + bytes)
  }

  function Copy(str: seq<byte>, c: Cursor, start: nat, end: nat): Cursor
    requires start <= end <= |str|
  {
    Put(c, str[start..end])
  }

  // The current character stays as it is.
  function Pass(str: seq<byte>, c: Cursor): (r: Cursor)
    requires InPlace(str, c)
    ensures InPlace(str, r) && r.at >= c.at && Left(str, r) <= Left(str, c) && (c.chr != EOF ==> Left(str, r) < Left(str, c))
  {
    Read(str, if c.chr == EOF then c else Put(c, EncodeRune(c.chr)))
  }

  // ----- Escapes -----

  function Octals(str: seq<byte>, c: Cursor, value: int, size: nat): (r: (Cursor, int, nat))
    requires InPlace(str, c)
    ensures InPlace(str, r.0) && r.0.at >= c.at && Left(str, r.0) <= Left(str, c)
    decreases Left(str, c)
  {
    if DigitValue(c.chr) >= 8 then (c, value, size)
    else Octals(str, Read(str, c), Wrap64(value * 8 + DigitValue(c.chr)), size + 1)
  }

  function Octal(str: seq<byte>, c: Cursor): (r: Cursor)
    requires InPlace(str, c) && c.at > 0
    ensures InPlace(str, r) && r.at >= c.at && Left(str, r) <= Left(str, c)
  {
    var (d, value, size) := Octals(str, c, 0, 0);
    if size == 1 then
      if value != 0 then Fail(str, d, Unsupported) else Copy(str, d, c.at - 1, d.at)
    else Put(d, HexEscape(value))
  }

  // Exactly n hexadecimal digits.
  function Hexes(str: seq<byte>, c: Cursor, n: nat): (r: (Cursor, bool))
    requires InPlace(str, c)
    ensures InPlace(str, r.0) && r.0.at >= c.at && Left(str, r.0) <= Left(str, c)
    ensures r.1 ==> r.0.at == c.at + n
    decreases n
  {
    if n == 0 then (c, true)
    else if DigitValue(c.chr) >= 16 then (c, false)
    else Hexes(str, Read(str, c), n - 1)
  }

  // Hexadecimal digits up to a closing brace or the end.
  function HexesInBraces(str: seq<byte>, c: Cursor): (r: (Cursor, bool))
    requires InPlace(str, c)
    ensures InPlace(str, r.0) && r.0.at >= c.at && Left(str, r.0) <= Left(str, c)
    decreases Left(str, c)
  {
    if c.chr == '}' as int || c.chr == EOF then (c, true)
    else if DigitValue(c.chr) >= 16 then (c, false)
    else HexesInBraces(str, Read(str, c))
  }

  // What follows \x or \u, which started at `start`.
  function CodePoint(str: seq<byte>, c: Cursor, start: nat, length: nat): (r: Cursor)
    requires InPlace(str, c) && 0 < start <= c.at
    ensures InPlace(str, r) && r.at >= c.at && Left(str, r) <= Left(str, c)
  {
    var (d, ok) := if length > 0 then Hexes(str, c, length) else HexesInBraces(str, c);
    if !ok then Copy(str, d, start, d.at)
    else if length == 2 then Copy(str, d, start - 1, c.at + 2)
    else Put(Copy(str, Put(d, Ascii("\\x{")), c.at, d.at), if length != 0 then Ascii("}") else [])
  }

  // \p{...}: the loop after the brace.
  function PropertyName(str: seq<byte>, c: Cursor): (r: Cursor)
    requires InPlace(str, c)
    ensures InPlace(str, r) && r.at >= c.at && Left(str, r) <= Left(str, c)
    decreases Left(str, c)
  {
    var d := Pass(str, c);
    if d.chr == EOF then Fail(str, d, Syntax)
    else if d.chr == '}' as int then Pass(str, d)
    else PropertyName(str, d)
  }

  function Property(str: seq<byte>, c: Cursor): (r: Cursor)
    requires InPlace(str, c)
    ensures InPlace(str, r) && r.at >= c.at && Left(str, r) <= Left(str, c)
  {
    var d := Pass(str, Put(c, Ascii("\\")));
    if d.chr != '{' as int then Fail(str, d, Unsupported)
    else
      var e := Pass(str, d);
      if e.chr == '}' as int then Fail(str, e, Unsupported) else PropertyName(str, e)
  }

  function Control(str: seq<byte>, c: Cursor): (r: Cursor)
    requires InPlace(str, c)
    ensures InPlace(str, r) && r.at >= c.at && Left(str, r) <= Left(str, c)
  {
    if 'a' as int <= c.chr <= 'z' as int then Read(str, Put(c, HexEscape(c.chr - 'a' as int + 1)))
    else if 'A' as int <= c.chr <= 'Z' as int then Read(str, Put(c, HexEscape(c.chr - 'A' as int + 1)))
    else Put(c, Ascii("c"))
  }

  // RE2 has fewer white space characters, so they are listed.
  function WhitespaceText(chr: int, inClass: bool): seq<byte> {
    if chr != 's' as int then Class([0x5B, 0x5E], WHITESPACE)
    else if inClass then WHITESPACE
    else Class([0x5B], WHITESPACE)
  }

  function Class(open: seq<byte>, characters: seq<byte>): seq<byte> {
    open + characters + [0x5D]
  }

  function Whitespace(str: seq<byte>, c: Cursor, inClass: bool): (r: Cursor)
    requires InPlace(str, c)
    ensures InPlace(str, r) && r.at >= c.at && Left(str, r) <= Left(str, c)
  {
    if c.chr != 's' as int && inClass then Fail(str, c, Unsupported)
    else Read(str, Put(c, WhitespaceText(c.chr, inClass)))
  }

  function Unicode(str: seq<byte>, c: Cursor): (r: Cursor)
    requires InPlace(str, c) && c.at > 0
    ensures InPlace(str, r) && r.at >= c.at && Left(str, r) <= Left(str, c)
  {
    var d := Read(str, c);
    if d.chr == '{' as int then CodePoint(str, Read(str, d), c.at, 0) else CodePoint(str, d, c.at, 4)
  }

  // The backslash stays too.
  function Verbatim(str: seq<byte>, c: Cursor): (r: Cursor)
    requires InPlace(str, c) && c.at > 0
    ensures InPlace(str, r) && r.at >= c.at && Left(str, r) <= Left(str, c)
  {
    Read(str, Copy(str, c, c.at - 1, c.next))
  }

  predicate NeedsEscaping(chr: int) {
    chr == '$' as int || (chr < RUNE_SELF && !IsIdentifierPart(chr))
  }

  // What follows a backslash.
  function Escape(str: seq<byte>, c: Cursor, inClass: bool): (r: Cursor)
    requires InPlace(str, c) && c.at > 0
    ensures InPlace(str, r) && r.at >= c.at && Left(str, r) <= Left(str, c)
  {
    if IsOneOf(c.chr, "01234567") then Octal(str, c)
    else if IsOneOf(c.chr, "89") then Fail(str, Read(str, c), Unsupported)
    else if c.chr == 'x' as int then CodePoint(str, Read(str, c), c.at, 2)
    else if c.chr == 'u' as int then Unicode(str, c)
    else if c.chr == 'b' as int && inClass then Read(str, Put(c, Ascii("\\x08")))
    else if IsOneOf(c.chr, "bBdDwW\\fnrtv") then Verbatim(str, c)
    else if c.chr == 'c' as int then Control(str, Read(str, c))
    else if IsOneOf(c.chr, "sS") then Whitespace(str, c, inClass)
    else if IsOneOf(c.chr, "pP") then Property(str, c)
    else if NeedsEscaping(c.chr) then Verbatim(str, c)
    else Pass(str, c)
  }

  // ----- Character classes, groups, patterns -----

  function BracketBody(str: seq<byte>, c: Cursor): (r: Cursor)
    requires InPlace(str, c)
    ensures InPlace(str, r) && r.at >= c.at && Left(str, r) <= Left(str, c)
    decreases Left(str, c)
  {
    if c.chr == EOF then Fail(str, c, Syntax)
    else if c.chr == ']' as int then Pass(str, c)
    else if c.chr == '\\' as int then BracketBody(str, Escape(str, Read(str, c), true))
    else BracketBody(str, Pass(str, c))
  }

  function Bracket(str: seq<byte>, c: Cursor): (r: Cursor)
    requires InPlace(str, c) && c.chr == '[' as int
    ensures InPlace(str, r) && r.at >= c.at && Left(str, r) < Left(str, c)
  {
    if Ascii("[]") <= str[c.at..] then Read(str, Put(c, NOTHING).(next := c.at + 2))
    else if Ascii("[^]") <= str[c.at..] then Read(str, Put(c, ANYTHING).(next := c.at + 3))
    else BracketBody(str, Pass(str, c))
  }

  // What a question mark right after an opening parenthesis rules out.
  function GroupStart(str: seq<byte>, at: nat): Option<Failure>
    requires at <= |str|
  {
    if |str| - at > 1 && str[at] == '?' as int then
      if str[at + 1] in {'=' as int, '!' as int, '<' as int} then Some(Unsupported)
      else if str[at + 1] != ':' as int then Some(Syntax)
      else None
    else None
  }

  function Group(str: seq<byte>, c: Cursor): (r: Cursor)
    requires InPlace(str, c)
    ensures InPlace(str, r) && r.at >= c.at && Left(str, r) <= Left(str, c)
    decreases Left(str, c), 1
  {
    var start := GroupStart(str, c.at);
    if start.Some? then Fail(str, c, start.value) else GroupBody(str, c)
  }

  function GroupBody(str: seq<byte>, c: Cursor): (r: Cursor)
    requires InPlace(str, c)
    ensures InPlace(str, r) && r.at >= c.at && Left(str, r) <= Left(str, c)
    decreases Left(str, c), 0
  {
    if c.chr == EOF then Fail(str, c, Syntax)
    else if c.chr == ')' as int then Pass(str, c)
    else if c.chr == '\\' as int then GroupBody(str, Escape(str, Read(str, c), false))
    else if c.chr == '(' as int then GroupBody(str, Group(str, Pass(str, c)))
    else if c.chr == '[' as int then GroupBody(str, Bracket(str, c))
    else if c.chr == '.' as int then GroupBody(str, Read(str, Put(c, DOT)))
    else GroupBody(str, Pass(str, c))
  }

  function Scan(str: seq<byte>, c: Cursor): (r: Cursor)
    requires InPlace(str, c)
    ensures InPlace(str, r) && r.chr == EOF && r.at >= c.at
    decreases Left(str, c)
  {
    if c.chr == EOF then c
    else if c.chr == '\\' as int then Scan(str, Escape(str, Read(str, c), false))
    else if c.chr == '(' as int then Scan(str, Group(str, Pass(str, c)))
    else if c.chr == '[' as int then Scan(str, Bracket(str, c))
    else if c.chr == ')' as int then Fail(str, c, Syntax)
    else if c.chr == '.' as int then Scan(str, Read(str, Put(c, DOT)))
    else Scan(str, Pass(str, c))
  }

  function Converted(pattern: seq<byte>): Option<seq<byte>> {
    if pattern == [] then Some([])
    else
      var c := Scan(pattern, Read(pattern, Cursor(0, 0, 0, [], None)));
      if c.err.Some? then None else Some(c.out)
  }
}
