/**
The converter of ECMA-262 regular expressions (runtime/ogenregex/convert.go): a parser that copies
nothing as long as its output is a prefix of its input. Every method does to the text what its
namesake in RegexText does.
 */
module RegexParser {
  import opened Wrappers
  import opened Utf8
  import T = RegexText

  // One character is read.
  lemma ReadsOne(str: seq<byte>, c: T.Cursor, r: int, width: nat)
    requires c.next < |str| && c.err.None? && DecodeRune(str[c.next..]) == (r, width) && !Malformed(str[c.next..])
    ensures T.Read(str, c) == c.(at := c.next, next := c.next + width, chr := r)
    ensures c.next + width <= |str|
  {
    EncodeDecode(str[c.next..]);
    hide EncodeRune, DecodeRune;
  }

  // The three ways to read a character class.
  lemma BracketCases(str: seq<byte>, c: T.Cursor)
    requires T.InPlace(str, c) && c.chr == '[' as int
    ensures c.next == c.at + 1
    ensures if T.Ascii("[]") <= str[c.at..] then
              c.at + 2 <= |str| && T.Bracket(str, c) == T.Read(str, T.Put(c, T.NOTHING).(next := c.at + 2))
            else if T.Ascii("[^]") <= str[c.at..] then
              c.at + 3 <= |str| && T.Bracket(str, c) == T.Read(str, T.Put(c, T.ANYTHING).(next := c.at + 3))
            else T.Bracket(str, c) == T.BracketBody(str, T.Pass(str, c))
  {
    hide T.BracketBody, T.Pass, T.Read;
  }

  class Parser {
    const str: seq<byte>
    var chr: int
    var chrOffset: nat
    var offset: nat
    var err: Option<T.Failure>
    var goRegexp: seq<byte>
    var passOffset: int

    // Bounds that hold even between two parts of a step.
    ghost predicate InRange()
      reads this
    {
      && -1 <= passOffset <= |str| && (passOffset != -1 ==> goRegexp == [])
      && offset <= |str| && (err.Some? ==> offset == |str|)
    }

    ghost predicate Valid()
      reads this
    {
      InRange() && T.InPlace(str, View())
    }

    // ResultString.
    function ResultString(): (s: seq<byte>)
      reads this
      requires InRange()
    {
      if passOffset != -1 then str[..passOffset] else goRegexp
    }

    ghost function View(): T.Cursor
      reads this
      requires InRange()
    {
      T.Cursor(chr, chrOffset, offset, if err.None? then ResultString() else [], err)
    }

    constructor (str: seq<byte>)
      ensures this.str == str && InRange() && View() == T.Cursor(0, 0, 0, [], None)
    {
      this.str, chr, chrOffset, offset, err, goRegexp, passOffset := str, 0, 0, 0, None, [], 0;
    }

    // error; `shown` is the part of the pattern the message quotes.
    method Error(fatal: bool, shown: seq<byte>)
      requires InRange()
      modifies this
      ensures InRange() && View() == T.Fail(str, old(View()), if fatal then T.Syntax else T.Unsupported)
    {
      if err.Some? {
        return;
      }
      err := Some(if fatal then T.Syntax else T.Unsupported);
      offset := |str|;
      chr := T.EOF;
    }

    // read.
    method Read()
      requires InRange()
      modifies this
      ensures Valid() && View() == T.Read(str, old(View()))
    {
      if offset < |str| {
        chrOffset := offset;
        var r, width := str[offset] as int, 1;
        if r >= RUNE_SELF {
          var decoded := DecodeRune(str[offset..]);
          r, width := decoded.0, decoded.1;
          if r == RUNE_ERROR && width == 1 {
            Error(true, []);
            return;
          }
        }
        ReadsOne(str, View(), r, width);
        offset := offset + width;
        chr := r;
      } else {
        chrOffset := |str|;
        chr := T.EOF;
      }
    }

    // stopPassing.
    method StopPassing()
      requires InRange() && passOffset != -1
      modifies this`goRegexp, this`passOffset
      ensures InRange() && passOffset == -1 && ResultString() == old(ResultString())
    {
      goRegexp := goRegexp + str[..passOffset];
      passOffset := -1;
    }

    // write, writeByte and writeString.
    method Write(data: seq<byte>)
      requires Valid()
      modifies this`goRegexp, this`passOffset
      ensures Valid() && View() == T.Put(old(View()), data)
    {
      if passOffset != -1 {
        StopPassing();
      }
      goRegexp := goRegexp + data;
    }

    // pass.
    method Pass()
      requires Valid()
      modifies this
      ensures Valid() && View() == T.Pass(str, old(View()))
    {
      if passOffset == chrOffset {
        assert err.None? ==> str[..offset] == str[..chrOffset] + str[chrOffset..offset];
        passOffset := offset;
      } else {
        if passOffset != -1 {
          StopPassing();
        }
        if chr != T.EOF {
          goRegexp := goRegexp + EncodeRune(chr);
        }
      }
      Read();
    }

    // passString.
    method PassString(start: nat, end: nat)
      requires Valid() && start <= end <= |str|
      modifies this`goRegexp, this`passOffset
      ensures Valid() && View() == T.Copy(str, old(View()), start, end)
    {
      if passOffset == start {
        assert str[..end] == str[..start] + str[start..end];
        passOffset := end;
        return;
      }
      if passOffset != -1 {
        StopPassing();
      }
      goRegexp := goRegexp + str[start..end];
    }
  
    // ----- The scanners -----

    // The loop over octal digits.
    method ReadOctal() returns (value: int, size: nat)
      requires Valid()
      modifies this
      ensures Valid() && (View(), value, size) == T.Octals(str, old(View()), 0, 0)
    {
      hide T.Read, T.Wrap64;
      value, size := 0, 0;
      while true
        invariant Valid() && T.Octals(str, View(), value, size) == T.Octals(str, old(View()), 0, 0)
        decreases T.Left(str, View())
      {
        var digit := T.DigitValue(chr);
        if digit >= 8 {
          break;
        }
        value := T.Wrap64(value * 8 + digit);
        Read();
        size := size + 1;
      }
    }

    method ScanOctal()
      requires Valid() && chrOffset > 0
      modifies this
      ensures Valid() && View() == T.Octal(str, old(View()))
    {
      var start := chrOffset;
      var value, size := ReadOctal();
      hide T.Octals;
      if size == 1 {
        if value != 0 {
          Error(false, []);
          return;
        }
        PassString(start - 1, chrOffset);
        return;
      }
      Write(T.HexEscape(value));
    }

    // \x and \u: the digits, and what is made of them.
    method ScanCodePoint(start: nat, length: nat)
      requires Valid() && 0 < start <= chrOffset
      modifies this
      ensures Valid() && View() == T.CodePoint(str, old(View()), start, length)
    {
      var valueOffset := chrOffset;
      var ok;
      if length > 0 {
        ok := ReadHexes(length);
      } else {
        ok := ReadHexesInBraces();
      }
      hide T.Hexes, T.HexesInBraces;
      if !ok {
        PassString(start, chrOffset);
        return;
      }
      if length == 2 {
        PassString(start - 1, valueOffset + 2);
      } else {
        WriteBraced(valueOffset, length != 0);
      }
    }

    // The digits from `start` on, in braces of which the second may be there already.
    method WriteBraced(start: nat, close: bool)
      requires Valid() && start <= chrOffset
      modifies this`goRegexp, this`passOffset
      ensures Valid()
      ensures View() == T.Put(T.Copy(str, T.Put(old(View()), T.Ascii("\\x{")), start, chrOffset), if close then T.Ascii("}") else [])
    {
      hide T.Ascii;
      Write(T.Ascii("\\x{"));
      PassString(start, chrOffset);
      if close {
        Write(T.Ascii("}"));
      }
    }

    method ReadHexes(length: nat) returns (ok: bool)
      requires Valid()
      modifies this
      ensures Valid() && (View(), ok) == T.Hexes(str, old(View()), length)
    {
      hide T.Read;
      var n := length;
      while n > 0
        invariant Valid() && T.Hexes(str, View(), n) == T.Hexes(str, old(View()), length)
      {
        if T.DigitValue(chr) >= 16 {
          return false;
        }
        Read();
        n := n - 1;
      }
      return true;
    }

    method ReadHexesInBraces() returns (ok: bool)
      requires Valid()
      modifies this
      ensures Valid() && (View(), ok) == T.HexesInBraces(str, old(View()))
    {
      hide T.Read;
      while chr != '}' as int && chr != T.EOF
        invariant Valid() && T.HexesInBraces(str, View()) == T.HexesInBraces(str, old(View()))
        decreases T.Left(str, View())
      {
        if T.DigitValue(chr) >= 16 {
          return false;
        }
        Read();
      }
      return true;
    }

    method ScanProperty()
      requires Valid()
      modifies this
      ensures Valid() && View() == T.Property(str, old(View()))
    {
      hide T.Read, T.Pass, T.PropertyName;
      Write(T.Ascii("\\"));
      Pass();
      if chr != '{' as int {
        Error(false, []);
        return;
      }
      Pass();
      if chr == '}' as int {
        Error(false, []);
        return;
      }
      ScanPropertyName();
    }

    method ScanPropertyName()
      requires Valid()
      modifies this
      ensures Valid() && View() == T.PropertyName(str, old(View()))
    {
      hide T.Read, T.Pass;
      while true
        invariant Valid() && T.PropertyName(str, View()) == T.PropertyName(str, old(View()))
        decreases T.Left(str, View())
      {
        Pass();
        if chr == T.EOF {
          Error(true, []);
          return;
        }
        if chr == '}' as int {
          break;
        }
      }
      Pass();
    }

    method ScanControl()
      requires Valid()
      modifies this
      ensures Valid() && View() == T.Control(str, old(View()))
    {
      hide T.HexEscape, T.Read;
      var value;
      if 'a' as int <= chr <= 'z' as int {
        value := chr - 'a' as int + 1;
      } else if 'A' as int <= chr <= 'Z' as int {
        value := chr - 'A' as int + 1;
      } else {
        Write(T.Ascii("c"));
        return;
      }
      Write(T.HexEscape(value));
      Read();
    }

    // scanEscape.
    method ScanEscape(inClass: bool)
      requires Valid() && chrOffset > 0
      modifies this
      ensures Valid() && View() == T.Escape(str, old(View()), inClass)
    {
      hide T.Octal, T.CodePoint, T.Property, T.Control, T.Pass, T.Read, T.WhitespaceText;
      var start := chrOffset;
      if T.IsOneOf(chr, "01234567") {
        ScanOctal();
      } else if T.IsOneOf(chr, "89") {
        Read();
        Error(false, str[start..chrOffset]);
      } else if chr == 'x' as int {
        Read();
        ScanCodePoint(start, 2);
      } else if chr == 'u' as int {
        Read();
        if chr == '{' as int {
          Read();
          ScanCodePoint(start, 0);
        } else {
          ScanCodePoint(start, 4);
        }
      } else if chr == 'b' as int && inClass {
        Write(T.Ascii("\\x08"));
        Read();
      } else if T.IsOneOf(chr, "bBdDwW\\fnrtv") {
        PassString(start - 1, offset);
        Read();
      } else if chr == 'c' as int {
        Read();
        ScanControl();
      } else if T.IsOneOf(chr, "sS") {
        if chr == 'S' as int && inClass {
          Error(false, []);
          return;
        }
        Write(T.WhitespaceText(chr, inClass));
        Read();
      } else if T.IsOneOf(chr, "pP") {
        ScanProperty();
      } else if T.NeedsEscaping(chr) {
        PassString(start - 1, offset);
        Read();
      } else {
        Pass();
      }
    }

    // A class that is replaced as a whole: `extra` characters more than the current one are skipped.
    method ReplaceClass(data: seq<byte>, extra: nat)
      requires Valid() && err.None? && offset + extra <= |str|
      modifies this
      ensures Valid() && View() == T.Read(str, T.Put(old(View()), data).(next := old(offset) + extra))
    {
      hide T.Read, T.InPlace;
      Write(data);
      offset := offset + extra;
      Read();
    }

    // scanBracket.
    method ScanBracket()
      requires Valid() && chr == '[' as int
      modifies this
      ensures Valid() && View() == T.Bracket(str, old(View()))
    {
      BracketCases(str, View());
      hide T.BracketBody, T.Pass, T.Read, T.Bracket, T.Ascii, T.NOTHING, T.ANYTHING;
      if T.Ascii("[]") <= str[chrOffset..] {
        ReplaceClass(T.NOTHING, 1);
        return;
      }
      if T.Ascii("[^]") <= str[chrOffset..] {
        ReplaceClass(T.ANYTHING, 2);
        return;
      }
      Pass();
      ScanBracketBody();
    }

    method ScanBracketBody()
      requires Valid()
      modifies this
      ensures Valid() && View() == T.BracketBody(str, old(View()))
    {
      hide T.Read, T.Pass, T.Escape;
      while chr != T.EOF
        invariant Valid() && T.BracketBody(str, View()) == T.BracketBody(str, old(View()))
        decreases T.Left(str, View())
      {
        if chr == ']' as int {
          break;
        } else if chr == '\\' as int {
          Read();
          ScanEscape(true);
          continue;
        }
        Pass();
      }
      if chr != ']' as int {
        Error(true, []);
        return;
      }
      Pass();
    }

    // scanGroup.
    method ScanGroup()
      requires Valid()
      modifies this
      ensures Valid() && View() == T.Group(str, old(View()))
      decreases T.Left(str, View()), 1
    {
      var rest := str[chrOffset..];
      if |rest| > 1 {
        if rest[0] == '?' as int {
          var ch := rest[1];
          if ch == '=' as int || ch == '!' as int || ch == '<' as int {
            Error(false, str[chrOffset..chrOffset + 2]);
            return;
          } else if ch != ':' as int {
            Error(true, []);
            return;
          }
        }
      }
      ScanGroupBody();
    }

    method ScanGroupBody()
      requires Valid()
      modifies this
      ensures Valid() && View() == T.GroupBody(str, old(View()))
      decreases T.Left(str, View()), 0
    {
      hide T.Read, T.Pass, T.Escape, T.Group, T.Bracket;
      while chr != T.EOF && chr != ')' as int
        invariant Valid() && T.GroupBody(str, View()) == T.GroupBody(str, old(View()))
        invariant T.Left(str, View()) <= T.Left(str, old(View()))
        decreases T.Left(str, View())
      {
        if chr == '\\' as int {
          Read();
          ScanEscape(false);
        } else if chr == '(' as int {
          Pass();
          ScanGroup();
        } else if chr == '[' as int {
          ScanBracket();
        } else if chr == '.' as int {
          Write(T.DOT);
          Read();
        } else {
          Pass();
          continue;
        }
      }
      if chr != ')' as int {
        Error(true, []);
        return;
      }
      Pass();
    }

    // scan.
    method Scan()
      requires Valid()
      modifies this
      ensures Valid() && View() == T.Scan(str, old(View()))
    {
      hide T.Read, T.Pass, T.Escape, T.Group, T.Bracket;
      while chr != T.EOF
        invariant Valid() && T.Scan(str, View()) == T.Scan(str, old(View()))
        decreases T.Left(str, View())
      {
        if chr == '\\' as int {
          Read();
          ScanEscape(false);
        } else if chr == '(' as int {
          Pass();
          ScanGroup();
        } else if chr == '[' as int {
          ScanBracket();
        } else if chr == ')' as int {
          Error(true, []);
          return;
        } else if chr == '.' as int {
          Write(T.DOT);
          Read();
        } else {
          Pass();
        }
      }
    }
  }

  // Convert.
  method Convert(pattern: seq<byte>) returns (converted: seq<byte>, ok: bool)
    ensures T.Converted(pattern) == if ok then Some(converted) else None
  {
    if pattern == [] {
      return [], true;
    }
    var p := new Parser(pattern);
    p.Read();
    p.Scan();
    if p.err.Some? {
      return [], false;
    }
    return p.ResultString(), true;
  }
}
