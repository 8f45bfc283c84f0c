/**
UTF-8 (RFC 3629) as the Go library decodes and encodes it, one character at a time.
 */
module Utf8 {
  type byte = b: int | 0 <= b < 0x100

  const RUNE_SELF := 0x80
  const RUNE_ERROR := 0xFFFD

  predicate Tail(b: byte) {
    0x80 <= b <= 0xBF
  }

  // The first character and its width; (RUNE_ERROR, 1) if there is none.
  function DecodeRune(s: seq<byte>): (int, nat)
    requires s != []
  {
    if s[0] < 0x80 then (s[0], 1)
    else if 0xC2 <= s[0] <= 0xDF && |s| >= 2 && Tail(s[1]) then
      ((s[0] as int - 0xC0) * 0x40 + (s[1] as int - 0x80), 2)
    else if 0xE0 <= s[0] <= 0xEF && |s| >= 3 && Tail(s[1]) && Tail(s[2])
            && (s[0] == 0xE0 ==> s[1] >= 0xA0) && (s[0] == 0xED ==> s[1] <= 0x9F) then
      ((s[0] as int - 0xE0) * 0x1000 + (s[1] as int - 0x80) * 0x40 + (s[2] as int - 0x80), 3)
    else if 0xF0 <= s[0] <= 0xF4 && |s| >= 4 && Tail(s[1]) && Tail(s[2]) && Tail(s[3])
            && (s[0] == 0xF0 ==> s[1] >= 0x90) && (s[0] == 0xF4 ==> s[1] <= 0x8F) then
      ((s[0] as int - 0xF0) * 0x40000 + (s[1] as int - 0x80) * 0x1000 + (s[2] as int - 0x80) * 0x40 + (s[3] as int - 0x80), 4)
    else (RUNE_ERROR, 1)
  }

  function EncodeRune(r: int): seq<byte> {
    if 0 <= r < 0x80 then [r]
    else if 0x80 <= r < 0x800 then [0xC0 + r / 0x40, 0x80 + r % 0x40]
    else if r < 0 || r > 0x10FFFF || 0xD800 <= r <= 0xDFFF then [0xEF, 0xBF, 0xBD]
    else if r < 0x10000 then [0xE0 + r / 0x1000, 0x80 + r / 0x40 % 0x40, 0x80 + r % 0x40]
    else [0xF0 + r / 0x40000, 0x80 + r / 0x1000 % 0x40, 0x80 + r / 0x40 % 0x40, 0x80 + r % 0x40]
  }

  predicate Malformed(s: seq<byte>)
    requires s != []
  {
    DecodeRune(s) == (RUNE_ERROR, 1)
  }

  // Encoding what was decoded gives back the very bytes.
  lemma EncodeDecode(s: seq<byte>)
    requires s != [] && !Malformed(s)
    ensures var (r, width) := DecodeRune(s); 0 <= r && 0 < width <= |s| && EncodeRune(r) == s[..width]
  {
    var (r, width) := DecodeRune(s);
    assert s[..width] == if width == 1 then [s[0]] else if width == 2 then [s[0], s[1]]
                         else if width == 3 then [s[0], s[1], s[2]] else [s[0], s[1], s[2], s[3]];
    if width == 3 {
      Encode3(s[0] as int - 0xE0, s[1] as int - 0x80, s[2] as int - 0x80);
    } else if width == 4 {
      Encode4(s[0] as int - 0xF0, s[1] as int - 0x80, s[2] as int - 0x80, s[3] as int - 0x80);
    }
  }

  lemma Encode3(a: int, b: int, c: int)
    requires 0 <= a < 0x10 && 0 <= b < 0x40 && 0 <= c < 0x40
    requires (a == 0 ==> b >= 0x20) && (a == 0xD ==> b < 0x20)
    ensures EncodeRune(a * 0x1000 + b * 0x40 + c) == [0xE0 + a, 0x80 + b, 0x80 + c]
  {
    var r := a * 0x1000 + b * 0x40 + c;
    assert r / 0x1000 == a && r / 0x40 % 0x40 == b && r % 0x40 == c;
  }

  lemma Encode4(a: int, b: int, c: int, d: int)
    requires 0 <= a < 5 && 0 <= b < 0x40 && 0 <= c < 0x40 && 0 <= d < 0x40
    requires (a == 0 ==> b >= 0x10) && (a == 4 ==> b < 0x10)
    ensures EncodeRune(a * 0x40000 + b * 0x1000 + c * 0x40 + d) == [0xF0 + a, 0x80 + b, 0x80 + c, 0x80 + d]
  {
    var r, q := a * 0x40000 + b * 0x1000 + c * 0x40 + d, a * 0x40 + b;
    Radix64(q * 0x40 + c, d);
    Radix64(q, c);
    Radix64(a, b);
    Radix4096(q, c * 0x40 + d);
    Radix262144(a, b * 0x1000 + c * 0x40 + d);
    assert r == (q * 0x40 + c) * 0x40 + d && r == q * 0x1000 + (c * 0x40 + d);
  }

  lemma Radix64(x: int, y: int)
    requires 0 <= y < 0x40
    ensures (x * 0x40 + y) / 0x40 == x && (x * 0x40 + y) % 0x40 == y
  {
  }

  lemma Radix4096(x: int, y: int)
    requires 0 <= y < 0x1000
    ensures (x * 0x1000 + y) / 0x1000 == x
  {
  }

  lemma Radix262144(x: int, y: int)
    requires 0 <= y < 0x40000
    ensures (x * 0x40000 + y) / 0x40000 == x
  {
  }

  // Text that decodes all the way.
  predicate Valid(s: seq<byte>)
    decreases |s|
  {
    s == [] || (!Malformed(s) && DecodeRune(s).1 <= |s| && Valid(s[DecodeRune(s).1..]))
  }

  // What decodes to a character does so with anything behind it.
  lemma DecodePrefix(s: seq<byte>, t: seq<byte>)
    requires s != [] && !Malformed(s)
    ensures !Malformed(s + t) && DecodeRune(s + t) == DecodeRune(s)
  {
  }

  lemma {:induction false} ValidConcat(s: seq<byte>, t: seq<byte>)
    requires Valid(s)
    ensures Valid(s + t) <==> Valid(t)
    decreases |s|
  {
    if s == [] {
      assert s + t == t;
    } else {
      EncodeDecode(s);
      DecodePrefix(s, t);
      var width := DecodeRune(s).1;
      assert (s + t)[width..] == s[width..] + t;
      ValidConcat(s[width..], t);
    }
  }

  // Whatever is encoded is well-formed; what is no character becomes U+FFFD.
  lemma EncodingIsValid(r: int)
    ensures Valid(EncodeRune(r))
  {
    var s := EncodeRune(r);
    EncodingDecodes(r);
    hide EncodeRune, DecodeRune;
    assert s[|s|..] == [];
  }

  lemma EncodingDecodes(r: int)
    ensures var s := EncodeRune(r); s != [] && !Malformed(s) && DecodeRune(s).1 == |s|
  {
    if 0x10000 <= r <= 0x10FFFF {
      LongEncodingDecodes(r / 0x40000, r / 0x1000 % 0x40, r / 0x40 % 0x40, r % 0x40);
    }
  }

  lemma LongEncodingDecodes(a: int, b: int, c: int, d: int)
    requires 0 <= a < 5 && 0 <= b < 0x40 && 0 <= c < 0x40 && 0 <= d < 0x40
    requires (a == 0 ==> b >= 0x10) && (a == 4 ==> b < 0x10)
    ensures var s := [0xF0 + a, 0x80 + b, 0x80 + c, 0x80 + d]; !Malformed(s) && DecodeRune(s).1 == 4
  {
  }
}
