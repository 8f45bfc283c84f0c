/**
formatDuration, fmtFrac and fmtInt (runtime/codec/std_duration.go), which write into the same buffer
from the right. A slice buf[:w] of the buffer is the buffer and the index where the slice ends.
 */
module DurationBuffer {
  import opened Utf8
  import opened Duration

  const MIN_INT64 := -0x8000_0000_0000_0000
  const UINT64 := 0x1_0000_0000_0000_0000

  // One more byte to the left of what is written.
  method Put(buf: array<byte>, end: nat, b: byte) returns (w: nat)
    requires 0 < end <= buf.Length
    modifies buf
    ensures w == end - 1 && buf[w..] == [b] + old(buf[end..])
  {
    w := end - 1;
    buf[w] := b;
    assert buf[w..] == [buf[w]] + buf[w + 1..];
  }

  // fmtInt.
  method FmtInt(buf: array<byte>, end: nat, v: nat) returns (w: nat)
    requires |IntText(v)| <= end <= buf.Length
    modifies buf
    ensures w == end - |IntText(v)| && buf[w..] == IntText(v) + old(buf[end..])
  {
    if v == 0 {
      w := Put(buf, end, ZERO);
    } else {
      w := FmtDigits(buf, end, v);
    }
  }

  // The loop of fmtInt.
  method FmtDigits(buf: array<byte>, end: nat, v: nat) returns (w: nat)
    requires |IntDigits(v)| <= end <= buf.Length
    modifies buf
    ensures w == end - |IntDigits(v)| && buf[w..] == IntDigits(v) + old(buf[end..])
  {
    ghost var rest, done: text := buf[end..], [];
    w := end;
    var u := v;
    assert IntDigits(u) + done == IntDigits(v) && done + rest == rest;
    while u > 0
      invariant w <= end && |done| == end - w && IntDigits(u) + done == IntDigits(v)
      invariant buf[w..] == done + rest
    {
      assert |IntDigits(u)| + |done| == |IntDigits(v)|;
      w := Put(buf, w, 0x30 + u % 10);
      MoveDigit(IntDigits(u / 10), 0x30 + u % 10, done, rest);
      done := [0x30 + u % 10] + done;
      u := u / 10;
    }
  }

  lemma MoveDigit(digits: text, digit: byte, done: text, rest: text)
    ensures (digits + [digit]) + done == digits + ([digit] + done)
    ensures [digit] + (done + rest) == ([digit] + done) + rest
  {
  }

  // fmtFrac.
  method FmtFrac(buf: array<byte>, end: nat, v: nat, prec: nat) returns (nw: nat, nv: nat)
    requires prec < end <= buf.Length
    modifies buf
    ensures var t := FracText(FracDigits(v, prec, false)); nw == end - |t| && buf[nw..] == t + old(buf[end..])
    ensures nv == v / Pow10(prec)
  {
    var w, u, printFlag := end, v, false;
    ghost var done: text := [];
    assert buf[w..] == [] + old(buf[end..]);
    hide Digits, Pow10;
    for k := 0 to prec
      invariant w <= end && |done| == end - w <= k && (printFlag <==> done != [])
      invariant FracDigits(u, prec - k, printFlag) + done == FracDigits(v, prec, false)
      invariant DropDigits(u, prec - k) == DropDigits(v, prec)
      invariant buf[w..] == done + old(buf[end..])
    {
      var digit := u % 10;
      printFlag := printFlag || digit != 0;
      if printFlag {
        w := Put(buf, w, digit + 0x30);
        MoveDigit(FracDigits(u / 10, prec - k - 1, true), 0x30 + digit, done, old(buf[end..]));
        done := [0x30 + digit] + done;
      }
      u := u / 10;
    }
    if printFlag {
      w := Put(buf, w, POINT);
    }
    DropDigitsIsDivision(v, prec);
    return w, u;
  }

  // formatDuration, less than a second: smaller units are used.
  method FormatSmall(buf: array<byte>, u: nat) returns (w: nat)
    requires buf.Length == 32 && u < SECOND
    modifies buf
    ensures 0 < w <= 32 && buf[w..] == Magnitude(u)
  {
    var v, prec;
    w := Put(buf, 32, 0x73);
    if u == 0 {
      forall i | 0 <= i < 32 {
        buf[i] := 0;
      }
      buf[30], buf[31] := ZERO, 0x73;
      assert buf[30..] == [ZERO, 0x73];
      return 30;
    }
    hide IntText, FracDigits, FracText, Pow10;
    if u < MICROSECOND {
      prec := 0;
      w := Put(buf, w, 0x6E);
      assert buf[w..] == Symbol(Nanosecond);
    } else if u < MILLISECOND {
      prec := 3;
      w := Put(buf, w, 0xB5);
      w := Put(buf, w, 0xC2);
      assert buf[w..] == Symbol(Microsecond);
    } else {
      prec := 6;
      w := Put(buf, w, 0x6D);
      assert buf[w..] == Symbol(Millisecond);
    }
    SmallRoom(u);
    w, v := FmtFrac(buf, w, u, prec);
    w := FmtInt(buf, w, v);
    SmallText(u);
  }

  lemma SmallRoom(u: nat)
    requires u < SECOND
    ensures u < MICROSECOND ==> |IntText(u / Pow10(0))| + |FracText(FracDigits(u, 0, false))| < 20
    ensures u < MILLISECOND ==> |IntText(u / Pow10(3))| + |FracText(FracDigits(u, 3, false))| < 20
    ensures |IntText(u / Pow10(6))| + |FracText(FracDigits(u, 6, false))| < 20
  {
    Powers();
    assert Pow10(0) == 1;
    IntTextLength(u, 9);
    IntTextLength(u / MICROSECOND, 9);
    IntTextLength(u / MILLISECOND, 9);
  }

  lemma SmallText(u: nat)
    requires 0 < u < SECOND
    ensures var n := if u < MICROSECOND then 0 else if u < MILLISECOND then 3 else 6;
            var unit := if u < MICROSECOND then Nanosecond else if u < MILLISECOND then Microsecond else Millisecond;
            Magnitude(u) == IntText(u / Pow10(n)) + (FracText(FracDigits(u, n, false)) + Symbol(unit))
  {
    Powers();
    assert Pow10(0) == 1;
    hide IntText, Symbol, Pow10;
  }

  // formatDuration, from one second on.
  method FormatClock(buf: array<byte>, u: nat) returns (w: nat)
    requires buf.Length == 32 && SECOND <= u <= -MIN_INT64
    modifies buf
    ensures 0 < w <= 32 && buf[w..] == Magnitude(u)
  {
    hide IntText, FracDigits, FracText, Pow10, Magnitude;
    Powers();
    ClockRoom(u);
    ClockText(u);
    var v;
    w := Put(buf, 32, 0x73);
    assert buf[w..] == Symbol(Second);
    w, v := FmtFrac(buf, w, u, 9);
    w := FmtInt(buf, w, v % 60);
    v := v / 60;
    if v > 0 {
      w := Put(buf, w, 0x6D);
      w := FmtInt(buf, w, v % 60);
      v := v / 60;
      if v > 0 {
        w := Put(buf, w, 0x68);
        w := FmtInt(buf, w, v);
      }
    }
  }

  lemma ClockRoom(u: nat)
    requires SECOND <= u <= -MIN_INT64
    ensures |FracText(FracDigits(u, 9, false))| <= 10
    ensures var s := u / SECOND; |IntText(s % 60)| <= 2 && |IntText(s / 60 % 60)| <= 2 && |IntText(s / 3600)| <= 7
  {
    var s := u / SECOND;
    assert Pow10(2) == 100;
    Pow10Add(2, 5);
    assert Pow10(5) == 100_000;
    IntTextLength(s % 60, 2);
    IntTextLength(s / 60 % 60, 2);
    IntTextLength(s / 3600, 7);
  }

  // The text in the order it is written, from the right.
  lemma ClockText(u: nat)
    requires u >= SECOND
    ensures var s := u / SECOND;
            var seconds := IntText(s % 60) + (FracText(FracDigits(u, 9, false)) + Symbol(Second));
            var minutes := IntText(s / 60 % 60) + (Symbol(Minute) + seconds);
            Magnitude(u) == if s / 60 == 0 then seconds
                            else if s / 60 / 60 == 0 then minutes
                            else IntText(s / 60 / 60) + (Symbol(Hour) + minutes)
  {
    hide IntText, FracDigits;
    var s, fraction := u / SECOND, FracDigits(u, 9, false);
    var seconds := Term(s % 60, fraction, Second);
    TermText(s % 60, fraction, Second);
    WholeTermText(s / 60 % 60, Minute, seconds);
    var minutes := IntText(s / 60 % 60) + (Symbol(Minute) + seconds);
    WholeTermText(s / 3600, Hour, minutes);
    ClockAddsUp(u);
    hide Term, FracText, Symbol;
    assert HigherTerms(s) + seconds ==
           if s < 60 then seconds
           else if s < 3600 then Term(s / 60, [], Minute) + seconds
           else Term(s / 3600, [], Hour) + (Term(s / 60 % 60, [], Minute) + seconds);
  }

  lemma TermText(i: nat, digits: text, u: Unit)
    ensures Term(i, digits, u) == IntText(i) + (FracText(digits) + Symbol(u))
  {
  }

  lemma WholeTermText(i: nat, u: Unit, rest: text)
    ensures Term(i, [], u) + rest == IntText(i) + (Symbol(u) + rest)
  {
    hide IntText, Symbol;
  }

  // formatDuration.
  method FormatDuration(buf: array<byte>, d: int) returns (w: nat)
    requires buf.Length == 32 && MIN_INT64 <= d < -MIN_INT64
    modifies buf
    ensures w <= 32 && buf[w..] == Text(d)
  {
    hide Magnitude;
    w := 32;
    var u := d % UINT64;
    var neg := d < 0;
    if neg {
      u := -u % UINT64;
    }
    assert u == if neg then -d else d;
    if u < SECOND {
      w := FormatSmall(buf, u);
    } else {
      w := FormatClock(buf, u);
    }
    if neg {
      w := Put(buf, w, MINUS);
    }
  }
}
