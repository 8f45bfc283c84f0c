/**
The duration printer (runtime/codec/std_duration.go), which fills a fixed buffer of 32 bytes from the
right, and a reader of durations that is independent of it: what is printed is read back as exactly
the same number of nanoseconds.
 */
module Duration {
  import opened Wrappers
  import opened Utf8

  type text = seq<byte>

  const ZERO: byte := 0x30
  const POINT: byte := 0x2E
  const MINUS: byte := 0x2D

  function Pow10(n: nat): (p: nat)
    ensures p > 0
  {
    if n == 0 then 1 else 10 * Pow10(n - 1)
  }

  lemma {:induction false} Pow10Add(m: nat, n: nat)
    ensures Pow10(m + n) == Pow10(m) * Pow10(n)
  {
    if m > 0 {
      Pow10Add(m - 1, n);
      assert Pow10(m) * Pow10(n) == 10 * (Pow10(m - 1) * Pow10(n));
    }
  }

  // ----- Reading durations -----

  datatype Unit = Hour | Minute | Second | Millisecond | Microsecond | Nanosecond

  const MICROSECOND := 1_000
  const MILLISECOND := 1_000_000
  const SECOND := 1_000_000_000

  function Scale(u: Unit): nat {
    match u
    case Hour => 3600 * SECOND
    case Minute => 60 * SECOND
    case Second => SECOND
    case Millisecond => MILLISECOND
    case Microsecond => MICROSECOND
    case Nanosecond => 1
  }

  // h, m, s, ms, the micro sign (U+00B5) with s, and ns.
  function Symbol(u: Unit): (t: text)
    ensures t != []
  {
    match u
    case Hour => [0x68]
    case Minute => [0x6D]
    case Second => [0x73]
    case Millisecond => [0x6D, 0x73]
    case Microsecond => [0xC2, 0xB5, 0x73]
    case Nanosecond => [0x6E, 0x73]
  }

  // The longest symbol the text starts with.
  function ReadUnit(t: text): Option<Unit> {
    if Symbol(Millisecond) <= t then Some(Millisecond)
    else if Symbol(Microsecond) <= t then Some(Microsecond)
    else if Symbol(Nanosecond) <= t then Some(Nanosecond)
    else if Symbol(Hour) <= t then Some(Hour)
    else if Symbol(Minute) <= t then Some(Minute)
    else if Symbol(Second) <= t then Some(Second)
    else None
  }

  predicate IsDigit(b: byte) {
    0x30 <= b <= 0x39
  }

  predicate Digits(t: text) {
    forall i :: 0 <= i < |t| ==> IsDigit(t[i])
  }

  function DigitCount(t: text): (n: nat)
    ensures n <= |t|
  {
    if t == [] || !IsDigit(t[0]) then 0 else 1 + DigitCount(t[1..])
  }

  // The number a row of digits stands for.
  function Value(t: text): nat
    requires Digits(t)
  {
    if t == [] then 0 else Value(t[..|t| - 1]) * 10 + (Last(t) - 0x30)
  }

  function Last(t: text): int
    requires t != []
  {
    t[|t| - 1]
  }

  // A row of digits and the digits after the point, if there is one.
  function ReadNumber(t: text): (r: Option<(text, text)>)
    ensures r.Some? ==>
              Digits(r.value.0) && Digits(r.value.1) && r.value.0 != [] && |r.value.0 + FracText(r.value.1)| <= |t|
  {
    var n := DigitCount(t);
    DigitCountDigits(t);
    if n == 0 then None
    else if n == |t| || t[n] != POINT then Some((t[..n], []))
    else
      var k := DigitCount(t[n + 1..]);
      DigitCountDigits(t[n + 1..]);
      if k == 0 then None else Some((t[..n], t[n + 1..][..k]))
  }

  // Only whole numbers of nanoseconds are read.
  function Nanoseconds(whole: text, fraction: text, scale: nat): Option<int>
    requires Digits(whole) && Digits(fraction)
  {
    var parts := Value(fraction) * scale;
    if parts % Pow10(|fraction|) != 0 then None else Some(Value(whole) * scale + parts / Pow10(|fraction|))
  }

  // A number with a unit: how many nanoseconds, and how long the text is.
  function ReadTerm(t: text): (r: Option<(int, nat)>)
    ensures r.Some? ==> 0 < r.value.1 <= |t|
  {
    match ReadNumber(t)
    case None => None
    case Some((whole, fraction)) =>
      var end := |whole + FracText(fraction)|;
      match ReadUnit(t[end..])
      case None => None
      case Some(unit) =>
        UnitFits(t[end..], unit);
        match Nanoseconds(whole, fraction, Scale(unit))
        case None => None
        case Some(value) => Some((value, end + |Symbol(unit)|))
  }

  function ReadTerms(t: text): Option<int>
    decreases |t|
  {
    if t == [] then Some(0)
    else match ReadTerm(t)
      case None => None
      case Some((value, length)) =>
        match ReadTerms(t[length..])
        case None => None
        case Some(more) => Some(value + more)
  }

  // A duration: an optional sign and at least one term.
  function ReadDuration(t: text): Option<int> {
    if t == [] || t == [MINUS] then None
    else if t[0] == MINUS then
      match ReadTerms(t[1..])
      case None => None
      case Some(value) => Some(-value)
    else
      match ReadTerms(t)
      case None => None
      case Some(value) => Some(value)
  }

  lemma {:induction false} DigitCountDigits(t: text)
    ensures Digits(t[..DigitCount(t)])
  {
    if t != [] && IsDigit(t[0]) {
      DigitCountDigits(t[1..]);
      assert t[..DigitCount(t)] == [t[0]] + t[1..][..DigitCount(t[1..])];
    }
  }

  lemma UnitFits(t: text, u: Unit)
    requires ReadUnit(t) == Some(u)
    ensures |Symbol(u)| <= |t|
  {
  }

  // ----- Printing durations -----

  // The digits of v, none for 0.
  function IntDigits(v: nat): (t: text)
    ensures Digits(t) && (v > 0 <==> t != [])
  {
    if v == 0 then [] else IntDigits(v / 10) + [0x30 + v % 10]
  }

  function IntText(v: nat): (t: text)
    ensures Digits(t) && t != []
  {
    if v == 0 then [ZERO] else IntDigits(v)
  }

  // The last n digits of v without the zeros at the end, unless `printing` already.
  function FracDigits(v: nat, n: nat, printing: bool): (t: text)
    ensures Digits(t) && |t| <= n
  {
    if n == 0 then []
    else if printing || v % 10 != 0 then FracDigits(v / 10, n - 1, true) + [0x30 + v % 10]
    else FracDigits(v / 10, n - 1, false)
  }

  function FracText(digits: text): text {
    if digits == [] then [] else [POINT] + digits
  }

  function Term(i: nat, digits: text, u: Unit): text {
    IntText(i) + FracText(digits) + Symbol(u)
  }

  function Magnitude(u: nat): text {
    if u == 0 then [ZERO] + Symbol(Second)
    else if u < MICROSECOND then Term(u, [], Nanosecond)
    else if u < MILLISECOND then Term(u / MICROSECOND, FracDigits(u, 3, false), Microsecond)
    else if u < SECOND then Term(u / MILLISECOND, FracDigits(u, 6, false), Millisecond)
    else
      HigherTerms(u / SECOND) + Term(u / SECOND % 60, FracDigits(u, 9, false), Second)
  }

  // Hours and minutes of s seconds, as far as there are any.
  function HigherTerms(s: nat): text {
    if s < 60 then []
    else if s < 3600 then Term(s / 60, [], Minute)
    else Term(s / 3600, [], Hour) + Term(s / 60 % 60, [], Minute)
  }

  // The text of a duration of d nanoseconds.
  function Text(d: int): text {
    if d < 0 then [MINUS] + Magnitude(-d) else Magnitude(d)
  }

  // ----- What is printed is read back -----

  lemma {:induction false} IntDigitsValue(v: nat)
    ensures Value(IntDigits(v)) == v
  {
    if v > 0 {
      IntDigitsValue(v / 10);
      var t := IntDigits(v);
      assert t[..|t| - 1] == IntDigits(v / 10);
    }
  }

  lemma IntTextValue(v: nat)
    ensures Value(IntText(v)) == v
  {
    IntDigitsValue(v);
    assert Value([ZERO]) == 0 by {
      assert [ZERO][..0] == [];
    }
  }

  // The digits kept of a fraction stand for all of it, and the last one is no zero.
  predicate IsFraction(t: text, v: nat, n: nat) {
    && Digits(t) && |t| <= n
    && Value(t) * Pow10(n - |t|) == v % Pow10(n)
  }

  lemma {:induction false} FracDigitsValue(v: nat, n: nat, printing: bool)
    ensures var t := FracDigits(v, n, printing);
            && IsFraction(t, v, n)
            && (printing ==> |t| == n)
            && (!printing && t != [] ==> Last(t) != 0x30)
    decreases n
  {
    hide IsFraction;
    if n == 0 {
      EmptyFraction(v);
    } else if printing || v % 10 != 0 {
      FracDigitsValue(v / 10, n - 1, true);
      OneMoreDigit(FracDigits(v / 10, n - 1, true), v, n);
    } else {
      FracDigitsValue(v / 10, n - 1, false);
      NoMoreDigit(FracDigits(v / 10, n - 1, false), v, n);
    }
  }

  lemma EmptyFraction(v: nat)
    ensures IsFraction([], v, 0)
  {
  }

  lemma OneMoreDigit(t: text, v: nat, n: nat)
    requires n > 0 && IsFraction(t, v / 10, n - 1) && |t| == n - 1
    ensures IsFraction(t + [0x30 + v % 10], v, n)
  {
    ModTen(v, n);
    var more := t + [0x30 + v % 10];
    assert more[..|more| - 1] == t;
    assert Value(more) == Value(t) * 10 + v % 10;
    hide Value;
    assert Pow10(0) == 1;
  }

  lemma NoMoreDigit(t: text, v: nat, n: nat)
    requires n > 0 && IsFraction(t, v / 10, n - 1) && v % 10 == 0
    ensures IsFraction(t, v, n)
  {
    ModTen(v, n);
    hide Value;
    TimesTen(Value(t), n - 1 - |t|);
  }

  lemma TimesTen(x: nat, n: nat)
    ensures x * Pow10(n + 1) == x * Pow10(n) * 10
  {
  }

  lemma ModTen(v: nat, n: nat)
    requires n > 0
    ensures v % Pow10(n) == v / 10 % Pow10(n - 1) * 10 + v % 10
    ensures v / Pow10(n) == v / 10 / Pow10(n - 1)
  {
    var p, q := Pow10(n - 1), v / 10;
    var r := q % p * 10 + v % 10;
    assert q == q / p * p + q % p;
    assert v == (q / p) * (10 * p) + r;
    assert 0 <= r < 10 * p;
    ModUnique(v, 10 * p, q / p, r);
  }

  lemma ModUnique(v: nat, m: nat, k: nat, r: nat)
    requires v == k * m + r && r < m
    ensures v % m == r && v / m == k
  {
    assert v == v / m * m + v % m;
    SameQuotient(m, v / m, v % m, k, r);
  }

  lemma SameQuotient(m: nat, q: nat, s: nat, k: nat, r: nat)
    requires q * m + s == k * m + r && s < m && r < m
    ensures q == k && s == r
  {
    if q < k {
      OneMore(q, k, m);
    } else if k < q {
      OneMore(k, q, m);
    }
  }

  lemma OneMore(q: nat, k: nat, m: nat)
    requires q < k
    ensures q * m + m <= k * m
  {
    assert (k - q - 1) * m == k * m - q * m - m;
  }

  lemma {:induction false} DigitCountOf(digits: text, rest: text)
    requires Digits(digits) && (rest == [] || !IsDigit(rest[0]))
    ensures DigitCount(digits + rest) == |digits|
  {
    if digits == [] {
      assert digits + rest == rest;
    } else {
      assert (digits + rest)[1..] == digits[1..] + rest;
      DigitCountOf(digits[1..], rest);
    }
  }

  // A symbol is read for what it is unless more letters follow.
  lemma ReadSymbol(u: Unit, rest: text)
    requires rest == [] || IsDigit(rest[0])
    ensures ReadUnit(Symbol(u) + rest) == Some(u)
  {
    var t := Symbol(u) + rest;
    assert Symbol(u) <= t && (rest != [] ==> t[|Symbol(u)|] == rest[0]);
    forall v: Unit | Symbol(v) <= t
      ensures t[0] == Symbol(v)[0] && (|Symbol(v)| > 1 ==> t[1] == Symbol(v)[1])
    {
    }
  }

  // A row of digits is told from what follows.
  lemma ReadRow(whole: text, tail: text)
    requires Digits(whole) && tail != [] && !IsDigit(tail[0])
    ensures var t := whole + tail;
            && DigitCount(t) == |whole| && t[..|whole|] == whole
            && t[|whole|] == tail[0] && t[|whole| + 1..] == tail[1..]
  {
    DigitCountOf(whole, tail);
    hide Digits, DigitCount, IsDigit;
  }

  // A number as it is printed is read up to its unit.
  lemma ReadPrinted(whole: text, fraction: text, rest: text)
    requires Digits(whole) && Digits(fraction) && whole != []
    requires rest != [] && !IsDigit(rest[0]) && rest[0] != POINT
    ensures ReadNumber(whole + FracText(fraction) + rest) == Some((whole, fraction))
  {
    hide Digits, DigitCount, IsDigit;
    if fraction == [] {
      assert whole + FracText(fraction) + rest == whole + rest;
      ReadRow(whole, rest);
    } else {
      var tail := [POINT] + fraction + rest;
      assert whole + FracText(fraction) + rest == whole + tail;
      PointIsNoDigit();
      ReadRow(whole, tail);
      assert tail[1..] == fraction + rest;
      ReadRow(fraction, rest);
    }
  }

  lemma PointIsNoDigit()
    ensures !IsDigit(POINT)
  {
  }

  // The nanoseconds of v, of which the unit takes away n digits.
  lemma WholeAndFraction(i: nat, f: nat, n: nat, fraction: text, scale: nat)
    requires IsFraction(fraction, f, n) && scale == Pow10(n)
    ensures Nanoseconds(IntText(i), fraction, scale) == Some(i * scale + f % scale)
  {
    IntTextValue(i);
    Pow10Add(|fraction|, n - |fraction|);
    var x, p, q := Value(fraction), Pow10(|fraction|), Pow10(n - |fraction|);
    Reorder(x, p, q);
    ModUnique(x * scale, p, x * q, 0);
    hide Pow10, Value, IntText;
  }

  lemma Reorder(x: nat, p: nat, q: nat)
    ensures x * (p * q) == (x * q) * p + 0
  {
  }

  lemma WholeOnly(i: nat, scale: nat)
    ensures Nanoseconds(IntText(i), [], scale) == Some(i * scale)
  {
    IntTextValue(i);
    assert Pow10(0) == 1;
  }

  lemma TermIsReadAlone(i: nat, fraction: text, u: Unit, rest: text)
    requires Digits(fraction) && (rest == [] || IsDigit(rest[0]))
    requires Nanoseconds(IntText(i), fraction, Scale(u)).Some?
    ensures ReadTerm(Term(i, fraction, u) + rest) ==
            Some((Nanoseconds(IntText(i), fraction, Scale(u)).value, |Term(i, fraction, u)|))
  {
    hide Nanoseconds, IntText, FracText, Scale, Symbol, ReadNumber, ReadUnit, Value, DigitCount;
    var number, tail := IntText(i) + FracText(fraction), Symbol(u) + rest;
    assert Term(i, fraction, u) + rest == number + tail && (number + tail)[|number|..] == tail;
    SymbolStart(u);
    ReadPrinted(IntText(i), fraction, tail);
    ReadSymbol(u, rest);
  }

  lemma SymbolStart(u: Unit)
    ensures !IsDigit(Symbol(u)[0]) && Symbol(u)[0] != POINT
  {
  }

  // A printed term in front of other terms adds its value to theirs.
  lemma TermIsRead(i: nat, fraction: text, u: Unit, rest: text)
    requires Digits(fraction) && (rest == [] || IsDigit(rest[0])) && ReadTerms(rest).Some?
    requires Nanoseconds(IntText(i), fraction, Scale(u)).Some?
    ensures var t := Term(i, fraction, u) + rest;
            && t != [] && IsDigit(t[0])
            && ReadTerms(t) == Some(Nanoseconds(IntText(i), fraction, Scale(u)).value + ReadTerms(rest).value)
  {
    hide Nanoseconds, IntText, FracText, Scale, Symbol, ReadTerm, Value, DigitCount;
    var term := Term(i, fraction, u);
    TermIsReadAlone(i, fraction, u, rest);
    assert (term + rest)[0] == IntText(i)[0];
    assert (term + rest)[|term|..] == rest;
  }

  lemma MagnitudeIsRead(u: nat)
    ensures Magnitude(u) != [] && IsDigit(Magnitude(u)[0]) && ReadTerms(Magnitude(u)) == Some(u)
  {
    hide ReadTerms, Nanoseconds, IntText, Term, IsFraction, Value, IsDigit, Digits, FracDigits, Pow10;
    NoTerms();
    Powers();
    if u == 0 {
      ZeroText();
      WholeTerm(0, Second, []);
    } else if u < MICROSECOND {
      WholeTerm(u, Nanosecond, []);
      assert Term(u, [], Nanosecond) + [] == Magnitude(u);
    } else if u < MILLISECOND {
      FractionTerm(u / MICROSECOND, u, 3, Microsecond);
    } else if u < SECOND {
      FractionTerm(u / MILLISECOND, u, 6, Millisecond);
    } else {
      ClockIsRead(u);
    }
  }

  lemma Powers()
    ensures Pow10(3) == MICROSECOND && Pow10(6) == MILLISECOND && Pow10(9) == SECOND
  {
    assert Pow10(3) == MICROSECOND;
    Pow10Add(3, 3);
    Pow10Add(6, 3);
  }

  lemma NoTerms()
    ensures ReadTerms([]) == Some(0)
  {
  }

  lemma ZeroText()
    ensures Term(0, [], Second) + [] == Magnitude(0)
  {
  }

  lemma WholeTerm(i: nat, u: Unit, rest: text)
    requires (rest == [] || IsDigit(rest[0])) && ReadTerms(rest).Some?
    ensures var t := Term(i, [], u) + rest;
            t != [] && IsDigit(t[0]) && ReadTerms(t) == Some(i * Scale(u) + ReadTerms(rest).value)
  {
    hide ReadTerms, Nanoseconds, Term, Scale;
    WholeOnly(i, Scale(u));
    TermIsRead(i, [], u, rest);
  }

  lemma FractionTerm(i: nat, f: nat, n: nat, u: Unit)
    requires Scale(u) == Pow10(n)
    ensures var t := Term(i, FracDigits(f, n, false), u);
            t != [] && IsDigit(t[0]) && ReadTerms(t) == Some(i * Scale(u) + f % Scale(u))
  {
    hide ReadTerms, Nanoseconds, Term, Scale, IsFraction, Pow10, FracDigits, Value;
    var digits := FracDigits(f, n, false);
    NoTerms();
    FracDigitsValue(f, n, false);
    WholeAndFraction(i, f, n, digits, Scale(u));
    TermIsRead(i, digits, u, []);
    assert Term(i, digits, u) + [] == Term(i, digits, u);
  }

  lemma ClockAddsUp(u: nat)
    ensures var s := u / SECOND;
            && u == (s % 60) * SECOND + u % SECOND + (s / 60 % 60) * (60 * SECOND) + (s / 3600) * (3600 * SECOND)
            && s / 60 / 60 == s / 3600
  {
  }

  // Hours, minutes and seconds add up.
  lemma ClockIsRead(u: nat)
    requires u >= SECOND
    ensures Magnitude(u) != [] && IsDigit(Magnitude(u)[0]) && ReadTerms(Magnitude(u)) == Some(u)
  {
    hide ReadTerms, Nanoseconds, IntText, Term, IsFraction, Value, IsDigit, Digits, FracDigits, Pow10;
    Powers();
    ClockAddsUp(u);
    var s := u / SECOND;
    var seconds := Term(s % 60, FracDigits(u, 9, false), Second);
    FractionTerm(s % 60, u, 9, Second);
    if s < 60 {
      assert Magnitude(u) == seconds;
    } else {
      var minutes := Term(s / 60 % 60, [], Minute) + seconds;
      WholeTerm(s / 60 % 60, Minute, seconds);
      if s < 3600 {
        assert Magnitude(u) == minutes;
      } else {
        WholeTerm(s / 3600, Hour, minutes);
        assert Magnitude(u) == Term(s / 3600, [], Hour) + minutes;
      }
    }
  }

  // Every duration is printed as text that is read back as that duration.
  lemma TextIsRead(d: int)
    ensures ReadDuration(Text(d)) == Some(d)
  {
    MagnitudeIsRead(if d < 0 then -d else d);
    hide Magnitude, ReadTerms;
    if d < 0 {
      assert Text(d)[1..] == Magnitude(-d);
    }
  }

  lemma TextsDiffer(d: int, e: int)
    requires Text(d) == Text(e)
    ensures d == e
  {
    TextIsRead(d);
    TextIsRead(e);
  }

  // ----- The text, piece by piece -----

  // The usual notation of a number: no zeros in front.
  ghost predicate Decimal(t: text, n: nat) {
    t != [] && Digits(t) && Value(t) == n && (|t| > 1 ==> t[0] != 0x30)
  }

  lemma {:induction false} IntDigitsStart(v: nat)
    requires v > 0
    ensures IntDigits(v)[0] != 0x30
  {
    if v >= 10 {
      IntDigitsStart(v / 10);
    } else {
      assert IntDigits(v / 10) == [];
    }
  }

  lemma IntTextIs(v: nat)
    ensures Decimal(IntText(v), v)
  {
    IntTextValue(v);
    if v > 0 { IntDigitsStart(v); }
  }

  // Main theorem beside the reading back: which units a duration is written in, and with which digits. Below a
  // second the largest unit that leaves a whole part; from a second on hours and minutes as far as they are
  // needed, then seconds.
  lemma TextIs(u: nat) returns (h: text, m: text, w: text, f: text)
    ensures Digits(f) && (f != [] ==> Last(f) != 0x30)
    ensures Text(0) == [0x30, 0x73] && (u > 0 ==> Text(0 - u) == [0x2D] + Text(u))
    ensures 0 < u < 1_000 ==> Decimal(w, u) && Text(u) == w + [0x6E, 0x73]
    ensures 1_000 <= u < 1_000_000 ==>
              Decimal(w, u / 1_000) && IsFraction(f, u, 3) && Text(u) == w + Point(f) + [0xC2, 0xB5, 0x73]
    ensures 1_000_000 <= u < 1_000_000_000 ==>
              Decimal(w, u / 1_000_000) && IsFraction(f, u, 6) && Text(u) == w + Point(f) + [0x6D, 0x73]
    ensures u >= 1_000_000_000 ==>
              var s := u / 1_000_000_000;
              && Decimal(w, s % 60) && IsFraction(f, u, 9)
              && (s >= 60 ==> Decimal(m, s / 60 % 60)) && (s >= 3600 ==> Decimal(h, s / 3600))
              && Text(u) == (if s >= 3600 then h + [0x68] else []) + (if s >= 60 then m + [0x6D] else []) + (w + Point(f) + [0x73])
  {
    h, m, w, f := [], [], [], [];
    assert Text(0) == [0x30, 0x73] && (u > 0 ==> Text(0 - u) == [0x2D] + Text(u) && Text(u) == Magnitude(u)) by { Signs(u); }
    hide *;
    if 0 < u < 1_000 {
      w := SmallTextIs(u);
    } else if 1_000 <= u < 1_000_000 {
      MicrosecondText(u);
      w, f := TermIs(u / 1_000, u, 3, Microsecond);
    } else if 1_000_000 <= u < 1_000_000_000 {
      MillisecondText(u);
      w, f := TermIs(u / 1_000_000, u, 6, Millisecond);
    } else if u > 0 {
      var s := u / 1_000_000_000;
      w, f := TermIs(s % 60, u, 9, Second);
      h, m := ClockIs(s, u);
    }
  }

  lemma Signs(u: nat)
    ensures Text(0) == [0x30, 0x73] && (u > 0 ==> Text(0 - u) == [0x2D] + Text(u) && Text(u) == Magnitude(u))
  {
    hide FracDigits, IntText, HigherTerms, Term;
  }

  lemma SmallTextIs(u: nat) returns (w: text)
    requires 0 < u < 1_000
    ensures Decimal(w, u) && Magnitude(u) == w + [0x6E, 0x73]
  {
    w := IntText(u);
    IntTextIs(u);
    hide IntText, Decimal;
    assert w + [] + [0x6E, 0x73] == w + [0x6E, 0x73];
  }

  lemma MicrosecondText(u: nat)
    requires 1_000 <= u < 1_000_000
    ensures Magnitude(u) == Term(u / 1_000, FracDigits(u, 3, false), Microsecond)
  {
    hide FracDigits, Term;
  }

  lemma MillisecondText(u: nat)
    requires 1_000_000 <= u < 1_000_000_000
    ensures Magnitude(u) == Term(u / 1_000_000, FracDigits(u, 6, false), Millisecond)
  {
    hide FracDigits, Term;
  }

  lemma TermIs(i: nat, u: nat, n: nat, unit: Unit) returns (w: text, f: text)
    ensures Decimal(w, i) && IsFraction(f, u, n) && Digits(f) && (f != [] ==> Last(f) != 0x30)
    ensures Term(i, FracDigits(u, n, false), unit) == w + Point(f) + (
              match unit
              case Hour => [0x68] case Minute => [0x6D] case Second => [0x73]
              case Millisecond => [0x6D, 0x73] case Microsecond => [0xC2, 0xB5, 0x73] case Nanosecond => [0x6E, 0x73])
  {
    w, f := IntText(i), FracDigits(u, n, false);
    FracDigitsValue(u, n, false);
    IntTextIs(i);
    hide IntText, FracDigits, Decimal, Value;
  }

  lemma ClockIs(s: nat, u: nat) returns (h: text, m: text)
    requires u >= 1_000_000_000 && s == u / 1_000_000_000
    ensures (s >= 60 ==> Decimal(m, s / 60 % 60)) && (s >= 3600 ==> Decimal(h, s / 3600))
    ensures Magnitude(u) == (if s >= 3600 then h + [0x68] else []) + (if s >= 60 then m + [0x6D] else []) +
                            Term(s % 60, FracDigits(u, 9, false), Second)
  {
    h, m := IntText(s / 3600), IntText(s / 60 % 60);
    IntTextIs(s / 3600);
    IntTextIs(s / 60 % 60);
    assert s < 3600 ==> s / 60 == s / 60 % 60;
    WholeTermIs(s / 60 % 60, Minute);
    WholeTermIs(s / 3600, Hour);
    hide IntText, FracDigits, Decimal, Term;
  }

  lemma WholeTermIs(i: nat, unit: Unit)
    ensures Term(i, [], unit) == IntText(i) + Symbol(unit)
  {
    hide IntText;
    assert IntText(i) + [] + Symbol(unit) == IntText(i) + Symbol(unit);
  }

  function Point(digits: text): text {
    if digits == [] then [] else [0x2E] + digits
  }

  // ----- No zeros at the end of a fraction -----

  predicate NoPoint(t: text) {
    forall i :: 0 <= i < |t| ==> t[i] != POINT
  }

  // The digits that follow a point, up to the next character that is none, are some, and the last
  // one is no zero.
  ghost predicate Trimmed(t: text) {
    forall i, j :: 0 <= i < j < |t| && t[i] == POINT && Digits(t[i + 1..j]) && !IsDigit(t[j]) ==>
      i + 1 < j && t[j - 1] != ZERO
  }

  // The digits after the point end where they should.
  lemma FractionEnds(a: text, digits: text, s: text, j: nat)
    requires Digits(digits) && s != [] && !IsDigit(s[0])
    requires var t := a + [POINT] + digits + s; |a| < j < |t| && Digits(t[|a| + 1..j]) && !IsDigit(t[j])
    ensures j == |a| + 1 + |digits|
  {
    var t := a + [POINT] + digits + s;
    assert t[|a| + 1 + |digits|] == s[0];
    assert forall k :: |a| < k < |a| + 1 + |digits| ==> t[k] == digits[k - |a| - 1];
    assert forall k :: |a| < k < j ==> t[k] == t[|a| + 1..j][k - |a| - 1];
  }

  lemma OneFraction(a: text, digits: text, s: text)
    requires NoPoint(a) && NoPoint(s) && Digits(digits) && (digits != [] ==> Last(digits) != 0x30)
    requires s != [] && !IsDigit(s[0])
    ensures Trimmed(a + FracText(digits) + s)
  {
    var t := a + FracText(digits) + s;
    if digits == [] {
      assert NoPoint(t);
    } else {
      NoPointInDigits(digits);
      assert t == a + [POINT] + digits + s;
      assert t[|a| + |digits|] == Last(digits);
      assert forall i :: 0 <= i < |t| && t[i] == POINT ==> i == |a|;
      hide NoPoint, IsDigit;
      forall j | |a| < j < |t| && Digits(t[|a| + 1..j]) && !IsDigit(t[j])
        ensures |a| + 1 < j && t[j - 1] != ZERO
      {
        FractionEnds(a, digits, s, j);
      }
    }
  }

  lemma NoPointInDigits(t: text)
    requires Digits(t)
    ensures NoPoint(t)
  {
  }

  // What comes before the fraction of the last term, its digits, and its unit.
  lemma TextParts(d: int) returns (a: text, digits: text, u: Unit)
    ensures Text(d) == a + FracText(digits) + Symbol(u)
    ensures NoPoint(a) && Digits(digits) && (digits != [] ==> Last(digits) != 0x30)
  {
    hide IntText, FracDigits, Digits, NoPoint;
    var v: nat := if d < 0 then -d else d;
    a, digits, u := MagnitudeParts(v);
    if d < 0 {
      assert [MINUS] + (a + FracText(digits) + Symbol(u)) == ([MINUS] + a) + FracText(digits) + Symbol(u);
      NoPointPair([MINUS], a);
      a := [MINUS] + a;
    }
  }

  lemma NoPointPair(a: text, b: text)
    requires NoPoint(b) && (a == [MINUS] || NoPoint(a))
    ensures NoPoint(a + b)
  {
  }

  lemma MagnitudeParts(v: nat) returns (a: text, digits: text, u: Unit)
    ensures Magnitude(v) == a + FracText(digits) + Symbol(u)
    ensures NoPoint(a) && Digits(digits) && (digits != [] ==> Last(digits) != 0x30)
  {
    if v >= SECOND {
      u, digits := Second, FracDigits(v, 9, false);
      FracDigitsValue(v, 9, false);
      a := ClockParts(v);
    } else if v >= MICROSECOND {
      var n, i := if v < MILLISECOND then 3 else 6, if v < MILLISECOND then v / MICROSECOND else v / MILLISECOND;
      u, a, digits := if v < MILLISECOND then Microsecond else Millisecond, IntText(i), FracDigits(v, n, false);
      FracDigitsValue(v, n, false);
      NoPointInDigits(a);
    } else {
      u, a, digits := if v == 0 then Second else Nanosecond, IntText(v), [];
      NoPointInDigits(a);
    }
  }

  lemma ClockParts(v: nat) returns (a: text)
    requires v >= SECOND
    ensures NoPoint(a) && Magnitude(v) == a + FracText(FracDigits(v, 9, false)) + Symbol(Second)
  {
    var s, rest := v / SECOND, FracText(FracDigits(v, 9, false));
    NoPointInDigits(IntText(s % 60));
    NoPointInHigherTerms(s);
    hide IntText, FracDigits, FracText, NoPoint, Symbol, Digits, HigherTerms;
    a := HigherTerms(s) + IntText(s % 60);
    NoPointPair(HigherTerms(s), IntText(s % 60));
    assert HigherTerms(s) + (IntText(s % 60) + rest + Symbol(Second)) == a + rest + Symbol(Second);
  }

  lemma NoPointInHigherTerms(s: nat)
    ensures NoPoint(HigherTerms(s))
  {
    NoPointInTerm(s / 60, Minute);
    NoPointInTerm(s / 60 % 60, Minute);
    NoPointInTerm(s / 3600, Hour);
    NoPointPair(Term(s / 3600, [], Hour), Term(s / 60 % 60, [], Minute));
  }

  lemma NoPointInTerm(i: nat, u: Unit)
    ensures NoPoint(Term(i, [], u))
  {
    NoPointInDigits(IntText(i));
  }

  lemma TextIsTrimmed(d: int)
    ensures Trimmed(Text(d))
  {
    var a, digits, u := TextParts(d);
    SymbolStart(u);
    hide Text, Trimmed, FracText;
    OneFraction(a, digits, Symbol(u));
  }

  // ----- The buffer is large enough -----

  lemma {:induction false} IntDigitsLength(v: nat, n: nat)
    requires v < Pow10(n)
    ensures |IntDigits(v)| <= n
    decreases n
  {
    if v > 0 {
      IntDigitsLength(v / 10, n - 1);
    }
  }

  lemma IntTextLength(v: nat, n: nat)
    requires v < Pow10(n) && n > 0
    ensures |IntText(v)| <= n
  {
    IntDigitsLength(v, n);
  }

  // v with its last n digits gone.
  function DropDigits(v: nat, n: nat): nat {
    if n == 0 then v else DropDigits(v / 10, n - 1)
  }

  lemma {:induction false} DropDigitsIsDivision(v: nat, n: nat)
    ensures DropDigits(v, n) == v / Pow10(n)
    decreases n
  {
    if n > 0 {
      DropDigitsIsDivision(v / 10, n - 1);
      ModTen(v, n);
    }
  }
}
