/** Printing amounts with at most six decimals, and the cash thresholds stored in that form. */
module Decimal {
  import opened Options
  import opened Text
  import opened Preferences

  const MILLION := 1000000

  /** The nearest count of millionths; halves go to the even neighbour. */
  function Millionths(x: real): (n: int)
    ensures -0.5 <= x * 1000000.0 - n as real <= 0.5
    ensures x * 1000000.0 - n as real == 0.5 || x * 1000000.0 - n as real == -0.5 ==> n % 2 == 0
  {
    var scaled := x * 1000000.0;
    var low := scaled.Floor;
    var rest := scaled - low as real;
    if rest < 0.5 || (rest == 0.5 && low % 2 == 0) then low else low + 1
  }

  function Amount(n: int): real { n as real / 1000000.0 }

  /** The character of a digit. */
  function Digit(d: int): char
    requires 0 <= d < 10
  {
    "0123456789"[d]
  }

  function Digits(n: nat): (s: string)
    ensures s != ""
  {
    if n < 10 then [Digit(n)] else Digits(n / 10) + [Digit(n % 10)]
  }

  /** The last k decimal digits of n. */
  function Padded(n: nat, k: nat): (s: string)
    ensures |s| == k
  {
    if k == 0 then "" else Padded(n / 10, k - 1) + [Digit(n % 10)]
  }

  function Fixed(n: nat): string { Digits(n / MILLION) + "." + Padded(n % MILLION, 6) }

  function Shortened(s: string): string { DropTrailing(DropTrailing(s, '0'), '.') }

  /** The text of an amount: six decimals, then trailing zeros and a trailing point dropped.
      A negative amount keeps its sign even when it rounds to zero. */
  function Format(x: real): string {
    var n := Millionths(x);
    var size := if n < 0 then -n else n;
    Shortened(if x < 0.0 then "-" + Fixed(size) else Fixed(size))
  }

  /* ---------- reading it back ---------- */

  predicate IsDigit(c: char) { '0' <= c <= '9' }

  function DigitValue(c: char): (d: nat)
    requires IsDigit(c)
    ensures d < 10 && Digit(d) == c
  {
    c as int - '0' as int
  }

  predicate AllDigits(s: string) { forall c | c in s :: IsDigit(c) }

  function Value(s: string): nat
    requires AllDigits(s)
  {
    if s == "" then 0
    else
      assert s[|s| - 1] in s;
      10 * Value(s[..|s| - 1]) + DigitValue(s[|s| - 1])
  }

  function Power(k: nat): nat
    ensures Power(k) > 0
  {
    if k == 0 then 1 else 10 * Power(k - 1)
  }

  /** The millionths that `whole.fraction` stands for, with at most six decimals. */
  function Scaled(whole: string, fraction: string): nat
    requires AllDigits(whole) && AllDigits(fraction) && |fraction| <= 6
  {
    Value(whole) * MILLION + Value(fraction) * Power(6 - |fraction|)
  }

  function IndexOfPoint(s: string): (i: nat)
    ensures i <= |s| && '.' !in s[..i] && (i < |s| ==> s[i] == '.')
  {
    if s == "" || s[0] == '.' then 0
    else
      var i := IndexOfPoint(s[1..]);
      assert s[..i + 1] == [s[0]] + s[1..][..i];
      i + 1
  }

  /** Reads digits, and optionally a point and at most six more digits, into millionths. */
  function Magnitude(s: string): Option<int> {
    var i := IndexOfPoint(s);
    var whole, fraction := s[..i], if i < |s| then s[i + 1..] else "";
    if whole == "" || !AllDigits(whole) || !AllDigits(fraction) || |fraction| > 6 || (i < |s| && fraction == "")
    then None
    else Some(Scaled(whole, fraction))
  }

  /** Reads a magnitude behind an optional sign. */
  function Parse(text: string): Option<int> {
    if text != "" && text[0] == '-' then
      match Magnitude(text[1..]) case None => None case Some(n) => Some(-n)
    else Magnitude(text)
  }

  /** No superfluous zero at either end and no bare point. */
  predicate CanonicalMagnitude(s: string) {
    var i := IndexOfPoint(s);
    Magnitude(s).Some? && (i > 1 ==> s[0] != '0') && (i < |s| ==> s[|s| - 1] != '0')
  }

  predicate Canonical(text: string) {
    if text != "" && text[0] == '-' then CanonicalMagnitude(text[1..]) else CanonicalMagnitude(text)
  }

  lemma ValueOfAppended(s: string, d: int)
    requires AllDigits(s) && 0 <= d < 10
    ensures AllDigits(s + [Digit(d)]) && Value(s + [Digit(d)]) == 10 * Value(s) + d
  {
    var t := s + [Digit(d)];
    assert t[..|t| - 1] == s && t[|t| - 1] == Digit(d);
    assert IsDigit(Digit(d)) && DigitValue(Digit(d)) == d;
    assert AllDigits(t);
  }

  lemma {:induction false} DigitsValue(n: nat)
    ensures AllDigits(Digits(n)) && Value(Digits(n)) == n
    ensures |Digits(n)| > 1 ==> Digits(n)[0] != '0'
  {
    hide Value, AllDigits;
    AllDigitsEmpty();
    if n < 10 {
      ValueOfAppended("", n);
      assert "" + [Digit(n)] == Digits(n);
    } else {
      DigitsValue(n / 10);
      ValueOfAppended(Digits(n / 10), n % 10);
    }
  }

  lemma AllDigitsEmpty()
    ensures AllDigits("") && Value("") == 0
  {
  }

  lemma {:induction false} PaddedValue(n: nat, k: nat)
    ensures AllDigits(Padded(n, k))
    ensures n < Power(k) ==> Value(Padded(n, k)) == n
  {
    hide Value, AllDigits, Digit;
    AllDigitsEmpty();
    if k == 0 {
    } else {
      PaddedValue(n / 10, k - 1);
      ValueOfAppended(Padded(n / 10, k - 1), n % 10);
    }
  }

  /** Dropping trailing zeros is made up for by a power of ten. */
  lemma {:induction false} DroppedValue(s: string)
    requires AllDigits(s)
    ensures AllDigits(DropTrailing(s, '0'))
    ensures Value(s) == Value(DropTrailing(s, '0')) * Power(|s| - |DropTrailing(s, '0')|)
  {
    hide Value, AllDigits;
    if s != "" && s[|s| - 1] == '0' {
      var s' := s[..|s| - 1];
      DigitsOfPrefix(s);
      DroppedValue(s');
      ValueOfAppended(s', 0);
      assert s' + [Digit(0)] == s;
      var v, p := Value(DropTrailing(s', '0')), Power(|s'| - |DropTrailing(s', '0')|);
      assert 10 * (v * p) == v * (10 * p);
    }
  }

  lemma DigitsOfPrefix(s: string)
    requires s != "" && AllDigits(s)
    ensures AllDigits(s[..|s| - 1])
  {
  }

  lemma {:induction false} DroppedAppend(a: string, b: string, c: char)
    requires a != "" && a[|a| - 1] != c
    ensures DropTrailing(a + b, c) == a + DropTrailing(b, c)
  {
    if b == "" {
      assert a + b == a;
    } else {
      assert (a + b)[|a + b| - 1] == b[|b| - 1];
      if b[|b| - 1] == c {
        assert (a + b)[..|a + b| - 1] == a + b[..|b| - 1];
        DroppedAppend(a, b[..|b| - 1], c);
      }
    }
  }

  /** The decimals with their point, or nothing. */
  function Tail(fraction: string): string { if fraction == "" then "" else "." + fraction }

  lemma ShortenedTail(whole: string, padded: string)
    requires whole != "" && IsDigit(whole[|whole| - 1]) && AllDigits(padded)
    ensures Shortened(whole + "." + padded) == whole + Tail(DropTrailing(padded, '0'))
  {
    hide DropTrailing;
    var fraction := DropTrailing(padded, '0');
    var head := whole + ".";
    DroppedAppend(head, padded, '0');
    if fraction == "" {
      assert head + fraction == head;
      DroppedAppend(whole, ".", '.');
      PointDropped();
    } else {
      var s := head + fraction;
      assert s[|s| - 1] == fraction[|fraction| - 1] && fraction[|fraction| - 1] in padded;
      NotDropped(s, '.');
      assert s == whole + Tail(fraction);
    }
  }

  lemma PointDropped()
    ensures DropTrailing(".", '.') == ""
  {
  }

  lemma NotDropped(s: string, c: char)
    requires s != "" && s[|s| - 1] != c
    ensures DropTrailing(s, c) == s
  {
  }

  lemma {:induction false} PointAfter(whole: string, fraction: string)
    requires AllDigits(whole)
    ensures IndexOfPoint(whole + Tail(fraction)) == |whole|
  {
    var s := whole + Tail(fraction);
    if whole == "" {
      assert s == Tail(fraction);
    } else {
      assert whole[0] in whole;
      assert s[1..] == whole[1..] + Tail(fraction);
      PointAfter(whole[1..], fraction);
    }
  }

  lemma SplitAtPoint(whole: string, fraction: string)
    requires whole != "" && AllDigits(whole)
    ensures var s := whole + Tail(fraction);
            && IndexOfPoint(s) == |whole| && s[..|whole|] == whole && s[0] == whole[0]
            && (if fraction == "" then |s| == |whole|
                else |s| > |whole| && s[|whole| + 1..] == fraction && s[|s| - 1] == fraction[|fraction| - 1])
  {
    hide IndexOfPoint, AllDigits;
    PointAfter(whole, fraction);
    var s := whole + Tail(fraction);
    assert s[..|whole|] == whole;
    if fraction != "" {
      assert s[|whole| + 1..] == fraction;
    }
  }

  lemma MagnitudeOf(whole: string, fraction: string)
    requires whole != "" && AllDigits(whole) && AllDigits(fraction) && |fraction| <= 6
    requires (|whole| > 1 ==> whole[0] != '0') && (fraction != "" ==> fraction[|fraction| - 1] != '0')
    ensures var s := whole + Tail(fraction);
            Magnitude(s) == Some(Scaled(whole, fraction)) && CanonicalMagnitude(s)
  {
    hide Scaled, IndexOfPoint, AllDigits, Tail;
    SplitAtPoint(whole, fraction);
  }

  function Signed(negative: bool, n: int): int { if negative then -n else n }

  /** The shortened text of n millionths reads back as n millionths and is canonical. */
  lemma MagnitudeRoundTrip(n: nat)
    ensures var s := Digits(n / MILLION) + Tail(DropTrailing(Padded(n % MILLION, 6), '0'));
            Magnitude(s) == Some(n) && CanonicalMagnitude(s)
  {
    hide Magnitude, CanonicalMagnitude, DropTrailing, Tail, Digits, Padded, Value, AllDigits;
    var whole, padded := Digits(n / MILLION), Padded(n % MILLION, 6);
    DigitsValue(n / MILLION);
    PaddedValue(n % MILLION, 6);
    DroppedValue(padded);
    SixDigits();
    MagnitudeOf(whole, DropTrailing(padded, '0'));
    assert n == n / MILLION * MILLION + n % MILLION;
  }

  lemma SixDigits()
    ensures Power(6) == MILLION
  {
    assert Power(3) == 1000;
  }

  lemma ParseShortened(negative: bool, n: nat)
    ensures var text := Shortened(if negative then "-" + Fixed(n) else Fixed(n));
            Parse(text) == Some(Signed(negative, n)) && Canonical(text)
  {
    hide Shortened, Magnitude, CanonicalMagnitude, DropTrailing, Tail, Digits, Padded, Value, AllDigits;
    var prefix := if negative then "-" else "";
    var whole, padded := Digits(n / MILLION), Padded(n % MILLION, 6);
    var s := whole + Tail(DropTrailing(padded, '0'));
    DigitsValue(n / MILLION);
    EndsAreDigits(whole);
    PaddedValue(n % MILLION, 6);
    ShortenedTail(prefix + whole, padded);
    assert prefix + whole + "." + padded == prefix + Fixed(n);
    assert "" + Fixed(n) == Fixed(n);
    assert prefix + whole + Tail(DropTrailing(padded, '0')) == prefix + s;
    assert negative ==> (prefix + s)[1..] == s;
    assert !negative ==> prefix + s == s;
    assert s[0] == whole[0];
    MagnitudeRoundTrip(n);
  }

  lemma EndsAreDigits(s: string)
    requires s != "" && AllDigits(s)
    ensures IsDigit(s[0]) && IsDigit(s[|s| - 1])
  {
  }

  /** Every printed amount reads back as its nearest count of millionths, in canonical text. */
  lemma FormatRoundTrips(x: real)
    ensures Parse(Format(x)) == Some(Millionths(x)) && Canonical(Format(x))
  {
    hide Shortened, Fixed, Parse, Canonical;
    var n := Millionths(x);
    SignKept(x);
    ParseShortened(x < 0.0, if n < 0 then -n else n);
  }

  lemma SignKept(x: real)
    ensures x < 0.0 ==> Millionths(x) <= 0
    ensures x >= 0.0 ==> Millionths(x) >= 0
  {
  }

  lemma MillionthsExact(n: int)
    ensures Millionths(Amount(n)) == n
  {
    assert Amount(n) * 1000000.0 == n as real;
  }

  /** An exact count of millionths survives printing and reading, so printing such amounts
      is injective. */
  lemma PrintingIsInjective(n: int, n': int)
    ensures Parse(Format(Amount(n))) == Some(n)
    ensures Format(Amount(n)) == Format(Amount(n')) ==> n == n'
  {
    FormatRoundTrips(Amount(n));
    FormatRoundTrips(Amount(n'));
    MillionthsExact(n);
    MillionthsExact(n');
  }

  /** Rounding never swaps two amounts. */
  lemma RoundingIsMonotone(x: real, y: real)
    requires x <= y
    ensures Millionths(x) <= Millionths(y)
  {
    var a, b := x * 1000000.0, y * 1000000.0;
    assert a <= b && a.Floor <= b.Floor;
  }

  lemma PrintedIsNotEmpty(x: real)
    ensures Format(x) != ""
  {
    hide Format;
    FormatRoundTrips(x);
  }
}
