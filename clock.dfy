/**
 * Times of day as the slot controller writes them: "HH:MM" strings, read as
 * minutes since midnight and written back with both fields zero-padded to two
 * digits.
 */
module Clock {
  import opened Lexicographic

  predicate IsDigit(c: char) { '0' <= c <= '9' }

  predicate AllDigits(s: string) { forall i :: 0 <= i < |s| ==> IsDigit(s[i]) }

  function DigitValue(c: char): (d: nat)
    requires IsDigit(c)
    ensures d < 10
  {
    c as int - '0' as int
  }

  function DigitChar(d: nat): (c: char)
    requires d < 10
    ensures IsDigit(c) && DigitValue(c) == d
  {
    ('0' as int + d) as char
  }

  /** The number a run of decimal digits denotes (leading zeros allowed). */
  function DecimalValue(s: string): nat
    requires AllDigits(s)
    decreases |s|
  {
    if s == [] then 0 else 10 * DecimalValue(s[..|s| - 1]) + DigitValue(s[|s| - 1])
  }

  /** Decimal notation of `n` without leading zeros, as `String(n)` produces it. */
  function Decimal(n: nat): (s: string)
    ensures 1 <= |s| && AllDigits(s)
    ensures DecimalValue(s) == n
  {
    if n < 10 then [DigitChar(n)]
    else
      var prefix := Decimal(n / 10);
      assert (prefix + [DigitChar(n % 10)])[..|prefix|] == prefix;
      prefix + [DigitChar(n % 10)]
  }

  /** `padStart(2, "0")`: zeros in front until the string is two characters long. */
  function PadStart2(s: string): (r: string)
    ensures |r| == if |s| < 2 then 2 else |s|
    ensures r[|r| - |s|..] == s
    ensures forall i :: 0 <= i < |r| - |s| ==> r[i] == '0'
  {
    if |s| < 2 then seq(2 - |s|, _ => '0') + s else s
  }

  /** Minutes since midnight written as zero-padded hours, a colon, zero-padded minutes. */
  function Format(m: nat): string
  {
    PadStart2(Decimal(m / 60)) + ":" + PadStart2(Decimal(m % 60))
  }

  /** Index of the first colon, or the length when there is none. */
  function ColonIndex(s: string): (k: nat)
    ensures k <= |s|
    ensures k < |s| ==> s[k] == ':'
    ensures forall i :: 0 <= i < k ==> s[i] != ':'
  {
    if s == [] || s[0] == ':' then 0 else 1 + ColonIndex(s[1..])
  }

  /**
   * A time the controller can read: hours and minutes, both non-empty runs
   * of digits, separated by the only colon.
   */
  predicate ValidTime(s: string)
  {
    var k := ColonIndex(s);
    0 < k < |s| - 1 && AllDigits(s[..k]) && AllDigits(s[k + 1..])
  }

  /** `hours * 60 + minutes` for "hours:minutes". */
  function Parse(s: string): nat
    requires ValidTime(s)
  {
    var k := ColonIndex(s);
    60 * DecimalValue(s[..k]) + DecimalValue(s[k + 1..])
  }

  /**
   * The written form of a time of day before 100:00: exactly what Format
   * produces for its own value.
   */
  predicate Canonical(s: string)
  {
    ValidTime(s) && Parse(s) < 6000 && s == Format(Parse(s))
  }

  lemma {:induction false} LeadingZeros(z: string, s: string)
    requires forall i :: 0 <= i < |z| ==> z[i] == '0'
    requires AllDigits(s)
    ensures AllDigits(z + s) && DecimalValue(z + s) == DecimalValue(s)
    decreases |s|, |z|
  {
    assert AllDigits(z + s);
    if s == [] {
      assert z + s == z;
      if z != [] {
        LeadingZeros(z[..|z| - 1], []);
        assert z[..|z| - 1] + [] == z[..|z| - 1];
      }
    } else {
      var s' := s[..|s| - 1];
      assert (z + s)[..|z + s| - 1] == z + s';
      LeadingZeros(z, s');
    }
  }

  lemma PaddedValue(n: nat)
    ensures AllDigits(PadStart2(Decimal(n)))
    ensures DecimalValue(PadStart2(Decimal(n))) == n
  {
    var s := Decimal(n);
    var p := PadStart2(s);
    var z := p[..|p| - |s|];
    assert p == z + s;
    LeadingZeros(z, s);
  }

  lemma {:induction false} ColonAfterDigits(a: string, b: string)
    requires AllDigits(a)
    ensures ColonIndex(a + ":" + b) == |a|
  {
    if a != [] {
      assert (a + ":" + b)[1..] == a[1..] + ":" + b;
      ColonAfterDigits(a[1..], b);
    }
  }

  /** Reading a formatted time gives back the minutes it was formatted from. */
  lemma ParseFormat(m: nat)
    ensures ValidTime(Format(m)) && Parse(Format(m)) == m
  {
    var h := PadStart2(Decimal(m / 60));
    var mm := PadStart2(Decimal(m % 60));
    var s := Format(m);
    PaddedValue(m / 60);
    PaddedValue(m % 60);
    ColonAfterDigits(h, mm);
    assert s[..|h|] == h;
    assert s[|h| + 1..] == mm;
  }

  /** Every formatted value is canonical if it is before 100:00. */
  lemma FormatCanonical(m: nat)
    requires m < 6000
    ensures Canonical(Format(m))
  {
    ParseFormat(m);
  }

  lemma PaddedTwoDigits(n: nat)
    requires n < 100
    ensures PadStart2(Decimal(n)) == [DigitChar(n / 10), DigitChar(n % 10)]
  {
    if n >= 10 {
      assert Decimal(n / 10) == [DigitChar(n / 10)];
    }
  }

  /** Before 100:00 a formatted time is exactly "HH:MM": five characters, colon in the middle. */
  lemma FormatShape(m: nat)
    requires m < 6000
    ensures Format(m) == [DigitChar(m / 60 / 10), DigitChar(m / 60 % 10), ':',
                          DigitChar(m % 60 / 10), DigitChar(m % 60 % 10)]
  {
    var h, mm := PadStart2(Decimal(m / 60)), PadStart2(Decimal(m % 60));
    PaddedTwoDigits(m / 60);
    PaddedTwoDigits(m % 60);
    ConcatFive(h, mm);
  }

  lemma ConcatFive(h: string, mm: string)
    requires |h| == 2 && |mm| == 2
    ensures h + ":" + mm == [h[0], h[1], ':', mm[0], mm[1]]
  {
  }

  lemma DigitCharOrder(d: nat, e: nat)
    requires d < 10 && e < 10
    ensures DigitChar(d) < DigitChar(e) <==> d < e
    ensures DigitChar(d) == DigitChar(e) <==> d == e
  {
  }

  lemma DigitRoundTrip(c: char)
    requires IsDigit(c)
    ensures DigitChar(DigitValue(c)) == c
  {
  }

  lemma TwoDigitValue(x: char, y: char)
    requires IsDigit(x) && IsDigit(y)
    ensures AllDigits([x, y]) && DecimalValue([x, y]) == 10 * DigitValue(x) + DigitValue(y)
  {
    var s := [x, y];
    assert s[..1] == [x] && s[1] == y;
    assert [x][..0] == [] && [x][0] == x;
    assert DecimalValue([x]) == DigitValue(x);
  }

  /** A string is written "HH:MM": two digits, a colon, a digit up to 5, a digit. */
  predicate HourMinuteShape(s: string)
  {
    |s| == 5 && s[2] == ':' && IsDigit(s[0]) && IsDigit(s[1])
    && IsDigit(s[3]) && '0' <= s[3] <= '5' && IsDigit(s[4])
  }

  /** Reading an "HH:MM" string weighs its four digits. */
  lemma ParseShape(s: string)
    requires HourMinuteShape(s)
    ensures ValidTime(s)
    ensures Parse(s) == 60 * (10 * DigitValue(s[0]) + DigitValue(s[1]))
                       + (10 * DigitValue(s[3]) + DigitValue(s[4]))
  {
    var h, mm := s[..2], s[3..];
    assert h == [s[0], s[1]] && mm == [s[3], s[4]];
    TwoDigitValue(s[0], s[1]);
    TwoDigitValue(s[3], s[4]);
    assert s == h + ":" + mm;
    ColonAfterDigits(h, mm);
  }

  lemma HourMinuteSplit(hours: nat, minutes: nat)
    requires minutes < 60
    ensures (60 * hours + minutes) / 60 == hours && (60 * hours + minutes) % 60 == minutes
  {
  }

  lemma TensSplit(tens: nat, units: nat)
    requires units < 10
    ensures (10 * tens + units) / 10 == tens && (10 * tens + units) % 10 == units
  {
  }

  /** Formatting the time whose four digits are given writes exactly those digits. */
  lemma FormatDigits(a: nat, b: nat, c: nat, d: nat)
    requires a < 10 && b < 10 && c < 6 && d < 10
    ensures 60 * (10 * a + b) + (10 * c + d) < 6000
    ensures Format(60 * (10 * a + b) + (10 * c + d))
         == [DigitChar(a), DigitChar(b), ':', DigitChar(c), DigitChar(d)]
  {
    var hours, minutes := 10 * a + b, 10 * c + d;
    var m := 60 * hours + minutes;
    HourMinuteSplit(hours, minutes);
    TensSplit(a, b);
    TensSplit(c, d);
    assert m / 60 / 10 == a && m / 60 % 10 == b && m % 60 / 10 == c && m % 60 % 10 == d;
    FormatShape(m);
  }

  lemma FiveChars(s: string)
    requires |s| == 5
    ensures s == [s[0], s[1], s[2], s[3], s[4]]
  {
  }

  lemma CanonicalFrom(s: string, m: nat)
    requires ValidTime(s) && Parse(s) == m && m < 6000 && Format(m) == s
    ensures Canonical(s)
  {
  }

  /** Every zero-padded "HH:MM" string is canonical: reading and formatting it gives it back. */
  lemma ShapeIsCanonical(s: string)
    requires HourMinuteShape(s)
    ensures Canonical(s)
  {
    var a, b, c, d := DigitValue(s[0]), DigitValue(s[1]), DigitValue(s[3]), DigitValue(s[4]);
    ParseShape(s);
    FormatDigits(a, b, c, d);
    DigitRoundTrip(s[0]);
    DigitRoundTrip(s[1]);
    DigitRoundTrip(s[3]);
    DigitRoundTrip(s[4]);
    FiveChars(s);
    CanonicalFrom(s, 60 * (10 * a + b) + (10 * c + d));
  }

  /** Conversely, every canonical string has the "HH:MM" shape. */
  lemma CanonicalShape(s: string)
    requires Canonical(s)
    ensures HourMinuteShape(s)
  {
    var m := Parse(s);
    var a, b, c, d := m / 60 / 10, m / 60 % 10, m % 60 / 10, m % 60 % 10;
    Digits(m);
    FormatShape(m);
    assert s == [DigitChar(a), DigitChar(b), ':', DigitChar(c), DigitChar(d)];
    assert |s| == 5 && s[2] == ':';
    assert s[0] == DigitChar(a) && s[1] == DigitChar(b);
    assert s[3] == DigitChar(c) && s[4] == DigitChar(d);
    DigitCharOrder(c, 5);
  }

  /** The four digits of "HH:MM" for a time before 100:00, and what they weigh. */
  lemma Digits(m: nat)
    requires m < 6000
    ensures m / 60 / 10 < 10 && m % 60 / 10 < 6
    ensures m == 600 * (m / 60 / 10) + 60 * (m / 60 % 10) + 10 * (m % 60 / 10) + m % 60 % 10
  {
    var h, mm := m / 60, m % 60;
    assert m == 60 * h + mm;
    assert h == 10 * (h / 10) + h % 10;
    assert mm == 10 * (mm / 10) + mm % 10;
  }

  /** Digits compared from the most significant one. */
  predicate DigitsLe(a1: nat, a2: nat, a3: nat, a4: nat, b1: nat, b2: nat, b3: nat, b4: nat)
  {
    a1 < b1 || (a1 == b1 && (a2 < b2 || (a2 == b2 && (a3 < b3 || (a3 == b3 && a4 <= b4)))))
  }

  lemma WeightedOrder(a1: nat, a2: nat, a3: nat, a4: nat, b1: nat, b2: nat, b3: nat, b4: nat)
    requires a2 < 10 && a3 < 6 && a4 < 10 && b2 < 10 && b3 < 6 && b4 < 10
    ensures DigitsLe(a1, a2, a3, a4, b1, b2, b3, b4)
        <==> 600 * a1 + 60 * a2 + 10 * a3 + a4 <= 600 * b1 + 60 * b2 + 10 * b3 + b4
  {
  }

  /** Five-character "..:.." strings compare by their four other characters in turn. */
  lemma FiveCharLe(x1: char, x2: char, x3: char, x4: char, y1: char, y2: char, y3: char, y4: char)
    ensures StrLe([x1, x2, ':', x3, x4], [y1, y2, ':', y3, y4])
        <==> x1 < y1 || (x1 == y1 && (x2 < y2 || (x2 == y2 && (x3 < y3 || (x3 == y3 && x4 <= y4)))))
  {
    assert [x1, x2, ':', x3, x4] == [x1] + [x2, ':', x3, x4];
    assert [y1, y2, ':', y3, y4] == [y1] + [y2, ':', y3, y4];
    StrLeCons(x1, [x2, ':', x3, x4], y1, [y2, ':', y3, y4]);
    assert [x2, ':', x3, x4] == [x2] + [':', x3, x4];
    assert [y2, ':', y3, y4] == [y2] + [':', y3, y4];
    StrLeCons(x2, [':', x3, x4], y2, [':', y3, y4]);
    assert [':', x3, x4] == [':'] + [x3, x4];
    assert [':', y3, y4] == [':'] + [y3, y4];
    StrLeCons(':', [x3, x4], ':', [y3, y4]);
    assert [x3, x4] == [x3] + [x4];
    assert [y3, y4] == [y3] + [y4];
    StrLeCons(x3, [x4], y3, [y4]);
    assert [x4] == [x4] + [];
    assert [y4] == [y4] + [];
    StrLeCons(x4, [], y4, []);
  }

  lemma DigitStringLe(a1: nat, a2: nat, a3: nat, a4: nat, b1: nat, b2: nat, b3: nat, b4: nat)
    requires a1 < 10 && a2 < 10 && a3 < 10 && a4 < 10
    requires b1 < 10 && b2 < 10 && b3 < 10 && b4 < 10
    ensures StrLe([DigitChar(a1), DigitChar(a2), ':', DigitChar(a3), DigitChar(a4)],
                  [DigitChar(b1), DigitChar(b2), ':', DigitChar(b3), DigitChar(b4)])
        <==> DigitsLe(a1, a2, a3, a4, b1, b2, b3, b4)
  {
    DigitCharOrder(a1, b1);
    DigitCharOrder(a2, b2);
    DigitCharOrder(a3, b3);
    DigitCharOrder(a4, b4);
    FiveCharLe(DigitChar(a1), DigitChar(a2), DigitChar(a3), DigitChar(a4),
               DigitChar(b1), DigitChar(b2), DigitChar(b3), DigitChar(b4));
  }

  lemma FormatStrLe(a: nat, b: nat)
    requires a < 6000 && b < 6000
    ensures StrLe(Format(a), Format(b))
        <==> DigitsLe(a / 60 / 10, a / 60 % 10, a % 60 / 10, a % 60 % 10,
                      b / 60 / 10, b / 60 % 10, b % 60 / 10, b % 60 % 10)
  {
    Digits(a);
    Digits(b);
    FormatShape(a);
    FormatShape(b);
    DigitStringLe(a / 60 / 10, a / 60 % 10, a % 60 / 10, a % 60 % 10,
                  b / 60 / 10, b / 60 % 10, b % 60 / 10, b % 60 % 10);
  }

  /**
   * Comparing two formatted times as strings orders them the same way as
   * comparing their minutes, for every time before 100:00.
   */
  lemma FormatOrder(a: nat, b: nat)
    requires a < 6000 && b < 6000
    ensures StrLe(Format(a), Format(b)) <==> a <= b
  {
    Digits(a);
    Digits(b);
    FormatStrLe(a, b);
    WeightedOrder(a / 60 / 10, a / 60 % 10, a % 60 / 10, a % 60 % 10,
                  b / 60 / 10, b / 60 % 10, b % 60 / 10, b % 60 % 10);
  }
}
