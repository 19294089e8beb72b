// Text timestamps, and why comparing them as strings compares instants.
module Timestamps {
  import opened Common
  import opened PyStrings

  function Pow10(k: nat): (p: nat)
    ensures p > 0
  {
    if k == 0 then 1 else 10 * Pow10(k - 1)
  }

  lemma {:induction false} Pow10Splits(a: nat, b: nat)
    ensures Pow10(a + b) == Pow10(a) * Pow10(b)
  {
    if a > 0 { Pow10Splits(a - 1, b); }
  }

  function DigitChar(d: nat): char
    requires d < 10
  {
    "0123456789"[d]
  }

  /** The decimal text of n, zero-padded to exactly `width` characters. */
  function Digits(n: nat, width: nat): (s: string)
    ensures |s| == width
  {
    if width == 0 then "" else Digits(n / 10, width - 1) + [DigitChar(n % 10)]
  }

  lemma {:induction false} DigitsOrder(a: nat, b: nat, width: nat)
    requires a < Pow10(width) && b < Pow10(width)
    ensures Less(Digits(a, width), Digits(b, width)) <==> a < b
    ensures Digits(a, width) == Digits(b, width) <==> a == b
  {
    if width > 0 {
      DigitsOrder(a / 10, b / 10, width - 1);
      var x, y := [DigitChar(a % 10)], [DigitChar(b % 10)];
      LessAfterPrefix(Digits(a / 10, width - 1), Digits(b / 10, width - 1), x, y);
      assert Less(x, y) <==> a % 10 < b % 10;
      assert Digits(a, width)[..width - 1] == Digits(a / 10, width - 1);
      assert Digits(b, width)[..width - 1] == Digits(b / 10, width - 1);
      assert Digits(a, width)[width - 1] == x[0] && Digits(b, width)[width - 1] == y[0];
    }
  }

  /** n without its last `lo` decimal digits. */
  function Shift(n: nat, lo: nat): nat {
    if lo == 0 then n else Shift(n / 10, lo - 1)
  }

  /** The last `lo` decimal digits of n. */
  function Low(n: nat, lo: nat): nat {
    if lo == 0 then 0 else 10 * Low(n / 10, lo - 1) + n % 10
  }

  lemma {:induction false} DigitsSplit(n: nat, hi: nat, lo: nat)
    ensures Digits(n, hi + lo) == Digits(Shift(n, lo), hi) + Digits(n, lo)
  {
    if lo == 0 {
      assert Digits(Shift(n, 0), hi) + Digits(n, 0) == Digits(n, hi);
    } else {
      DigitsSplit(n / 10, hi, lo - 1);
      var last := [DigitChar(n % 10)];
      assert hi + lo - 1 == hi + (lo - 1);
      assert Digits(n, hi + lo) == Digits(n / 10, hi + (lo - 1)) + last;
      Regroup(Digits(Shift(n / 10, lo - 1), hi), Digits(n / 10, lo - 1), last);
    }
  }

  lemma Regroup(a: string, b: string, c: string)
    ensures a + b + c == a + (b + c)
  {}

  lemma {:induction false} ShiftLow(n: nat, lo: nat)
    ensures n == Shift(n, lo) * Pow10(lo) + Low(n, lo) && Low(n, lo) < Pow10(lo)
  {
    if lo > 0 {
      ShiftLow(n / 10, lo - 1);
      AppendDigit(n / 10, Shift(n / 10, lo - 1), Pow10(lo - 1), Low(n / 10, lo - 1), n % 10);
    }
  }

  lemma AppendDigit(n: nat, q: nat, p: nat, r: nat, d: nat)
    requires n == q * p + r && r < p && d < 10
    ensures 10 * n + d == q * (10 * p) + (10 * r + d) && 10 * r + d < 10 * p
  {
    calc {
      10 * n;
      10 * (q * p) + 10 * r;
      q * (10 * p) + 10 * r;
    }
  }

  lemma MulOrder(a: nat, b: nat, d: nat)
    ensures a <= b ==> a * d <= b * d
    ensures (a + 1) * d == a * d + d
  {
    if a <= b { assert b * d == a * d + (b - a) * d; }
  }

  // ---- calendar -----------------------------------------------------------

  predicate Leap(year: nat) { year % 4 == 0 && (year % 100 != 0 || year % 400 == 0) }

  function MonthLength(year: nat, month: nat): nat {
    if month == 2 then (if Leap(year) then 29 else 28)
    else if month in {4, 6, 9, 11} then 30 else 31
  }

  /** Every fourth year is a leap year, but of the centuries only every fourth. */
  lemma LeapYears(year: nat)
    ensures year % 100 != 0 ==> (Leap(year) <==> year % 4 == 0)
    ensures Leap(100 * year) <==> year % 4 == 0
  {
    assert (100 * year) % 4 == 0 by { assert 100 * year == 4 * (25 * year); }
    assert (100 * year) % 100 == 0;
    var q, r := year / 4, year % 4;
    assert 100 * year == 400 * q + 100 * r;
    assert (100 * year) % 400 == 100 * r;
  }

  function DaysBeforeYear(year: nat): nat {
    if year == 0 then 0 else DaysBeforeYear(year - 1) + (if Leap(year - 1) then 366 else 365)
  }

  function DaysBeforeMonth(year: nat, month: nat): nat
    requires 1 <= month <= 13
  {
    [0, 31, 59, 90, 120, 151, 181, 212, 243, 273, 304, 334, 365][month - 1]
    + if month > 2 && Leap(year) then 1 else 0
  }

  /** A civil date-time written with `digits` fraction digits; `frac` counts 10^-digits seconds. */
  datatype Text = Text(year: nat, month: nat, day: nat, hour: nat, minute: nat, second: nat,
                       digits: nat, frac: nat)
  {
    predicate Valid() {
      && year < 10000 && 1 <= month <= 12 && 1 <= day <= MonthLength(year, month)
      && hour < 24 && minute < 60 && second < 60
      && digits <= 6 && frac < Pow10(digits)
    }

    function DayNumber(): nat
      requires Valid()
    {
      DaysBeforeYear(year) + DaysBeforeMonth(year, month) + day
    }

    function Seconds(): nat
      requires Valid()
    {
      ((DayNumber() * 24 + hour) * 60 + minute) * 60 + second
    }

    function Micros(): nat
      requires digits <= 6
    {
      frac * Pow10(6 - digits)
    }

    /** The instant in microseconds. */
    function Instant(): nat
      requires Valid()
    {
      Seconds() * 1000000 + Micros()
    }

    /** `YYYY-MM-DD HH:MM:SS`, then `.` and the fraction digits if there are any. */
    function Render(): string { WholeThen(Fraction()) }

    function WholeThen(rest: string): string {
      Digits(year, 4) + ("-" + (Digits(month, 2) + ("-" + (Digits(day, 2) + (" " +
      (Digits(hour, 2) + (":" + (Digits(minute, 2) + (":" + (Digits(second, 2) + rest))))))))))
    }

    function Fraction(): string {
      if digits == 0 then "" else "." + Digits(frac, digits)
    }
  }

  /** The day after the last of a month is the first of the next, also across the new year. */
  lemma NextDay(a: Text, b: Text)
    requires a.Valid() && b.Valid()
    requires
      || (b.year == a.year && b.month == a.month && b.day == a.day + 1)
      || (a.day == MonthLength(a.year, a.month) && b.day == 1 &&
            ((b.year == a.year && b.month == a.month + 1) || (b.year == a.year + 1 && a.month == 12 && b.month == 1)))
    ensures b.DayNumber() == a.DayNumber() + 1
  {}

  /** An instant counts microseconds: within a day, those of the time of day; a day has 86400 seconds. */
  lemma InstantUnits(a: Text, b: Text)
    requires a.Valid() && b.Valid()
    ensures b.Instant() - a.Instant() == (b.DayNumber() - a.DayNumber()) * 86400000000
      + (b.hour - a.hour) * 3600000000 + (b.minute - a.minute) * 60000000 + (b.second - a.second) * 1000000
      + (b.Micros() - a.Micros())
  {}

  lemma {:induction false} YearsAddUp(a: nat, b: nat)
    requires a < b
    ensures DaysBeforeYear(a) + (if Leap(a) then 366 else 365) <= DaysBeforeYear(b)
  {
    if a < b - 1 { YearsAddUp(a, b - 1); }
  }

  lemma {:induction false} MonthsAddUp(year: nat, a: nat, b: nat)
    requires 1 <= a < b <= 13
    ensures DaysBeforeMonth(year, a) + MonthLength(year, a) <= DaysBeforeMonth(year, b)
  {
    if a < b - 1 { MonthsAddUp(year, a, b - 1); }
  }

  predicate DateBefore(a: Text, b: Text) {
    a.year < b.year || (a.year == b.year && (a.month < b.month || (a.month == b.month && a.day < b.day)))
  }

  lemma DayOrder(a: Text, b: Text)
    requires a.Valid() && b.Valid() && DateBefore(a, b)
    ensures a.DayNumber() < b.DayNumber()
  {
    if a.year < b.year {
      YearsAddUp(a.year, b.year);
      MonthsAddUp(a.year, a.month, 13);
    } else if a.month < b.month {
      MonthsAddUp(a.year, a.month, b.month);
    }
  }

  predicate WholeBefore(a: Text, b: Text) {
    DateBefore(a, b) ||
    (a.year == b.year && a.month == b.month && a.day == b.day &&
     (a.hour < b.hour || (a.hour == b.hour &&
      (a.minute < b.minute || (a.minute == b.minute && a.second < b.second)))))
  }

  predicate SameWhole(a: Text, b: Text) {
    a.(digits := 0, frac := 0) == b.(digits := 0, frac := 0)
  }

  lemma SecondsOrder(a: Text, b: Text)
    requires a.Valid() && b.Valid()
    ensures a.Seconds() < b.Seconds() <==> WholeBefore(a, b)
    ensures a.Seconds() == b.Seconds() <==> SameWhole(a, b)
  {
    if DateBefore(a, b) { DayOrder(a, b); }
    if DateBefore(b, a) { DayOrder(b, a); }
  }

  /** One fixed-width number followed by a separator decides unless the numbers tie. */
  lemma {:induction false} FieldOrder(a: nat, b: nat, width: nat, sep: string, x: string, y: string)
    requires a < Pow10(width) && b < Pow10(width)
    ensures Less(Digits(a, width) + (sep + x), Digits(b, width) + (sep + y))
      <==> a < b || (a == b && Less(x, y))
  {
    DigitsOrder(a, b, width);
    LessAfterPrefix(Digits(a, width), Digits(b, width), sep + x, sep + y);
    LessAfterPrefix(sep, sep, x, y);
    if Less(sep, sep) { LessIsAsymmetric(sep, sep); }
  }

  lemma {:induction false} WholeOrder(a: Text, b: Text, x: string, y: string)
    requires a.Valid() && b.Valid()
    ensures Less(a.WholeThen(x), b.WholeThen(y)) <==> WholeBefore(a, b) || (SameWhole(a, b) && Less(x, y))
  {
    assert Pow10(2) == 100 && Pow10(4) == 10000 by { assert Pow10(1) == 10; assert Pow10(3) == 1000; }
    var x6, y6 := Digits(a.second, 2) + x, Digits(b.second, 2) + y;
    var x5, y5 := Digits(a.minute, 2) + (":" + x6), Digits(b.minute, 2) + (":" + y6);
    var x4, y4 := Digits(a.hour, 2) + (":" + x5), Digits(b.hour, 2) + (":" + y5);
    var x3, y3 := Digits(a.day, 2) + (" " + x4), Digits(b.day, 2) + (" " + y4);
    var x2, y2 := Digits(a.month, 2) + ("-" + x3), Digits(b.month, 2) + ("-" + y3);
    FieldOrder(a.year, b.year, 4, "-", x2, y2);
    FieldOrder(a.month, b.month, 2, "-", x3, y3);
    FieldOrder(a.day, b.day, 2, " ", x4, y4);
    FieldOrder(a.hour, b.hour, 2, ":", x5, y5);
    FieldOrder(a.minute, b.minute, 2, ":", x6, y6);
    DigitsOrder(a.second, b.second, 2);
    LessAfterPrefix(Digits(a.second, 2), Digits(b.second, 2), x, y);
  }

  /** A shorter number against a longer one: the longer is cut, and wins a tie. */
  lemma DigitsAgainstLonger(a: nat, i: nat, b: nat, d: nat)
    requires a < Pow10(i) && b < Pow10(i + d)
    ensures Less(Digits(a, i), Digits(b, i + d)) <==> a < Shift(b, d) || (a == Shift(b, d) && d > 0)
    ensures Less(Digits(b, i + d), Digits(a, i)) <==> Shift(b, d) < a
  {
    var q, rest := Shift(b, d), Digits(b, d);
    DigitsSplit(b, i, d);
    ShiftInRange(b, i, d);
    DigitsOrder(a, q, i);
    DigitsOrder(q, a, i);
    LessAfterPrefix(Digits(a, i), Digits(q, i), "", rest);
    LessAfterPrefix(Digits(q, i), Digits(a, i), rest, "");
    assert Digits(a, i) + "" == Digits(a, i);
  }

  lemma FractionOrder(a: Text, b: Text)
    requires a.Valid() && b.Valid()
    ensures Less(a.Fraction(), b.Fraction())
      <==> a.Micros() < b.Micros() || (a.Micros() == b.Micros() && a.digits < b.digits)
  {
    LessAfterPrefix(".", ".", Digits(a.frac, a.digits), Digits(b.frac, b.digits));
    if a.digits <= b.digits {
      FractionOrderShort(a.frac, a.digits, b.frac, b.digits);
    } else {
      FractionOrderShort(b.frac, b.digits, a.frac, a.digits);
    }
  }

  lemma {:induction false} FractionOrderShort(a: nat, i: nat, b: nat, j: nat)
    requires i <= j <= 6 && a < Pow10(i) && b < Pow10(j)
    ensures Less(Digits(a, i), Digits(b, j))
      <==> a * Pow10(6 - i) < b * Pow10(6 - j) || (a * Pow10(6 - i) == b * Pow10(6 - j) && i < j)
    ensures Less(Digits(b, j), Digits(a, i)) <==> b * Pow10(6 - j) < a * Pow10(6 - i)
  {
    var d := j - i;
    assert d + (6 - j) == 6 - i && i + d == j;
    ScaleShort(a, b, d, 6 - j);
    DigitsAgainstLonger(a, i, b, d);
  }

  lemma ShiftInRange(n: nat, hi: nat, lo: nat)
    requires n < Pow10(hi + lo)
    ensures Shift(n, lo) < Pow10(hi)
  {
    Pow10Splits(hi, lo);
    ShiftLow(n, lo);
    MulOrder(Pow10(hi), Shift(n, lo), Pow10(lo));
  }

  /** x units against y units that are 10^d times finer, both scaled by 10^e. */
  lemma ScaleShort(x: nat, y: nat, d: nat, e: nat)
    ensures x * Pow10(d + e) < y * Pow10(e) <==> x < Shift(y, d) || (x == Shift(y, d) && Low(y, d) > 0)
    ensures x * Pow10(d + e) == y * Pow10(e) <==> x == Shift(y, d) && Low(y, d) == 0
    ensures d == 0 ==> Low(y, d) == 0
  {
    Pow10Splits(d, e);
    var p, s := Pow10(d), Pow10(e);
    assert x * (p * s) == (x * p) * s;
    CompareScaled(x * p, y, s);
    ShiftLow(y, d);
    CompareQuotient(x, Shift(y, d), Low(y, d), p);
  }

  lemma CompareQuotient(x: nat, q: nat, r: nat, p: nat)
    requires r < p
    ensures x * p < q * p + r <==> x < q || (x == q && r > 0)
    ensures x * p == q * p + r <==> x == q && r == 0
  {
    MulOrder(x + 1, q, p);
    MulOrder(q + 1, x, p);
    MulOrder(x, q, p);
    MulOrder(q, x, p);
  }

  lemma CompareScaled(a: nat, b: nat, s: nat)
    requires s > 0
    ensures a * s < b * s <==> a < b
    ensures a * s == b * s <==> a == b
  {
    MulOrder(a + 1, b, s);
    MulOrder(b + 1, a, s);
    MulOrder(a, b, s);
    MulOrder(b, a, s);
  }

  /** `_ts_compare_lt` on text timestamps. */
  predicate TsCompareLt(a: Option<string>, b: string) {
    a.None? || Less(a.value, b)
  }

  /** String order is time order, except that of two texts for one instant the shorter comes first. */
  lemma StringOrderIsTimeOrder(a: Text, b: Text)
    requires a.Valid() && b.Valid()
    ensures TsCompareLt(Some(a.Render()), b.Render())
      <==> a.Instant() < b.Instant() || (a.Instant() == b.Instant() && a.digits < b.digits)
  {
    WholeOrder(a, b, a.Fraction(), b.Fraction());
    SecondsOrder(a, b);
    FractionOrder(a, b);
    MicrosBounded(a);
    MicrosBounded(b);
  }

  lemma MicrosBounded(a: Text)
    requires a.Valid()
    ensures a.Micros() < 1000000
  {
    Pow10Splits(a.digits, 6 - a.digits);
    assert Pow10(6) == 1000000 by { assert Pow10(2) == 100; assert Pow10(4) == 10000; }
    MulOrder(a.frac + 1, Pow10(a.digits), Pow10(6 - a.digits));
    MulOrder(a.frac, a.frac, Pow10(6 - a.digits));
  }

  /** The stored watermark always has six digits, so the freshness, skip and empty-window
      tests decide exactly "before", and their negation exactly "at or after". */
  lemma StoredWatermarkComparesExactly(stored: Text, end: Text)
    requires stored.Valid() && end.Valid() && stored.digits == 6
    ensures TsCompareLt(Some(stored.Render()), end.Render()) <==> stored.Instant() < end.Instant()
  {
    StringOrderIsTimeOrder(stored, end);
  }
}
