/** Fixed-width UTC stamps (section 5.6 of RFC 3339) and the instants they name:
    comparing the texts is comparing the instants (section 5.1 of RFC 3339). */
module Timestamps {
  import opened PyText

  datatype Utc = Utc(year: nat, month: nat, day: nat, hour: nat, minute: nat, second: nat)

  predicate IsLeap(year: nat) {
    year % 4 == 0 && (year % 100 != 0 || year % 400 == 0)
  }

  function MonthLength(year: nat, month: nat): (n: nat)
    requires 1 <= month <= 12
    ensures 28 <= n <= 31
  {
    if month == 2 then (if IsLeap(year) then 29 else 28)
    else if month in {4, 6, 9, 11} then 30 else 31
  }

  predicate Valid(u: Utc) {
    && 1 <= u.year <= 9999 && 1 <= u.month <= 12 && 1 <= u.day <= MonthLength(u.year, u.month)
    && u.hour < 24 && u.minute < 60 && u.second < 60
  }

  // ------------------------------------------------------------------
  // The instant: seconds since the start of year one
  // ------------------------------------------------------------------

  function DaysBeforeMonth(year: nat, month: nat): nat
    requires 1 <= month <= 13
  {
    if month == 1 then 0 else DaysBeforeMonth(year, month - 1) + MonthLength(year, month - 1)
  }

  function DaysBeforeYear(year: nat): nat {
    if year <= 1 then 0 else DaysBeforeYear(year - 1) + DaysBeforeMonth(year - 1, 13)
  }

  /** The twelve lengths one by one, and a year of 365 or 366 days. */
  lemma MonthTable(year: nat, month: nat)
    requires 1 <= month <= 12
    ensures MonthLength(year, month)
         == [31, if IsLeap(year) then 29 else 28, 31, 30, 31, 30, 31, 31, 30, 31, 30, 31][month - 1]
  {
  }

  lemma OneMonth(year: nat, month: nat)
    requires 1 <= month <= 12
    ensures DaysBeforeMonth(year, month + 1) == DaysBeforeMonth(year, month) + MonthLength(year, month)
    ensures DaysBeforeMonth(year, 1) == 0
  {
  }

  lemma YearLength(year: nat)
    ensures DaysBeforeMonth(year, 13) == if IsLeap(year) then 366 else 365
  {
    hide DaysBeforeMonth, IsLeap;
    OneMonth(year, 1);
    for m := 1 to 13
      invariant DaysBeforeMonth(year, m) == DaysAt(IsLeap(year), m)
    {
      OneMonth(year, m);
    }
  }

  /** Days before a month of a leap year, or of another. */
  ghost function DaysAt(leap: bool, month: nat): nat
    requires 1 <= month <= 13
  {
    [0, 31, 59, 90, 120, 151, 181, 212, 243, 273, 304, 334, 365][month - 1] + if leap && month > 2 then 1 else 0
  }

  lemma OneYear(year: nat)
    requires year >= 1
    ensures DaysBeforeYear(year + 1) == DaysBeforeYear(year) + DaysBeforeMonth(year, 13)
    ensures DaysBeforeYear(1) == 0
  {
  }

  /** Leap days in the first `n` years: one in every fourth, none in every hundredth,
      one in every four hundredth. */
  ghost function LeapDays(n: nat): int {
    n / 4 - n / 100 + n / 400
  }

  /** The days before a year follow the Gregorian rule in closed form. */
  lemma {:induction false} DaysBeforeYearIs(year: nat)
    requires year >= 1
    ensures DaysBeforeYear(year) == 365 * (year - 1) + LeapDays(year - 1)
  {
    OneYear(1);
    assert LeapDays(0) == 0;
    hide IsLeap, DaysBeforeYear, DaysBeforeMonth, LeapDays;
    if year == 1 {
    } else {
      var before: nat := year - 1;
      DaysBeforeYearIs(before);
      OneYear(before);
      YearLength(before);
      LeapCount(before);
    }
  }

  lemma LeapCount(year: nat)
    requires year >= 1
    ensures LeapDays(year) == LeapDays(year - 1) + if IsLeap(year) then 1 else 0
  {
    QuotientStep(year, 4);
    QuotientStep(year, 100);
    QuotientStep(year, 400);
    Divides(year, 100, 4);
    Divides(year, 4, 25);
  }

  /** A multiple of `k * m` is a multiple of `k`. */
  lemma Divides(n: nat, k: nat, m: nat)
    requires k >= 1 && m >= 1
    ensures n % (k * m) == 0 ==> n % k == 0
  {
    if n % (k * m) == 0 {
      var q := n / (k * m);
      assert n == q * (k * m) == (q * m) * k + 0;
      QuotientIs(n, k, q * m, 0);
    }
  }

  lemma QuotientStep(n: nat, k: nat)
    requires n >= 1 && k >= 1
    ensures n / k == (n - 1) / k + if n % k == 0 then 1 else 0
  {
    var q, r := (n - 1) / k, (n - 1) % k;
    assert n == q * k + r + 1;
    if r + 1 == k {
      assert n == (q + 1) * k + 0;
      QuotientIs(n, k, q + 1, 0);
    } else {
      QuotientIs(n, k, q, r + 1);
    }
  }

  lemma QuotientIs(n: nat, k: nat, q: nat, r: nat)
    requires r < k && n == q * k + r
    ensures n / k == q && n % k == r
  {
    var d := n / k - q;
    assert d * k == r - n % k;
    assert d * k + k > 0 && d * k < k;
    assert d >= 1 ==> d * k >= k;
    assert d <= -1 ==> d * k + k <= 0;
  }

  function DayNumber(u: Utc): nat
    requires Valid(u)
  {
    DaysBeforeYear(u.year) + DaysBeforeMonth(u.year, u.month) + u.day
  }

  predicate IsLastDay(u: Utc) {
    u.year == 9999 && u.month == 12 && u.day == 31
  }

  /** The last day of a month is followed by the first of the next. */
  lemma NextDay(u: Utc) returns (v: Utc)
    requires Valid(u) && !IsLastDay(u)
    ensures Valid(v) && DayNumber(v) == DayNumber(u) + 1 && v.hour == v.minute == v.second == 0
  {
    hide DaysBeforeMonth, DaysBeforeYear;
    OneMonth(u.year, u.month);
    OneMonth(u.year + 1, 1);
    OneYear(u.year);
    if u.day < MonthLength(u.year, u.month) {
      v := Utc(u.year, u.month, u.day + 1, 0, 0, 0);
    } else if u.month < 12 {
      v := Utc(u.year, u.month + 1, 1, 0, 0, 0);
    } else {
      v := Utc(u.year + 1, 1, 1, 0, 0, 0);
    }
  }

  lemma LastDay(u: Utc)
    requires Valid(u) && IsLastDay(u)
    ensures DayNumber(u) == 3652059
  {
    hide DaysBeforeMonth, DaysBeforeYear;
    var next := u.year + 1;
    DaysBeforeYearIs(next);
    OneYear(u.year);
    OneMonth(u.year, u.month);
  }

  /** Every day from the first of year one to the last of year 9999 is a valid date. */
  lemma {:induction false} EveryDay(d: nat) returns (u: Utc)
    requires 1 <= d <= 3652059
    ensures Valid(u) && DayNumber(u) == d
  {
    if d == 1 {
      u := Utc(1, 1, 1, 0, 0, 0);
      OneMonth(u.year, 1);
      OneYear(u.year);
    } else {
      u := EveryDay(d - 1);
      if IsLastDay(u) {
        LastDay(u);
      }
      hide *;
      u := NextDay(u);
    }
  }

  function SecondOfDay(u: Utc): nat {
    (u.hour * 60 + u.minute) * 60 + u.second
  }

  function Instant(u: Utc): nat
    requires Valid(u)
  {
    DayNumber(u) * 86400 + SecondOfDay(u)
  }

  /** One second after the last of a day is midnight of the next; within a day the
      instants count seconds. */
  lemma DaysMeet(u: Utc) returns (v: Utc)
    requires Valid(u) && !IsLastDay(u)
    ensures Valid(v) && DayNumber(v) == DayNumber(u) + 1 && SecondOfDay(v) == 0
    ensures SecondOfDay(u) < 86400 && Instant(v) == Instant(u) + (86400 - SecondOfDay(u))
    ensures u.hour == 23 && u.minute == 59 && u.second == 59 ==> Instant(v) == Instant(u) + 1
  {
    v := NextDay(u);
    hide DayNumber;
  }

  // ------------------------------------------------------------------
  // The stamp
  // ------------------------------------------------------------------

  function Digit(d: nat): char
    requires d < 10
  {
    ('0' as int + d) as char
  }

  lemma DigitIsPrinted(d: nat)
    requires d < 10
    ensures Digit(d) == DigitChar(d)
  {
    DigitAt(d);
  }

  /** The last `width` decimal digits, zero padded. */
  function Pad(n: nat, width: nat): (s: string)
    ensures |s| == width
  {
    if width == 0 then "" else Pad(n / 10, width - 1) + [Digit(n % 10)]
  }

  /** `isoformat(timespec="seconds")` in UTC with the offset written as Z. */
  function Stamp(u: Utc): string {
    Pad(u.year, 4) + ("-" + (Pad(u.month, 2) + ("-" + (Pad(u.day, 2) + ("T" +
    (Pad(u.hour, 2) + (":" + (Pad(u.minute, 2) + (":" + (Pad(u.second, 2) + "Z"))))))))))
  }

  // ------------------------------------------------------------------
  // Text order is field order
  // ------------------------------------------------------------------

  lemma {:induction false} LexConcat(a: string, b: string, x: string, y: string)
    requires |a| == |b|
    ensures LexLess(a + x, b + y) <==> LexLess(a, b) || (a == b && LexLess(x, y))
  {
    if a == "" {
      assert a + x == x && b + y == y;
    } else {
      assert (a + x)[1..] == a[1..] + x && (b + y)[1..] == b[1..] + y;
      LexConcat(a[1..], b[1..], x, y);
      assert a == [a[0]] + a[1..] && b == [b[0]] + b[1..];
    }
  }

  lemma LexSeparator(c: char, x: string, y: string)
    ensures LexLess([c] + x, [c] + y) <==> LexLess(x, y)
  {
    assert ([c] + x)[1..] == x && ([c] + y)[1..] == y;
  }

  function Pow10(w: nat): nat {
    if w == 0 then 1 else 10 * Pow10(w - 1)
  }

  lemma LexDigit(d: nat, e: nat)
    requires d < 10 && e < 10
    ensures LexLess([Digit(d)], [Digit(e)]) <==> d < e
    ensures Digit(d) == Digit(e) <==> d == e
  {
    assert [Digit(d)][1..] == "" && [Digit(e)][1..] == "";
  }

  lemma {:induction false} PadOrder(m: nat, n: nat, w: nat)
    requires m < Pow10(w) && n < Pow10(w)
    ensures LexLess(Pad(m, w), Pad(n, w)) <==> m < n
    ensures Pad(m, w) == Pad(n, w) <==> m == n
  {
    if w == 0 {
    } else {
      PadOrder(m / 10, n / 10, w - 1);
      LexDigit(m % 10, n % 10);
      LexConcat(Pad(m / 10, w - 1), Pad(n / 10, w - 1), [Digit(m % 10)], [Digit(n % 10)]);
      PadSplit(m, n, w);
    }
  }

  lemma PadSplit(m: nat, n: nat, w: nat)
    requires w > 0
    ensures Pad(m, w) == Pad(n, w) <==> Pad(m / 10, w - 1) == Pad(n / 10, w - 1) && Digit(m % 10) == Digit(n % 10)
  {
    assert Pad(m, w)[..w - 1] == Pad(m / 10, w - 1) && Pad(n, w)[..w - 1] == Pad(n / 10, w - 1);
    assert Pad(m, w)[w - 1] == Digit(m % 10) && Pad(n, w)[w - 1] == Digit(n % 10);
  }

  /** A padded field, a separator, and the rest. */
  lemma FieldOrder(m: nat, n: nat, w: nat, c: char, x: string, y: string)
    requires m < Pow10(w) && n < Pow10(w)
    ensures LexLess(Pad(m, w) + ([c] + x), Pad(n, w) + ([c] + y)) <==> m < n || (m == n && LexLess(x, y))
  {
    PadOrder(m, n, w);
    LexSeparator(c, x, y);
    LexConcat(Pad(m, w), Pad(n, w), [c] + x, [c] + y);
  }

  /** Year first, second last. */
  predicate FieldsLess(u: Utc, v: Utc) {
    || u.year < v.year
    || (u.year == v.year &&
        (|| u.month < v.month
         || (u.month == v.month &&
             (|| u.day < v.day
              || (u.day == v.day &&
                  (|| u.hour < v.hour
                   || (u.hour == v.hour &&
                       (u.minute < v.minute || (u.minute == v.minute && u.second < v.second)))))))))
  }

  lemma StampIsFieldOrder(u: Utc, v: Utc)
    requires Valid(u) && Valid(v)
    ensures LexLess(Stamp(u), Stamp(v)) <==> FieldsLess(u, v)
  {
    assert Pow10(2) == 100 && Pow10(4) == 10000;
    hide Pad, LexLess, Pow10, MonthLength;
    var u6, v6 := "", "";
    var u5, v5 := Pad(u.second, 2) + "Z", Pad(v.second, 2) + "Z";
    assert u5 == Pad(u.second, 2) + (['Z'] + u6) && v5 == Pad(v.second, 2) + (['Z'] + v6);
    var u4, v4 := Pad(u.minute, 2) + (":" + u5), Pad(v.minute, 2) + (":" + v5);
    var u3, v3 := Pad(u.hour, 2) + (":" + u4), Pad(v.hour, 2) + (":" + v4);
    var u2, v2 := Pad(u.day, 2) + ("T" + u3), Pad(v.day, 2) + ("T" + v3);
    var u1, v1 := Pad(u.month, 2) + ("-" + u2), Pad(v.month, 2) + ("-" + v2);
    FieldOrder(u.second, v.second, 2, 'Z', u6, v6);
    FieldOrder(u.minute, v.minute, 2, ':', u5, v5);
    FieldOrder(u.hour, v.hour, 2, ':', u4, v4);
    FieldOrder(u.day, v.day, 2, 'T', u3, v3);
    FieldOrder(u.month, v.month, 2, '-', u2, v2);
    FieldOrder(u.year, v.year, 4, '-', u1, v1);
    NothingLess();
  }

  lemma NothingLess()
    ensures !LexLess("", "")
  {
  }

  // ------------------------------------------------------------------
  // Field order is order in time
  // ------------------------------------------------------------------

  lemma {:induction false} MonthsGrow(year: nat, m: nat, n: nat)
    requires 1 <= m < n <= 13
    ensures DaysBeforeMonth(year, m) + MonthLength(year, m) <= DaysBeforeMonth(year, n)
  {
    hide MonthLength;
    if m + 1 == n {
    } else {
      MonthsGrow(year, m, n - 1);
    }
  }

  lemma {:induction false} YearsGrow(y: nat, z: nat)
    requires 1 <= y < z
    ensures DaysBeforeYear(y) + DaysBeforeMonth(y, 13) <= DaysBeforeYear(z)
  {
    hide DaysBeforeMonth;
    if y + 1 == z {
    } else {
      YearsGrow(y, z - 1);
    }
  }

  predicate DateLess(u: Utc, v: Utc) {
    || u.year < v.year
    || (u.year == v.year && (u.month < v.month || (u.month == v.month && u.day < v.day)))
  }

  lemma DayOrder(u: Utc, v: Utc)
    requires Valid(u) && Valid(v)
    ensures (u.year, u.month, u.day) == (v.year, v.month, v.day) ==> DayNumber(u) == DayNumber(v)
    ensures DateLess(u, v) ==> DayNumber(u) < DayNumber(v)
  {
    hide DaysBeforeMonth, DaysBeforeYear, MonthLength;
    if u.year < v.year {
      YearsGrow(u.year, v.year);
      MonthsGrow(u.year, u.month, 13);
    } else if u.year == v.year && u.month < v.month {
      MonthsGrow(u.year, u.month, v.month);
    }
  }

  lemma FieldOrderIsTime(u: Utc, v: Utc)
    requires Valid(u) && Valid(v)
    ensures FieldsLess(u, v) ==> Instant(u) < Instant(v)
  {
    DayOrder(u, v);
    hide DayNumber;
    assert SecondOfDay(u) < 86400 && SecondOfDay(v) < 86400;
  }

  lemma FieldsTotal(u: Utc, v: Utc)
    ensures FieldsLess(u, v) || FieldsLess(v, u) || u == v
  {
  }

  /** String comparison of two stamps is chronological comparison. */
  lemma StampOrderIsTimeOrder(u: Utc, v: Utc)
    requires Valid(u) && Valid(v)
    ensures LexLess(Stamp(u), Stamp(v)) <==> Instant(u) < Instant(v)
  {
    StampIsFieldOrder(u, v);
    FieldOrderIsTime(u, v);
    FieldOrderIsTime(v, u);
    FieldsTotal(u, v);
    hide Instant, Stamp, LexLess;
  }
}
