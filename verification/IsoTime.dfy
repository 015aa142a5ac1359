/** The instants src/pal/artifact keeps as text: UTC datetimes in ISO format, compared by SQLite as text.

    The fraction is written only when it is not zero, so the texts differ in length.  The comparison is still the
    chronological one, because the zero-padded fields are monotone and '+' sorts before '.'. */
module IsoTime {
  import opened Collation

  // ----- instants -----

  datatype Instant = Instant(year: nat, month: nat, day: nat, hour: nat, minute: nat, second: nat, microsecond: nat)

  predicate Leap(year: nat) {
    year % 4 == 0 && (year % 100 != 0 || year % 400 == 0)
  }

  function DaysIn(year: nat, month: nat): nat {
    if month == 2 then (if Leap(year) then 29 else 28)
    else if month in {4, 6, 9, 11} then 30 else 31
  }

  predicate Valid(i: Instant) {
    && 1 <= i.year <= 9999 && 1 <= i.month <= 12 && 1 <= i.day <= DaysIn(i.year, i.month)
    && i.hour < 24 && i.minute < 60 && i.second < 60 && i.microsecond < 1_000_000
  }

  function DaysBeforeYear(year: nat): int
    requires year >= 1
  {
    var y := year - 1;
    365 * y + y / 4 - y / 100 + y / 400
  }

  function DaysBeforeMonth(year: nat, month: nat): nat
    requires month >= 1
  {
    if month == 1 then 0 else DaysBeforeMonth(year, month - 1) + DaysIn(year, month - 1)
  }

  /** The day of the proleptic Gregorian calendar, counted from the first day of year 1. */
  function Day(i: Instant): int
    requires Valid(i)
  {
    DaysBeforeYear(i.year) + DaysBeforeMonth(i.year, i.month) + i.day - 1
  }

  /** Microseconds since the beginning of year 1. */
  function Ticks(i: Instant): int
    requires Valid(i)
  {
    (((Day(i) * 24 + i.hour) * 60 + i.minute) * 60 + i.second) * 1_000_000 + i.microsecond
  }

  // ----- texts -----

  function Pow10(k: nat): nat {
    if k == 0 then 1 else 10 * Pow10(k - 1)
  }

  /** `n` in `k` decimal digits, padded with zeros. */
  function Digits(n: nat, k: nat): (s: string)
    ensures |s| == k
  {
    if k == 0 then "" else Digits(n / 10, k - 1) + [('0' as int + n % 10) as char]
  }

  const Zone := "+00:00"

  function Fraction(microsecond: nat): string {
    if microsecond == 0 then Zone else "." + (Digits(microsecond, 6) + Zone)
  }

  function ClockText(i: Instant): string {
    Digits(i.hour, 2) + (":" + (Digits(i.minute, 2) + (":" + (Digits(i.second, 2) + Fraction(i.microsecond)))))
  }

  /** `datetime.isoformat()` of a UTC datetime. */
  function IsoFormat(i: Instant): string {
    Digits(i.year, 4) + ("-" + (Digits(i.month, 2) + ("-" + (Digits(i.day, 2) + ("T" + ClockText(i))))))
  }

  // ----- comparing texts -----

  lemma {:induction false} SmallerDigits(m: nat, n: nat, k: nat, s: string, t: string)
    requires m < n < Pow10(k)
    ensures TextLess(Digits(m, k) + s, Digits(n, k) + t)
  {
    var c, d := ('0' as int + m % 10) as char, ('0' as int + n % 10) as char;
    assert Digits(m, k) + s == Digits(m / 10, k - 1) + ([c] + s);
    assert Digits(n, k) + t == Digits(n / 10, k - 1) + ([d] + t);
    if m / 10 < n / 10 {
      SmallerDigits(m / 10, n / 10, k - 1, [c] + s, [d] + t);
    } else {
      CommonPrefix(Digits(m / 10, k - 1), [c] + s, [d] + t);
    }
  }

  /** A zero-padded field decides the comparison, unless both sides agree on it. */
  lemma FieldDecides(m: nat, n: nat, k: nat, s: string, t: string)
    requires m < Pow10(k) && n < Pow10(k)
    ensures TextLess(Digits(m, k) + s, Digits(n, k) + t) <==> m < n || (m == n && TextLess(s, t))
  {
    if m == n {
      CommonPrefix(Digits(m, k), s, t);
    } else if m < n {
      SmallerDigits(m, n, k, s, t);
    } else {
      SmallerDigits(n, m, k, t, s);
      Asymmetric(Digits(m, k) + s, Digits(n, k) + t);
    }
  }

  lemma SeparatorSkips(c: char, s: string, t: string)
    ensures TextLess([c] + s, [c] + t) <==> TextLess(s, t)
  {
    CommonPrefix([c], s, t);
  }

  lemma Pow10Values()
    ensures Pow10(2) == 100 && Pow10(4) == 10_000 && Pow10(6) == 1_000_000
  {
    assert Pow10(2) == 10 * Pow10(1);
    assert Pow10(4) == 10 * Pow10(3) && Pow10(3) == 10 * Pow10(2);
    assert Pow10(6) == 10 * Pow10(5) && Pow10(5) == 10 * Pow10(4);
  }

  /** A missing fraction compares as zero. */
  lemma FractionOrder(m: nat, n: nat)
    requires m < 1_000_000 && n < 1_000_000
    ensures TextLess(Fraction(m), Fraction(n)) <==> m < n
  {
    Pow10Values();
    Asymmetric(Fraction(m), Fraction(n));
    if m != 0 && n != 0 {
      SeparatorSkips('.', Digits(m, 6) + Zone, Digits(n, 6) + Zone);
      FieldDecides(m, n, 6, Zone, Zone);
      Asymmetric(Zone, Zone);
    }
  }

  predicate ClockBefore(a: Instant, b: Instant) {
    a.hour < b.hour || (a.hour == b.hour &&
    (a.minute < b.minute || (a.minute == b.minute &&
    (a.second < b.second || (a.second == b.second && a.microsecond < b.microsecond)))))
  }

  /** Field by field, as Python compares two UTC datetimes. */
  predicate Before(a: Instant, b: Instant) {
    a.year < b.year || (a.year == b.year &&
    (a.month < b.month || (a.month == b.month &&
    (a.day < b.day || (a.day == b.day && ClockBefore(a, b))))))
  }

  lemma ClockOrder(a: Instant, b: Instant)
    requires Valid(a) && Valid(b)
    ensures TextLess(ClockText(a), ClockText(b)) <==> ClockBefore(a, b)
  {
    Pow10Values();
    var s, t := Digits(a.second, 2) + Fraction(a.microsecond), Digits(b.second, 2) + Fraction(b.microsecond);
    FractionOrder(a.microsecond, b.microsecond);
    FieldDecides(a.second, b.second, 2, Fraction(a.microsecond), Fraction(b.microsecond));
    SeparatorSkips(':', s, t);
    FieldDecides(a.minute, b.minute, 2, ":" + s, ":" + t);
    SeparatorSkips(':', Digits(a.minute, 2) + (":" + s), Digits(b.minute, 2) + (":" + t));
    FieldDecides(a.hour, b.hour, 2, ":" + (Digits(a.minute, 2) + (":" + s)), ":" + (Digits(b.minute, 2) + (":" + t)));
  }

  lemma TextOrder(a: Instant, b: Instant)
    requires Valid(a) && Valid(b)
    ensures TextLess(IsoFormat(a), IsoFormat(b)) <==> Before(a, b)
  {
    Pow10Values();
    var s, t := "T" + ClockText(a), "T" + ClockText(b);
    ClockOrder(a, b);
    SeparatorSkips('T', ClockText(a), ClockText(b));
    FieldDecides(a.day, b.day, 2, s, t);
    SeparatorSkips('-', Digits(a.day, 2) + s, Digits(b.day, 2) + t);
    FieldDecides(a.month, b.month, 2, "-" + (Digits(a.day, 2) + s), "-" + (Digits(b.day, 2) + t));
    SeparatorSkips('-', Digits(a.month, 2) + ("-" + (Digits(a.day, 2) + s)), Digits(b.month, 2) + ("-" + (Digits(b.day, 2) + t)));
    FieldDecides(a.year, b.year, 4, "-" + (Digits(a.month, 2) + ("-" + (Digits(a.day, 2) + s))),
                 "-" + (Digits(b.month, 2) + ("-" + (Digits(b.day, 2) + t))));
  }

  // ----- the calendar -----

  lemma {:induction false} EarlierMonth(year: nat, m: nat, n: nat)
    requires 1 <= m < n
    ensures DaysBeforeMonth(year, m) + DaysIn(year, m) <= DaysBeforeMonth(year, n)
  {
    if m < n - 1 {
      EarlierMonth(year, m, n - 1);
    }
  }

  lemma YearLength(year: nat)
    ensures DaysBeforeMonth(year, 12) + 31 == if Leap(year) then 366 else 365
  {
    assert DaysBeforeMonth(year, 2) == 31;
    assert DaysBeforeMonth(year, 3) == 31 + DaysIn(year, 2);
    assert DaysBeforeMonth(year, 4) == 62 + DaysIn(year, 2);
    assert DaysBeforeMonth(year, 5) == 92 + DaysIn(year, 2);
    assert DaysBeforeMonth(year, 6) == 123 + DaysIn(year, 2);
    assert DaysBeforeMonth(year, 7) == 153 + DaysIn(year, 2);
    assert DaysBeforeMonth(year, 8) == 184 + DaysIn(year, 2);
    assert DaysBeforeMonth(year, 9) == 215 + DaysIn(year, 2);
    assert DaysBeforeMonth(year, 10) == 245 + DaysIn(year, 2);
    assert DaysBeforeMonth(year, 11) == 276 + DaysIn(year, 2);
  }

  lemma Multiples(y: nat, d: nat)
    requires y >= 1 && d in {4, 100, 400}
    ensures y / d - (y - 1) / d == if y % d == 0 then 1 else 0
  {
    if d == 4 {
      assert y == 4 * (y / 4) + y % 4;
    } else if d == 100 {
      assert y == 100 * (y / 100) + y % 100;
    } else {
      assert y == 400 * (y / 400) + y % 400;
    }
  }

  lemma Divides(y: nat, d: nat, e: nat)
    requires (d == 400 && e == 100) || (d == 100 && e == 4)
    requires y % d == 0
    ensures y % e == 0
  {
    if d == 400 {
      assert y == 100 * (4 * (y / 400));
    } else {
      assert y == 4 * (25 * (y / 100));
    }
  }

  lemma NextYear(y: nat)
    requires y >= 1
    ensures DaysBeforeYear(y + 1) == DaysBeforeYear(y) + if Leap(y) then 366 else 365
  {
    Multiples(y, 4);
    Multiples(y, 100);
    Multiples(y, 400);
    if y % 400 == 0 {
      Divides(y, 400, 100);
    }
    if y % 100 == 0 {
      Divides(y, 100, 4);
    }
  }

  lemma {:induction false} EarlierYear(y: nat, z: nat)
    requires 1 <= y < z
    ensures DaysBeforeYear(y) + (if Leap(y) then 366 else 365) <= DaysBeforeYear(z)
  {
    NextYear(z - 1);
    if y < z - 1 {
      EarlierYear(y, z - 1);
    }
  }

  lemma DayInYear(i: Instant)
    requires Valid(i)
    ensures 0 <= Day(i) - DaysBeforeYear(i.year) < if Leap(i.year) then 366 else 365
  {
    YearLength(i.year);
    if i.month < 12 {
      EarlierMonth(i.year, i.month, 12);
    }
  }

  lemma EarlierIsSmaller(a: Instant, b: Instant)
    requires Valid(a) && Valid(b) && Before(a, b)
    ensures Ticks(a) < Ticks(b)
  {
    if a.year < b.year {
      EarlierYear(a.year, b.year);
      DayInYear(a);
      DayInYear(b);
      assert Day(a) < Day(b);
    } else if a.month < b.month {
      EarlierMonth(a.year, a.month, b.month);
      assert Day(a) < Day(b);
    }
  }

  /** The stored texts compare exactly as the instants do, whether or not either shows a fraction: the database query
      for expired rows (`expires_at <= now` as text) finds the rows whose parsed expiry has come. */
  lemma TextOrderIsTimeOrder(a: Instant, b: Instant)
    requires Valid(a) && Valid(b)
    ensures TextLess(IsoFormat(a), IsoFormat(b)) <==> Ticks(a) < Ticks(b)
    ensures TextLessEq(IsoFormat(a), IsoFormat(b)) <==> Ticks(a) <= Ticks(b)
    ensures IsoFormat(a) == IsoFormat(b) <==> a == b
  {
    TextOrder(a, b);
    TextOrder(b, a);
    Asymmetric(IsoFormat(a), IsoFormat(b));
    Asymmetric(IsoFormat(a), IsoFormat(a));
    if Before(a, b) {
      EarlierIsSmaller(a, b);
    } else if Before(b, a) {
      EarlierIsSmaller(b, a);
    } else {
      assert a == b;
    }
  }
}
