/**
  The part of Python's `datetime.datetime` the program relies on: construction
  with a range check (year, month, day, hour, minute), chronological comparison,
  and subtraction. Subtraction is modelled through CPython's proleptic Gregorian
  day ordinal (`_days_before_year`, `_days_before_month`, `toordinal`), so the
  difference of two minute counts is exactly the `timedelta` between them.
 */
module Calendar {

  const MinYear: nat := 1
  const MaxYear: nat := 9999
  const MinutesPerDay: nat := 1440

  datatype DateTime = DateTime(year: nat, month: nat, day: nat, hour: nat, minute: nat)

  predicate IsLeap(y: nat) { y % 4 == 0 && (y % 100 != 0 || y % 400 == 0) }

  function DaysInYear(y: nat): nat { if IsLeap(y) then 366 else 365 }

  function DaysInMonth(y: nat, m: nat): nat
    requires 1 <= m <= 12
  {
    if m == 2 then (if IsLeap(y) then 29 else 28)
    else if m == 4 || m == 6 || m == 9 || m == 11 then 30
    else 31
  }

  /** Days in the months of year `y` before month `m` (CPython's `_days_before_month`). */
  function DaysBeforeMonth(y: nat, m: nat): nat
  {
    var table := [0, 0, 31, 59, 90, 120, 151, 181, 212, 243, 273, 304, 334];
    if m > 12 then 0 else table[m] + if m > 2 && IsLeap(y) then 1 else 0
  }

  /** Days in the years before year `y` (year 1 starts at day 0). */
  function DaysBeforeYear(y: nat): int
  {
    var y1 := y - 1;
    y1 * 365 + y1 / 4 - y1 / 100 + y1 / 400
  }

  /** What `datetime.datetime(year, month, day, hour, minute)` accepts. */
  predicate Valid(t: DateTime)
  {
    && MinYear <= t.year <= MaxYear
    && 1 <= t.month <= 12
    && 1 <= t.day <= DaysInMonth(t.year, t.month)
    && t.hour < 24
    && t.minute < 60
  }

  /** `date.toordinal()`: 1 for 0001-01-01. */
  function Ordinal(t: DateTime): int
  {
    DaysBeforeYear(t.year) + DaysBeforeMonth(t.year, t.month) + t.day
  }

  /** Minutes since the proleptic epoch; `a - b` of two datetimes is `MinuteOf(a) - MinuteOf(b)` minutes. */
  function MinuteOf(t: DateTime): int
  {
    Ordinal(t) * MinutesPerDay + t.hour * 60 + t.minute
  }

  /** `a < b` on datetimes: field-by-field (lexicographic) comparison. */
  predicate Before(a: DateTime, b: DateTime)
  {
    || a.year < b.year
    || (a.year == b.year && a.month < b.month)
    || (a.year == b.year && a.month == b.month && a.day < b.day)
    || (a.year == b.year && a.month == b.month && a.day == b.day && a.hour < b.hour)
    || (a.year == b.year && a.month == b.month && a.day == b.day && a.hour == b.hour && a.minute < b.minute)
  }

  /** The timestamp one minute later, `t + timedelta(minutes=1)`. */
  function NextMinute(t: DateTime): (n: DateTime)
    requires Valid(t)
    requires !(t.year == MaxYear && t.month == 12 && t.day == 31 && t.hour == 23 && t.minute == 59)
    ensures Valid(n) && Before(t, n)
  {
    if t.minute < 59 then t.(minute := t.minute + 1)
    else if t.hour < 23 then t.(hour := t.hour + 1, minute := 0)
    else if t.day < DaysInMonth(t.year, t.month) then t.(day := t.day + 1, hour := 0, minute := 0)
    else if t.month < 12 then t.(month := t.month + 1, day := 1, hour := 0, minute := 0)
    else DateTime(t.year + 1, 1, 1, 0, 0)
  }

  // ---------------------------------------------------------------------------
  // Calendar arithmetic

  lemma StepDivision(y: nat)
    requires y >= 1
    ensures y / 4 - (y - 1) / 4 == if y % 4 == 0 then 1 else 0
    ensures y / 100 - (y - 1) / 100 == if y % 100 == 0 then 1 else 0
    ensures y / 400 - (y - 1) / 400 == if y % 400 == 0 then 1 else 0
  {
  }

  lemma DivisibilityChain(y: nat)
    ensures y % 400 == 0 ==> y % 100 == 0
    ensures y % 100 == 0 ==> y % 4 == 0
  {
    if y % 400 == 0 {
      var k := y / 400;
      assert y == 100 * (4 * k);
    }
    if y % 100 == 0 {
      var k := y / 100;
      assert y == 4 * (25 * k);
    }
  }

  /** `DaysInYear` counts the days `DaysBeforeYear` adds from one year to the next. */
  lemma DaysBeforeNextYear(y: nat)
    requires y >= 1
    ensures DaysBeforeYear(y + 1) == DaysBeforeYear(y) + DaysInYear(y)
  {
    StepDivision(y);
    DivisibilityChain(y);
    var d4, d100, d400 := y / 4 - (y - 1) / 4, y / 100 - (y - 1) / 100, y / 400 - (y - 1) / 400;
    assert DaysBeforeYear(y + 1) - DaysBeforeYear(y) == 365 + d4 - d100 + d400;
    assert d4 - d100 + d400 == if IsLeap(y) then 1 else 0;
  }

  lemma YearLength(y: nat)
    ensures DaysBeforeMonth(y, 12) + DaysInMonth(y, 12) == DaysInYear(y)
  {
  }

  lemma {:induction false} MonthsBefore(y: nat, m1: nat, m2: nat)
    requires 1 <= m1 < m2 <= 12
    ensures DaysBeforeMonth(y, m1) + DaysInMonth(y, m1) <= DaysBeforeMonth(y, m2)
  {
    if m1 < m2 - 1 {
      MonthsBefore(y, m1, m2 - 1);
    }
  }

  lemma {:induction false} YearsBefore(y1: nat, y2: nat)
    requires 1 <= y1 < y2
    ensures DaysBeforeYear(y1) + DaysInYear(y1) <= DaysBeforeYear(y2)
    decreases y2 - y1
  {
    DaysBeforeNextYear(y1);
    if y1 + 1 < y2 {
      YearsBefore(y1 + 1, y2);
    }
  }

  /** The day of a valid date lies within its year. */
  lemma OrdinalInYear(t: DateTime)
    requires Valid(t)
    ensures DaysBeforeYear(t.year) < Ordinal(t) <= DaysBeforeYear(t.year) + DaysInYear(t.year)
  {
    if t.month < 12 {
      MonthsBefore(t.year, t.month, 12);
    }
    YearLength(t.year);
  }

  /** Calendar order of days. */
  lemma OrdinalOrder(a: DateTime, b: DateTime)
    requires Valid(a) && Valid(b)
    requires a.year < b.year || (a.year == b.year && a.month < b.month) ||
             (a.year == b.year && a.month == b.month && a.day < b.day)
    ensures Ordinal(a) < Ordinal(b)
  {
    if a.year < b.year {
      OrdinalInYear(a);
      OrdinalInYear(b);
      YearsBefore(a.year, b.year);
    } else if a.month < b.month {
      MonthsBefore(a.year, a.month, b.month);
    }
  }

  lemma MinuteOfBefore(a: DateTime, b: DateTime)
    requires Valid(a) && Valid(b) && Before(a, b)
    ensures MinuteOf(a) < MinuteOf(b)
  {
    if a.year < b.year || (a.year == b.year && a.month < b.month) ||
       (a.year == b.year && a.month == b.month && a.day < b.day) {
      OrdinalOrder(a, b);
      var oa, ob := Ordinal(a), Ordinal(b);
      assert oa + 1 <= ob;
      assert (oa + 1) * MinutesPerDay <= ob * MinutesPerDay;
    }
  }

  /**
    Comparing datetimes (`Before`, which `sorted` uses) and comparing minute
    counts are the same thing.
   */
  lemma Chronological(a: DateTime, b: DateTime)
    requires Valid(a) && Valid(b)
    ensures Before(a, b) <==> MinuteOf(a) < MinuteOf(b)
    ensures a == b <==> MinuteOf(a) == MinuteOf(b)
  {
    if Before(a, b) {
      MinuteOfBefore(a, b);
    } else if Before(b, a) {
      MinuteOfBefore(b, a);
    } else {
      assert a == b;
    }
  }

  /** One minute later is exactly one more minute, across hour, day, month and year ends. */
  lemma NextMinuteIsOneMinute(t: DateTime)
    requires Valid(t)
    requires !(t.year == MaxYear && t.month == 12 && t.day == 31 && t.hour == 23 && t.minute == 59)
    ensures MinuteOf(NextMinute(t)) == MinuteOf(t) + 1
  {
    var n := NextMinute(t);
    if t.minute == 59 && t.hour == 23 && t.day == DaysInMonth(t.year, t.month) {
      assert Ordinal(n) == Ordinal(t) + 1 by {
        if t.month < 12 {
          assert DaysBeforeMonth(n.year, n.month) == DaysBeforeMonth(t.year, t.month) + DaysInMonth(t.year, t.month);
        } else {
          DaysBeforeNextYear(t.year);
          YearLength(t.year);
        }
      }
    }
  }
}
