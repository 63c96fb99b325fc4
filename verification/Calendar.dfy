/** Gregorian dates with a time of day: comparison, adding days, and adding a month with the day clamped. */
module Calendar {
  import opened Common

  const DAY_MICROS := 86400000000

  datatype DateTime = DateTime(year: int, month: int, day: int, micros: int)

  predicate IsLeap(y: int) {
    y % 4 == 0 && (y % 100 != 0 || y % 400 == 0)
  }

  function DaysInMonth(y: int, m: int): (n: int)
    ensures 28 <= n <= 31
  {
    if m == 2 then (if IsLeap(y) then 29 else 28) else if m in {4, 6, 9, 11} then 30 else 31
  }

  predicate Valid(d: DateTime) {
    1 <= d.year && 1 <= d.month <= 12 && 1 <= d.day <= DaysInMonth(d.year, d.month) && 0 <= d.micros < DAY_MICROS
  }

  /** Comparison field by field. */
  predicate Before(a: DateTime, b: DateTime) {
    a.year < b.year || (a.year == b.year &&
    (a.month < b.month || (a.month == b.month &&
    (a.day < b.day || (a.day == b.day && a.micros < b.micros)))))
  }

  predicate NotAfter(a: DateTime, b: DateTime) {
    a == b || Before(a, b)
  }

  function YearDays(y: int): int {
    if IsLeap(y) then 366 else 365
  }

  function DaysBeforeYear(y: int): int
    requires y >= 1
    decreases y
  {
    if y == 1 then 0 else DaysBeforeYear(y - 1) + YearDays(y - 1)
  }

  function DaysBeforeMonth(y: int, m: int): (n: int)
    requires 1 <= m <= 13
    ensures n >= 0
    decreases m
  {
    if m == 1 then 0 else DaysBeforeMonth(y, m - 1) + DaysInMonth(y, m - 1)
  }

  /** Days since 31 December of the year before year 1. */
  function Ordinal(d: DateTime): int
    requires Valid(d)
  {
    DaysBeforeYear(d.year) + DaysBeforeMonth(d.year, d.month) + d.day
  }

  /** A point in time as one number. */
  function Instant(d: DateTime): int
    requires Valid(d)
  {
    Ordinal(d) * DAY_MICROS + d.micros
  }

  lemma {:induction false} MonthsAdvance(y: int, m: int, m': int)
    requires 1 <= m < m' <= 13
    ensures DaysBeforeMonth(y, m) + DaysInMonth(y, m) <= DaysBeforeMonth(y, m')
    decreases m'
  {
    if m + 1 < m' {
      MonthsAdvance(y, m, m' - 1);
    }
  }

  lemma MonthsFillTheYear(y: int)
    ensures DaysBeforeMonth(y, 13) == YearDays(y)
  {
    assert DaysBeforeMonth(y, 3) == 59 + if IsLeap(y) then 1 else 0;
    assert DaysBeforeMonth(y, 5) == DaysBeforeMonth(y, 3) + 61;
    assert DaysBeforeMonth(y, 7) == DaysBeforeMonth(y, 5) + 61;
    assert DaysBeforeMonth(y, 9) == DaysBeforeMonth(y, 7) + 62;
    assert DaysBeforeMonth(y, 11) == DaysBeforeMonth(y, 9) + 61;
    assert DaysBeforeMonth(y, 13) == DaysBeforeMonth(y, 11) + 61;
  }

  lemma {:induction false} YearsAdvance(y: int, y': int)
    requires 1 <= y < y'
    ensures DaysBeforeYear(y) + DaysBeforeMonth(y, 13) <= DaysBeforeYear(y')
    decreases y' - y
  {
    MonthsFillTheYear(y);
    if y + 1 < y' {
      YearsAdvance(y + 1, y');
    }
  }

  lemma OrdinalOrder(a: DateTime, b: DateTime)
    requires Valid(a) && Valid(b)
    requires a.year < b.year || (a.year == b.year && (a.month < b.month || (a.month == b.month && a.day < b.day)))
    ensures Ordinal(a) < Ordinal(b)
  {
    MonthsAdvance(a.year, a.month, 13);
    if a.year < b.year {
      YearsAdvance(a.year, b.year);
    } else if a.month < b.month {
      MonthsAdvance(a.year, a.month, b.month);
    }
  }

  /** Comparing dates field by field is comparing points in time. */
  lemma BeforeIsEarlier(a: DateTime, b: DateTime)
    requires Valid(a) && Valid(b)
    ensures Before(a, b) <==> Instant(a) < Instant(b)
  {
    if (a.year, a.month, a.day) == (b.year, b.month, b.day) {
    } else if Before(a, b) {
      OrdinalOrder(a, b);
    } else {
      OrdinalOrder(b, a);
    }
  }

  /** How many of the years 1 to `y` have a leap day. */
  function LeapDays(y: int): int {
    y / 4 - y / 100 + y / 400
  }

  lemma LeapYearAddsOne(y: int)
    ensures LeapDays(y) - LeapDays(y - 1) == if IsLeap(y) then 1 else 0
  {
    assert y / 4 - (y - 1) / 4 == if y % 4 == 0 then 1 else 0;
    assert y / 100 - (y - 1) / 100 == if y % 100 == 0 then 1 else 0;
    assert y / 400 - (y - 1) / 400 == if y % 400 == 0 then 1 else 0;
    MultiplesOfFour(y);
  }

  lemma MultiplesOfFour(y: int)
    ensures y % 400 == 0 ==> y % 100 == 0
    ensures y % 100 == 0 ==> y % 4 == 0
  {
    if y % 400 == 0 {
      OfHundred(y, 4 * (y / 400));
    }
    if y % 100 == 0 {
      OfFour(y, 25 * (y / 100));
    }
  }

  lemma OfHundred(y: int, k: int)
    requires y == 100 * k
    ensures y % 100 == 0
  {
  }

  lemma OfFour(y: int, k: int)
    requires y == 4 * k
    ensures y % 4 == 0
  {
  }

  lemma {:induction false} DaysBeforeYearByDivision(y: int)
    requires y >= 1
    ensures DaysBeforeYear(y) == 365 * (y - 1) + LeapDays(y - 1)
    decreases y
  {
    if y > 1 {
      DaysBeforeYearByDivision(y - 1);
      LeapYearAddsOne(y - 1);
      hide IsLeap, LeapDays;
    }
  }

  /** The days before each month of a year without a leap day. */
  const DAYS_BEFORE: seq<int> := [0, 31, 59, 90, 120, 151, 181, 212, 243, 273, 304, 334]

  lemma DaysBeforeMonthByTable(y: int, m: int)
    requires 1 <= m <= 12
    ensures DaysBeforeMonth(y, m) == DAYS_BEFORE[m - 1] + if m > 2 && IsLeap(y) then 1 else 0
  {
    hide IsLeap;
    assert DaysBeforeMonth(y, 2) == 31;
    assert DaysBeforeMonth(y, 3) == 59 + if IsLeap(y) then 1 else 0;
    assert DaysBeforeMonth(y, 4) == DaysBeforeMonth(y, 3) + 31;
    assert DaysBeforeMonth(y, 5) == DaysBeforeMonth(y, 3) + 61;
    assert DaysBeforeMonth(y, 6) == DaysBeforeMonth(y, 5) + 31;
    assert DaysBeforeMonth(y, 7) == DaysBeforeMonth(y, 5) + 61;
    assert DaysBeforeMonth(y, 8) == DaysBeforeMonth(y, 7) + 31;
    assert DaysBeforeMonth(y, 9) == DaysBeforeMonth(y, 7) + 62;
    assert DaysBeforeMonth(y, 10) == DaysBeforeMonth(y, 9) + 30;
    assert DaysBeforeMonth(y, 11) == DaysBeforeMonth(y, 9) + 61;
    assert DaysBeforeMonth(y, 12) == DaysBeforeMonth(y, 11) + 30;
  }

  /** The day of a date in the Gregorian calendar, counted without going through years and months: a leap day every
      fourth year, but not every hundredth, but every four-hundredth. */
  lemma OrdinalByDivision(d: DateTime)
    requires Valid(d)
    ensures Ordinal(d) == 365 * (d.year - 1) + LeapDays(d.year - 1) + DAYS_BEFORE[d.month - 1]
                          + (if d.month > 2 then LeapDays(d.year) - LeapDays(d.year - 1) else 0) + d.day
  {
    DaysBeforeYearByDivision(d.year);
    DaysBeforeMonthByTable(d.year, d.month);
    LeapYearAddsOne(d.year);
  }

  function NextDay(d: DateTime): DateTime
    requires Valid(d)
  {
    if d.day < DaysInMonth(d.year, d.month) then d.(day := d.day + 1)
    else if d.month < 12 then d.(month := d.month + 1, day := 1)
    else d.(year := d.year + 1, month := 1, day := 1)
  }

  /** The date `n` days later at the same time of day. */
  function AddDays(d: DateTime, n: nat): (r: DateTime)
    requires Valid(d)
    ensures Valid(r)
    decreases n
  {
    if n == 0 then d else AddDays(NextDay(d), n - 1)
  }

  lemma NextDayIsNextOrdinal(d: DateTime)
    requires Valid(d)
    ensures Ordinal(NextDay(d)) == Ordinal(d) + 1
  {
    hide IsLeap, YearDays;
    if d.day == DaysInMonth(d.year, d.month) {
      assert DaysBeforeMonth(d.year, d.month + 1) == DaysBeforeMonth(d.year, d.month) + d.day;
      if d.month == 12 {
        MonthsFillTheYear(d.year);
        hide DaysInMonth;
        assert DaysBeforeYear(d.year + 1) == DaysBeforeYear(d.year) + YearDays(d.year);
        assert DaysBeforeMonth(d.year + 1, 1) == 0;
      }
    }
  }

  lemma {:induction false} AddDaysMovesTime(d: DateTime, n: nat)
    requires Valid(d)
    ensures Instant(AddDays(d, n)) == Instant(d) + n * DAY_MICROS
    decreases n
  {
    if n > 0 {
      NextDayIsNextOrdinal(d);
      AddDaysMovesTime(NextDay(d), n - 1);
    }
  }

  /** Every point in time from the first day of year 1 on is that of exactly one date. */
  lemma PointInTimeIsOneDate(n: int) returns (d: DateTime)
    requires n >= DAY_MICROS
    ensures Valid(d) && Instant(d) == n
    ensures forall e :: Valid(e) && Instant(e) == n ==> e == d
  {
    var first := DateTime(1, 1, 1, n % DAY_MICROS);
    var days := n / DAY_MICROS - 1;
    assert Instant(first) == DAY_MICROS + n % DAY_MICROS;
    AddDaysMovesTime(first, days);
    d := AddDays(first, days);
    forall e | Valid(e) && Instant(e) == n
      ensures e == d
    {
      BeforeIsEarlier(d, e);
      BeforeIsEarlier(e, d);
    }
  }

  /** One month later, with the day clamped to the last day of that month. */
  function AddMonth(d: DateTime): (r: DateTime)
    requires Valid(d)
    ensures Valid(r)
  {
    var (y, m) := if d.month == 12 then (d.year + 1, 1) else (d.year, d.month + 1);
    DateTime(y, m, Min(d.day, DaysInMonth(y, m)), d.micros)
  }

  lemma AddMonthByDivision(d: DateTime)
    requires Valid(d)
    ensures AddMonth(d).year == d.year + d.month / 12 && AddMonth(d).month == d.month % 12 + 1
  {
  }

  /** Months since year 0. */
  function MonthIndex(d: DateTime): int {
    d.year * 12 + d.month - 1
  }

  /** The number of days of the month with index `i`. */
  function MonthLength(i: int): int {
    DaysInMonth(i / 12, i % 12 + 1)
  }

  function AddMonths(d: DateTime, k: nat): (r: DateTime)
    requires Valid(d)
    ensures Valid(r)
  {
    if k == 0 then d else AddMonth(AddMonths(d, k - 1))
  }

  lemma AddMonthInIndexTerms(d: DateTime)
    requires Valid(d)
    ensures var r := AddMonth(d);
            && MonthIndex(r) == MonthIndex(d) + 1
            && r.day == Min(d.day, MonthLength(MonthIndex(d) + 1))
            && r.micros == d.micros
            && Before(d, r)
  {
    var r := AddMonth(d);
    assert MonthIndex(r) / 12 == r.year && MonthIndex(r) % 12 == r.month - 1;
  }

  /** The k-th anniversary: exactly k calendar months later at the same time of day, on the smallest of
      the start day and the lengths of all months passed through. */
  lemma {:induction false} AnniversaryDay(d: DateTime, k: nat)
    requires Valid(d)
    ensures var r := AddMonths(d, k);
            && MonthIndex(r) == MonthIndex(d) + k
            && r.micros == d.micros
            && r.day <= d.day
            && (forall i :: MonthIndex(d) < i <= MonthIndex(d) + k ==> r.day <= MonthLength(i))
            && (r.day == d.day || exists i :: MonthIndex(d) < i <= MonthIndex(d) + k && r.day == MonthLength(i))
  {
    if k > 0 {
      AnniversaryDay(d, k - 1);
      AddMonthInIndexTerms(AddMonths(d, k - 1));
    }
  }

  /** A day once clamped never recovers. */
  lemma {:induction false} ClampedDayNeverRecovers(d: DateTime, j: nat, k: nat)
    requires Valid(d) && j <= k
    ensures AddMonths(d, k).day <= AddMonths(d, j).day
    decreases k
  {
    if j < k {
      ClampedDayNeverRecovers(d, j, k - 1);
    }
  }

  /** The first date of the series d, d + 1 month, ... that is strictly after `now`. */
  function FirstAfter(d: DateTime, now: DateTime): (r: DateTime)
    requires Valid(d) && Valid(now)
    ensures Valid(r)
    decreases MonthIndex(now) - MonthIndex(d) + 1
  {
    if NotAfter(d, now) then FirstAfter(AddMonth(d), now) else d
  }

  /** The catch-up stops at the first iterate strictly after now, and at no earlier one. */
  lemma {:induction false} CatchUpIsFirstIterateAfterNow(d: DateTime, now: DateTime) returns (k: nat)
    requires Valid(d) && Valid(now)
    ensures FirstAfter(d, now) == AddMonths(d, k) && Before(now, AddMonths(d, k))
    ensures forall j :: 0 <= j < k ==> NotAfter(AddMonths(d, j), now)
    decreases MonthIndex(now) - MonthIndex(d) + 1
  {
    if NotAfter(d, now) {
      var k' := CatchUpIsFirstIterateAfterNow(AddMonth(d), now);
      k := k' + 1;
      ShiftMonths(d, k');
      ShiftBound(d, now, k');
    } else {
      k := 0;
    }
  }

  lemma ShiftBound(d: DateTime, now: DateTime, k: nat)
    requires Valid(d) && NotAfter(d, now) && forall j :: 0 <= j < k ==> NotAfter(AddMonths(AddMonth(d), j), now)
    ensures forall j :: 0 <= j < k + 1 ==> NotAfter(AddMonths(d, j), now)
  {
    forall j | 0 < j < k + 1 ensures NotAfter(AddMonths(d, j), now) {
      ShiftMonths(d, j - 1);
      assert NotAfter(AddMonths(AddMonth(d), j - 1), now);
    }
    assert AddMonths(d, 0) == d;
  }

  lemma {:induction false} ShiftMonths(d: DateTime, k: nat)
    requires Valid(d)
    ensures AddMonths(AddMonth(d), k) == AddMonths(d, k + 1)
  {
    if k > 0 {
      ShiftMonths(d, k - 1);
    }
  }
}
