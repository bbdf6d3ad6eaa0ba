/** The proleptic Gregorian calendar in UTC, as Go's `time` package presents it to the
    cron engine: an instant is a whole number of nanoseconds since 0001-01-01T00:00:00Z,
    so the zero `time.Time` is the instant 0. */
module Calendar {

  type Instant = int

  const SECOND: int := 1_000_000_000
  const MINUTE: int := 60_000_000_000
  const HOUR: int := 3_600_000_000_000
  const DAY: int := 86_400_000_000_000
  const ZERO_TIME: Instant := 0

  // ---------- years, months and days ----------

  predicate IsLeap(y: int) {
    y % 4 == 0 && (y % 100 != 0 || y % 400 == 0)
  }

  /** Days from 0001-01-01 to the first day of year `y`. */
  function YearStart(y: int): int {
    365 * (y - 1) + (y - 1) / 4 - (y - 1) / 100 + (y - 1) / 400
  }

  function YearLength(y: int): int {
    if IsLeap(y) then 366 else 365
  }

  lemma YearStartStep(y: int)
    ensures YearStart(y + 1) == YearStart(y) + YearLength(y)
  {
    var z := y - 1;
    DivStep(z, 4);
    DivStep(z, 100);
    DivStep(z, 400);
    assert y % 400 == 0 ==> y % 100 == 0;
    assert y % 100 == 0 ==> y % 4 == 0;
  }

  lemma DivStep(z: int, k: int)
    requires k == 4 || k == 100 || k == 400
    ensures (z + 1) / k == z / k + (if (z + 1) % k == 0 then 1 else 0)
  {
  }

  lemma {:induction false} YearStartMonotone(y: int, z: int)
    requires y <= z
    ensures YearStart(y) + 365 * (z - y) <= YearStart(z) <= YearStart(y) + 366 * (z - y)
    decreases z - y
  {
    if y < z {
      YearStartStep(z - 1);
      YearStartMonotone(y, z - 1);
    }
  }

  /** The year holding day `n`: cycles of 400, 100, 4 and 1 years, the last century of a
      400-year cycle and the last year of a 4-year cycle being one day longer. */
  function YearOfDay(n: int): (y: int)
    ensures YearStart(y) <= n < YearStart(y + 1)
  {
    var c400 := n / 146097;
    var r400 := n % 146097;
    var c100 := if r400 / 36524 == 4 then 3 else r400 / 36524;
    var r100 := r400 - 36524 * c100;
    var c4 := r100 / 1461;
    var r4 := r100 % 1461;
    var c1 := if r4 / 365 == 4 then 3 else r4 / 365;
    CycleYear(n, c400, c100, c4, c1);
    400 * c400 + 100 * c100 + 4 * c4 + c1 + 1
  }

  lemma CycleYear(n: int, c400: int, c100: int, c4: int, c1: int)
    requires 0 <= c100 <= 3 && 0 <= c4 <= 24 && 0 <= c1 <= 3
    requires var r := n - 146097 * c400 - 36524 * c100 - 1461 * c4 - 365 * c1;
             0 <= r < (if c1 == 3 && (c4 != 24 || c100 == 3) then 366 else 365)
    ensures var y := 400 * c400 + 100 * c100 + 4 * c4 + c1 + 1;
            YearStart(y) <= n < YearStart(y + 1)
  {
    var y := 400 * c400 + 100 * c100 + 4 * c4 + c1 + 1;
    var q4, q100 := 100 * c400 + 25 * c100 + c4, 4 * c400 + c100;
    DivIs(y - 1, 4, q4);
    DivIs(y - 1, 100, q100);
    DivIs(y - 1, 400, c400);
    DivIs(y, 4, if c1 == 3 then q4 + 1 else q4);
    DivIs(y, 100, if c1 == 3 && c4 == 24 then q100 + 1 else q100);
    DivIs(y, 400, if c1 == 3 && c4 == 24 && c100 == 3 then c400 + 1 else c400);
  }

  lemma DivIs(a: int, k: int, q: int)
    requires k == 4 || k == 100 || k == 400
    requires q * k <= a < (q + 1) * k
    ensures a / k == q
  {
  }

  function DaysInMonth(y: int, m: int): int
    requires 1 <= m <= 12
  {
    if m == 2 then (if IsLeap(y) then 29 else 28)
    else if m == 4 || m == 6 || m == 9 || m == 11 then 30
    else 31
  }

  /** Days from 1 January of `y` to the first of month `m`; month 13 is the next January. */
  function DaysBeforeMonth(y: int, m: int): int
    requires 1 <= m <= 13
  {
    var leap := if IsLeap(y) then 1 else 0;
    match m
    case 1 => 0
    case 2 => 31
    case 3 => 59 + leap
    case 4 => 90 + leap
    case 5 => 120 + leap
    case 6 => 151 + leap
    case 7 => 181 + leap
    case 8 => 212 + leap
    case 9 => 243 + leap
    case 10 => 273 + leap
    case 11 => 304 + leap
    case 12 => 334 + leap
    case _ => 365 + leap
  }

  lemma MonthLengths(y: int, m: int)
    requires 1 <= m <= 12
    ensures DaysBeforeMonth(y, m + 1) == DaysBeforeMonth(y, m) + DaysInMonth(y, m)
  {
  }

  function MonthOfDay(n: int): (m: int)
    ensures 1 <= m <= 12
    ensures var y := YearOfDay(n);
            YearStart(y) + DaysBeforeMonth(y, m) <= n < YearStart(y) + DaysBeforeMonth(y, m + 1)
  {
    var y := YearOfDay(n);
    YearStartStep(y);
    var d := n - YearStart(y);
    if d < DaysBeforeMonth(y, 2) then 1
    else if d < DaysBeforeMonth(y, 3) then 2
    else if d < DaysBeforeMonth(y, 4) then 3
    else if d < DaysBeforeMonth(y, 5) then 4
    else if d < DaysBeforeMonth(y, 6) then 5
    else if d < DaysBeforeMonth(y, 7) then 6
    else if d < DaysBeforeMonth(y, 8) then 7
    else if d < DaysBeforeMonth(y, 9) then 8
    else if d < DaysBeforeMonth(y, 10) then 9
    else if d < DaysBeforeMonth(y, 11) then 10
    else if d < DaysBeforeMonth(y, 12) then 11
    else 12
  }

  function DayOfMonth(n: int): int {
    var y := YearOfDay(n);
    n - YearStart(y) - DaysBeforeMonth(y, MonthOfDay(n)) + 1
  }

  /** Sunday is 0; 0001-01-01 was a Monday. */
  function WeekdayOfDay(n: int): int {
    (n + 1) % 7
  }

  /** Day number of a date whose month may lie outside 1..12 and whose day may lie outside
      the month: `time.Date` normalises the month into the year and counts days from there. */
  function DayNumber(y: int, m: int, d: int): int {
    var yy := y + (m - 1) / 12;
    var mm := (m - 1) % 12 + 1;
    YearStart(yy) + DaysBeforeMonth(yy, mm) + d - 1
  }

  /** Reading a date back from its day number gives the date. */
  lemma DateRoundTrip(y: int, m: int, d: int)
    requires 1 <= m <= 12 && 1 <= d <= DaysInMonth(y, m)
    ensures YearOfDay(DayNumber(y, m, d)) == y
    ensures MonthOfDay(DayNumber(y, m, d)) == m
    ensures DayOfMonth(DayNumber(y, m, d)) == d
  {
    var n := DayNumber(y, m, d);
    assert (m - 1) / 12 == 0 && (m - 1) % 12 == m - 1;
    MonthLengths(y, m);
    MonthsAscend(y, m + 1, 13);
    YearStartStep(y);
    YearUnique(n, y);
    MonthUnique(n, m);
  }

  /** Every day number is the number of the date read from it. */
  lemma DayRoundTrip(n: int)
    ensures DayNumber(YearOfDay(n), MonthOfDay(n), DayOfMonth(n)) == n
    ensures 1 <= DayOfMonth(n) <= DaysInMonth(YearOfDay(n), MonthOfDay(n))
  {
    var m := MonthOfDay(n);
    assert (m - 1) / 12 == 0 && (m - 1) % 12 == m - 1;
    MonthLengths(YearOfDay(n), m);
  }

  lemma YearUnique(n: int, y: int)
    requires YearStart(y) <= n < YearStart(y + 1)
    ensures YearOfDay(n) == y
  {
  }

  lemma MonthsAscend(y: int, a: int, b: int)
    requires 1 <= a <= b <= 13
    ensures DaysBeforeMonth(y, a) <= DaysBeforeMonth(y, b)
  {
  }

  lemma MonthUnique(n: int, m: int)
    requires 1 <= m <= 12
    requires var y := YearOfDay(n);
             YearStart(y) + DaysBeforeMonth(y, m) <= n < YearStart(y) + DaysBeforeMonth(y, m + 1)
    ensures MonthOfDay(n) == m
  {
  }

  /** The first day after the month holding day `n`, and the days of that month up to it. */
  lemma MonthEnd(n: int)
    ensures var y, m := YearOfDay(n), MonthOfDay(n);
            n < DayNumber(y, m + 1, 1) == YearStart(y) + DaysBeforeMonth(y, m + 1)
  {
    var y, m := YearOfDay(n), MonthOfDay(n);
    YearStartStep(y);
    if m == 12 {
      assert m / 12 == 1 && m % 12 == 0;
    } else {
      assert m / 12 == 0 && m % 12 == m;
    }
  }

  lemma SameMonth(n: int, k: int)
    requires n <= k < DayNumber(YearOfDay(n), MonthOfDay(n) + 1, 1)
    ensures MonthOfDay(k) == MonthOfDay(n)
  {
    hide MonthOfDay, YearOfDay, DayNumber;
    var y, m := YearOfDay(n), MonthOfDay(n);
    MonthEnd(n);
    YearStartStep(y);
    MonthsAscend(y, m + 1, 13);
    YearUnique(k, y);
    MonthUnique(k, m);
  }

  lemma NextDayNumber(n: int)
    ensures DayNumber(YearOfDay(n), MonthOfDay(n), DayOfMonth(n) + 1) == n + 1
  {
    hide MonthOfDay, YearOfDay;
    DayRoundTrip(n);
  }

  // ---------- instants ----------

  function DayIndex(t: Instant): int { t / DAY }

  function Year(t: Instant): int { YearOfDay(DayIndex(t)) }
  function Month(t: Instant): int { MonthOfDay(DayIndex(t)) }
  function Day(t: Instant): int { DayOfMonth(DayIndex(t)) }
  function Weekday(t: Instant): int { WeekdayOfDay(DayIndex(t)) }
  function Hour(t: Instant): int { (t % DAY) / HOUR }
  function Minute(t: Instant): int { (t % HOUR) / MINUTE }
  function Second(t: Instant): int { (t % MINUTE) / SECOND }
  function Nanosecond(t: Instant): int { t % SECOND }

  /** On a whole minute. */
  predicate Aligned(t: Instant) { t % MINUTE == 0 }

  lemma Multiple(k: int)
    ensures Aligned(k * MINUTE)
  {
  }

  /** Less than a minute after a whole minute is not a whole minute. */
  lemma OffMinute(t: Instant, v: Instant)
    requires Aligned(t) && t < v < t + MINUTE
    ensures !Aligned(v)
  {
  }

  lemma AlignedSteps(t: Instant, u: Instant)
    requires Aligned(t) && Aligned(u) && t < u
    ensures t + MINUTE <= u
    ensures Aligned(t + MINUTE)
  {
  }

  lemma AlignedDay(n: int)
    ensures Aligned(n * DAY)
  {
  }

  lemma AlignedHour(n: int, h: int)
    ensures Aligned(n * DAY + h * HOUR)
  {
    Multiple(1440 * n + 60 * h);
  }

  /** Within a day the day number is constant. */
  lemma SameDay(t: Instant, v: Instant)
    requires t <= v < (DayIndex(t) + 1) * DAY
    ensures DayIndex(v) == DayIndex(t)
  {
  }

  lemma SameHour(t: Instant, v: Instant)
    requires t <= v < DayIndex(t) * DAY + (Hour(t) + 1) * HOUR
    ensures DayIndex(v) == DayIndex(t) && Hour(v) == Hour(t)
  {
  }

  lemma InDay(t: Instant)
    ensures DayIndex(t) * DAY <= t < (DayIndex(t) + 1) * DAY
    ensures DayIndex(t) * DAY + Hour(t) * HOUR <= t < DayIndex(t) * DAY + (Hour(t) + 1) * HOUR
  {
  }

  /** The first whole minute strictly after `t`. */
  function FirstMinute(t: Instant): (u: Instant)
    ensures Aligned(u) && t < u
  {
    (t / MINUTE + 1) * MINUTE
  }

  lemma NoMinuteBefore(t: Instant, v: Instant)
    requires t < v < FirstMinute(t)
    ensures !Aligned(v)
  {
  }

  /** `time.Date` in UTC: any of the fields may be out of its usual range. */
  function Date(y: int, mo: int, d: int, h: int, mi: int, s: int, ns: int): Instant {
    DayNumber(y, mo, d) * DAY + h * HOUR + mi * MINUTE + s * SECOND + ns
  }

  /** `t.AddDate(years, 0, 0)`: same month, day and clock, 29 February rolling over to
      1 March when the target year is not a leap year. */
  function AddYears(t: Instant, years: int): Instant {
    Date(Year(t) + years, Month(t), Day(t), Hour(t), Minute(t), Second(t), Nanosecond(t))
  }

  lemma ClockRoundTrip(t: Instant)
    ensures t == DayIndex(t) * DAY + Hour(t) * HOUR + Minute(t) * MINUTE + Second(t) * SECOND + Nanosecond(t)
    ensures 0 <= Hour(t) <= 23 && 0 <= Minute(t) <= 59 && 0 <= Second(t) <= 59 && 0 <= Nanosecond(t) < SECOND
  {
    assert t == DayIndex(t) * DAY + t % DAY;
    assert (t % DAY) % HOUR == t % HOUR;
    assert t % DAY == Hour(t) * HOUR + t % HOUR;
    assert (t % HOUR) % MINUTE == t % MINUTE;
    assert t % HOUR == Minute(t) * MINUTE + t % MINUTE;
    assert (t % MINUTE) % SECOND == t % SECOND;
  }

  /** An instant is the date and clock it shows. */
  lemma InstantRoundTrip(t: Instant)
    ensures Date(Year(t), Month(t), Day(t), Hour(t), Minute(t), Second(t), Nanosecond(t)) == t
  {
    DayRoundTrip(DayIndex(t));
    ClockRoundTrip(t);
  }

  /** The fields of the instant that a proper date and clock denote. */
  lemma DateFields(y: int, m: int, d: int, h: int, mi: int)
    requires 1 <= m <= 12 && 1 <= d <= DaysInMonth(y, m) && 0 <= h <= 23 && 0 <= mi <= 59
    ensures var t := Date(y, m, d, h, mi, 0, 0);
            && Aligned(t) && DayIndex(t) == DayNumber(y, m, d)
            && Year(t) == y && Month(t) == m && Day(t) == d && Hour(t) == h && Minute(t) == mi
  {
    hide YearOfDay, MonthOfDay, DayOfMonth, DayNumber, YearStart, DaysBeforeMonth;
    DateRoundTrip(y, m, d);
    ClockFields(DayNumber(y, m, d), h, mi);
  }

  lemma ClockFields(n: int, h: int, mi: int)
    requires 0 <= h <= 23 && 0 <= mi <= 59
    ensures var t := n * DAY + h * HOUR + mi * MINUTE;
            Aligned(t) && DayIndex(t) == n && Hour(t) == h && Minute(t) == mi
  {
    var t := n * DAY + h * HOUR + mi * MINUTE;
    Multiple(1440 * n + 60 * h + mi);
    assert t / DAY == n;
    assert t % DAY == h * HOUR + mi * MINUTE;
    assert t / HOUR == 24 * n + h;
    assert t % HOUR == mi * MINUTE;
  }

  /** A date lies inside its year. */
  lemma DateInYear(y: int, m: int, d: int)
    requires 1 <= m <= 12 && 1 <= d <= DaysInMonth(y, m)
    ensures YearStart(y) <= DayNumber(y, m, d) < YearStart(y + 1)
  {
    YearStartStep(y);
    MonthLengths(y, m);
    MonthsAscend(y, 1, m);
    MonthsAscend(y, m + 1, 13);
    assert (m - 1) / 12 == 0 && (m - 1) % 12 == m - 1;
  }

  /** Each weekday falls on one of the first seven days of any month. */
  lemma WeekdayInFirstWeek(y: int, m: int, w: int) returns (d: int)
    requires 1 <= m <= 12 && 0 <= w <= 6
    ensures 1 <= d <= 7 && WeekdayOfDay(DayNumber(y, m, d)) == w
  {
    hide YearStart, DaysBeforeMonth;
    d := 1 + (w - WeekdayOfDay(DayNumber(y, m, 1))) % 7;
    WeekdayShift(DayNumber(y, m, 1), w);
  }

  lemma WeekdayShift(n: int, w: int)
    requires 0 <= w <= 6
    ensures WeekdayOfDay(n + (w - WeekdayOfDay(n)) % 7) == w
  {
  }

  /** The calendar is the one in use: weekdays follow each other in a cycle of seven, and these
      days have the numbers and weekdays they had. */
  lemma WeekdaysFollow(n: int)
    ensures 0 <= WeekdayOfDay(n) <= 6 && WeekdayOfDay(n + 1) == (WeekdayOfDay(n) + 1) % 7
  {
  }

  lemma KnownDays()
    ensures DayNumber(1, 1, 1) == 0 && WeekdayOfDay(DayNumber(1, 1, 1)) == 1
    ensures DayNumber(1970, 1, 1) == 719162 && WeekdayOfDay(DayNumber(1970, 1, 1)) == 4
    ensures DayNumber(2000, 2, 29) == 730178 && WeekdayOfDay(DayNumber(2000, 2, 29)) == 2
    ensures DayNumber(2024, 12, 31) == 739250 && WeekdayOfDay(DayNumber(2024, 12, 31)) == 2
  {
    hide YearStart, DayNumber, DaysBeforeMonth;
    KnownYears();
    KnownMonths();
    ProperDay(1, 1, 1);
    ProperDay(1970, 1, 1);
    ProperDay(2000, 2, 29);
    ProperDay(2024, 12, 31);
  }

  lemma ProperDay(y: int, m: int, d: int)
    requires 1 <= m <= 12
    ensures DayNumber(y, m, d) == YearStart(y) + DaysBeforeMonth(y, m) + d - 1
  {
    hide YearStart;
  }

  lemma KnownMonths()
    ensures DaysBeforeMonth(1, 1) == DaysBeforeMonth(1970, 1) == 0
    ensures DaysBeforeMonth(2000, 2) == 31 && DaysBeforeMonth(2024, 12) == 335
  {
  }

  lemma KnownYears()
    ensures YearStart(1) == 0 && YearStart(1970) == 719162 && YearStart(2000) == 730119 && YearStart(2024) == 738885
  {
  }

  /** Thirty days have April, June, September and November; February has 28, and 29 in years
      divisible by four, of the centuries only those divisible by 400; the rest have 31. */
  lemma MonthLengthsAre(y: int)
    ensures forall m | m == 4 || m == 6 || m == 9 || m == 11 :: DaysInMonth(y, m) == 30
    ensures forall m | m == 1 || m == 3 || m == 5 || m == 7 || m == 8 || m == 10 || m == 12 :: DaysInMonth(y, m) == 31
    ensures DaysInMonth(y, 2) == 29 <==> y % 400 == 0 || (y % 4 == 0 && y % 100 != 0)
    ensures DaysInMonth(y, 2) == 28 || DaysInMonth(y, 2) == 29
  {
  }

  /** A number of years on, a date is the same date of that year if it exists there; 29 February
      becomes 1 March where it does not. */
  lemma AddYearsIs(y: int, m: int, d: int, h: int, mi: int, k: int)
    requires 1 <= m <= 12 && 1 <= d <= DaysInMonth(y, m) && 0 <= h <= 23 && 0 <= mi <= 59
    ensures AddYears(Date(y, m, d, h, mi, 0, 0), k)
            == if d <= DaysInMonth(y + k, m) then Date(y + k, m, d, h, mi, 0, 0) else Date(y + k, 3, 1, h, mi, 0, 0)
  {
    hide Date, Year, Month, Day, Hour, Minute, Second, Nanosecond, DayIndex;
    DateFields(y, m, d, h, mi);
    ClockOf(Date(y, m, d, h, mi, 0, 0));
    if d > DaysInMonth(y + k, m) {
      LeapDayRolls(y + k);
    }
  }

  lemma ClockOf(t: Instant)
    requires Aligned(t)
    ensures Second(t) == 0 && Nanosecond(t) == 0
  {
  }

  lemma LeapDayRolls(y: int)
    requires !IsLeap(y)
    ensures forall h, mi :: Date(y, 2, 29, h, mi, 0, 0) == Date(y, 3, 1, h, mi, 0, 0)
  {
    assert DayNumber(y, 2, 29) == DayNumber(y, 3, 1);
  }
}
