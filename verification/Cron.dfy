/** The cron engine (internal/admin/cron.go): parsing a schedule and finding its next
    firing by skipping over months, days and hours that cannot match. */
module Cron {
  import opened Text
  import opened Calendar
  import opened CronField

  /** `every > 0` selects the `@every` form, in which the other fields are unused. */
  datatype CronSchedule = CronSchedule(
    every: int,
    minutes: seq<int>, hours: seq<int>, doms: seq<int>, months: seq<int>, dows: seq<int>,
    hasDOM: bool, hasDOW: bool)

  // ---------- parsing ----------

  function Expand(expr: string): string {
    if expr == "@hourly" then "0 * * * *"
    else if expr == "@daily" || expr == "@midnight" then "0 0 * * *"
    else if expr == "@weekly" then "0 0 * * 0"
    else if expr == "@monthly" then "0 0 1 * *"
    else if expr == "@yearly" || expr == "@annually" then "0 0 1 1 *"
    else expr
  }

  const EVERY: string := "@every "

  predicate IsEvery(expr: string) {
    EVERY <= expr
  }

  ghost predicate FieldsAccepted(f: seq<string>) {
    && |f| == 5
    && FieldParts(f[0], RANGE_MINUTE).Some? && FieldParts(f[1], RANGE_HOUR).Some?
    && FieldParts(f[2], RANGE_DOM).Some? && FieldParts(f[3], RANGE_MONTH).Some?
    && FieldParts(f[4], RANGE_DOW).Some?
  }

  /** `cs` is the schedule that the five field texts `f` denote. */
  ghost predicate Denotes(cs: CronSchedule, f: seq<string>) {
    && |f| == 5 && cs.every == 0
    && Lists(cs.minutes, f[0], RANGE_MINUTE) && Lists(cs.hours, f[1], RANGE_HOUR)
    && Lists(cs.doms, f[2], RANGE_DOM) && Lists(cs.months, f[3], RANGE_MONTH)
    && Lists(cs.dows, f[4], RANGE_DOW)
    && cs.hasDOM == (f[2] != "*") && cs.hasDOW == (f[4] != "*")
  }

  /** Parses an expression; `None` is a parse error. `parseDuration` stands for
      `time.ParseDuration`. */
  method ParseCron(expr: string, parseDuration: string -> Option<int>) returns (r: Option<CronSchedule>)
    ensures var e := TrimSpace(expr);
            if IsEvery(e) then
              match parseDuration(TrimSpace(e[|EVERY|..]))
              case Some(d) => if d > 0 then r.Some? && r.value.every == d else r.None?
              case None => r.None?
            else
              && (r.Some? <==> FieldsAccepted(Fields(Expand(e))))
              && (r.Some? ==> Denotes(r.value, Fields(Expand(e))))
  {
    var e := TrimSpace(expr);
    if e == "" {
      assert Fields(Expand(e)) == [];
      return None;
    }
    if IsEvery(e) {
      var d := parseDuration(TrimSpace(e[|EVERY|..]));
      if d.None? || d.value <= 0 {
        return None;
      }
      return Some(CronSchedule(d.value, [], [], [], [], [], false, false));
    }
    var f := Fields(Expand(e));
    if |f| != 5 {
      return None;
    }
    r := ParseFields(f);
  }

  method ParseFields(f: seq<string>) returns (r: Option<CronSchedule>)
    requires |f| == 5
    ensures r.Some? <==> FieldsAccepted(f)
    ensures r.Some? ==> Denotes(r.value, f)
  {
    var minutes := ParseField(f[0], RANGE_MINUTE);
    if minutes.None? { return None; }
    var hours := ParseField(f[1], RANGE_HOUR);
    if hours.None? { return None; }
    var doms := ParseField(f[2], RANGE_DOM);
    if doms.None? { return None; }
    var months := ParseField(f[3], RANGE_MONTH);
    if months.None? { return None; }
    var dows := ParseField(f[4], RANGE_DOW);
    if dows.None? { return None; }
    r := Some(CronSchedule(0, minutes.value, hours.value, doms.value, months.value, dows.value,
                           f[2] != "*", f[4] != "*"));
  }

  predicate NonEmptyIn(xs: seq<int>, fr: FieldRange) {
    xs != [] && forall v | v in xs :: fr.min <= v <= fr.max
  }

  /** A five-field schedule all of whose lists are non-empty and in range. */
  predicate WellFormed(cs: CronSchedule) {
    && cs.every <= 0
    && NonEmptyIn(cs.minutes, RANGE_MINUTE) && NonEmptyIn(cs.hours, RANGE_HOUR)
    && NonEmptyIn(cs.doms, RANGE_DOM) && NonEmptyIn(cs.months, RANGE_MONTH) && NonEmptyIn(cs.dows, RANGE_DOW)
  }

  /** A five-field schedule each of whose lists holds a value of its range. */
  predicate Usable(cs: CronSchedule) {
    && cs.every <= 0
    && SomeIn(cs.minutes, RANGE_MINUTE) && SomeIn(cs.hours, RANGE_HOUR)
    && SomeIn(cs.doms, RANGE_DOM) && SomeIn(cs.months, RANGE_MONTH) && SomeIn(cs.dows, RANGE_DOW)
  }

  /** Every parsed schedule is usable, steps that overflow included. */
  lemma ParsedIsUsable(cs: CronSchedule, f: seq<string>)
    requires Denotes(cs, f)
    ensures Usable(cs)
  {
    hide Lists, SomeIn;
    AcceptedListsSome(cs.minutes, f[0], RANGE_MINUTE);
    AcceptedListsSome(cs.hours, f[1], RANGE_HOUR);
    AcceptedListsSome(cs.doms, f[2], RANGE_DOM);
    AcceptedListsSome(cs.months, f[3], RANGE_MONTH);
    AcceptedListsSome(cs.dows, f[4], RANGE_DOW);
  }

  /** A parsed schedule is well formed exactly when no step in its text overflows. */
  lemma ParsedIsWellFormedWhen(cs: CronSchedule, f: seq<string>)
    requires Denotes(cs, f)
    ensures WellFormed(cs) <==>
              && StepsFit(FieldParts(f[0], RANGE_MINUTE).value) && StepsFit(FieldParts(f[1], RANGE_HOUR).value)
              && StepsFit(FieldParts(f[2], RANGE_DOM).value) && StepsFit(FieldParts(f[3], RANGE_MONTH).value)
              && StepsFit(FieldParts(f[4], RANGE_DOW).value)
  {
    AcceptedField(cs.minutes, f[0], RANGE_MINUTE);
    AcceptedField(cs.hours, f[1], RANGE_HOUR);
    AcceptedField(cs.doms, f[2], RANGE_DOM);
    AcceptedField(cs.months, f[3], RANGE_MONTH);
    AcceptedField(cs.dows, f[4], RANGE_DOW);
  }

  // ---------- what a schedule means ----------

  /** The Vixie rule: both day lists restricted means either may hit. */
  predicate MatchDay(cs: CronSchedule, t: Instant) {
    var domHit := Day(t) in cs.doms;
    var dowHit := Weekday(t) in cs.dows;
    if cs.hasDOM && cs.hasDOW then domHit || dowHit
    else if cs.hasDOM then domHit
    else if cs.hasDOW then dowHit
    else true
  }

  predicate Matches(cs: CronSchedule, t: Instant) {
    && Aligned(t)
    && Month(t) in cs.months && MatchDay(cs, t) && Hour(t) in cs.hours && Minute(t) in cs.minutes
  }

  /** What a schedule matches, by the calendar: the month, hour and minute are listed, and so is
      the day of the month or the weekday; either will do when both are restricted, and only
      the restricted one counts when one is. */
  lemma MatchesOnDate(cs: CronSchedule, y: int, m: int, d: int, h: int, mi: int)
    requires 1 <= m <= 12 && 1 <= d <= DaysInMonth(y, m) && 0 <= h <= 23 && 0 <= mi <= 59
    ensures var w := WeekdayOfDay(DayNumber(y, m, d));
            Matches(cs, Date(y, m, d, h, mi, 0, 0)) <==>
            && m in cs.months && h in cs.hours && mi in cs.minutes
            && (cs.hasDOM && !cs.hasDOW ==> d in cs.doms)
            && (cs.hasDOW && !cs.hasDOM ==> w in cs.dows)
            && (cs.hasDOM && cs.hasDOW ==> d in cs.doms || w in cs.dows)
  {
    hide Date, DayNumber, WeekdayOfDay, DaysInMonth, Month, Day, Hour, Minute, Aligned, DayIndex;
    DateFields(y, m, d, h, mi);
  }

  /** With both day lists restricted, a schedule matches what either list alone would. */
  lemma EitherListMatches(cs: CronSchedule, t: Instant)
    requires cs.hasDOM && cs.hasDOW
    ensures Matches(cs, t) <==> Matches(cs.(hasDOW := false), t) || Matches(cs.(hasDOM := false), t)
  {
    hide Month, Day, Weekday, Hour, Minute, Aligned;
  }

  /** The search ends four calendar years on. */
  function Limit(from: Instant): Instant { AddYears(from, 4) }

  /** The reference search: try every minute in turn. */
  ghost function Scan(cs: CronSchedule, t: Instant, limit: Instant): Instant
    decreases limit - t
  {
    if t > limit then ZERO_TIME
    else if Matches(cs, t) then t
    else Scan(cs, t + MINUTE, limit)
  }

  ghost function NextFire(cs: CronSchedule, from: Instant): Instant {
    if cs.every > 0 then from + cs.every else Scan(cs, FirstMinute(from), Limit(from))
  }

  // ---------- the skip-ahead search ----------

  lemma ScanSkips(cs: CronSchedule, t: Instant, u: Instant, limit: Instant)
    requires t <= u && Aligned(t) && Aligned(u)
    requires forall v | t <= v < u :: !Matches(cs, v)
    ensures Scan(cs, t, limit) == Scan(cs, u, limit)
    decreases u - t
  {
    hide Matches, Aligned;
    if t < u {
      AlignedSteps(t, u);
      ScanSkips(cs, t + MINUTE, u, limit);
    }
  }

  lemma NextMonthStart(t: Instant)
    ensures var u := Date(Year(t), Month(t) + 1, 1, 0, 0, 0, 0);
            && t < u && Aligned(u)
            && forall v | t <= v < u :: Month(v) == Month(t)
  {
    hide YearOfDay, MonthOfDay, DayOfMonth, DayNumber, YearStart, DaysBeforeMonth, Aligned;
    var n := DayIndex(t);
    MonthEnd(n);
    var e := DayNumber(YearOfDay(n), MonthOfDay(n) + 1, 1);
    AlignedDay(e);
    forall v | t <= v < e * DAY ensures Month(v) == Month(t) {
      SameMonth(n, DayIndex(v));
    }
  }

  lemma NextDayStart(t: Instant)
    ensures var u := Date(Year(t), Month(t), Day(t) + 1, 0, 0, 0, 0);
            && t < u && Aligned(u)
            && forall v | t <= v < u :: DayIndex(v) == DayIndex(t)
  {
    hide YearOfDay, MonthOfDay, DayOfMonth, DayNumber, YearStart, DaysBeforeMonth, Aligned, DayIndex;
    var n := DayIndex(t);
    NextDayNumber(n);
    InDay(t);
    AlignedDay(n + 1);
    forall v | t <= v < (n + 1) * DAY ensures DayIndex(v) == n {
      SameDay(t, v);
    }
  }

  lemma NextHourStart(t: Instant)
    ensures var u := Date(Year(t), Month(t), Day(t), Hour(t) + 1, 0, 0, 0);
            && t < u && Aligned(u)
            && forall v | t <= v < u :: DayIndex(v) == DayIndex(t) && Hour(v) == Hour(t)
  {
    hide YearOfDay, MonthOfDay, DayOfMonth, DayNumber, YearStart, DaysBeforeMonth, Aligned, DayIndex, Hour;
    var n, h := DayIndex(t), Hour(t);
    DayRoundTrip(n);
    InDay(t);
    AlignedHour(n, h + 1);
    forall v | t <= v < n * DAY + (h + 1) * HOUR ensures DayIndex(v) == n && Hour(v) == h {
      SameHour(t, v);
    }
  }

  /** Where the search starts: add what is missing to the minute, then truncate. */
  function StartMinute(from: Instant): (t: Instant)
    ensures t == FirstMinute(from)
  {
    var t := from + (MINUTE - Second(from) * SECOND - Nanosecond(from));
    SecondsOfMinute(from);
    t - t % MINUTE
  }

  lemma SecondsOfMinute(t: Instant)
    ensures Second(t) * SECOND + Nanosecond(t) == t % MINUTE
  {
  }

  lemma SkipMonth(cs: CronSchedule, t: Instant, limit: Instant)
    requires Aligned(t) && Month(t) !in cs.months
    ensures var u := Date(Year(t), Month(t) + 1, 1, 0, 0, 0, 0);
            t < u && Aligned(u) && Scan(cs, t, limit) == Scan(cs, u, limit)
  {
    hide Date, Year, Month, MatchDay, Hour, Minute, Aligned, Scan;
    NextMonthStart(t);
    ScanSkips(cs, t, Date(Year(t), Month(t) + 1, 1, 0, 0, 0, 0), limit);
  }

  lemma SkipDay(cs: CronSchedule, t: Instant, limit: Instant)
    requires Aligned(t) && !MatchDay(cs, t)
    ensures var u := Date(Year(t), Month(t), Day(t) + 1, 0, 0, 0, 0);
            t < u && Aligned(u) && Scan(cs, t, limit) == Scan(cs, u, limit)
  {
    hide Date, Year, Month, Hour, Minute, Aligned, Scan, DayOfMonth, WeekdayOfDay, DayIndex;
    NextDayStart(t);
    ScanSkips(cs, t, Date(Year(t), Month(t), Day(t) + 1, 0, 0, 0, 0), limit);
  }

  lemma SkipHour(cs: CronSchedule, t: Instant, limit: Instant)
    requires Aligned(t) && Hour(t) !in cs.hours
    ensures var u := Date(Year(t), Month(t), Day(t), Hour(t) + 1, 0, 0, 0);
            t < u && Aligned(u) && Scan(cs, t, limit) == Scan(cs, u, limit)
  {
    hide Date, Year, Month, Day, MatchDay, Hour, Minute, Aligned, Scan;
    NextHourStart(t);
    ScanSkips(cs, t, Date(Year(t), Month(t), Day(t), Hour(t) + 1, 0, 0, 0), limit);
  }

  lemma SkipMinute(cs: CronSchedule, t: Instant, limit: Instant)
    requires Aligned(t) && !Matches(cs, t)
    ensures Aligned(t + MINUTE) && (t <= limit ==> Scan(cs, t, limit) == Scan(cs, t + MINUTE, limit))
  {
    hide Matches;
  }

  /** The engine's search. It returns what the minute-by-minute scan returns. */
  method Next(cs: CronSchedule, from: Instant) returns (r: Instant)
    ensures r == NextFire(cs, from)
  {
    hide Date, Year, Month, Day, MatchDay, Hour, Minute, Aligned, Scan, StartMinute, FirstMinute, AddYears;
    if cs.every > 0 {
      return from + cs.every;
    }
    var t := StartMinute(from);
    var limit := AddYears(from, 4);
    while t <= limit
      invariant Aligned(t)
      invariant Scan(cs, t, limit) == NextFire(cs, from)
      decreases limit - t
    {
      var monthHit := Contains(cs.months, Month(t));
      if !monthHit {
        SkipMonth(cs, t, limit);
        t := Date(Year(t), Month(t) + 1, 1, 0, 0, 0, 0);
        continue;
      }
      if !MatchDay(cs, t) {
        SkipDay(cs, t, limit);
        t := Date(Year(t), Month(t), Day(t) + 1, 0, 0, 0, 0);
        continue;
      }
      var hourHit := Contains(cs.hours, Hour(t));
      if !hourHit {
        SkipHour(cs, t, limit);
        t := Date(Year(t), Month(t), Day(t), Hour(t) + 1, 0, 0, 0);
        continue;
      }
      var minuteHit := Contains(cs.minutes, Minute(t));
      if !minuteHit {
        SkipMinute(cs, t, limit);
        t := t + MINUTE;
        continue;
      }
      ScanEnds(cs, t, limit);
      return t;
    }
    ScanEnds(cs, t, limit);
    return ZERO_TIME;
  }

  lemma ScanEnds(cs: CronSchedule, t: Instant, limit: Instant)
    ensures t > limit ==> Scan(cs, t, limit) == ZERO_TIME
    ensures t <= limit && Matches(cs, t) ==> Scan(cs, t, limit) == t
  {
  }

  // ---------- what the search finds ----------

  ghost predicate InWindow(t: Instant, from: Instant) {
    from < t <= Limit(from)
  }

  lemma NotOnMinute(cs: CronSchedule, t: Instant, v: Instant)
    requires Aligned(t) && t < v < t + MINUTE
    ensures !Matches(cs, v)
  {
    hide MatchDay, Aligned, Month, Hour, Minute;
    OffMinute(t, v);
  }

  lemma BeforeFirstMinute(cs: CronSchedule, from: Instant, v: Instant)
    requires from < v < FirstMinute(from)
    ensures !Matches(cs, v)
  {
    hide MatchDay, Aligned, Month, Hour, Minute, FirstMinute;
    NoMinuteBefore(from, v);
  }

  lemma {:induction false} ScanIsLeast(cs: CronSchedule, t: Instant, limit: Instant)
    requires Aligned(t)
    ensures var r := Scan(cs, t, limit);
            || (t <= r <= limit && Matches(cs, r) && forall v | t <= v < r :: !Matches(cs, v))
            || (r == ZERO_TIME && forall v | t <= v <= limit :: !Matches(cs, v))
    decreases limit - t
  {
    hide Matches, Aligned, Scan;
    ScanEnds(cs, t, limit);
    if t <= limit && !Matches(cs, t) {
      SkipMinute(cs, t, limit);
      ScanIsLeast(cs, t + MINUTE, limit);
      forall v | t < v < t + MINUTE ensures !Matches(cs, v) {
        NotOnMinute(cs, t, v);
      }
    }
  }

  /** The next firing is the least matching instant of the window, or the zero time when the
      window holds none. */
  lemma NextFireIsLeast(cs: CronSchedule, from: Instant)
    requires cs.every <= 0
    ensures var r := NextFire(cs, from);
            || (InWindow(r, from) && Matches(cs, r) && forall v | from < v < r :: !Matches(cs, v))
            || (r == ZERO_TIME && forall v | InWindow(v, from) :: !Matches(cs, v))
  {
    hide Matches, Limit, FirstMinute, Aligned, Scan;
    ScanIsLeast(cs, FirstMinute(from), Limit(from));
    forall v | from < v < FirstMinute(from) ensures !Matches(cs, v) {
      BeforeFirstMinute(cs, from, v);
    }
  }

  function Earlier(a: Instant, b: Instant): Instant {
    if a == ZERO_TIME || (b != ZERO_TIME && b < a) then b else a
  }

  /** With both day lists restricted, the next firing is the earlier of what the two lists give
      on their own, the zero time counting as none. */
  lemma NextFireIsEarlier(cs: CronSchedule, from: Instant)
    requires cs.every <= 0 && cs.hasDOM && cs.hasDOW && from >= ZERO_TIME
    ensures NextFire(cs, from)
            == Earlier(NextFire(cs.(hasDOW := false), from), NextFire(cs.(hasDOM := false), from))
  {
    hide NextFire, Matches, Limit;
    var dom, dow := cs.(hasDOW := false), cs.(hasDOM := false);
    NextFireIsLeast(cs, from);
    NextFireIsLeast(dom, from);
    NextFireIsLeast(dow, from);
    forall t ensures Matches(cs, t) <==> Matches(dom, t) || Matches(dow, t) {
      EitherListMatches(cs, t);
    }
  }

  /** What `0 0 13 * 5` denotes. */
  const FRIDAYS_AND_13TH := CronSchedule(0, [0], [0], [13], [1, 2, 3, 4, 5, 6, 7, 8, 9, 10, 11, 12], [5], true, true)

  /** Asked at noon of Friday 7 June 2024 it fires next on Thursday the 13th, a day before the
      next Friday. */
  lemma EitherDayWitness()
    ensures Denotes(FRIDAYS_AND_13TH, ["0", "0", "13", "*", "5"])
    ensures NextFire(FRIDAYS_AND_13TH, Date(2024, 6, 7, 12, 0, 0, 0)) == Date(2024, 6, 13, 0, 0, 0, 0)
    ensures WeekdayOfDay(DayNumber(2024, 6, 13)) == 4
  {
    hide NextFire, Matches, Date, Denotes, InWindow;
    var cs, from, t := FRIDAYS_AND_13TH, Date(2024, 6, 7, 12, 0, 0, 0), Date(2024, 6, 13, 0, 0, 0, 0);
    FridaysDenote();
    JuneDays();
    MatchesOnDate(cs, 2024, 6, 13, 0, 0);
    NextFireIsLeast(cs, from);
    assert InWindow(t, from);
    forall v | from < v < t ensures !Matches(cs, v) {
      QuietWeek(v);
    }
    WindowIsAhead(NextFire(cs, from), from);
  }

  lemma WindowIsAhead(t: Instant, from: Instant)
    ensures InWindow(t, from) ==> from < t
  {
  }

  lemma FridaysDenote()
    ensures Denotes(FRIDAYS_AND_13TH, ["0", "0", "13", "*", "5"])
  {
    hide Itoa, Lists;
    FridayTexts();
    NumberLists(0, RANGE_MINUTE);
    NumberLists(0, RANGE_HOUR);
    NumberLists(13, RANGE_DOM);
    StarLists(FRIDAYS_AND_13TH.months, RANGE_MONTH);
    NumberLists(5, RANGE_DOW);
  }

  lemma FridayTexts()
    ensures Itoa(0) == "0" && Itoa(5) == "5" && Itoa(13) == "13"
  {
    assert Digits(13) == Digits(1) + ['3'];
    assert Digits(1) == ['1'];
  }

  /** The days concerned, by their numbers: 7 June 2024 is day 739043, a Friday. */
  lemma JuneDays()
    ensures Date(2024, 6, 7, 12, 0, 0, 0) == 739043 * DAY + 12 * HOUR && Date(2024, 6, 13, 0, 0, 0, 0) == 739049 * DAY
    ensures DayNumber(2024, 6, 13) == 739049 && WeekdayOfDay(739049) == 4
    ensures InWindow(Date(2024, 6, 13, 0, 0, 0, 0), Date(2024, 6, 7, 12, 0, 0, 0))
  {
    KnownYears();
    assert DaysBeforeMonth(2024, 6) == 152;
    ProperDay(2024, 6, 7);
    ProperDay(2024, 6, 13);
    AddYearsIs(2024, 6, 7, 12, 0, 4);
    ProperDay(2028, 6, 7);
    assert DaysBeforeMonth(2028, 6) == 152;
    YearStartMonotone(2024, 2028);
    hide YearStart, DayNumber, AddYears, DaysBeforeMonth;
  }

  /** Between them no midnight is a 13th or a Friday. */
  lemma QuietWeek(v: Instant)
    requires 739043 * DAY + 12 * HOUR < v < 739049 * DAY
    ensures !Matches(FRIDAYS_AND_13TH, v)
  {
    var n := DayIndex(v);
    if Matches(FRIDAYS_AND_13TH, v) {
      MidnightIs(v);
      JuneDay(n);
      assert false;
    }
  }

  lemma MidnightIs(v: Instant)
    requires Aligned(v) && Hour(v) == 0 && Minute(v) == 0
    ensures v == DayIndex(v) * DAY
  {
    ClockRoundTrip(v);
    ClockOf(v);
  }

  lemma JuneDay(n: int)
    requires 739044 <= n <= 739048
    ensures DayOfMonth(n) == n - 739036 && WeekdayOfDay(n) != 5
  {
    KnownYears();
    assert DaysBeforeMonth(2024, 6) == 152;
    ProperDay(2024, 6, n - 739036);
    DateRoundTrip(2024, 6, n - 739036);
  }

  // ---------- what the aliases mean ----------

  lemma HourlyText()
    ensures Fields("0 * * * *") == ["0", "*", "*", "*", "*"]
  {
    hide Fields;
    FiveWords("0", "*", "*", "*", "*");
    assert "0 * * * *" == "0" + [' '] + ("*" + [' '] + ("*" + [' '] + ("*" + [' '] + "*")));
  }

  lemma DailyText()
    ensures Fields("0 0 * * *") == ["0", "0", "*", "*", "*"]
  {
    hide Fields;
    FiveWords("0", "0", "*", "*", "*");
    assert "0 0 * * *" == "0" + [' '] + ("0" + [' '] + ("*" + [' '] + ("*" + [' '] + "*")));
  }

  lemma WeeklyText()
    ensures Fields("0 0 * * 0") == ["0", "0", "*", "*", "0"]
  {
    hide Fields;
    FiveWords("0", "0", "*", "*", "0");
    assert "0 0 * * 0" == "0" + [' '] + ("0" + [' '] + ("*" + [' '] + ("*" + [' '] + "0")));
  }

  lemma MonthlyText()
    ensures Fields("0 0 1 * *") == ["0", "0", "1", "*", "*"]
  {
    hide Fields;
    FiveWords("0", "0", "1", "*", "*");
    assert "0 0 1 * *" == "0" + [' '] + ("0" + [' '] + ("1" + [' '] + ("*" + [' '] + "*")));
  }

  lemma YearlyText()
    ensures Fields("0 0 1 1 *") == ["0", "0", "1", "1", "*"]
  {
    hide Fields;
    FiveWords("0", "0", "1", "1", "*");
    assert "0 0 1 1 *" == "0" + [' '] + ("0" + [' '] + ("1" + [' '] + ("1" + [' '] + "*")));
  }

  lemma AliasTexts()
    ensures Fields(Expand("@hourly")) == ["0", "*", "*", "*", "*"]
    ensures Fields(Expand("@daily")) == Fields(Expand("@midnight")) == ["0", "0", "*", "*", "*"]
    ensures Fields(Expand("@weekly")) == ["0", "0", "*", "*", "0"]
    ensures Fields(Expand("@monthly")) == ["0", "0", "1", "*", "*"]
    ensures Fields(Expand("@yearly")) == Fields(Expand("@annually")) == ["0", "0", "1", "1", "*"]
  {
    hide Fields;
    HourlyText();
    DailyText();
    WeeklyText();
    MonthlyText();
    YearlyText();
  }

  /** Each alias fires on the dates its name says: every hour on the hour, every midnight, the
      midnights of Sundays, of first days of months, and of first days of January. */
  lemma AliasFires(alias: string, cs: CronSchedule, t: Instant)
    requires Denotes(cs, Fields(Expand(alias)))
    ensures alias == "@hourly" ==> (Matches(cs, t) <==> t % HOUR == 0)
    ensures alias == "@daily" || alias == "@midnight" ==> (Matches(cs, t) <==> t % DAY == 0)
    ensures alias == "@weekly" ==> (Matches(cs, t) <==> t % DAY == 0 && Weekday(t) == 0)
    ensures alias == "@monthly" ==> (Matches(cs, t) <==> t % DAY == 0 && Day(t) == 1)
    ensures alias == "@yearly" || alias == "@annually" ==>
              (Matches(cs, t) <==> t % DAY == 0 && Day(t) == 1 && Month(t) == 1)
  {
    hide Lists, Month, Day, Weekday, Hour, Minute, Aligned, Expand, Fields;
    AliasTexts();
    SmallTexts();
    ClockZero(t);
    FieldsInRange(t);
    var f := Fields(Expand(alias));
    if f[0] == "0" { NumberMeans(cs.minutes, 0, RANGE_MINUTE); }
    if f[1] == "0" { NumberMeans(cs.hours, 0, RANGE_HOUR); }
    if f[1] == "*" { StarMeans(cs.hours, RANGE_HOUR); }
    if f[2] == "1" { NumberMeans(cs.doms, 1, RANGE_DOM); }
    if f[3] == "1" { NumberMeans(cs.months, 1, RANGE_MONTH); }
    if f[3] == "*" { StarMeans(cs.months, RANGE_MONTH); }
    if f[4] == "0" { NumberMeans(cs.dows, 0, RANGE_DOW); }
  }

  /** The `@every` form is that word, a space and the duration; no alias is one. */
  lemma EveryReads(text: string)
    ensures IsEvery("@every " + text) && ("@every " + text)[|EVERY|..] == text
    ensures !IsEvery("@every") && !IsEvery("@hourly") && !IsEvery("0 * * * *")
  {
    assert "@hourly"[1] != EVERY[1] && "0 * * * *"[0] != EVERY[0];
  }

  lemma SmallTexts()
    ensures Itoa(0) == "0" && Itoa(1) == "1"
  {
  }

  lemma ClockZero(t: Instant)
    ensures Aligned(t) && Minute(t) == 0 <==> t % HOUR == 0
    ensures Aligned(t) && Minute(t) == 0 && Hour(t) == 0 <==> t % DAY == 0
  {
    HourZero(t);
    DayZero(t);
  }

  lemma HourZero(t: Instant)
    ensures Aligned(t) && Minute(t) == 0 <==> t % HOUR == 0
  {
    var q, r := t / HOUR, t % HOUR;
    Multiple(q * 60);
    assert t == q * 60 * MINUTE + r;
    if 0 < r < MINUTE {
      OffMinute(q * 60 * MINUTE, t);
    }
  }

  lemma DayZero(t: Instant)
    ensures t % HOUR == 0 && Hour(t) == 0 <==> t % DAY == 0
  {
    var q, r := t / DAY, t % DAY;
    assert t == q * 24 * HOUR + r;
    assert t % HOUR == r % HOUR by { HourShift(q * 24, r); }
  }

  lemma HourShift(k: int, r: int)
    ensures (k * HOUR + r) % HOUR == r % HOUR
  {
    var q := r / HOUR;
    assert k * HOUR + r == (k + q) * HOUR + r % HOUR;
  }

  lemma FieldsInRange(t: Instant)
    ensures 0 <= Minute(t) <= 59 && 0 <= Hour(t) <= 23 && 1 <= Month(t) <= 12
  {
    ClockRoundTrip(t);
  }

  // ---------- when a schedule has a next firing ----------

  /** Some month and day of the schedule occur in every year; year 1 is a common year. */
  predicate Yearly(cs: CronSchedule) {
    !cs.hasDOM || cs.hasDOW ||
    exists m, d :: m in cs.months && d in cs.doms && 1 <= m <= 12 && 1 <= d <= DaysInMonth(1, m)
  }

  predicate ListsLeapDay(cs: CronSchedule) {
    2 in cs.months && 29 in cs.doms
  }

  ghost predicate LeapDayInWindow(cs: CronSchedule, from: Instant) {
    exists y, h, mi ::
      && IsLeap(y) && h in cs.hours && 0 <= h <= 23 && mi in cs.minutes && 0 <= mi <= 59
      && InWindow(Date(y, 2, 29, h, mi, 0, 0), from)
  }

  ghost predicate Fires(cs: CronSchedule, from: Instant) {
    exists t :: InWindow(t, from) && Matches(cs, t)
  }

  lemma NextYearInWindow(from: Instant, m: int, d: int, h: int, mi: int)
    requires 1 <= m <= 12 && 1 <= d <= DaysInMonth(Year(from) + 1, m) && 0 <= h <= 23 && 0 <= mi <= 59
    ensures InWindow(Date(Year(from) + 1, m, d, h, mi, 0, 0), from)
  {
    hide YearOfDay, MonthOfDay, DayOfMonth, DayNumber, YearStart, DaysBeforeMonth, Hour, Minute, Second, Nanosecond;
    var n, y := DayIndex(from), Year(from);
    DateInYear(y + 1, m, d);
    YearStartMonotone(y + 2, y + 4);
    DayRoundTrip(n);
    LaterYear(n, 4);
    ClockRoundTrip(from);
    ClockWithinDay(n, DayNumber(y + 1, m, d), from, h, mi);
    ClockWithinDay(DayNumber(y + 1, m, d), DayNumber(y + 4, Month(from), Day(from)),
                   Date(y + 1, m, d, h, mi, 0, 0), Hour(from), Minute(from));
  }

  /** An instant of day `a` precedes every clock reading of a later day `b`. */
  lemma ClockWithinDay(a: int, b: int, t: Instant, h: int, mi: int)
    requires a < b && t < (a + 1) * DAY && h >= 0 && mi >= 0
    ensures t < b * DAY + h * HOUR + mi * MINUTE
  {
  }

  lemma LaterYear(n: int, k: int)
    ensures DayNumber(YearOfDay(n) + k, MonthOfDay(n), DayOfMonth(n)) >= YearStart(YearOfDay(n) + k)
  {
    hide YearOfDay, MonthOfDay, DayOfMonth, YearStart;
    DayRoundTrip(n);
    var m := MonthOfDay(n);
    assert (m - 1) / 12 == 0 && (m - 1) % 12 == m - 1;
  }

  lemma DateMatches(cs: CronSchedule, y: int, m: int, d: int, h: int, mi: int)
    requires 1 <= m <= 12 && m in cs.months && 1 <= d <= DaysInMonth(y, m)
    requires h in cs.hours && 0 <= h <= 23 && mi in cs.minutes && 0 <= mi <= 59
    requires MatchDay(cs, Date(y, m, d, h, mi, 0, 0))
    ensures Matches(cs, Date(y, m, d, h, mi, 0, 0))
  {
    hide Date, MatchDay, Month, Hour, Minute, Aligned;
    DateFields(y, m, d, h, mi);
  }

  /** A schedule with a yearly date fires in every window. */
  lemma YearlyFires(cs: CronSchedule, from: Instant)
    requires Usable(cs) && Yearly(cs)
    ensures Fires(cs, from)
  {
    hide Date, Month, Hour, Minute, Aligned, Year, InWindow, WeekdayOfDay, DayOfMonth, DayIndex, DaysInMonth, Matches;
    var y := Year(from) + 1;
    var h :| h in cs.hours && 0 <= h <= 23;
    var mi :| mi in cs.minutes && 0 <= mi <= 59;
    var m :| m in cs.months && 1 <= m <= 12;
    var d := 1;
    DaysInMonthBounds(y, m);
    if cs.hasDOW {
      var w :| w in cs.dows && 0 <= w <= 6;
      d := WeekdayInFirstWeek(y, m, w);
    } else if cs.hasDOM {
      var m', d' :| m' in cs.months && d' in cs.doms && 1 <= m' <= 12 && 1 <= d' <= DaysInMonth(1, m');
      m, d := m', d';
      DaysInMonthBounds(y, m);
    }
    DateFields(y, m, d, h, mi);
    DateMatches(cs, y, m, d, h, mi);
    NextYearInWindow(from, m, d, h, mi);
  }

  lemma DaysInMonthBounds(y: int, m: int)
    requires 1 <= m <= 12
    ensures 7 <= DaysInMonth(1, m) <= DaysInMonth(y, m) && DaysInMonth(1, 2) == 28
    ensures DaysInMonth(1, m) < DaysInMonth(y, m) ==> m == 2 && IsLeap(y) && DaysInMonth(y, m) == 29
  {
  }

  /** Without a yearly date, every firing is on 29 February. */
  lemma OnlyLeapDays(cs: CronSchedule, t: Instant)
    requires !Yearly(cs) && Matches(cs, t)
    ensures IsLeap(Year(t)) && ListsLeapDay(cs)
    ensures t == Date(Year(t), 2, 29, Hour(t), Minute(t), 0, 0)
  {
    hide Date, Year, Month, Day, Hour, Minute, Weekday, DaysInMonth, Aligned, DayIndex;
    DayOfInstant(t);
    DaysInMonthBounds(Year(t), Month(t));
    InstantRoundTrip(t);
    WholeMinute(t);
  }

  lemma DayOfInstant(t: Instant)
    ensures 1 <= Month(t) <= 12
    ensures 1 <= Day(t) <= DaysInMonth(Year(t), Month(t))
  {
  }

  lemma WholeMinute(t: Instant)
    requires Aligned(t)
    ensures Second(t) == 0 && Nanosecond(t) == 0
  {
  }

  lemma LeapDayFires(cs: CronSchedule, from: Instant)
    requires cs.hasDOM && !cs.hasDOW && ListsLeapDay(cs) && LeapDayInWindow(cs, from)
    ensures Fires(cs, from)
  {
    hide Date, InWindow, Year, Month, Hour, Minute, WeekdayOfDay, DayOfMonth, DayIndex, Aligned;
    var y, h, mi :| && IsLeap(y) && h in cs.hours && 0 <= h <= 23 && mi in cs.minutes && 0 <= mi <= 59
                    && InWindow(Date(y, 2, 29, h, mi, 0, 0), from);
    DateFields(y, 2, 29, h, mi);
  }

  /** Exactly when the engine finds a firing: the schedule has a date that occurs every year,
      or its only date is 29 February and a leap day falls inside the four-year window. */
  lemma NextFireExistsExactlyWhen(cs: CronSchedule, from: Instant)
    requires Usable(cs) && from >= ZERO_TIME
    ensures NextFire(cs, from) != ZERO_TIME <==>
            Yearly(cs) || (ListsLeapDay(cs) && LeapDayInWindow(cs, from))
  {
    hide Matches, NextFire, Date, Limit;
    NextFireIsLeast(cs, from);
    assert NextFire(cs, from) != ZERO_TIME <==> Fires(cs, from);
    if Yearly(cs) {
      YearlyFires(cs, from);
    } else if ListsLeapDay(cs) && LeapDayInWindow(cs, from) {
      LeapDayFires(cs, from);
    } else {
      forall t | InWindow(t, from) ensures !Matches(cs, t) {
        NoLeapDay(cs, from, t);
      }
    }
  }

  lemma NoLeapDay(cs: CronSchedule, from: Instant, t: Instant)
    requires !Yearly(cs) && InWindow(t, from)
    requires !(ListsLeapDay(cs) && LeapDayInWindow(cs, from))
    ensures !Matches(cs, t)
  {
    hide Date, Year, Month, Hour, Minute, Aligned, MatchDay, InWindow, Yearly;
    if Matches(cs, t) {
      OnlyLeapDays(cs, t);
      ClockRoundTrip(t);
      assert false;
    }
  }

  /** What `0 0 29 2 *` denotes. */
  const LEAP_DAY := CronSchedule(0, [0], [0], [29], [2], [0, 1, 2, 3, 4, 5, 6], true, false)

  /** The cap makes a satisfiable schedule look impossible: `0 0 29 2 *` asked on 1 March 2096
      has a firing in 2104, and the engine answers with the zero time. */
  lemma LeapGapWitness()
    ensures Denotes(LEAP_DAY, ["0", "0", "29", "2", "*"])
    ensures var from := Date(2096, 3, 1, 0, 0, 0, 0);
            && WellFormed(LEAP_DAY) && Matches(LEAP_DAY, Date(2104, 2, 29, 0, 0, 0, 0))
            && NextFire(LEAP_DAY, from) == ZERO_TIME
  {
    hide Date, NextFire, Matches, InWindow, Denotes;
    var from := Date(2096, 3, 1, 0, 0, 0, 0);
    LeapDayDenotes();
    LeapDayMatches(2104);
    GapStart();
    LeapDayWellFormed();
    NextFireExistsExactlyWhen(LEAP_DAY, from);
    forall y | IsLeap(y) ensures !InWindow(Date(y, 2, 29, 0, 0, 0, 0), from) {
      LeapGapYear(y);
    }
  }

  lemma LeapDayDenotes()
    ensures Denotes(LEAP_DAY, ["0", "0", "29", "2", "*"])
  {
    hide Itoa, Lists;
    NumberTexts();
    NumberLists(0, RANGE_MINUTE);
    NumberLists(0, RANGE_HOUR);
    NumberLists(29, RANGE_DOM);
    NumberLists(2, RANGE_MONTH);
    StarLists(LEAP_DAY.dows, RANGE_DOW);
  }

  lemma NumberTexts()
    ensures Itoa(0) == "0" && Itoa(2) == "2" && Itoa(29) == "29"
  {
    assert Digits(29) == Digits(2) + ['9'];
    assert Digits(2) == ['2'];
  }

  lemma LeapDayWellFormed()
    ensures WellFormed(LEAP_DAY) && Usable(LEAP_DAY) && !Yearly(LEAP_DAY)
  {
    assert 0 in LEAP_DAY.minutes && 0 in LEAP_DAY.hours && 29 in LEAP_DAY.doms && 2 in LEAP_DAY.months && 0 in LEAP_DAY.dows;
  }

  lemma LeapDayMatches(y: int)
    requires IsLeap(y)
    ensures Matches(LEAP_DAY, Date(y, 2, 29, 0, 0, 0, 0))
  {
    hide Date;
    DateFields(y, 2, 29, 0, 0);
  }

  lemma GapStart()
    ensures Date(2096, 3, 1, 0, 0, 0, 0) >= ZERO_TIME
  {
  }

  lemma GapLimit()
    ensures Limit(Date(2096, 3, 1, 0, 0, 0, 0)) == Date(2100, 3, 1, 0, 0, 0, 0)
  {
    hide Date, Year, Month, Day, Hour, Minute, Aligned, DayIndex;
    DateFields(2096, 3, 1, 0, 0);
    WholeMinute(Date(2096, 3, 1, 0, 0, 0, 0));
  }

  lemma LeapGapYear(y: int)
    requires IsLeap(y)
    ensures !InWindow(Date(y, 2, 29, 0, 0, 0, 0), Date(2096, 3, 1, 0, 0, 0, 0))
  {
    hide Limit, YearStart;
    GapLimit();
    assert DayNumber(y, 2, 29) == YearStart(y) + 59;
    assert DayNumber(2096, 3, 1) == YearStart(2096) + 60;
    assert DayNumber(2100, 3, 1) == YearStart(2100) + 59;
    if y <= 2096 {
      YearStartMonotone(y, 2096);
    } else {
      assert y >= 2104;
      YearStartMonotone(2100, y);
    }
  }
}
