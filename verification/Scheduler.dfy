/** The source-sync scheduler (internal/admin/scheduler.go): rows of `sync_schedules`, the
    upsert that creates them and the tick that turns due rows into sync events. */
module Scheduler {
  import opened Text
  import opened Calendar
  import opened Cron

  /** `schedule` is what `ParseCron` makes of the row's expression, `None` for a bad one. */
  datatype Row = Row(schedule: Option<CronSchedule>, nextRunAt: Instant, enabled: bool,
                     lastRunAt: Instant, hasError: bool)

  /** How the outside world answers one row of one tick: the Kafka emit, the update that
      advances `next_run_at`, and the best-effort update of the error columns. */
  datatype Outcome = Outcome(emitOk: bool, advanceOk: bool, errorWriteOk: bool)

  type Key = (string, string)

  predicate Due(row: Row, now: Instant) {
    row.enabled && row.nextRunAt <= now
  }

  // ---------- one row of one tick ----------

  predicate Emits(row: Row, now: Instant, o: Outcome) {
    Due(row, now) && row.schedule.Some? && o.emitOk
  }

  ghost predicate Advances(row: Row, now: Instant, o: Outcome) {
    Emits(row, now, o) && NextFire(row.schedule.value, now) != ZERO_TIME && o.advanceOk
  }

  /** The row after a tick. */
  ghost function RowTick(row: Row, now: Instant, o: Outcome): Row {
    if !Due(row, now) || row.schedule.None? then row
    else if !o.emitOk then (if o.errorWriteOk then row.(hasError := true) else row)
    else
      var next := NextFire(row.schedule.value, now);
      if next == ZERO_TIME then row
      else if !o.advanceOk then (if o.errorWriteOk then row.(hasError := true) else row)
      else row.(nextRunAt := next, lastRunAt := now,
                hasError := if o.errorWriteOk then false else row.hasError)
  }

  lemma NotDueIsUntouched(row: Row, now: Instant, o: Outcome)
    requires !Due(row, now)
    ensures RowTick(row, now, o) == row
  {
  }

  // ---------- the table ----------

  datatype UpsertError = MissingKey | BadExpression | NoFutureFire | StoreFailed

  class Table {
    var rows: map<Key, Row>
    var emitted: seq<Key>

    constructor ()
      ensures rows == map[] && emitted == []
    {
      rows := map[];
      emitted := [];
    }

    /** The rows a tick works on, in the order of the query: every due row once, by
        ascending `next_run_at`. */
    static ghost predicate IsDueListing(rows: map<Key, Row>, now: Instant, due: seq<Key>) {
      && (forall i, j | 0 <= i < j < |due| :: due[i] != due[j])
      && (forall k :: k in due <==> k in rows && Due(rows[k], now))
      && (forall i, j | 0 <= i < j < |due| && due[i] in rows && due[j] in rows ::
            rows[due[i]].nextRunAt <= rows[due[j]].nextRunAt)
    }

    /** Creates or replaces the schedule of a source, refusing one that never fires. The
        flags say whether the lookup of the row and the write succeed. */
    method Upsert(key: Key, schedule: Option<CronSchedule>, enabled: bool, now: Instant, lookupOk: bool, writeOk: bool)
      returns (err: Option<UpsertError>)
      modifies this`rows
      ensures err == Some(MissingKey) <==> key.0 == "" || key.1 == ""
      ensures err == Some(BadExpression) <==> key.0 != "" && key.1 != "" && schedule.None?
      ensures err == Some(NoFutureFire) <==>
              key.0 != "" && key.1 != "" && schedule.Some? && NextFire(schedule.value, now) == ZERO_TIME
      ensures err == Some(StoreFailed) <==>
              && key.0 != "" && key.1 != "" && schedule.Some? && NextFire(schedule.value, now) != ZERO_TIME
              && !(lookupOk && writeOk)
      ensures err.Some? ==> rows == old(rows)
      ensures err.None? ==>
                && key in rows && rows == old(rows)[key := rows[key]]
                && rows[key].schedule == schedule && rows[key].enabled == enabled
                && rows[key].nextRunAt == NextFire(schedule.value, now) != ZERO_TIME
                && (key in old(rows) ==> rows[key].lastRunAt == old(rows)[key].lastRunAt
                                         && rows[key].hasError == old(rows)[key].hasError)
    {
      if key.0 == "" || key.1 == "" {
        return Some(MissingKey);
      }
      if schedule.None? {
        return Some(BadExpression);
      }
      var next := Next(schedule.value, now);
      if next == ZERO_TIME {
        return Some(NoFutureFire);
      }
      if !lookupOk || !writeOk {
        return Some(StoreFailed);
      }
      if key in rows {
        rows := rows[key := rows[key].(schedule := schedule, nextRunAt := next, enabled := enabled)];
      } else {
        rows := rows[key := Row(schedule, next, enabled, ZERO_TIME, false)];
      }
      return None;
    }

    /** One scheduling pass over the listing the query returned, `None` being a failed query:
        each row moves on its own, and the sync events go out in listing order. */
    method Tick(now: Instant, listing: Option<seq<Key>>, outcome: Key -> Outcome) returns (ok: bool)
      requires listing.Some? ==> IsDueListing(rows, now, listing.value)
      modifies this
      ensures ok <==> listing.Some?
      ensures !ok ==> rows == old(rows) && emitted == old(emitted)
      ensures rows.Keys == old(rows).Keys
      ensures ok ==> forall k | k in rows :: rows[k] == RowTick(old(rows)[k], now, outcome(k))
      ensures ok ==> emitted == old(emitted) + EmittedKeys(old(rows), now, listing.value, outcome)
    {
      hide RowTick, Emits;
      if listing.None? {
        return false;
      }
      var due := listing.value;
      ghost var before := rows;
      for i := 0 to |due|
        invariant rows.Keys == before.Keys
        invariant forall k | k in rows ::
                    rows[k] == if k in due[..i] then RowTick(before[k], now, outcome(k)) else before[k]
        invariant emitted == old(emitted) + EmittedKeys(before, now, due[..i], outcome)
      {
        assert due[..i + 1][..i] == due[..i];
        assert due[i] in due;
        TickRow(now, due[i], outcome(due[i]));
      }
      assert due[..|due|] == due;
      forall k | k in before && k !in due ensures RowTick(before[k], now, outcome(k)) == before[k] {
        NotDueIsUntouched(before[k], now, outcome(k));
      }
      return true;
    }

    /** The keys whose rows emit, in listing order. */
    static ghost function EmittedKeys(rows: map<Key, Row>, now: Instant, due: seq<Key>, outcome: Key -> Outcome): seq<Key> {
      if due == [] then []
      else
        var k := due[|due| - 1];
        EmittedKeys(rows, now, due[..|due| - 1], outcome)
        + (if k in rows && Emits(rows[k], now, outcome(k)) then [k] else [])
    }

    method TickRow(now: Instant, key: Key, o: Outcome)
      requires key in rows && Due(rows[key], now)
      modifies this
      ensures rows == old(rows)[key := RowTick(old(rows)[key], now, o)]
      ensures emitted == old(emitted) + if Emits(old(rows)[key], now, o) then [key] else []
    {
      var row := rows[key];
      if row.schedule.None? {
        return;
      }
      if !o.emitOk {
        RecordError(key, o.errorWriteOk);
        return;
      }
      emitted := emitted + [key];
      var next := Next(row.schedule.value, now);
      if next == ZERO_TIME {
        return;
      }
      if !o.advanceOk {
        RecordError(key, o.errorWriteOk);
        return;
      }
      rows := rows[key := row.(nextRunAt := next, lastRunAt := now)];
      if o.errorWriteOk {
        rows := rows[key := rows[key].(hasError := false)];
      }
    }

    method RecordError(key: Key, writeOk: bool)
      requires key in rows
      modifies this`rows
      ensures rows == old(rows)[key := if writeOk then old(rows)[key].(hasError := true) else old(rows)[key]]
    {
      if writeOk {
        rows := rows[key := rows[key].(hasError := true)];
      }
    }
  }

  // ---------- every run of ticks over one row ----------

  datatype TickAt = TickAt(now: Instant, outcome: Outcome)

  /** A schedule and the instant since when it is owed its next firing: the upsert, or the
      last tick whose advance was stored. */
  ghost function Base(row: Row, since: Instant, ticks: seq<TickAt>): Instant {
    if ticks == [] then since
    else
      var last := ticks[|ticks| - 1];
      var earlier := ticks[..|ticks| - 1];
      if Advances(RowAfter(row, earlier), last.now, last.outcome) then last.now
      else Base(row, since, earlier)
  }

  ghost function RowAfter(row: Row, ticks: seq<TickAt>): Row {
    if ticks == [] then row
    else
      var last := ticks[|ticks| - 1];
      RowTick(RowAfter(row, ticks[..|ticks| - 1]), last.now, last.outcome)
  }

  /** The row as an upsert at `since` leaves it. */
  ghost predicate Upserted(row: Row, since: Instant) {
    && row.schedule.Some? && row.enabled && since >= ZERO_TIME
    && row.nextRunAt == NextFire(row.schedule.value, since) != ZERO_TIME
  }

  predicate ClockForward(since: Instant, ticks: seq<TickAt>) {
    && (forall i | 0 <= i < |ticks| :: since <= ticks[i].now)
    && (forall i, j | 0 <= i < j < |ticks| :: ticks[i].now <= ticks[j].now)
  }

  lemma {:induction false} RunInvariant(row: Row, since: Instant, ticks: seq<TickAt>)
    requires Upserted(row, since)
    ensures var after := RowAfter(row, ticks);
            var base := Base(row, since, ticks);
            && after.schedule == row.schedule && after.enabled
            && after.nextRunAt == NextFire(row.schedule.value, base) != ZERO_TIME
    ensures Base(row, since, ticks) == since || exists i :: 0 <= i < |ticks| && Base(row, since, ticks) == ticks[i].now
  {
    hide NextFire;
    if ticks != [] {
      RunInvariant(row, since, ticks[..|ticks| - 1]);
    }
  }

  /** An instant of the schedule, in either form, for a scheduler that fired last at `base`. */
  ghost predicate FireInstant(cs: CronSchedule, base: Instant, t: Instant) {
    if cs.every > 0 then t == base + cs.every else base < t && Matches(cs, t)
  }

  /** In every run, at every tick, whatever failed before: the row is due exactly when an
      instant of its schedule has passed since the last stored advance. */
  lemma DueExactlyWhen(row: Row, since: Instant, ticks: seq<TickAt>, now: Instant)
    requires Upserted(row, since) && ClockForward(since, ticks)
    ensures Due(RowAfter(row, ticks), now) <==>
            exists t :: FireInstant(row.schedule.value, Base(row, since, ticks), t) && t <= now
  {
    hide Matches, NextFire;
    RunInvariant(row, since, ticks);
    var cs, base := row.schedule.value, Base(row, since, ticks);
    assert base >= ZERO_TIME;
    FireInstants(cs, base);
  }

  /** The next firing is the first instant of the schedule. */
  lemma FireInstants(cs: CronSchedule, base: Instant)
    requires base >= ZERO_TIME && NextFire(cs, base) != ZERO_TIME
    ensures FireInstant(cs, base, NextFire(cs, base)) && base < NextFire(cs, base)
    ensures forall t | FireInstant(cs, base, t) :: NextFire(cs, base) <= t
  {
    hide Matches, Scan, Limit;
    if cs.every <= 0 {
      NextFireIsLeast(cs, base);
    }
  }

  /** Two successive emissions of which the first was stored: an instant of the schedule lies
      after the first and no later than the second. */
  lemma EmissionsAreSpaced(row: Row, since: Instant, ticks: seq<TickAt>, i: int, j: int)
    requires Upserted(row, since) && ClockForward(since, ticks) && 0 <= i < j < |ticks|
    requires Advances(RowAfter(row, ticks[..i]), ticks[i].now, ticks[i].outcome)
    requires forall k | i < k < j :: !Advances(RowAfter(row, ticks[..k]), ticks[k].now, ticks[k].outcome)
    requires Emits(RowAfter(row, ticks[..j]), ticks[j].now, ticks[j].outcome)
    ensures exists t :: FireInstant(row.schedule.value, ticks[i].now, t) && ticks[i].now < t <= ticks[j].now
  {
    hide NextFire, FireInstant;
    BaseAfter(row, since, ticks, i, j);
    RunInvariant(row, since, ticks[..j]);
    var m := NextFire(row.schedule.value, ticks[i].now);
    FireInstants(row.schedule.value, ticks[i].now);
    assert m <= ticks[j].now;
  }

  lemma {:induction false} BaseAfter(row: Row, since: Instant, ticks: seq<TickAt>, i: int, j: int)
    requires 0 <= i < j <= |ticks|
    requires Advances(RowAfter(row, ticks[..i]), ticks[i].now, ticks[i].outcome)
    requires forall k | i < k < j :: !Advances(RowAfter(row, ticks[..k]), ticks[k].now, ticks[k].outcome)
    ensures Base(row, since, ticks[..j]) == ticks[i].now
    decreases j
  {
    hide NextFire, Advances, RowTick, RowAfter;
    assert ticks[..j][..j - 1] == ticks[..j - 1];
    if i < j - 1 {
      BaseAfter(row, since, ticks, i, j - 1);
    }
  }

  /** What keeps a row due: a tick that does not store an advance leaves it due for every
      later tick. */
  lemma StaysDueUnlessAdvanced(row: Row, now: Instant, later: Instant, o: Outcome)
    requires Due(row, now) && now <= later && !Advances(row, now, o)
    ensures Due(RowTick(row, now, o), later)
    ensures RowTick(row, now, o).nextRunAt == row.nextRunAt && RowTick(row, now, o).lastRunAt == row.lastRunAt
  {
  }

  // ---------- firings served twice ----------

  /** The tick at position `m` finds a next firing. */
  ghost predicate Finds(row: Row, ticks: seq<TickAt>, m: int)
    requires row.schedule.Some? && 0 <= m < |ticks|
  {
    NextFire(row.schedule.value, ticks[m].now) != ZERO_TIME
  }

  /** From position `i` on, nothing fails. */
  predicate AllOkFrom(ticks: seq<TickAt>, i: int) {
    forall m | 0 <= i <= m < |ticks| :: ticks[m].outcome.emitOk && ticks[m].outcome.advanceOk
  }

  lemma RowStep(row: Row, ticks: seq<TickAt>, m: int)
    requires 0 <= m < |ticks|
    ensures RowAfter(row, ticks[..m + 1]) == RowTick(RowAfter(row, ticks[..m]), ticks[m].now, ticks[m].outcome)
  {
    hide RowTick;
    assert ticks[..m + 1][..m] == ticks[..m];
  }

  lemma SameSchedule(row: Row, since: Instant, ticks: seq<TickAt>, m: int)
    requires Upserted(row, since) && 0 <= m <= |ticks|
    ensures RowAfter(row, ticks[..m]).schedule == row.schedule && RowAfter(row, ticks[..m]).enabled
  {
    hide NextFire, RowAfter;
    RunInvariant(row, since, ticks[..m]);
  }

  /** One tick: the due time stays, or moves past the tick because a next firing was found. */
  lemma DueTimeStep(row: Row, since: Instant, ticks: seq<TickAt>, m: int)
    requires Upserted(row, since) && ClockForward(since, ticks) && 0 <= m < |ticks|
    ensures var before, after := RowAfter(row, ticks[..m]), RowAfter(row, ticks[..m + 1]);
            if Advances(before, ticks[m].now, ticks[m].outcome)
            then Finds(row, ticks, m) && before.nextRunAt <= ticks[m].now < after.nextRunAt
            else after.nextRunAt == before.nextRunAt
  {
    hide NextFire, RowAfter;
    RowStep(row, ticks, m);
    SameSchedule(row, since, ticks, m);
    if Finds(row, ticks, m) {
      FireInstants(row.schedule.value, ticks[m].now);
    }
  }

  lemma {:induction false} DueTimeGrows(row: Row, since: Instant, ticks: seq<TickAt>, i: int, k: int)
    requires Upserted(row, since) && ClockForward(since, ticks) && 0 <= i <= k <= |ticks|
    ensures RowAfter(row, ticks[..i]).nextRunAt <= RowAfter(row, ticks[..k]).nextRunAt
    decreases k
  {
    hide Advances, RowAfter, Finds;
    if i < k {
      DueTimeGrows(row, since, ticks, i, k - 1);
      DueTimeStep(row, since, ticks, k - 1);
    }
  }

  lemma {:induction false} DueTimeStays(row: Row, since: Instant, ticks: seq<TickAt>, i: int, k: int)
    requires Upserted(row, since) && ClockForward(since, ticks) && 0 <= i <= k <= |ticks|
    requires forall m | i <= m < k :: !Finds(row, ticks, m)
    ensures RowAfter(row, ticks[..i]).nextRunAt == RowAfter(row, ticks[..k]).nextRunAt
    decreases k
  {
    hide Advances, RowAfter, Finds;
    if i < k {
      DueTimeStays(row, since, ticks, i, k - 1);
      DueTimeStep(row, since, ticks, k - 1);
    }
  }

  lemma DueTimeMoves(row: Row, since: Instant, ticks: seq<TickAt>, i: int, m: int, k: int)
    requires Upserted(row, since) && ClockForward(since, ticks) && AllOkFrom(ticks, i) && 0 <= i <= m < k < |ticks|
    requires Due(RowAfter(row, ticks[..i]), ticks[i].now) && Finds(row, ticks, m)
    ensures RowAfter(row, ticks[..i]).nextRunAt < RowAfter(row, ticks[..k]).nextRunAt
  {
    hide RowAfter, NextFire;
    DueTimeGrows(row, since, ticks, i, m);
    DueTimeGrows(row, since, ticks, m + 1, k);
    DueTimeStep(row, since, ticks, m);
    SameSchedule(row, since, ticks, m);
    assert ticks[i].now <= ticks[m].now;
  }

  /** In every run without failures, the due instant served at tick `i` is served again at
      tick `k` exactly when no tick in between found a next firing; then every tick up to `k`
      emitted for it. For a parsed five-field schedule that is when it has no date of every year and
      no leap day of its own in the four years after any of these ticks. */
  lemma ServedAgainExactlyWhen(row: Row, since: Instant, ticks: seq<TickAt>, i: int, k: int)
    requires Upserted(row, since) && ClockForward(since, ticks) && AllOkFrom(ticks, i) && 0 <= i < k < |ticks|
    requires Due(RowAfter(row, ticks[..i]), ticks[i].now)
    ensures && Emits(RowAfter(row, ticks[..k]), ticks[k].now, ticks[k].outcome)
            && RowAfter(row, ticks[..k]).nextRunAt == RowAfter(row, ticks[..i]).nextRunAt
            <==> forall m | i <= m < k :: !Finds(row, ticks, m)
    ensures (forall m | i <= m < k :: !Finds(row, ticks, m)) ==>
              forall m | i <= m <= k :: Emits(RowAfter(row, ticks[..m]), ticks[m].now, ticks[m].outcome)
    ensures Usable(row.schedule.value) ==>
              forall m | i <= m < k ::
                Finds(row, ticks, m) <==>
                var cs := row.schedule.value;
                Yearly(cs) || (ListsLeapDay(cs) && LeapDayInWindow(cs, ticks[m].now))
  {
    hide RowAfter, Finds, NextFire, Usable, Yearly, ListsLeapDay, LeapDayInWindow;
    forall m | i <= m <= k && forall j | i <= j < k :: !Finds(row, ticks, j)
      ensures && Emits(RowAfter(row, ticks[..m]), ticks[m].now, ticks[m].outcome)
              && RowAfter(row, ticks[..m]).nextRunAt == RowAfter(row, ticks[..i]).nextRunAt
    {
      DueTimeStays(row, since, ticks, i, m);
      SameSchedule(row, since, ticks, m);
      assert ticks[i].now <= ticks[m].now;
    }
    if m :| i <= m < k && Finds(row, ticks, m) {
      DueTimeMoves(row, since, ticks, i, m, k);
    }
    if Usable(row.schedule.value) {
      forall m | i <= m < k
        ensures Finds(row, ticks, m) <==>
                var cs := row.schedule.value;
                Yearly(cs) || (ListsLeapDay(cs) && LeapDayInWindow(cs, ticks[m].now))
      {
        FindsExactlyWhen(row, ticks, m);
      }
    }
  }

  lemma FindsExactlyWhen(row: Row, ticks: seq<TickAt>, m: int)
    requires row.schedule.Some? && Usable(row.schedule.value) && 0 <= m < |ticks| && ticks[m].now >= ZERO_TIME
    ensures Finds(row, ticks, m) <==>
            var cs := row.schedule.value;
            Yearly(cs) || (ListsLeapDay(cs) && LeapDayInWindow(cs, ticks[m].now))
  {
    hide NextFire, Usable, Yearly, ListsLeapDay, LeapDayInWindow;
    NextFireExistsExactlyWhen(row.schedule.value, ticks[m].now);
  }

  const SMOOTH := Outcome(true, true, true)

  /** It happens: `0 0 29 2 *` upserted at the start of 2096 is emitted on 1 March for the
      leap day, finds no next firing, and is emitted again at any tick of the four years that
      follow, although the schedule has no instant in between. */
  lemma ServedTwiceWitness(later: Instant)
    requires Date(2096, 3, 1, 0, 0, 0, 0) < later <= Limit(Date(2096, 3, 1, 0, 0, 0, 0))
    ensures var since, first := Date(2096, 1, 1, 0, 0, 0, 0), Date(2096, 3, 1, 0, 0, 0, 0);
            var row := Row(Some(LEAP_DAY), NextFire(LEAP_DAY, since), true, ZERO_TIME, false);
            var ticks := [TickAt(first, SMOOTH), TickAt(later, SMOOTH)];
            && Upserted(row, since) && ClockForward(since, ticks)
            && Emits(RowAfter(row, ticks[..0]), first, SMOOTH) && Emits(RowAfter(row, ticks[..1]), later, SMOOTH)
            && forall t | first < t <= later :: !Matches(LEAP_DAY, t)
  {
    hide NextFire, Matches, Date, Limit, RowAfter, Denotes, WellFormed, Usable;
    var since, first := Date(2096, 1, 1, 0, 0, 0, 0), Date(2096, 3, 1, 0, 0, 0, 0);
    var row := Row(Some(LEAP_DAY), NextFire(LEAP_DAY, since), true, ZERO_TIME, false);
    FirstLeapDay();
    LeapGapWitness();
    EmittedAgain(row, first, later);
    NothingUntil(LEAP_DAY, first, later);
  }

  /** A due row that finds no next firing is emitted at this tick and the next. */
  lemma EmittedAgain(row: Row, first: Instant, later: Instant)
    requires row.schedule.Some? && Due(row, first) && first <= later && NextFire(row.schedule.value, first) == ZERO_TIME
    ensures var ticks := [TickAt(first, SMOOTH), TickAt(later, SMOOTH)];
            Emits(RowAfter(row, ticks[..0]), first, SMOOTH) && Emits(RowAfter(row, ticks[..1]), later, SMOOTH)
  {
    hide NextFire;
    var ticks := [TickAt(first, SMOOTH), TickAt(later, SMOOTH)];
    assert ticks[..0] == [];
    RowStep(row, ticks, 0);
  }

  lemma NothingUntil(cs: CronSchedule, from: Instant, until: Instant)
    requires cs.every <= 0 && from >= ZERO_TIME && NextFire(cs, from) == ZERO_TIME && until <= Limit(from)
    ensures forall t | from < t <= until :: !Matches(cs, t)
  {
    hide NextFire, Matches, Limit;
    NextFireIsLeast(cs, from);
    assert forall t | from < t <= until :: InWindow(t, from);
  }

  /** The first firing of the leap-day schedule in 2096 comes before March. */
  lemma FirstLeapDay()
    ensures var since, first := Date(2096, 1, 1, 0, 0, 0, 0), Date(2096, 3, 1, 0, 0, 0, 0);
            ZERO_TIME <= since < first && ZERO_TIME != NextFire(LEAP_DAY, since) <= first
  {
    hide NextFire, Matches, Date, InWindow;
    var since, leap := Date(2096, 1, 1, 0, 0, 0, 0), Date(2096, 2, 29, 0, 0, 0, 0);
    LeapDayMatches(2096);
    NextFireIsLeast(LEAP_DAY, since);
    LeapWindow();
    DaysOf2096();
    WindowOpens(NextFire(LEAP_DAY, since), since);
  }

  lemma WindowOpens(t: Instant, from: Instant)
    ensures InWindow(t, from) ==> from < t
  {
  }

  lemma LeapWindow()
    ensures InWindow(Date(2096, 2, 29, 0, 0, 0, 0), Date(2096, 1, 1, 0, 0, 0, 0))
  {
    hide Date, Year, Month, Day, Hour, Minute, Aligned, DayIndex;
    DateFields(2096, 1, 1, 0, 0);
    WholeMinute(Date(2096, 1, 1, 0, 0, 0, 0));
    DaysOf2096();
  }

  lemma DaysOf2096()
    ensures ZERO_TIME < Date(2096, 1, 1, 0, 0, 0, 0) < Date(2096, 2, 29, 0, 0, 0, 0) < Date(2096, 3, 1, 0, 0, 0, 0)
    ensures Date(2096, 2, 29, 0, 0, 0, 0) <= Date(2100, 1, 1, 0, 0, 0, 0)
  {
    YearStartMonotone(1, 2096);
    assert YearStart(1) == 0;
    hide YearStart;
    YearStartMonotone(2096, 2100);
    assert DayNumber(2096, 1, 1) == YearStart(2096);
    assert DayNumber(2096, 2, 29) == YearStart(2096) + 59;
    assert DayNumber(2096, 3, 1) == YearStart(2096) + 60;
    assert DayNumber(2100, 1, 1) == YearStart(2100);
  }

  // ---------- the other columns ----------

  /** A disabled row, and one whose expression does not parse, is left alone by every run. */
  lemma {:induction false} DormantRows(row: Row, ticks: seq<TickAt>, now: Instant, o: Outcome)
    requires !row.enabled || row.schedule.None?
    ensures RowAfter(row, ticks) == row && !Emits(row, now, o) && Stored(row, ticks) == 0
  {
    hide NextFire;
    if ticks != [] {
      DormantRows(row, ticks[..|ticks| - 1], now, o);
    }
  }

  /** Over every run, the last-run column is the last tick whose advance was stored. */
  lemma {:induction false} LastRunIs(row: Row, since: Instant, ticks: seq<TickAt>)
    ensures RowAfter(row, ticks).lastRunAt == if Stored(row, ticks) == 0 then row.lastRunAt else Base(row, since, ticks)
    ensures Stored(row, ticks) == 0 ==> Base(row, since, ticks) == since
  {
    hide NextFire;
    if ticks != [] {
      LastRunIs(row, since, ticks[..|ticks| - 1]);
    }
  }

  /** What a tick writes to the error columns, if that write succeeds: set when the emit or the
      advance failed, cleared when the advance was stored, and nothing otherwise. */
  ghost function ErrorWritten(row: Row, now: Instant, o: Outcome): Option<bool> {
    if !o.errorWriteOk || !row.enabled || row.nextRunAt > now || row.schedule.None? then None
    else if !o.emitOk then Some(true)
    else if NextFire(row.schedule.value, now) == ZERO_TIME then None
    else Some(!o.advanceOk)
  }

  /** Over every run the error flag is what the last tick that wrote it wrote. */
  lemma {:induction false} LastErrorStays(row: Row, ticks: seq<TickAt>, i: int, j: int)
    requires 0 <= i < j <= |ticks|
    requires ErrorWritten(RowAfter(row, ticks[..i]), ticks[i].now, ticks[i].outcome).Some?
    requires forall k | i < k < j :: ErrorWritten(RowAfter(row, ticks[..k]), ticks[k].now, ticks[k].outcome).None?
    ensures RowAfter(row, ticks[..j]).hasError
            == ErrorWritten(RowAfter(row, ticks[..i]), ticks[i].now, ticks[i].outcome).value
    decreases j
  {
    hide NextFire, RowAfter;
    RowStep(row, ticks, j - 1);
    if i < j - 1 {
      LastErrorStays(row, ticks, i, j - 1);
    }
  }

  // ---------- error columns ----------

  predicate SameButError(a: Row, b: Row) {
    a.(hasError := false) == b.(hasError := false)
  }

  /** Two histories of ticks that differ at most in which error writes succeed. */
  predicate SameButErrorWrites(a: seq<TickAt>, b: seq<TickAt>) {
    && |a| == |b|
    && forall i | 0 <= i < |a| ::
         && a[i].now == b[i].now
         && a[i].outcome.emitOk == b[i].outcome.emitOk && a[i].outcome.advanceOk == b[i].outcome.advanceOk
  }

  /** The best-effort error columns never influence anything: over any run, whichever of their
      writes fail, the other columns and the emissions come out the same. */
  lemma {:induction false} ErrorWritesAreInert(row: Row, row': Row, ticks: seq<TickAt>, ticks': seq<TickAt>,
                                               now: Instant, o: Outcome)
    requires SameButError(row, row') && SameButErrorWrites(ticks, ticks')
    ensures SameButError(RowAfter(row, ticks), RowAfter(row', ticks'))
    ensures Emits(RowAfter(row, ticks), now, o) == Emits(RowAfter(row', ticks'), now, o)
    decreases |ticks|
  {
    hide NextFire;
    if ticks != [] {
      var n := |ticks| - 1;
      ErrorWritesAreInert(row, row', ticks[..n], ticks'[..n], now, o);
    }
  }

  // ---------- firings against instants ----------

  ghost function Stored(row: Row, ticks: seq<TickAt>): nat {
    if ticks == [] then 0
    else
      var last := ticks[|ticks| - 1];
      var earlier := ticks[..|ticks| - 1];
      Stored(row, earlier) + if Advances(RowAfter(row, earlier), last.now, last.outcome) then 1 else 0
  }

  ghost function InstantsIn(cs: CronSchedule, a: Instant, b: Instant): set<Instant> {
    set t | a < t <= b && Matches(cs, t)
  }

  /** A run stores no more firings than the schedule has instants, or than whole periods have
      passed: firings are coalesced, never invented. */
  lemma {:induction false} NoMoreFiringsThanInstants(row: Row, since: Instant, ticks: seq<TickAt>)
    requires Upserted(row, since) && ClockForward(since, ticks)
    ensures since <= Base(row, since, ticks)
    ensures var cs, base := row.schedule.value, Base(row, since, ticks);
            if cs.every > 0 then Stored(row, ticks) * cs.every <= base - since
            else Stored(row, ticks) <= |InstantsIn(cs, since, base)|
  {
    hide NextFire, Matches, RowTick, InstantsIn;
    if ticks == [] {
      assert Stored(row, ticks) == 0;
    } else {
      var cs := row.schedule.value;
      var earlier, last := ticks[..|ticks| - 1], ticks[|ticks| - 1];
      NoMoreFiringsThanInstants(row, since, earlier);
      var base := Base(row, since, earlier);
      if Advances(RowAfter(row, earlier), last.now, last.outcome) {
        RunInvariant(row, since, earlier);
        FireInstants(cs, base);
        if cs.every > 0 {
          OneMore(Stored(row, earlier), cs.every);
        } else {
          MoreInstants(cs, since, base, NextFire(cs, base), last.now);
        }
      }
    }
  }

  lemma OneMore(n: int, period: int)
    ensures (n + 1) * period == n * period + period
  {
  }

  lemma MoreInstants(cs: CronSchedule, a: Instant, b: Instant, m: Instant, c: Instant)
    requires a <= b < m <= c && Matches(cs, m)
    ensures |InstantsIn(cs, a, b)| + 1 <= |InstantsIn(cs, a, c)|
  {
    hide Matches;
    var small, large := InstantsIn(cs, a, b), InstantsIn(cs, a, c);
    SubsetSize(small + {m}, large);
  }

  lemma {:induction false} SubsetSize(a: set<Instant>, b: set<Instant>)
    requires a <= b
    ensures |a| <= |b|
  {
    if a != {} {
      assert (forall x :: x !in a) ==> a == {};
      var x :| x in a;
      SubsetSize(a - {x}, b - {x});
    }
  }
}
