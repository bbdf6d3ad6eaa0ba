# Verified model of the admin and audit machinery

This project models the stateful background machinery of the context engine's admin and audit
packages in Dafny and proves what each part promises, for every input or every interleaving.
`dafny verify dfyconfig.toml` checks all of it.

| file | what it models |
|---|---|
| `Text.dfy` | the Go string and number functions the others use |
| `Calendar.dfy` | the proleptic Gregorian calendar behind `time.Time` in UTC |
| `CronField.dfy`, `Cron.dfy` | the cron parser and the search for the next firing |
| `Scheduler.dfy` | the tick loop over the schedule table |
| `AuditLog.dfy` | filtered listing, keyset pagination and the export stream |
| `Integrity.dfy` | the audit hash chain and the worker that re-verifies it |
| `Outbox.dfy` | the transactional outbox poller |
| `AutoPause.dfy` | the sliding-window auto-pause detector and its lock protocol |
| `RateLimit.dfy` | the Redis token bucket |
| `SourceLifecycle.dfy` | the guarded source writes and the fenced forget worker |
| `Metering.dfy` | the usage counter with merge-back of failed stores |
| `Notification.dfy` | webhook delivery, its log and the retry worker |
| `BackfillCompletion.dfy` | completion fan-out over channels that subscribers close |
| `Idempotency.dfy` | the idempotency middleware and its cached-response codec |

How things are modelled. Instants are whole nanoseconds since 0001-01-01 UTC, so Go's zero time is
0; the rate limiter counts milliseconds. A database table is a map or a sequence of rows, Redis a
map whose keys expire, Kafka an append-only log. Each guarded UPDATE, each Lua script and each
section under a mutex is one atomic step, and every call to the outside may fail: its answer is a
parameter. Code that updates things in place is a class with methods, proved equal to a function on
values; what callers may rely on is then proved about that function. Concurrent code is also a state
machine, and its theorems hold of every run of it, in any interleaving.

Where the code does less than its documentation or a first reading says, the code is modelled as it
is, a witness shows the gap and the exact condition is proved:

- A cron step so large that its first addition wraps makes a field name negative numbers
  (`CronField.StepOverflowWitness`, `CronField.ValuesExactlyWhen`).
- `Next` stops after four years, so 29 February is not found across 2100
  (`Cron.LeapGapWitness`, `Cron.NextFireExistsExactlyWhen`).
- A schedule without a next firing keeps its row due and is emitted at every tick
  (`Scheduler.ServedTwiceWitness`, `Scheduler.ServedAgainExactlyWhen`).
- The hash chain joins columns with `|`: a `|` inside a column can move between two columns unseen
  (`Integrity.SeparatorWitness`, `Integrity.TextUniqueExactlyWhen`, `Integrity.DetectsExactlyWhen`).
- After a sweep that saw an empty chain, the first appended row is reported as a violation
  (`Integrity.FirstAppendIsReported`, `Integrity.SilentExactlyWhen`).
- Only the last observed page is covered, not every historical row
  (`Integrity.OlderRowDroppedWitness`, `Integrity.OutsideIsUnseen`, `Integrity.SilentExactlyWhen`).
- The clock is read before the lock is taken, so a caller overtaken there is counted late and its
  observation outlives the window (`AutoPause.OvertakenWitness`, `AutoPause.StampedExactlyWhen`).
- A window shorter in nanoseconds than its number of buckets never slides
  (`AutoPause.ZeroLengthBucketsNeverSlide`).
- The one-hour expiry of a token bucket breaks the admission bound exactly for limits that need more
  than an hour to refill, and a clock that runs back breaks it by no more than its drift
  (`RateLimit.BoundWithExpiry`, `RateLimit.ExpiryBreaksBound`, `RateLimit.BackwardClockBreaksBound`,
  `RateLimit.BoundWithDrift`).
- A retry delay longer than that hour is cut short by the expiry, and any delay by a call whose
  timestamp runs back; shorter ones are exact under a clock that does not run back
  (`RateLimit.LongerRetryIsCutShort`, `RateLimit.BackwardCallCutsDelayShort`, `RateLimit.RetryIsExact`).
- The forget lease does not exclude a second run once the first outlives its time to live, and only
  then (`SourceLifecycle.OverlapWitness`, `SourceLifecycle.OverlapOnlyPastTtl`).
- The outbox sends rows again exactly after a pass that met a row it could not marshal or whose mark
  failed, the first on every pass (`Outbox.SentAgainWitness`, `Outbox.SentAgainExactlyWhen`,
  `Outbox.UnmarshallableRowRepeats`).
- `Send` is documented to retry any 4xx; the code stops at a 4xx other than 429
  (`Notification.NotFoundIsNotRetriedWitness`, `Notification.PostsAgainExactlyWhen`).
- Bucket keys join tenant and source with `:` and can collide
  (`RateLimit.BucketCollisionWitness`, `RateLimit.RateLimiter.KeysEqualExactlyWhen`).
- Completion keys join tenant and source with `|` and can collide
  (`BackfillCompletion.KeyCollisionWitness`, `BackfillCompletion.CollideExactlyWhen`).
- Two idempotent requests in flight can both execute, and a request executes exactly when nothing is
  stored or its read fails (`Idempotency.BothExecuteWitness`, `Idempotency.ExecutesExactlyWhen`).

## Model

| member | source | states |
|---|---|---|
| Calendar.DateRoundTrip | internal/admin/cron.go:198-203 | The year, month and day read from the day number of a proper date are that date. |
| Calendar.DayRoundTrip | internal/admin/cron.go:199-203 | Every day number is the number of the date read from it, and that date's day lies inside its month. |
| Calendar.InstantRoundTrip | internal/admin/cron.go:199-207 | Rebuilding an instant from its own date and clock gives the instant back. |
| Calendar.DateFields | internal/admin/cron.go:199-207 | A proper date and clock denote a whole-minute instant that shows exactly these fields. |
| Calendar.SameMonth | internal/admin/cron.go:199 | All days before the normalised first day of the next month share the month, December included. |
| Calendar.NextDayNumber | internal/admin/cron.go:203 | Day + 1 of a date is the next day, across month and year ends. |
| Calendar.WeekdayInFirstWeek | internal/admin/cron.go:225 | Every weekday occurs among the first seven days of any month. |
| Calendar.WeekdaysFollow | internal/admin/cron.go:225 | Consecutive days have consecutive weekdays in a cycle of seven. |
| Calendar.KnownDays | internal/admin/cron.go:198-225 | The day numbers and weekdays of four known dates, 1 January 1970 a Thursday among them. |
| Calendar.MonthLengthsAre | internal/admin/cron.go:199-203 | The twelve month lengths and the leap-year rule. |
| Calendar.AddYearsIs | internal/admin/cron.go:196 | Years on, a date is the same date where it exists, and 29 February becomes 1 March where it does not. |
| CronField.PartExactlyWhen | internal/admin/cron.go:133-166 | A list element means a part if and only if it reads as that part in the grammar: a star, a range or a number, optionally a slash and a positive step, the bounds in order and in range; everything else is refused. |
| CronField.PartOf | internal/admin/cron.go:133-166 | An accepted list element has a positive step and bounds inside the field's range, in order. |
| CronField.RangeText | internal/admin/cron.go:146-166 | The text of a range `a-b` means exactly a to b, and is refused when inverted or out of range. |
| CronField.StepText | internal/admin/cron.go:133-141 | A slash and a number make that number the step of whatever precedes them; a step of zero is refused. |
| CronField.StarStepText | internal/admin/cron.go:133-145 | A star with a step means every n-th value of the whole range. |
| CronField.WordRefused | internal/admin/cron.go:157-161 | A word that is no number, and an empty element, is refused. |
| CronField.RangeLists | internal/admin/cron.go:146-169 | A range in range lists every value from its start to its end. |
| CronField.ListReads | internal/admin/cron.go:129-170 | A comma list is accepted exactly when both halves are, and names what either names. |
| CronField.SweptExactlyWhen | internal/admin/cron.go:167-169 | The step loop with wrapping addition visits exactly the arithmetic progression if and only if its first addition does not overflow; otherwise it visits a negative number. |
| CronField.ValuesExactlyWhen | internal/admin/cron.go:129-170 | A field means the union of its progressions, and lies in range, if and only if no step overflows; it is never empty. |
| CronField.StepOverflowWitness | internal/admin/cron.go:134-169 | The field text `1/9223372036854775807` is accepted and names minutes 1, -1 and the least integer. |
| CronField.SweepPart | internal/admin/cron.go:167-169 | The loop terminates under wrapping addition and adds exactly the visited numbers. |
| CronField.SlideDown | internal/admin/cron.go:176-178 | One insertion extends the sorted prefix and permutes the array. |
| CronField.InsertionSort | internal/admin/cron.go:175-179 | The array ends sorted and is a permutation of what it was. |
| CronField.SortedValues | internal/admin/cron.go:171-180 | The result is strictly ascending and holds exactly the collected values. |
| CronField.ParseField | internal/admin/cron.go:124-181 | A field is accepted exactly when it is non-empty and every part is well formed and in range; the result lists, ascending, what the step loops visit. |
| CronField.AcceptedField | internal/admin/cron.go:122-181 | An accepted list is non-empty; it is in range, and equals the union of the progressions written, exactly when no step overflows. |
| CronField.Contains | internal/admin/cron.go:238-245 | The scan finds a value exactly when it is in the list. |
| Text.TrimSpaceIs | internal/admin/cron.go:66 | White space around a text goes and nothing else does. |
| Text.FieldsWord | internal/admin/cron.go:97 | A word, a space and the rest are the word and the words of the rest. |
| Text.FieldsSkip | internal/admin/cron.go:97 | White space in front of a text, or alone, is no word. |
| Text.AtoiItoa | internal/admin/cron.go:148-158 | Every machine integer survives printing and parsing. |
| Text.LessExactlyWhen | internal/audit/repository.go:209-217 | Ids are ordered at their first difference, a proper prefix first. |
| Cron.ParseCron | internal/admin/cron.go:62-120 | `@every` needs a parsable positive duration; anything else is accepted exactly when, aliases expanded, it has five acceptable fields, and then denotes them. |
| Cron.ParseFields | internal/admin/cron.go:101-119 | Five field texts are accepted exactly when each is, and the schedule denotes them, restriction flags included. |
| Cron.EveryReads | internal/admin/cron.go:72-73 | The `@every` form is that word, a space and the duration. |
| Cron.AliasFires | internal/admin/cron.go:84-95 | Each alias fires exactly on the hours, midnights, Sundays, first days of months or first days of January its name says. |
| Cron.ParsedIsWellFormedWhen | internal/admin/cron.go:102-118 | All five lists of a parsed schedule are in range exactly when no step in its text overflows. |
| Cron.NextMonthStart | internal/admin/cron.go:198-201 | The month jump goes forward to a whole minute and every instant skipped is in the same month. |
| Cron.NextDayStart | internal/admin/cron.go:202-205 | The day jump goes forward and every instant skipped is on the same day. |
| Cron.NextHourStart | internal/admin/cron.go:206-209 | The hour jump goes forward and every instant skipped is in the same hour. |
| Cron.StartMinute | internal/admin/cron.go:192-193 | The search starts at the first whole minute strictly after the given instant. |
| Cron.SkipMonth | internal/admin/cron.go:198-201 | Jumping over a month that is not listed skips no match of the minute-by-minute scan. |
| Cron.SkipDay | internal/admin/cron.go:202-205 | Jumping over a day that does not match skips no match of the scan. |
| Cron.SkipHour | internal/admin/cron.go:206-209 | Jumping over an hour that is not listed skips no match of the scan. |
| Cron.Next | internal/admin/cron.go:185-217 | The skip-ahead search terminates and returns what trying every minute returns, for every schedule and instant. |
| Cron.NextFireIsLeast | internal/admin/cron.go:183-236 | The result is the least matching instant strictly after the given one and within four calendar years, or the zero time when there is none. |
| Cron.MatchesOnDate | internal/admin/cron.go:219-236 | A date and clock match exactly when month, hour and minute are listed and so is the day of the month or the weekday: either when both are restricted, the restricted one when one is. |
| Cron.EitherListMatches | internal/admin/cron.go:227-228 | With both day lists restricted a schedule matches exactly what either list alone would. |
| Cron.NextFireIsEarlier | internal/admin/cron.go:183-236 | With both restricted, the next firing is the earlier of what the two lists give alone. |
| Cron.EitherDayWitness | internal/admin/cron.go:219-236 | `0 0 13 * 5` asked at noon of Friday 7 June 2024 fires on Thursday the 13th. |
| Cron.YearlyFires | internal/admin/cron.go:194-216 | A parsed schedule with a date that occurs every year fires in every window. |
| Cron.OnlyLeapDays | internal/admin/cron.go:194-236 | A schedule without such a date fires only on 29 February. |
| Cron.ParsedIsUsable | internal/admin/cron.go:102-118 | Every parsed schedule, steps that overflow included, lists a value of each field's range. |
| Cron.NextFireExistsExactlyWhen | internal/admin/cron.go:194-216 | For every such schedule a firing is found if and only if it has a date of every year, or lists 29 February and a leap day falls in the window. |
| Cron.LeapGapWitness | internal/admin/cron.go:194-197 | `0 0 29 2 *`, as parsed, asked on 1 March 2096 has a firing in 2104 and yields the zero time. |
| Scheduler.Table.Upsert | internal/admin/scheduler.go:296-349 | Each of the four refusals, a failed lookup or write included, exactly when its condition holds and without a change; otherwise the row carries the next firing and keeps its history columns. |
| Scheduler.Table.Tick | internal/admin/scheduler.go:164-230 | A failed query changes nothing; otherwise every row moves independently of the others and emissions follow the listing, whatever fails. |
| Scheduler.Table.TickRow | internal/admin/scheduler.go:173-228 | One due row: bad expression, failed emit, no next firing, failed advance and success each leave the stated row and log. |
| Scheduler.ErrorWritesAreInert | internal/admin/scheduler.go:237-276 | Over every run, whichever best-effort writes of the error columns fail, all other columns and all emissions come out the same. |
| Scheduler.LastErrorStays | internal/admin/scheduler.go:237-276 | Over every run the error flag is what the last tick that wrote it wrote: set after a failed emit or advance, cleared after a stored one. |
| Scheduler.LastRunIs | internal/admin/scheduler.go:211-219 | Over every run the last-run column is the last tick whose advance was stored. |
| Scheduler.DormantRows | internal/admin/scheduler.go:166-183 | A disabled row, and one whose expression does not parse, is never emitted nor changed by any run. |
| Scheduler.RunInvariant | internal/admin/scheduler.go:164-230 | Over every run of ticks the due time is the next firing after the last stored advance. |
| Scheduler.FireInstants | internal/admin/cron.go:183-217 | The next firing is the first instant of the schedule after its base, in both forms. |
| Scheduler.DueExactlyWhen | internal/admin/scheduler.go:164-230 | At every tick of every run the row is due exactly when an instant of its schedule has passed since the last stored advance. |
| Scheduler.EmissionsAreSpaced | internal/admin/scheduler.go:164-230 | Between a stored emission at t1 and the next emission at t2 an instant of the schedule lies in (t1, t2]. |
| Scheduler.StaysDueUnlessAdvanced | internal/admin/scheduler.go:184-226 | A failed emit, a failed advance or a missing next firing leaves the row due for every later tick. |
| Scheduler.ServedAgainExactlyWhen | internal/admin/scheduler.go:184-217 | In every run without failures, the due instant served at one tick is served again at a later one, and at all between, if and only if none of them found a next firing; for a parsed schedule, if and only if it has no date of every year and no leap day of its own in the four years after each. |
| Scheduler.ServedTwiceWitness | internal/admin/scheduler.go:193-199 | `0 0 29 2 *` upserted in January 2096 is emitted on 1 March and again at any tick of the next four years, with no instant of the schedule in between. |
| Scheduler.NoMoreFiringsThanInstants | internal/admin/scheduler.go:164-230 | A run stores at most as many firings as the schedule has instants in the time covered; in the `@every` form, firings times period fit in that time. |
| AuditLog.PageSizeOf | internal/audit/repository.go:162-168 | The effective page size is the one asked for, 50 for none, and never above 200. |
| AuditLog.LikePrefix | internal/audit/repository.go:75-87 | An escaped literal followed by a wildcard matches exactly the texts it is a prefix of. |
| AuditLog.PayloadSearchIsSubstring | internal/audit/repository.go:184-202 | The escaped LIKE pattern matches exactly the texts that contain the search string, whatever wildcards or backslashes it holds. |
| AuditLog.QueryMeaning | internal/audit/repository.go:170-222 | The query returns exactly the matching rows before the token, in strictly descending id order. |
| AuditLog.SelectsWhatPasses | internal/audit/repository.go:170-217 | A row is selected exactly when it passes every filter given: tenant, actions, resource, a literal part of the metadata, the half-open time span and the id bounds. |
| AuditLog.ListByFilter | internal/audit/repository.go:158-231 | A page shows exactly the newest rows that pass the filter and precede the token, up to the page size, with a next token exactly when there are more. |
| AuditLog.QueryAfter | internal/audit/repository.go:209-228 | Asking again with the id of a row shown gives exactly the rows after it. |
| AuditLog.QueryIgnoresGrowth | internal/audit/repository.go:209-211 | Rows appended meanwhile are invisible to a token taken earlier. |
| AuditLog.NextPage | internal/audit/repository.go:158-231 | Fetching with a page's token returns the page that starts right after it in the first snapshot. |
| AuditLog.Stream | internal/admin/audit_export.go:146-164 | Whatever is appended and whatever fails, a prefix of the first snapshot's result is emitted, page by page without an empty page; success means all of it, and the safety error means 1000 full pages with more to come. |
| Integrity.ChainInjective | internal/audit/integrity.go:98-112 | Two chains have one head exactly when they hash the same texts in the same order. |
| Integrity.TextUniqueExactlyWhen | internal/audit/integrity.go:100-108 | No other row has a row's hashed text if and only if none of its six hashed columns holds the separator. |
| Integrity.CleanTextUnique | internal/audit/integrity.go:100-108 | Against a row with a separator-free id and content, any row of the same tenant with the same text has the same columns, whatever it holds itself. |
| Integrity.TextsDetermineFields | internal/audit/integrity.go:100-108 | A list of such rows and any list of the tenant have equal texts exactly when their hashed columns agree row by row. |
| Integrity.SeparatorWitness | internal/audit/integrity.go:100-108 | Two different rows with one digest when a column holds the separator. |
| Integrity.ComputeIntegrity | internal/audit/integrity.go:83-116 | The sort-and-fold loop computes the chain head, first and last id and count; an empty list gets the tenant's empty-chain head. |
| Integrity.SortReverses | internal/audit/integrity.go:92-97 | A newest-first listing is hashed oldest first. |
| Integrity.HeadsDetermineFields | internal/audit/integrity.go:83-116 | A clean newest-first listing and any other of the tenant have one head exactly when their hashed columns agree row by row. |
| Integrity.WindowIsRange | internal/audit/integrity_worker.go:145-156 | Re-reading the id range of an observed window of an unchanged table gives exactly that window. |
| Integrity.TailExactlyWhen | internal/audit/integrity_worker.go:197-233 | After a clean observation, the re-fetched range matches exactly when its hashed columns are those observed, whatever is in the table now. |
| Integrity.SilentExactlyWhen | internal/audit/integrity_worker.go:145-233 | After a clean observation a sweep is silent if and only if no row in the observed id range was altered, deleted or inserted, whatever was written or appended; after an empty observation, if and only if the chain is still empty. |
| Integrity.AlteredUnseen | internal/audit/integrity_worker.go:145-233 | Every observed row with a separator in a content column can be altered so that the sweep stays silent. |
| Integrity.DetectsExactlyWhen | internal/audit/integrity_worker.go:145-233 | A sweep is silent about exactly the unchanged tables, for every table, if and only if no content column of the observed rows holds the separator. |
| Integrity.OutsideIsUnseen | internal/audit/integrity_worker.go:145-233 | Whatever happens to rows outside the observed id range goes unseen, whatever the columns hold. |
| Integrity.OlderRowDroppedWitness | internal/audit/integrity_worker.go:145-156 | A row of the tenant older than the observed page can be dropped from the log and the sweep stays silent. |
| Integrity.AppendsAreSilent | internal/audit/integrity_worker.go:169-180 | Growth of any size after a non-empty observation is never reported, whatever the columns hold. |
| Integrity.GrowthIsNeverReported | internal/audit/integrity_worker.go:145-183 | Over any run of sweeps of a chain that only grows, nothing is reported once it has been seen non-empty. |
| Integrity.FirstAppendIsReported | internal/audit/integrity_worker.go:177-200 | Whatever is appended to a chain observed empty is reported. |
| Integrity.RangePage | internal/audit/integrity_worker.go:203-218 | Each fetch of the re-read returns the next page of the observed range. |
| Integrity.CheckTail | internal/audit/integrity_worker.go:197-233 | The paginated re-read says "match" exactly when the range matches and every fetch it takes succeeds; the guard against endless pages never changes the answer. |
| Integrity.IntegrityWorker.CheckOne | internal/audit/integrity_worker.go:145-183 | The verdict is skipped, quiet or reported exactly as the table, the remembered observation and the failures demand, and the observation is replaced unless skipped. |
| Integrity.ReportsExactlyWhen | internal/audit/integrity_worker.go:145-183 | After a clean observation, with the store answering, the check reports if and only if something observed changed or the chain observed empty no longer is; without an observation never. |
| Integrity.FailuresAreNotSilent | internal/audit/integrity_worker.go:145-182 | A changed head whose re-fetch fails is reported, and a tenant that cannot be listed is skipped. |
| Integrity.SweptTwice | internal/audit/integrity_worker.go:126-183 | Two sweeps from a worker that knows nothing report the tenant exactly when what the first observed has changed. |
| Integrity.IntegrityWorker.RunOnce | internal/audit/integrity_worker.go:126-143 | A sweep is its tenants' turns in order while rows are being appended, a failed check costs only its tenant, and the count returned is the number of new reports. |
| Outbox.PendingFromIs | internal/audit/repository.go:235-251 | When the marked rows are an id prefix, the batch is the consecutive rows right after it, as many as the limit allows and are left. |
| Outbox.MarkKeeps | internal/audit/repository.go:254-267 | Marking a batch of rows next after the prefix extends the prefix by the batch. |
| Outbox.StepKeeps | internal/audit/outbox.go:109-147 | Every step keeps the marked and the sent rows id prefixes that only grow, and sends only unmarked rows. |
| Outbox.RunsAreOrdered | internal/audit/outbox.go:109-147 | In every run, failures and crashes included, marked rows are sent rows, both are id prefixes, and every initial part of the Kafka log covers an id prefix. |
| Outbox.ResendsAreUnmarked | internal/audit/outbox.go:109-147 | Whatever is sent at any moment is not marked at that moment. |
| Outbox.OutboxPoller.RunOnce | internal/audit/outbox.go:109-147 | A pass does nothing when its query fails; otherwise it sends the batch up to its first failure, marks what it sent unless a row cannot be marshalled, reports the right error and count, and is a run of protocol steps. |
| Outbox.UnmarshallableRowRepeats | internal/audit/outbox.go:119-123 | As long as a row cannot be marshalled, every pass sends the rows before it once more and marks none. |
| Outbox.SentAgainExactlyWhen | internal/audit/outbox.go:109-147 | A row that a pass sent is pending again after it if and only if the pass met a row it could not marshal or its mark failed; a row whose send failed always is. |
| Outbox.SentAgainWitness | internal/audit/outbox.go:119-123 | Two passes over a good row and one that cannot be marshalled: the good row is in Kafka twice and never marked. |
| Outbox.UnsendableRowDoesNotRepeat | internal/audit/outbox.go:130-138 | When a row cannot be sent and its predecessors are marked, the next pass starts at the row itself. |
| AutoPause.AdvanceKeeps | internal/admin/source_auto_pause.go:253-277 | Rolling the ring forward, full reset included, keeps each bucket the count of its own interval of the log. |
| AutoPause.ObserveKeeps | internal/admin/source_auto_pause.go:183-191 | Recording an observation keeps that correspondence. |
| AutoPause.SumIsCount | internal/admin/source_auto_pause.go:280-287 | The sum of the newest k buckets is the count of the log over their k intervals. |
| AutoPause.StampedExactlyWhen | internal/admin/source_auto_pause.go:171-184 | The instants observations are counted at are their clock readings if and only if every reading lies at or after the start of the bucket it is counted in. |
| AutoPause.StampBounds | internal/admin/source_auto_pause.go:171-184 | An observation is counted no earlier than it was read and no later than the latest reading by then. |
| AutoPause.WindowTotals | internal/admin/source_auto_pause.go:183-192 | After every recording, in whatever order the readings reach the lock, both totals equal a count of the whole stamped log that keeps everything at most (buckets - 1) lengths before the latest reading and nothing buckets lengths before it or earlier. |
| AutoPause.WindowTotalsInOrder | internal/admin/source_auto_pause.go:183-192 | With readings in lock order the totals count the observations themselves, by the same bounds on their age. |
| AutoPause.OvertakenWitness | internal/admin/source_auto_pause.go:171-184 | A failure read at 9 and overtaken at the lock by a reading of 10 is still counted at 19, a whole window of 10 later. |
| AutoPause.ZeroLengthBucketsNeverSlide | internal/admin/source_auto_pause.go:254-257 | With zero-length buckets the totals count every observation ever made. |
| AutoPause.SourceState.constructor | internal/admin/source_auto_pause.go:174-182 | A new source starts with empty buckets at the current time, never paused. |
| AutoPause.SourceState.AdvanceTo | internal/admin/source_auto_pause.go:253-277 | The cursor arithmetic in place does what dropping old buckets from an age-ordered list does. |
| AutoPause.SourceState.WindowTotal | internal/admin/source_auto_pause.go:280-287 | Summing in array order gives the sum in age order. |
| AutoPause.SourceState.RecordSection | internal/admin/source_auto_pause.go:173-208 | The first critical section counts, evaluates both triggers, the cooldown and the claim, and claims exactly when a pause is due. |
| AutoPause.StepKeeps | internal/admin/source_auto_pause.go:173-247 | Every section of every caller keeps the claim flag, the single attempt and the spacing. |
| AutoPause.OnePauseAtATime | internal/admin/source_auto_pause.go:173-247 | In every interleaving at most one pause attempt is in flight, the flag is up exactly then, and every decision is at least the cooldown after every earlier committed pause. |
| AutoPause.DetectorFollowsLog | internal/admin/source_auto_pause.go:183-198 | Whatever pauses fail or commit in between, the ring and the failure counter are those of the observation log alone. |
| AutoPause.PausesExactlyWhen | internal/admin/source_auto_pause.go:171-208 | In every interleaving, whatever the clocks read, a recording starts a pause if and only if none is in flight, the cooldown is over, and the stamped log has enough observations in the window with a high enough error share, or enough failures in a row at its end. |
| AutoPause.PausesInOrder | internal/admin/source_auto_pause.go:171-208 | With readings in lock order the same, of the observations and their ages. |
| AutoPause.FailureReleases | internal/admin/source_auto_pause.go:213-241 | Both failure paths lower the flag and leave the cooldown and the counts alone. |
| AutoPause.BucketsCoverWindow | internal/admin/source_auto_pause.go:254 | The buckets cover the window, short of it by less than their number, and have a length exactly when the window has at least as many nanoseconds as buckets. |
| AutoPause.WithDefaults | internal/admin/source_auto_pause.go:135-149 | What is out of bounds becomes its default and what is not stays; the result is always valid. |
| RateLimit.ScriptKeepsSane | internal/admin/ratelimit.go:185-208 | Tokens stay between zero and the capacity. |
| RateLimit.AdmissionBound | internal/admin/ratelimit.go:179-213 | Over any run with non-decreasing timestamps the calls admitted in [s, t] number at most capacity + refill * (t - s) / 1000. |
| RateLimit.ExpiryIsInvisible | internal/admin/ratelimit.go:209-210 | When the bucket refills within an hour, dropping an idle key changes no reply. |
| RateLimit.BoundWithExpiry | internal/admin/ratelimit.go:179-213 | The bound survives expiry when capacity is at most 3600 * refill. |
| RateLimit.ExpiryBreaksBound | internal/admin/ratelimit.go:188-210 | For every other limit there is a legal run that exceeds the bound. |
| RateLimit.BackwardClockBreaksBound | internal/admin/ratelimit.go:192-208 | For every limit there is a run with timestamps that run back which exceeds the bound. |
| RateLimit.BoundWithDrift | internal/admin/ratelimit.go:179-213 | With any timestamps the calls admitted in [s, t] number at most capacity + refill * (t - s + total backward drift) / 1000. |
| RateLimit.TokenArrives | internal/admin/ratelimit.go:204-205 | A whole token is there exactly when the computed delay, rounded up to milliseconds, has passed. |
| RateLimit.RefusedMeanwhile | internal/admin/ratelimit.go:192-208 | Calls during the delay are refused and cost nothing. |
| RateLimit.RetryWithoutExpiry | internal/admin/ratelimit.go:192-206 | While the key lives and timestamps do not run back, whatever refused calls come between, a call after a refusal is admitted if and only if the delay is over; the delay is at least a millisecond. |
| RateLimit.RetryIsExact | internal/admin/ratelimit.go:192-210 | In every legal run, expiry included, the same holds of every delay of at most the one-hour time to live. |
| RateLimit.LongerRetryIsCutShort | internal/admin/ratelimit.go:192-210 | A longer delay is never exact: the key expires first and a call is admitted early. |
| RateLimit.BackwardCallCutsDelayShort | internal/admin/ratelimit.go:192-208 | For every refusal, one refused call stamped the delay earlier lets a call at the instant of the refusal through. |
| RateLimit.InspectAgrees | internal/admin/ratelimit.go:246-301 | The second script's own computation says throttled exactly when a call at that instant would be refused, and shows the tokens that call would find. |
| RateLimit.RateLimiter.ReadStatus | internal/admin/ratelimit.go:269-301 | The status of that source's own bucket is read without touching it and agrees with what a call would get; a missing id or a Redis failure is an error. |
| RateLimit.RateLimiter.constructor | internal/admin/ratelimit.go:73-91 | A limit with a non-positive part is replaced by the default. |
| RateLimit.RateLimiter.Allow | internal/admin/ratelimit.go:96-128 | A missing id has no effect; otherwise the cached script and, without its reply, the inline one run, each run takes effect whether its reply arrives or not, the answer is the last reply, and the bucket of every source that is not this one or collides with it stays as it was. |
| RateLimit.RateLimiter.KeysEqualExactlyWhen | internal/admin/ratelimit.go:100 | Two sources share a key if and only if they are one or their ids collide across the separator. |
| RateLimit.PlainIdsNeverCollide | internal/admin/ratelimit.go:100 | Tenant ids without the separator never collide. |
| RateLimit.BucketCollisionWitness | internal/admin/ratelimit.go:100 | Two different sources that share a bucket. |
| RateLimit.RateLimiter.FirstCallAfter | internal/admin/ratelimit.go:96-128 | The first call of a source is admitted whatever other sources that do not collide with it have used up. |
| RateLimit.RateLimiter.WaitFor | internal/admin/ratelimit.go:140-160 | The loop ends admitted, cancelled, or failed exactly when its last try gets no reply, and with one full sleep the second try succeeds. |
| SourceLifecycle.SourceRepository.Update | internal/admin/source_repository.go:162-206 | A patch changes exactly the named columns of a live row and refuses terminal rows and statuses; the row returned, or missing told from terminal, is what the read after the write sees, whatever other writers do in between; a failed write changes nothing, a failed read hides a write that happened. |
| SourceLifecycle.SourceRepository.UpdateConfig | internal/admin/source_repository.go:268-283 | The configuration of a live row changes and nothing else does, unless the write fails. |
| SourceLifecycle.SourceRepository.MarkRemoving | internal/admin/source_repository.go:287-299 | Deletion moves a row to removing unless it is already terminal, and returns what the read after it sees, whatever other writers do in between. |
| SourceLifecycle.SourceRepository.MarkRemoved | internal/admin/source_repository.go:303-318 | Any existing row becomes removed unless the write fails: there is no status guard here. |
| SourceLifecycle.StepKeeps | internal/admin/forget_worker.go:138-208 | Every step of every writer and worker keeps leases, progress and status consistent. |
| SourceLifecycle.StatusMovesForward | internal/admin/source_repository.go:162-318 | In every interleaving no step moves the status back along {active, paused}, removing, removed, and none skips removing. |
| SourceLifecycle.LastWriteStays | internal/admin/source_repository.go:162-318 | Over any stretch of any run, the status, scopes and configuration are each what the last accepted write to that column wrote. |
| SourceLifecycle.TerminalIsFrozen | internal/admin/source_repository.go:162-318 | Over any stretch of any run, once a source is removing or removed only its status can change, and it stays terminal. |
| SourceLifecycle.RemovedOnlyAfterSweeping | internal/admin/forget_worker.go:168-187 | A removed source was marked by a run that took the lease, saw it removing and had every sweeper succeed in order. |
| SourceLifecycle.OverlapOnlyPastTtl | internal/admin/forget_worker.go:142-166 | Two runs for one source coexist only if one of them has outlived its lease. |
| SourceLifecycle.OverlapWitness | internal/admin/forget_worker.go:142-166 | For every configuration, a run that sleeps through its lease and a second run end up sweeping the same source together. |
| SourceLifecycle.ReleaseSparesOthers | internal/admin/forget_worker.go:34-39 | A release never removes a lease with another run's token, so a run within its time to live keeps its lease. |
| SourceLifecycle.ForgetWorker.Run | internal/admin/forget_worker.go:138-208 | A run alone that lacks ids, a token or the lease changes nothing; otherwise its outcome is the first failure or success, the row is removed and the event written exactly on success, and the lease is given back unless the release fails. |
| SourceLifecycle.ForgetWorker.Work | internal/admin/forget_worker.go:168-187 | Load, status check, sweepers in order and mark, stopping at the first failure. |
| Metering.TotalStep | internal/admin/metering.go:137-183 | A step changes a key's stored, buffered and in-flight total by exactly the delta it accepts. |
| Metering.StepConserves | internal/admin/metering.go:137-183 | Every step keeps the total equal to the ledger for all keys. |
| Metering.UsageConserved | internal/admin/metering.go:137-183 | In every interleaving of increments and concurrent flushes with failing stores, stored + buffered + in flight equals what was recorded. |
| Metering.LedgerIsSum | internal/admin/metering.go:137-145 | What was recorded is the sum of the accepted deltas. |
| Metering.AcceptedAreAll | internal/admin/metering.go:137-145 | For a named key the accepted deltas add up to all deltas handed in, negative ones included. |
| Metering.DrainedStoreIsExact | internal/admin/metering.go:158-183 | Once nothing is buffered or in flight the store grew by exactly that sum. |
| Metering.Counter.Inc | internal/admin/metering.go:137-145 | An empty tenant or metric or a zero delta is ignored; otherwise one key grows by the delta. |
| Metering.Counter.Flush | internal/admin/metering.go:158-183 | Failed pairs are back in the buffer, the others are added to the store, the failures are counted, and the flush is a run of the concurrent protocol. |
| Notification.Send | internal/admin/notification.go:224-286 | The loop posts until a reply is final, the pauses run out or the context ends, and returns the last code and the number of posts. |
| Notification.SendIsDetermined | internal/admin/notification.go:224-286 | That description leaves exactly one result. |
| Notification.FailureCode | internal/admin/notification.go:261-286 | A failed delivery is retryable exactly when its last reply was a transport error, 429 or 5xx, or there was no reply. |
| Notification.SortsOfReplies | internal/admin/notification.go:253-273 | Every reply is of one sort: transport errors, 429 and 5xx are worth another try, other 4xx are not, the rest is success. |
| Notification.PostsAgainExactlyWhen | internal/admin/notification.go:243-286 | A delivery posts again after its i-th post if and only if a pause is left and every reply so far was a transport error, 429 or 5xx with the context live. |
| Notification.NotFoundIsNotRetriedWitness | internal/admin/notification.go:261-273 | A target that answers 404 gets one post with three pauses unused. |
| Notification.DeliveriesAreBounded | internal/admin/notification_retry_worker.go:75-130 | A row gets at most max(1, maxAttempts - 1) worker cycles plus one per lost update, and with none lost no retry is scheduled after that. |
| Notification.RetriesHappen | internal/admin/notification_retry_worker.go:75-130 | A row that keeps failing softly gets a delivery at every visit that comes when it is due, exactly max(1, maxAttempts - 1) of them, each scheduled by as many minutes as it has attempts, and then ends failed. |
| Notification.RetriesBackOff | internal/admin/notification_retry_worker.go:118-125 | The n-th retry of a row is scheduled no earlier than 1 + 2 + ... + n minutes after its dispatch. |
| Notification.PostsAreBounded | internal/admin/notification_retry_worker.go:89-130 | The posts of a row number at most its cycles times one more than the pauses. |
| Notification.UnscheduledIsFinal | internal/admin/notification_retry_worker.go:75-87 | A row without a scheduled retry never changes again. |
| Notification.DeliveredOrRefusedIsFinal | internal/admin/notification_retry_worker.go:105-130 | A delivered row, and one refused with a hard 4xx, is never scheduled again. |
| Notification.DeliveryLog.Dispatch | internal/admin/notification.go:317-388 | Lookup and marshalling failures log nothing; otherwise every subscriber gets its own delivery and, if the log takes it, its own row, scheduled for a minute later exactly when the delivery failed by a transport error, 429, 5xx or without a reply; the error is that of the first failed delivery. |
| Notification.DeliveryLog.Tick | internal/admin/notification_retry_worker.go:75-87 | A failed query changes nothing; otherwise each of the up to 100 earliest due rows is visited once and moves on its own, and the others stay. |
| Notification.DeliveryLog.RetryOne | internal/admin/notification_retry_worker.go:89-130 | One visit rewrites only its row, as the delivery, the clock after it and the stored flag demand. |
| BackfillCompletion.FanOutIs | internal/admin/backfill_completion.go:169-179 | The fan-out reaches exactly the subscribed channels, once each, and never a closed one. |
| BackfillCompletion.UnsubscribeKeeps | internal/admin/backfill_completion.go:85-95 | The channel ends unsubscribed and closed, once, however often this is called, and no other channel is touched. |
| BackfillCompletion.EmitterIsSafe | internal/admin/backfill_completion.go:64-181 | In every interleaving, no send on a closed channel, no double close, no buffer above 16, and at most one true emit per key. |
| BackfillCompletion.StreamsAreOrdered | internal/admin/backfill_completion.go:115-181 | Each subscriber sees a subsequence of the emitted events, in order, no key twice. |
| BackfillCompletion.DeliveredExactlyWhenKeepingUp | internal/admin/backfill_completion.go:169-179 | In every run a subscriber gets every event emitted while it listens, in order, if and only if its buffer has room at each of them. |
| BackfillCompletion.CollideExactlyWhen | internal/admin/backfill_completion.go:183-185 | Two different pairs share a key if and only if one tenant id extends the other across a separator and the source ids make up for it. |
| BackfillCompletion.SuppressedExactlyWhenMarked | internal/admin/backfill_completion.go:115-158 | In every run an emit is let through if and only if both its ids are given and neither its pair nor one that collides with it was marked or emitted. |
| BackfillCompletion.PlainTenantsNeverCollide | internal/admin/backfill_completion.go:183-185 | Separator-free tenant ids never collide. |
| BackfillCompletion.KeyCollisionWitness | internal/admin/backfill_completion.go:152-185 | A run that refuses a pair nobody ever marked or emitted. |
| BackfillCompletion.Emitter.Subscribe | internal/admin/backfill_completion.go:64-70 | A new open, empty channel joins the list last. |
| BackfillCompletion.Emitter.Unsubscribe | internal/admin/backfill_completion.go:85-95 | The scan removes and closes the channel if it is listed and changes nothing otherwise. |
| BackfillCompletion.MarkedIsNeverEmitted | internal/admin/backfill_completion.go:101-105 | In every run, once a pair is marked, every later emit of it changes nothing. |
| BackfillCompletion.Emitter.Admit | internal/admin/backfill_completion.go:115-158 | A call passes exactly when both ids are present and its key is new, and then marks it. |
| BackfillCompletion.Emitter.Notify | internal/admin/backfill_completion.go:169-179 | The loop of non-blocking sends is the fan-out and keeps the channel invariant. |
| Idempotency.DecodeExactlyWhen | internal/admin/idempotency.go:197-219 | A stored value decodes to a response exactly when it is a number text, a newline-free content type and a body, one newline apart; everything else is a miss. |
| Idempotency.DecodeEncode | internal/admin/idempotency.go:187-219 | What decoding an encoded response yields for every content type: the status always, the rest cut at the first newline. |
| Idempotency.RoundTripExactlyWhen | internal/admin/idempotency.go:187-219 | Encoding then decoding gives the response back if and only if its content type has no newline, for every status and body. |
| Idempotency.KeysSeparateRequests | internal/admin/idempotency.go:169-179 | Two requests share a cache key exactly when tenant, method, path and client key all agree. |
| Idempotency.CacheKeysExactlyWhen | internal/admin/idempotency.go:94-100 | Two requests share a cached response exactly when tenant, method, path and client key agree, white space around the key aside. |
| Idempotency.CoveredAre | internal/admin/idempotency.go:124-152 | Which methods are covered, which pass through, and that the 200s are what is kept. |
| Idempotency.StepKeeps | internal/admin/idempotency.go:89-139 | Every step keeps the cached value one that a 2xx execution produced, and the replays of the period equal to it. |
| Idempotency.ReplaysAgree | internal/admin/idempotency.go:89-139 | In every interleaving of same-key requests all replays of one cache period are identical and equal a 2xx response that some execution produced. |
| Idempotency.BothExecuteWitness | internal/admin/idempotency.go:114-138 | Two concurrent misses both execute and the first response saved is the one cached. |
| Idempotency.ExecutesExactlyWhen | internal/admin/idempotency.go:102-121 | In every interleaving a request runs its handler if and only if the store fails its read or holds nothing; otherwise it is a replay. |
| Idempotency.ReplaysUntilExpiry | internal/admin/idempotency.go:102-139 | From a stored response until its expiry every readable request replays that response and nothing else changes. |
| Idempotency.ExecutionsAfterSave | internal/admin/idempotency.go:114-139 | In that time handlers answer only requests already in flight, once each: with none in flight, never again. |
| Idempotency.Middleware.Serve | internal/admin/idempotency.go:89-139 | A replay happens exactly for an opted-in request whose unexpired value reads and decodes; otherwise the handler runs once, and only a fresh 2xx response is added, never overwriting. |
| Idempotency.ServeTwice | internal/admin/idempotency.go:89-139 | A retry after a stored 2xx response returns that response without running the handler. |

## Left out

- HTTP handlers, JSON binding, role and tenant checks, metrics and log lines: thin, or settled by reading one branch.
- The text of SQL, Redis transport, script loading with its fallback and Kafka clients: each call is its atomic effect, or a failure.
- Loops around a pass (`Run`, tickers, panic recovery) and constructors that only check for nil.
- SHA-256 is an ideal hash: an injective constructor that never yields the all-zero block; hex text of digests is not spelled out.
- ULID generation: ids are unique, non-empty and ascend in the order rows appear.
- Time zones and daylight saving: the scheduler always passes UTC.
- Floating-point rounding in the token bucket and the error rate: real arithmetic is used.
- Integer width: 64-bit wrap-around is modelled in the cron step loop only; counters, durations, the rate limiter's milliseconds and calendar years are unbounded.
- `time.ParseDuration` is a parameter of `Cron.ParseCron`, which hands on its answer.
- Texts of error messages, and the 1024-byte cut of a stored one.
- Scheduler.Table.Tick: the order of rows due at one instant is up to the database, so the listing is a parameter, constrained to hold every due row once in order of due time; two schedulers ticking at once are not modelled.
- Outbox.RunsAreOrdered: one poller, and rows that become visible in id order.
- Integrity.SilentExactlyWhen: metadata, trace id and timestamps are not hashed by the code, so changes to them are not covered; `Integrity.DetectsExactlyWhen` takes ids to be free of the separator, as ULIDs are.
- Integrity.IntegrityWorker.CheckOne: the remembered id range is not rewritten between the pages of one re-fetch; appends are allowed.
- Integrity.IntegrityWorker.RunOnce: a report is recorded by tenant; the audit row it appends is not built, and shows only as an appended row in the tables of later turns.
- AutoPause.OnePauseAtATime: one caller's clock does not run back between its decision and its commit.
- AutoPause.SourceState.RecordSection: metadata of the audit event and the empty-id check of `Record` are not modelled.
- RateLimit.RateLimiter.WaitFor: cancellation is noticed during a sleep, and other callers of the key between two tries are not modelled.
- SourceLifecycle.ForgetWorker.Run: a lease call that fails after Redis took it is not modelled; it would leave the lease to its expiry.
- Source listing: the pagination scheme is that of the audit log, which is proved; a second copy would add nothing.
- Hard deletion of tenants' rows, API-key rotation, OAuth refresh, webhook signatures and the other CRUD stores.
- Notification.DeliveryLog.Dispatch: a dispatcher without a log is the case in which the log takes no row.
- Notification.DeliveryLog.Tick: the order of rows due at one instant is up to the database; one worker is modelled.
- Metering.UsageConserved: a store call that reports an error has stored nothing, as the upsert contract says.
- Metering.Counter.Flush: the listing of usage and the day boundary computed from the clock are parameters.
- BackfillCompletion.StreamsAreOrdered: an event dropped at a full buffer is lost to that subscriber, as in the code; delivery is not promised.
- Idempotency.Middleware.Serve: the response captured is the handler's response; a status written after the body, and content-type sniffing for an empty content type, are not modelled.
