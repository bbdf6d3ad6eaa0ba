/** The auto-pause detector of one source (internal/admin/source_auto_pause.go): a ring of
    counting buckets, and the three-section lock protocol around the pause call. */
module AutoPause {

  /** A configuration after defaults: `window` and `cooldown` in nanoseconds. */
  datatype Config = Config(window: int, buckets: int, threshold: real, minSample: int, cooldown: int, consecutive: int) {
    predicate Valid() {
      window > 0 && buckets > 0 && 0.0 < threshold < 1.0 && minSample > 0 && cooldown > 0
    }

    function BucketDur(): int
      requires buckets > 0
    {
      window / buckets
    }
  }

  /** The buckets together cover the window, short of it by less than their number. */
  lemma BucketsCoverWindow(cfg: Config)
    requires cfg.Valid()
    ensures cfg.BucketDur() * cfg.buckets <= cfg.window < cfg.BucketDur() * cfg.buckets + cfg.buckets
    ensures cfg.BucketDur() > 0 <==> cfg.window >= cfg.buckets
  {
    var b, n, w := cfg.BucketDur(), cfg.buckets, cfg.window;
    assert w == b * n + w % n;
    if b > 0 {
      assert b * n >= n by { assert (b - 1) * n >= 0; assert b * n == (b - 1) * n + n; }
    } else {
      assert b >= 0;
    }
  }

  /** The configuration that the constructor makes of what it is given: what is out of bounds
      becomes its default, and what is not stays. */
  function WithDefaults(raw: Config): (cfg: Config)
    ensures cfg.Valid() && cfg.consecutive == raw.consecutive
    ensures raw.Valid() ==> cfg == raw
    ensures raw.window <= 0 ==> cfg.window == 600_000_000_000
    ensures raw.buckets <= 0 ==> cfg.buckets == 10
    ensures raw.threshold <= 0.0 || raw.threshold >= 1.0 ==> cfg.threshold == 0.5
    ensures raw.minSample <= 0 ==> cfg.minSample == 20
    ensures raw.cooldown <= 0 ==> cfg.cooldown == cfg.window
  {
    var window := if raw.window <= 0 then 10 * 60 * 1_000_000_000 else raw.window;
    Config(window, if raw.buckets <= 0 then 10 else raw.buckets,
           if raw.threshold <= 0.0 || raw.threshold >= 1.0 then 0.5 else raw.threshold,
           if raw.minSample <= 0 then 20 else raw.minSample,
           if raw.cooldown <= 0 then window else raw.cooldown, raw.consecutive)
  }

  datatype Bucket = Bucket(total: int, errors: int)

  const EMPTY := Bucket(0, 0)

  // ---------- the ring by age ----------

  /** The buckets from the newest to the oldest, and the start of the newest one. */
  datatype Ring = Ring(ages: seq<Bucket>, cursorTime: int)

  function Zeros(n: nat): (z: seq<Bucket>)
    ensures |z| == n && forall i | 0 <= i < n :: z[i] == EMPTY
  {
    seq(n, i => EMPTY)
  }

  /** `advanceLocked`: drop as many old buckets as whole bucket lengths have passed; after a
      whole window start afresh at `now`. */
  function Advance(cfg: Config, r: Ring, now: int): Ring
    requires cfg.Valid() && |r.ages| == cfg.buckets
  {
    var b := cfg.BucketDur();
    var elapsed := now - r.cursorTime;
    if b <= 0 || elapsed < b then r
    else
      var steps := elapsed / b;
      if steps >= cfg.buckets then Ring(Zeros(cfg.buckets), now)
      else
        assert steps >= 0 by { QuotientNonNegative(elapsed, b); }
        Ring(Zeros(steps) + r.ages[..cfg.buckets - steps], r.cursorTime + steps * b)
  }

  lemma QuotientNonNegative(a: int, b: int)
    requires 0 < b <= a
    ensures 1 <= a / b && (a / b) * b <= a < (a / b) * b + b
  {
  }

  function Bump(x: Bucket, ok: bool): Bucket {
    Bucket(x.total + 1, if ok then x.errors else x.errors + 1)
  }

  /** One observation: advance, then count into the newest bucket. */
  function Observe(cfg: Config, r: Ring, now: int, ok: bool): Ring
    requires cfg.Valid() && |r.ages| == cfg.buckets
  {
    var a := Advance(cfg, r, now);
    a.(ages := [Bump(a.ages[0], ok)] + a.ages[1..])
  }

  /** Which of the two counters of a bucket. */
  datatype Counter = Total | Errors

  function Get(x: Bucket, c: Counter): int {
    if c.Total? then x.total else x.errors
  }

  function SumOf(ages: seq<Bucket>, c: Counter): int {
    if ages == [] then 0 else SumOf(ages[..|ages| - 1], c) + Get(ages[|ages| - 1], c)
  }

  // ---------- the full observation log ----------

  /** An observation with the instant it is counted at. */
  datatype Obs = Obs(at: int, ok: bool)

  predicate Counts(o: Obs, c: Counter) {
    c.Total? || !o.ok
  }

  /** The observations counted at an instant in `[lo, hi)`. */
  function CountIn(log: seq<Obs>, lo: int, hi: int, c: Counter): nat {
    if log == [] then 0
    else
      var o := log[|log| - 1];
      CountIn(log[..|log| - 1], lo, hi, c) + if lo <= o.at < hi && Counts(o, c) then 1 else 0
  }

  /** The instant an observation is counted at: `now`, or the start of the newest bucket if
      the clock reads earlier than that. */
  function Stamp(cfg: Config, r: Ring, now: int): int
    requires cfg.Valid() && |r.ages| == cfg.buckets
  {
    var start := Advance(cfg, r, now).cursorTime;
    if now < start then start else now
  }

  function Edge(r: Ring, b: int, j: int): int {
    r.cursorTime - j * b
  }

  /** Bucket `j` counts exactly the observations of the j-th interval back in time. */
  ghost predicate Tracks(cfg: Config, r: Ring, log: seq<Obs>)
    requires cfg.Valid()
  {
    var b := cfg.BucketDur();
    && |r.ages| == cfg.buckets
    && (forall i | 0 <= i < |log| :: log[i].at < r.cursorTime + b)
    && (forall j, c | 0 <= j < cfg.buckets :: Get(r.ages[j], c) == CountIn(log, Edge(r, b, j), Edge(r, b, j - 1), c))
  }

  lemma {:induction false} CountSplits(log: seq<Obs>, lo: int, mid: int, hi: int, c: Counter)
    requires lo <= mid <= hi
    ensures CountIn(log, lo, hi, c) == CountIn(log, lo, mid, c) + CountIn(log, mid, hi, c)
  {
    if log != [] {
      CountSplits(log[..|log| - 1], lo, mid, hi, c);
    }
  }

  lemma {:induction false} CountNone(log: seq<Obs>, lo: int, hi: int, c: Counter)
    requires forall i | 0 <= i < |log| :: log[i].at < lo
    ensures CountIn(log, lo, hi, c) == 0
  {
    if log != [] {
      CountNone(log[..|log| - 1], lo, hi, c);
    }
  }

  lemma {:induction false} CountTop(log: seq<Obs>, lo: int, hi: int, hi': int, c: Counter)
    requires forall i | 0 <= i < |log| :: log[i].at < hi && log[i].at < hi'
    ensures CountIn(log, lo, hi, c) == CountIn(log, lo, hi', c)
  {
    if log != [] {
      CountTop(log[..|log| - 1], lo, hi, hi', c);
    }
  }

  lemma EdgeStep(r: Ring, b: int, j: int)
    ensures Edge(r, b, j - 1) == Edge(r, b, j) + b
  {
  }

  lemma EdgesDescend(r: Ring, b: int, i: int, j: int)
    requires b >= 0 && i <= j
    ensures Edge(r, b, j) <= Edge(r, b, i)
  {
  }

  /** Advancing keeps the correspondence, across the full reset as well. */
  lemma AdvanceKeeps(cfg: Config, r: Ring, log: seq<Obs>, now: int)
    requires cfg.Valid() && cfg.BucketDur() > 0 && Tracks(cfg, r, log)
    ensures Tracks(cfg, Advance(cfg, r, now), log)
    ensures now < Advance(cfg, r, now).cursorTime + cfg.BucketDur()
  {
    var b, n := cfg.BucketDur(), cfg.buckets;
    var elapsed := now - r.cursorTime;
    var a := Advance(cfg, r, now);
    if elapsed >= b {
      QuotientNonNegative(elapsed, b);
      var steps := elapsed / b;
      if steps >= n {
        ResetKeeps(cfg, r, log, now);
      } else {
        ShiftKeeps(cfg, r, log, steps);
      }
    }
  }

  lemma ResetKeeps(cfg: Config, r: Ring, log: seq<Obs>, now: int)
    requires cfg.Valid() && cfg.BucketDur() > 0 && Tracks(cfg, r, log)
    requires now - r.cursorTime >= ((now - r.cursorTime) / cfg.BucketDur()) * cfg.BucketDur()
    requires (now - r.cursorTime) / cfg.BucketDur() >= cfg.buckets
    ensures Tracks(cfg, Ring(Zeros(cfg.buckets), now), log)
  {
    var b, n := cfg.BucketDur(), cfg.buckets;
    var steps := (now - r.cursorTime) / b;
    var a := Ring(Zeros(n), now);
    assert steps * b >= n * b by { assert (steps - n) * b >= 0; assert steps * b == n * b + (steps - n) * b; }
    forall j, c | 0 <= j < n ensures Get(a.ages[j], c) == CountIn(log, Edge(a, b, j), Edge(a, b, j - 1), c) {
      EdgesDescend(a, b, j, n - 1);
      assert Edge(a, b, n - 1) == now - n * b + b by { assert (n - 1) * b == n * b - b; }
      CountNone(log, Edge(a, b, j), Edge(a, b, j - 1), c);
    }
    assert n * b >= b by { assert (n - 1) * b >= 0; assert n * b == (n - 1) * b + b; }
  }

  lemma ShiftKeeps(cfg: Config, r: Ring, log: seq<Obs>, steps: int)
    requires cfg.Valid() && cfg.BucketDur() > 0 && Tracks(cfg, r, log)
    requires 1 <= steps < cfg.buckets
    ensures Tracks(cfg, Ring(Zeros(steps) + r.ages[..cfg.buckets - steps], r.cursorTime + steps * cfg.BucketDur()), log)
  {
    hide CountIn, Zeros;
    var b, n := cfg.BucketDur(), cfg.buckets;
    var a := Ring(Zeros(steps) + r.ages[..n - steps], r.cursorTime + steps * b);
    forall j, c | 0 <= j < n ensures Get(a.ages[j], c) == CountIn(log, Edge(a, b, j), Edge(a, b, j - 1), c) {
      ShiftedEdge(r, a, b, steps, j);
      ShiftedEdge(r, a, b, steps, j - 1);
      if j < steps {
        EdgesDescend(r, b, j - steps, -1);
        CountNone(log, Edge(a, b, j), Edge(a, b, j - 1), c);
      } else {
        assert a.ages[j] == r.ages[j - steps];
      }
    }
    assert steps * b >= b by { assert (steps - 1) * b >= 0; assert steps * b == (steps - 1) * b + b; }
  }

  lemma ShiftedEdge(r: Ring, a: Ring, b: int, steps: int, j: int)
    requires a.cursorTime == r.cursorTime + steps * b
    ensures Edge(a, b, j) == Edge(r, b, j - steps)
  {
  }

  /** Recording keeps the correspondence, the new observation counted at its stamp. */
  lemma ObserveKeeps(cfg: Config, r: Ring, log: seq<Obs>, now: int, ok: bool)
    requires cfg.Valid() && cfg.BucketDur() > 0 && Tracks(cfg, r, log)
    ensures Tracks(cfg, Observe(cfg, r, now, ok), log + [Obs(Stamp(cfg, r, now), ok)])
  {
    hide Advance;
    AdvanceKeeps(cfg, r, log, now);
    var a, b, o := Advance(cfg, r, now), cfg.BucketDur(), Obs(Stamp(cfg, r, now), ok);
    var r', log' := Observe(cfg, r, now, ok), log + [o];
    assert log'[..|log|] == log;
    forall j, c | 0 <= j < cfg.buckets ensures Get(r'.ages[j], c) == CountIn(log', Edge(r', b, j), Edge(r', b, j - 1), c) {
      assert Edge(r', b, j) == Edge(a, b, j) && Edge(r', b, j - 1) == Edge(a, b, j - 1);
      assert Get(a.ages[j], c) == CountIn(log, Edge(a, b, j), Edge(a, b, j - 1), c);
      assert CountIn(log', Edge(a, b, j), Edge(a, b, j - 1), c)
          == CountIn(log, Edge(a, b, j), Edge(a, b, j - 1), c)
             + if Edge(a, b, j) <= o.at < Edge(a, b, j - 1) && Counts(o, c) then 1 else 0;
      if j > 0 {
        EdgesDescend(a, b, 0, j - 1);
        assert r'.ages[j] == a.ages[j];
      } else {
        assert Edge(a, b, 0) == a.cursorTime && Edge(a, b, -1) == a.cursorTime + b;
      }
    }
  }

  /** The window totals are the count of the log from the oldest bucket's start on. */
  lemma {:induction false} SumIsCount(cfg: Config, r: Ring, log: seq<Obs>, k: int, c: Counter)
    requires cfg.Valid() && cfg.BucketDur() > 0 && Tracks(cfg, r, log) && 0 <= k <= cfg.buckets
    ensures SumOf(r.ages[..k], c) == CountIn(log, Edge(r, cfg.BucketDur(), k - 1), r.cursorTime + cfg.BucketDur(), c)
    decreases k
  {
    var b := cfg.BucketDur();
    if k == 0 {
      assert Edge(r, b, -1) == r.cursorTime + b;
      CountNone(log, r.cursorTime + b, r.cursorTime + b, c);
    } else {
      SumIsCount(cfg, r, log, k - 1, c);
      assert r.ages[..k][..k - 1] == r.ages[..k - 1];
      EdgeStep(r, b, k - 1);
      EdgesDescend(r, b, -1, k - 2);
      CountSplits(log, Edge(r, b, k - 1), Edge(r, b, k - 2), r.cursorTime + b, c);
    }
  }

  // ---------- every run of observations ----------

  predicate ClockForward(obs: seq<Obs>) {
    forall i, j | 0 <= i < j < |obs| :: obs[i].at <= obs[j].at
  }

  /** The ring after recording `obs`, the first of which creates it. The readings come in the
      order of the lock, which need not be the order in which they were taken. */
  function Recorded(cfg: Config, obs: seq<Obs>): (r: Ring)
    requires cfg.Valid() && obs != []
    ensures |r.ages| == cfg.buckets
    decreases |obs|, 1
  {
    var o := obs[|obs| - 1];
    Observe(cfg, RingBefore(cfg, obs), o.at, o.ok)
  }

  /** The ring that the last observation finds. */
  function RingBefore(cfg: Config, obs: seq<Obs>): (r: Ring)
    requires cfg.Valid() && obs != []
    ensures |r.ages| == cfg.buckets
    decreases |obs|, 0
  {
    if |obs| == 1 then Ring(Zeros(cfg.buckets), obs[0].at) else Recorded(cfg, obs[..|obs| - 1])
  }

  /** The log with each observation at the instant it is counted at. */
  function Stamped(cfg: Config, obs: seq<Obs>): (log: seq<Obs>)
    requires cfg.Valid()
    ensures |log| == |obs|
  {
    if obs == [] then []
    else
      var o := obs[|obs| - 1];
      Stamped(cfg, obs[..|obs| - 1]) + [Obs(Stamp(cfg, RingBefore(cfg, obs), o.at), o.ok)]
  }

  /** The latest reading. */
  function Latest(obs: seq<Obs>): int
    requires obs != []
  {
    var last := obs[|obs| - 1].at;
    if |obs| == 1 || Latest(obs[..|obs| - 1]) <= last then last else Latest(obs[..|obs| - 1])
  }

  /** Whatever the readings, the buckets count the stamped log, and the newest bucket is the
      one of the latest reading. */
  lemma {:induction false} RecordedTracks(cfg: Config, obs: seq<Obs>)
    requires cfg.Valid() && cfg.BucketDur() > 0 && obs != []
    ensures Tracks(cfg, Recorded(cfg, obs), Stamped(cfg, obs))
    ensures Recorded(cfg, obs).cursorTime <= Latest(obs) < Recorded(cfg, obs).cursorTime + cfg.BucketDur()
  {
    hide CountIn, Get, Tracks, Advance;
    var o, init := obs[|obs| - 1], obs[..|obs| - 1];
    var before := RingBefore(cfg, obs);
    if |obs| == 1 {
      EmptyTracks(cfg, o.at);
      assert init == [] && Stamped(cfg, init) == [];
    } else {
      RecordedTracks(cfg, init);
    }
    AdvanceStart(cfg, before, o.at);
    AdvanceKeeps(cfg, before, Stamped(cfg, init), o.at);
    ObserveKeeps(cfg, before, Stamped(cfg, init), o.at, o.ok);
  }

  /** An observation is counted no earlier than it was read, and no later than the latest
      reading by then. */
  lemma {:induction false} StampBounds(cfg: Config, obs: seq<Obs>, i: int)
    requires cfg.Valid() && cfg.BucketDur() > 0 && 0 <= i < |obs|
    ensures Stamped(cfg, obs)[i].ok == obs[i].ok
    ensures obs[i].at <= Stamped(cfg, obs)[i].at <= Latest(obs[..i + 1])
    decreases |obs|
  {
    hide Advance, Tracks;
    if i < |obs| - 1 {
      StampBounds(cfg, obs[..|obs| - 1], i);
      assert obs[..|obs| - 1][..i + 1] == obs[..i + 1];
    } else {
      assert obs[..i + 1] == obs;
      RecordedTracks(cfg, obs);
    }
  }

  /** The last reading lies at or after the start of the bucket it is counted in. */
  predicate LastOnTime(cfg: Config, obs: seq<Obs>)
    requires cfg.Valid() && obs != []
  {
    Recorded(cfg, obs).cursorTime <= obs[|obs| - 1].at
  }

  ghost predicate OnTime(cfg: Config, obs: seq<Obs>)
    requires cfg.Valid()
  {
    forall k | 1 <= k <= |obs| :: LastOnTime(cfg, obs[..k])
  }

  /** The stamped log is the log itself exactly when every reading is on time. */
  lemma {:induction false} StampedExactlyWhen(cfg: Config, obs: seq<Obs>)
    requires cfg.Valid()
    ensures Stamped(cfg, obs) == obs <==> OnTime(cfg, obs)
  {
    hide Stamped, OnTime, LastOnTime;
    if obs == [] {
      assert OnTime(cfg, obs) by { NothingLate(cfg); }
    } else {
      var n := |obs| - 1;
      StampedExactlyWhen(cfg, obs[..n]);
      StampedStep(cfg, obs);
      OnTimeStep(cfg, obs);
      assert obs == obs[..n] + [obs[n]];
      var log := Stamped(cfg, obs);
      assert log[..n] == Stamped(cfg, obs[..n]) && log == log[..n] + [log[n]];
    }
  }

  lemma NothingLate(cfg: Config)
    requires cfg.Valid()
    ensures OnTime(cfg, [])
  {
  }

  lemma StampedStep(cfg: Config, obs: seq<Obs>)
    requires cfg.Valid() && obs != []
    ensures var n := |obs| - 1;
            && Stamped(cfg, obs) == Stamped(cfg, obs[..n]) + [Stamped(cfg, obs)[n]]
            && (Stamped(cfg, obs)[n] == obs[n] <==> LastOnTime(cfg, obs))
  {
    hide Advance;
  }

  lemma OnTimeStep(cfg: Config, obs: seq<Obs>)
    requires cfg.Valid() && obs != []
    ensures OnTime(cfg, obs) <==> OnTime(cfg, obs[..|obs| - 1]) && LastOnTime(cfg, obs)
  {
    hide LastOnTime;
    var n := |obs| - 1;
    assert obs[..n + 1] == obs;
    forall k | 1 <= k <= n ensures obs[..n][..k] == obs[..k] {
    }
  }

  /** Readings in the order of the lock are on time, the last of them the latest. */
  lemma {:induction false} InOrderIsOnTime(cfg: Config, obs: seq<Obs>)
    requires cfg.Valid() && cfg.BucketDur() > 0 && ClockForward(obs)
    ensures Stamped(cfg, obs) == obs && (obs != [] ==> Latest(obs) == obs[|obs| - 1].at)
  {
    hide Advance, Tracks;
    if obs != [] {
      var n := |obs| - 1;
      InOrderIsOnTime(cfg, obs[..n]);
      assert n > 0 ==> obs[..n][n - 1] == obs[n - 1];
      RecordedTracks(cfg, obs);
      assert obs == obs[..n] + [obs[n]];
    }
  }

  lemma EmptyTracks(cfg: Config, now: int)
    requires cfg.Valid() && cfg.BucketDur() > 0
    ensures Tracks(cfg, Ring(Zeros(cfg.buckets), now), [])
  {
  }

  lemma AdvanceStart(cfg: Config, r: Ring, now: int)
    requires cfg.Valid() && |r.ages| == cfg.buckets
    ensures r.cursorTime <= Advance(cfg, r, now).cursorTime
    ensures Advance(cfg, r, now).cursorTime == r.cursorTime || Advance(cfg, r, now).cursorTime <= now
  {
    var b, elapsed := cfg.BucketDur(), now - r.cursorTime;
    if 0 < b <= elapsed {
      QuotientNonNegative(elapsed, b);
      assert (elapsed / b) * b >= 0;
    }
  }

  /** After every recording, whatever the readings, both window totals equal a count over the
      whole stamped log, cut at an instant that keeps everything counted no more than
      `buckets - 1` bucket lengths before the latest reading and drops everything counted
      `buckets` lengths before it or earlier. */
  lemma WindowTotals(cfg: Config, obs: seq<Obs>) returns (cut: int)
    requires cfg.Valid() && cfg.BucketDur() > 0 && obs != []
    ensures var latest, b := Latest(obs), cfg.BucketDur();
            latest - cfg.buckets * b < cut <= latest - (cfg.buckets - 1) * b
    ensures forall c :: SumOf(Recorded(cfg, obs).ages, c) == CountIn(Stamped(cfg, obs), cut, Latest(obs) + 1, c)
  {
    hide CountIn, Recorded, SumOf, Latest;
    var r, b, n, log := Recorded(cfg, obs), cfg.BucketDur(), cfg.buckets, Stamped(cfg, obs);
    RecordedTracks(cfg, obs);
    cut := Edge(r, b, n - 1);
    assert (n - 1) * b == n * b - b;
    assert r.ages[..n] == r.ages;
    StampedByLatest(cfg, obs);
    forall c ensures SumOf(r.ages, c) == CountIn(log, cut, Latest(obs) + 1, c) {
      SumIsCount(cfg, r, log, n, c);
      CountTop(log, cut, r.cursorTime + b, Latest(obs) + 1, c);
    }
  }

  lemma StampedByLatest(cfg: Config, obs: seq<Obs>)
    requires cfg.Valid() && cfg.BucketDur() > 0 && obs != []
    ensures forall i | 0 <= i < |obs| :: Stamped(cfg, obs)[i].at <= Latest(obs)
  {
    hide Stamped, Recorded;
    forall i | 0 <= i < |obs| ensures Stamped(cfg, obs)[i].at <= Latest(obs) {
      StampBounds(cfg, obs, i);
      LatestGrows(obs, i + 1);
    }
  }

  lemma {:induction false} LatestGrows(obs: seq<Obs>, k: int)
    requires 1 <= k <= |obs|
    ensures Latest(obs[..k]) <= Latest(obs)
    decreases |obs|
  {
    if k == |obs| {
      assert obs[..k] == obs;
    } else {
      var init := obs[..|obs| - 1];
      LatestGrows(init, k);
      assert init[..k] == obs[..k];
    }
  }

  /** With readings in the order of the lock, the totals count the observations themselves by
      their age at the last one. */
  lemma WindowTotalsInOrder(cfg: Config, obs: seq<Obs>) returns (cut: int)
    requires cfg.Valid() && cfg.BucketDur() > 0 && obs != [] && ClockForward(obs)
    ensures var now, b := obs[|obs| - 1].at, cfg.BucketDur();
            now - cfg.buckets * b < cut <= now - (cfg.buckets - 1) * b
    ensures forall c :: SumOf(Recorded(cfg, obs).ages, c) == CountIn(obs, cut, obs[|obs| - 1].at + 1, c)
  {
    hide CountIn, Recorded, SumOf, Latest, Stamped;
    InOrderIsOnTime(cfg, obs);
    cut := WindowTotals(cfg, obs);
  }

  /** Out of order they need not: a caller that read 9 and was overtaken at the lock by one
      that read 10 has its failure still counted at 19, a whole window after it was read. */
  lemma OvertakenWitness()
    ensures var cfg := Config(10, 1, 0.5, 1, 1, 0);
            var obs := [Obs(0, true), Obs(10, true), Obs(9, false), Obs(19, true)];
            && cfg.Valid() && cfg.BucketDur() > 0
            && obs[3].at - obs[2].at == cfg.buckets * cfg.BucketDur()
            && SumOf(Recorded(cfg, obs).ages, Errors) == 1
  {
    var cfg := Config(10, 1, 0.5, 1, 1, 0);
    var o1, o2, o3, o4 := Obs(0, true), Obs(10, true), Obs(9, false), Obs(19, true);
    assert [o1, o2][..1] == [o1] && [o1, o2, o3][..2] == [o1, o2] && [o1, o2, o3, o4][..3] == [o1, o2, o3];
    assert Recorded(cfg, [o1]) == Ring([Bucket(1, 0)], 0);
    assert Recorded(cfg, [o1, o2]) == Ring([Bucket(1, 0)], 10);
    assert Recorded(cfg, [o1, o2, o3]) == Ring([Bucket(2, 1)], 10);
    assert Recorded(cfg, [o1, o2, o3, o4]) == Ring([Bucket(3, 1)], 10);
    assert [Bucket(3, 1)][..0] == [];
  }

  /** A window shorter than its number of buckets has zero-length buckets and never slides:
      the totals count every observation ever made. */
  lemma {:induction false} ZeroLengthBucketsNeverSlide(cfg: Config, obs: seq<Obs>, c: Counter)
    requires cfg.Valid() && cfg.BucketDur() == 0 && obs != []
    ensures SumOf(Recorded(cfg, obs).ages, c) == EverCounted(obs, c)
  {
    var o, init := obs[|obs| - 1], obs[..|obs| - 1];
    var before := RingBefore(cfg, obs);
    if |obs| == 1 {
      SumZeros(cfg.buckets, c);
    } else {
      ZeroLengthBucketsNeverSlide(cfg, init, c);
    }
    SumBump(before.ages, o.ok, c);
  }

  function EverCounted(obs: seq<Obs>, c: Counter): nat {
    if obs == [] then 0 else EverCounted(obs[..|obs| - 1], c) + if Counts(obs[|obs| - 1], c) then 1 else 0
  }

  lemma {:induction false} SumZeros(n: nat, c: Counter)
    ensures SumOf(Zeros(n), c) == 0
  {
    if n > 0 {
      assert Zeros(n)[..n - 1] == Zeros(n - 1);
      SumZeros(n - 1, c);
    }
  }

  lemma {:induction false} SumBump(ages: seq<Bucket>, ok: bool, c: Counter)
    requires ages != []
    ensures SumOf([Bump(ages[0], ok)] + ages[1..], c) == SumOf(ages, c) + if c.Total? || !ok then 1 else 0
  {
    var bumped := [Bump(ages[0], ok)] + ages[1..];
    if |ages| == 1 {
      assert ages[..0] == [] && bumped[..0] == [];
    } else {
      SumBump(ages[..|ages| - 1], ok, c);
      assert bumped[..|ages| - 1] == [Bump(ages[0], ok)] + ages[..|ages| - 1][1..];
    }
  }

  // ---------- the first critical section ----------

  /** The per-source state; the zero time stands for "never paused". */
  datatype Detector = Detector(ring: Ring, lastPaused: int, failures: nat, pending: bool)

  predicate Breach(cfg: Config, total: int, errs: int, failures: int)
    requires cfg.Valid()
  {
    || (total >= cfg.minSample && errs as real / total as real >= cfg.threshold)
    || (cfg.consecutive > 0 && failures >= cfg.consecutive)
  }

  predicate Cooled(cfg: Config, lastPaused: int, now: int) {
    lastPaused == 0 || now - lastPaused >= cfg.cooldown
  }

  function Fresh(cfg: Config, now: int): Detector
    requires cfg.Valid()
  {
    Detector(Ring(Zeros(cfg.buckets), now), 0, 0, false)
  }

  /** Record's first section: count, evaluate, and claim the pause if one is due. */
  function Section(cfg: Config, d: Detector, now: int, ok: bool): (Detector, bool)
    requires cfg.Valid() && |d.ring.ages| == cfg.buckets
  {
    var ring := Observe(cfg, d.ring, now, ok);
    var failures := if ok then 0 else d.failures + 1;
    var pause := Breach(cfg, SumOf(ring.ages, Total), SumOf(ring.ages, Errors), failures)
                 && Cooled(cfg, d.lastPaused, now) && !d.pending;
    (Detector(ring, d.lastPaused, failures, d.pending || pause), pause)
  }

  /** Array position of the bucket `j` steps older than the cursor. */
  function Pos(cursor: int, j: int, n: int): int {
    if j <= cursor then cursor - j else cursor - j + n
  }

  /** The buckets of a ring from the cursor backwards. */
  function AgesOf(cells: seq<Bucket>, cursor: int): (ages: seq<Bucket>)
    requires 0 <= cursor < |cells|
    ensures |ages| == |cells|
    ensures forall j | 0 <= j < |cells| :: ages[j] == cells[Pos(cursor, j, |cells|)]
  {
    seq(|cells|, j requires 0 <= j < |cells| => cells[Pos(cursor, j, |cells|)])
  }

  lemma RollShifts(cells: seq<Bucket>, cursor: int)
    requires 0 <= cursor < |cells|
    ensures var n := |cells|;
            var next := (cursor + 1) % n;
            && 0 <= next < n
            && AgesOf(cells[next := EMPTY], next) == [EMPTY] + AgesOf(cells, cursor)[..n - 1]
  {
    var n := |cells|;
    RollMod(cursor, n);
  }

  lemma BumpFirst(cells: seq<Bucket>, cursor: int, x: Bucket)
    requires 0 <= cursor < |cells|
    ensures AgesOf(cells[cursor := x], cursor) == [x] + AgesOf(cells, cursor)[1..]
  {
  }

  lemma AdvanceCases(cfg: Config, r: Ring, now: int)
    requires cfg.Valid() && |r.ages| == cfg.buckets
    ensures var b, n := cfg.BucketDur(), cfg.buckets;
            var elapsed := now - r.cursorTime;
            && (b <= 0 || elapsed < b ==> Advance(cfg, r, now) == r)
            && (0 < b <= elapsed ==>
                  && elapsed / b >= 1
                  && (elapsed / b >= n ==> Advance(cfg, r, now) == Ring(Zeros(n), now))
                  && (elapsed / b < n ==>
                        Advance(cfg, r, now)
                        == Ring(Zeros(elapsed / b) + r.ages[..n - elapsed / b], r.cursorTime + (elapsed / b) * b)))
  {
  }

  /** The buckets `i` steps later: the oldest `i` dropped, `i` empty ones in front. */
  function Shifted(ages: seq<Bucket>, i: int): (r: seq<Bucket>)
    requires 0 <= i <= |ages|
    ensures |r| == |ages|
  {
    Zeros(i) + ages[..|ages| - i]
  }

  lemma ShiftNone(ages: seq<Bucket>)
    ensures Shifted(ages, 0) == ages
  {
  }

  lemma ShiftOnce(ages: seq<Bucket>, i: int)
    requires 0 <= i < |ages|
    ensures Shifted(ages, i + 1) == [EMPTY] + Shifted(ages, i)[..|ages| - 1]
  {
  }

  class SourceState {
    const cfg: Config
    const buckets: array<Bucket>
    var cursor: int
    var cursorTime: int
    var lastPaused: int
    var failures: nat
    var pendingPause: bool

    ghost predicate Valid()
      reads this
    {
      cfg.Valid() && buckets.Length == cfg.buckets && 0 <= cursor < cfg.buckets
    }

    ghost function View(): (r: Ring)
      requires Valid()
      reads this, buckets
      ensures |r.ages| == cfg.buckets
    {
      Ring(AgesOf(buckets[..], cursor), cursorTime)
    }

    ghost function Abstract(): Detector
      requires Valid()
      reads this, buckets
    {
      Detector(View(), lastPaused, failures, pendingPause)
    }

    constructor (cfg: Config, now: int)
      requires cfg.Valid()
      ensures Valid() && fresh(buckets) && this.cfg == cfg && Abstract() == Fresh(cfg, now)
    {
      this.cfg := cfg;
      buckets := new Bucket[cfg.buckets](_ => EMPTY);
      cursor := 0;
      cursorTime := now;
      lastPaused := 0;
      failures := 0;
      pendingPause := false;
    }

    /** Rolls the cursor one bucket forward and clears it. */
    method RollOne()
      requires Valid()
      modifies this`cursor, buckets
      ensures Valid()
      ensures View().ages == [EMPTY] + old(View().ages)[..cfg.buckets - 1]
    {
      hide AgesOf;
      RollShifts(buckets[..], cursor);
      cursor := (cursor + 1) % cfg.buckets;
      buckets[cursor] := EMPTY;
      assert buckets[..] == old(buckets[..])[cursor := EMPTY];
    }

    method RollBy(steps: int)
      requires Valid() && 0 <= steps < cfg.buckets
      modifies this`cursor, buckets
      ensures Valid() && View().ages == Shifted(old(View().ages), steps)
    {
      hide AgesOf, Shifted;
      ghost var before := View().ages;
      ShiftNone(before);
      for i := 0 to steps
        invariant Valid() && View().ages == Shifted(before, i)
      {
        RollOne();
        ShiftOnce(before, i);
      }
    }

    method Clear()
      requires Valid()
      modifies this`cursor, buckets
      ensures Valid() && View().ages == Zeros(cfg.buckets)
    {
      for i := 0 to buckets.Length
        invariant forall k | 0 <= k < i :: buckets[k] == EMPTY
      {
        buckets[i] := EMPTY;
      }
      cursor := 0;
      AllEmpty(buckets[..]);
    }

    method AdvanceTo(now: int)
      requires Valid()
      modifies this`cursor, this`cursorTime, buckets
      ensures Valid() && View() == Advance(cfg, old(View()), now)
    {
      hide Advance, AgesOf;
      AdvanceCases(cfg, View(), now);
      var bucketDur := cfg.BucketDur();
      if bucketDur <= 0 {
        return;
      }
      var elapsed := now - cursorTime;
      if elapsed < bucketDur {
        return;
      }
      var steps := elapsed / bucketDur;
      if steps >= cfg.buckets {
        Clear();
        cursorTime := now;
        return;
      }
      RollBy(steps);
      cursorTime := cursorTime + steps * bucketDur;
    }

    method WindowTotal(c: Counter) returns (sum: int)
      requires Valid()
      ensures sum == SumOf(View().ages, c)
    {
      sum := 0;
      var n := cfg.buckets;
      for i := 0 to n
        invariant sum == SumOf(buckets[..i], c)
      {
        assert buckets[..i + 1][..i] == buckets[..i];
        sum := sum + Get(buckets[i], c);
      }
      assert buckets[..n] == buckets[..];
      SumRotates(buckets[..], View().ages, cursor, c);
    }

    /** The first section of `Record`, in place. */
    method RecordSection(now: int, ok: bool) returns (shouldPause: bool, total: int, errs: int)
      requires Valid()
      modifies this, buckets
      ensures Valid()
      ensures (Abstract(), shouldPause) == Section(cfg, old(Abstract()), now, ok)
      ensures total == SumOf(View().ages, Total) && errs == SumOf(View().ages, Errors)
    {
      hide Advance, AgesOf, SumOf, Bump;
      AdvanceTo(now);
      ghost var cells, ages := buckets[..], View().ages;
      BumpFirst(cells, cursor, Bump(buckets[cursor], ok));
      buckets[cursor] := Bump(buckets[cursor], ok);
      assert buckets[..] == cells[cursor := Bump(cells[cursor], ok)];
      assert ages[0] == cells[cursor] by { assert Pos(cursor, 0, cfg.buckets) == cursor; }
      if !ok {
        failures := failures + 1;
      } else {
        failures := 0;
      }
      total := WindowTotal(Total);
      errs := WindowTotal(Errors);
      var rateBreach := total >= cfg.minSample && errs as real / total as real >= cfg.threshold;
      var consecBreach := cfg.consecutive > 0 && failures >= cfg.consecutive;
      var cooled := lastPaused == 0 || now - lastPaused >= cfg.cooldown;
      shouldPause := (rateBreach || consecBreach) && cooled && !pendingPause;
      if shouldPause {
        pendingPause := true;
      }
    }
  }

  lemma AllEmpty(cells: seq<Bucket>)
    requires |cells| > 0 && forall i | 0 <= i < |cells| :: cells[i] == EMPTY
    ensures AgesOf(cells, 0) == Zeros(|cells|)
  {
  }

  lemma RollMod(c: int, n: int)
    requires 0 <= c < n
    ensures (c + 1) % n == if c + 1 == n then 0 else c + 1
  {
  }

  /** Summing in array order or in age order is the same. */
  lemma SumRotates(cells: seq<Bucket>, ages: seq<Bucket>, cursor: int, c: Counter)
    requires |cells| == |ages| && 0 <= cursor < |cells|
    requires forall j | 0 <= j < |ages| :: ages[j] == cells[Pos(cursor, j, |cells|)]
    ensures SumOf(cells, c) == SumOf(ages, c)
  {
    var n := |cells|;
    var low, high := cells[..cursor + 1], cells[cursor + 1..];
    assert cells == low + high;
    assert ages == Backwards(low) + Backwards(high);
    SumConcat(low, high, c);
    SumConcat(Backwards(low), Backwards(high), c);
    SumBackwards(low, c);
    SumBackwards(high, c);
  }

  function Backwards(xs: seq<Bucket>): seq<Bucket> {
    seq(|xs|, i requires 0 <= i < |xs| => xs[|xs| - 1 - i])
  }

  lemma {:induction false} SumConcat(a: seq<Bucket>, b: seq<Bucket>, c: Counter)
    ensures SumOf(a + b, c) == SumOf(a, c) + SumOf(b, c)
  {
    if b == [] {
      assert a + b == a;
    } else {
      SumConcat(a, b[..|b| - 1], c);
      assert (a + b)[..|a + b| - 1] == a + b[..|b| - 1];
    }
  }

  lemma {:induction false} SumBackwards(xs: seq<Bucket>, c: Counter)
    ensures SumOf(Backwards(xs), c) == SumOf(xs, c)
  {
    if xs != [] {
      var init, last := xs[..|xs| - 1], xs[|xs| - 1];
      assert Backwards(xs) == [last] + Backwards(init);
      SumConcat([last], Backwards(init), c);
      assert [last][..0] == [];
      SumBackwards(init, c);
    }
  }

  // ---------- the pause protocol ----------

  /** Where a caller is between its first section and its last: calling `PauseSource`, or
      past it and writing the audit event. Both remember when the pause was decided. */
  datatype Phase = Pausing(decidedAt: int) | Auditing(decidedAt: int)

  datatype Commit = Commit(decided: int, committed: int)

  /** `callers` are the calls in flight, `commits` the committed pauses in order. */
  datatype System = System(detector: Detector, callers: map<nat, Phase>, commits: seq<Commit>)

  datatype Event =
    | Enter(who: nat, now: int, ok: bool)
    | PauseFailed(who: nat)
    | PauseDone(who: nat)
    | AuditFailed(who: nat)
    | Committed(who: nat, now: int)

  /** A caller's own clock does not run back, and reads later than the zero time. */
  predicate Enabled(cfg: Config, s: System, e: Event) {
    match e
    case Enter(who, now, ok) => who !in s.callers && |s.detector.ring.ages| == cfg.buckets
    case PauseFailed(who) => who in s.callers && s.callers[who].Pausing?
    case PauseDone(who) => who in s.callers && s.callers[who].Pausing?
    case AuditFailed(who) => who in s.callers && s.callers[who].Auditing?
    case Committed(who, now) => who in s.callers && s.callers[who].Auditing? && 0 < now && s.callers[who].decidedAt <= now
  }

  function Apply(cfg: Config, s: System, e: Event): System
    requires cfg.Valid() && Enabled(cfg, s, e)
  {
    match e
    case Enter(who, now, ok) =>
      var (d, pause) := Section(cfg, s.detector, now, ok);
      s.(detector := d, callers := if pause then s.callers[who := Pausing(now)] else s.callers)
    case PauseFailed(who) => s.(detector := s.detector.(pending := false), callers := s.callers - {who})
    case PauseDone(who) => s.(callers := s.callers[who := Auditing(s.callers[who].decidedAt)])
    case AuditFailed(who) => s.(detector := s.detector.(pending := false), callers := s.callers - {who})
    case Committed(who, now) =>
      System(s.detector.(lastPaused := now, pending := false), s.callers - {who},
             s.commits + [Commit(s.callers[who].decidedAt, now)])
  }

  /** The claim flag says whether a pause attempt is in flight, and at most one is; the
      attempt in flight was decided after the cooldown; committed pauses are spaced by it. */
  ghost predicate Inv(cfg: Config, s: System) {
    && |s.detector.ring.ages| == cfg.buckets
    && (s.detector.pending <==> s.callers != map[])
    && (forall a, b | a in s.callers && b in s.callers :: a == b)
    && s.detector.lastPaused == (if s.commits == [] then 0 else s.commits[|s.commits| - 1].committed)
    && (forall i | 0 <= i < |s.commits| :: 0 < s.commits[i].committed && s.commits[i].decided <= s.commits[i].committed)
    && (forall a | a in s.callers && s.commits != [] ::
          s.callers[a].decidedAt >= s.commits[|s.commits| - 1].committed + cfg.cooldown)
    && (forall i | 0 <= i < |s.commits| - 1 :: s.commits[i + 1].decided >= s.commits[i].committed + cfg.cooldown)
  }

  lemma StepKeeps(cfg: Config, s: System, e: Event)
    requires cfg.Valid() && Inv(cfg, s) && Enabled(cfg, s, e)
    ensures Inv(cfg, Apply(cfg, s, e))
  {
  }

  ghost predicate IsRun(cfg: Config, states: seq<System>, events: seq<Event>)
    requires cfg.Valid()
  {
    && |states| == |events| + 1
    && forall i | 0 <= i < |events| ::
         Enabled(cfg, states[i], events[i]) && states[i + 1] == Apply(cfg, states[i], events[i])
  }

  lemma {:induction false} RunKeeps(cfg: Config, states: seq<System>, events: seq<Event>)
    requires cfg.Valid() && IsRun(cfg, states, events) && Inv(cfg, states[0])
    ensures forall i | 0 <= i <= |events| :: Inv(cfg, states[i])
    decreases |events|
  {
    hide Inv, Enabled, Apply;
    if events != [] {
      var k := |events| - 1;
      RunKeeps(cfg, states[..k + 1], events[..k]);
      assert Inv(cfg, states[..k + 1][k]);
      StepKeeps(cfg, states[k], events[k]);
      forall i | 0 <= i <= |events| ensures Inv(cfg, states[i]) {
        if i <= k {
          assert states[..k + 1][i] == states[i];
        }
      }
    }
  }

  /** In every interleaving of calls for one source, from the creation of its state on: at
      most one pause attempt is in flight, the claim flag is up exactly while one is, and
      every pause, in flight or committed, was decided at least the cooldown after every
      earlier committed one. */
  lemma OnePauseAtATime(cfg: Config, states: seq<System>, events: seq<Event>, now: int)
    requires cfg.Valid() && IsRun(cfg, states, events) && states[0] == System(Fresh(cfg, now), map[], [])
    ensures var s := states[|events|];
            && |s.callers.Keys| <= 1 && (s.detector.pending <==> |s.callers.Keys| == 1)
            && (forall i, j | 0 <= i < j < |s.commits| ::
                  s.commits[i].committed + cfg.cooldown <= s.commits[j].decided <= s.commits[j].committed)
            && (forall a, i | a in s.callers && 0 <= i < |s.commits| ::
                  s.commits[i].committed + cfg.cooldown <= s.callers[a].decidedAt)
  {
    RunKeeps(cfg, states, events);
    var s := states[|events|];
    assert Inv(cfg, s);
    AtMostOne(s.callers.Keys);
    forall i, j | 0 <= i < j < |s.commits| ensures s.commits[i].committed + cfg.cooldown <= s.commits[j].decided {
      CommitsSpaced(cfg, s, i, j);
    }
    forall a, i | a in s.callers && 0 <= i < |s.commits|
      ensures s.commits[i].committed + cfg.cooldown <= s.callers[a].decidedAt
    {
      if i < |s.commits| - 1 {
        CommitsSpaced(cfg, s, i, |s.commits| - 1);
      }
    }
  }

  lemma AtMostOne(ids: set<nat>)
    requires forall a, b | a in ids && b in ids :: a == b
    ensures |ids| <= 1 && (ids == {} || |ids| == 1)
  {
    if ids != {} {
      assert (forall x :: x !in ids) ==> ids == {};
      var x :| x in ids;
      assert ids == {x};
    }
  }

  lemma {:induction false} CommitsSpaced(cfg: Config, s: System, i: int, j: int)
    requires cfg.Valid() && Inv(cfg, s) && 0 <= i < j < |s.commits|
    ensures s.commits[i].committed + cfg.cooldown <= s.commits[j].decided
    decreases j - i
  {
    hide Enabled, Section;
    if i + 1 < j {
      CommitsSpaced(cfg, s, i + 1, j);
      assert s.commits[i + 1].decided <= s.commits[i + 1].committed;
    }
  }

  /** The observations of a run, in the order of their first sections. */
  function Observed(events: seq<Event>): seq<Obs> {
    if events == [] then []
    else
      var e := events[|events| - 1];
      Observed(events[..|events| - 1]) + if e.Enter? then [Obs(e.now, e.ok)] else []
  }

  /** The length of the run of failures at the end. */
  function Trailing(obs: seq<Obs>): nat {
    if obs == [] || obs[|obs| - 1].ok then 0 else Trailing(obs[..|obs| - 1]) + 1
  }

  /** A run for one source, whose state its first observation creates. */
  ghost predicate SourceRun(cfg: Config, states: seq<System>, events: seq<Event>, start: int)
    requires cfg.Valid()
  {
    && IsRun(cfg, states, events) && states[0] == System(Fresh(cfg, start), map[], [])
    && (Observed(events) != [] ==> Observed(events)[0].at == start)
  }

  function RingOf(cfg: Config, obs: seq<Obs>, start: int): Ring
    requires cfg.Valid()
  {
    if obs == [] then Ring(Zeros(cfg.buckets), start) else Recorded(cfg, obs)
  }

  lemma LogStep(cfg: Config, s: System, e: Event, obs: seq<Obs>, start: int)
    requires cfg.Valid() && Enabled(cfg, s, e)
    requires s.detector.ring == RingOf(cfg, obs, start) && s.detector.failures == Trailing(obs)
    requires e.Enter? && obs == [] ==> e.now == start
    ensures var obs', d := obs + (if e.Enter? then [Obs(e.now, e.ok)] else []), Apply(cfg, s, e).detector;
            d.ring == RingOf(cfg, obs', start) && d.failures == Trailing(obs')
  {
    hide Observe, SumOf, Breach, Cooled, Zeros;
    if e.Enter? {
      var obs' := obs + [Obs(e.now, e.ok)];
      assert obs'[..|obs'| - 1] == obs;
      assert RingBefore(cfg, obs') == RingOf(cfg, obs, start);
    } else {
      assert obs + [] == obs;
    }
  }

  /** Pauses, failures and commits in between never disturb the counts. */
  lemma {:induction false} DetectorFollowsLog(cfg: Config, states: seq<System>, events: seq<Event>, start: int)
    requires cfg.Valid() && SourceRun(cfg, states, events, start)
    ensures var obs, d := Observed(events), states[|events|].detector;
            d.ring == RingOf(cfg, obs, start) && d.failures == Trailing(obs)
    decreases |events|
  {
    hide Apply, Enabled, Recorded, Zeros;
    if events != [] {
      var k := |events| - 1;
      DetectorFollowsLog(cfg, states[..k + 1], events[..k], start);
      LogStep(cfg, states[k], events[k], Observed(events[..k]), start);
    }
  }

  /** In every interleaving, whatever the callers' clocks read, a recording starts a pause
      exactly when none is in flight, the cooldown since the last committed one is over, and
      the whole stamped log says so: enough observations in the window with a high enough
      share of errors, or enough failures in a row at its end. */
  lemma PausesExactlyWhen(cfg: Config, states: seq<System>, events: seq<Event>, start: int, k: int) returns (cut: int)
    requires cfg.Valid() && cfg.BucketDur() > 0 && k == |events| - 1 >= 0 && events[k].Enter?
    requires SourceRun(cfg, states, events, start)
    ensures Observed(events) != []
    ensures var latest, b := Latest(Observed(events)), cfg.BucketDur();
            latest - cfg.buckets * b < cut <= latest - (cfg.buckets - 1) * b
    ensures var s, now, obs := states[k], events[k].now, Observed(events);
            var log, until := Stamped(cfg, obs), Latest(obs) + 1;
            var total, errs := CountIn(log, cut, until, Total), CountIn(log, cut, until, Errors);
            events[k].who in states[k + 1].callers <==>
            && s.callers == map[]
            && (s.commits == [] || now - s.commits[|s.commits| - 1].committed >= cfg.cooldown)
            && (|| (total >= cfg.minSample && errs as real / total as real >= cfg.threshold)
                || (cfg.consecutive > 0 && Trailing(obs) >= cfg.consecutive))
  {
    hide Observe, SumOf, CountIn, Recorded, Stamped, Latest;
    var obs := Observed(events);
    DetectorFollowsLog(cfg, states, events, start);
    RunFacts(cfg, states, events, start, k);
    cut := WindowTotals(cfg, obs);
    assert states[k + 1] == Apply(cfg, states[k], events[k]);
  }

  /** With readings in the order of the lock the observations are counted by their age. */
  lemma PausesInOrder(cfg: Config, states: seq<System>, events: seq<Event>, start: int, k: int) returns (cut: int)
    requires cfg.Valid() && cfg.BucketDur() > 0 && k == |events| - 1 >= 0 && events[k].Enter?
    requires SourceRun(cfg, states, events, start) && ClockForward(Observed(events))
    ensures var now, b := events[k].now, cfg.BucketDur();
            now - cfg.buckets * b < cut <= now - (cfg.buckets - 1) * b
    ensures var s, now, obs := states[k], events[k].now, Observed(events);
            var total, errs := CountIn(obs, cut, now + 1, Total), CountIn(obs, cut, now + 1, Errors);
            events[k].who in states[k + 1].callers <==>
            && s.callers == map[]
            && (s.commits == [] || now - s.commits[|s.commits| - 1].committed >= cfg.cooldown)
            && (|| (total >= cfg.minSample && errs as real / total as real >= cfg.threshold)
                || (cfg.consecutive > 0 && Trailing(obs) >= cfg.consecutive))
  {
    hide CountIn, Recorded, Stamped, Latest, SourceRun;
    var obs := Observed(events);
    cut := PausesExactlyWhen(cfg, states, events, start, k);
    InOrderIsOnTime(cfg, obs);
    assert obs[|obs| - 1].at == events[k].now;
  }

  lemma RunFacts(cfg: Config, states: seq<System>, events: seq<Event>, start: int, k: int)
    requires cfg.Valid() && SourceRun(cfg, states, events, start) && 0 <= k < |events|
    ensures Inv(cfg, states[k])
  {
    hide Apply, Enabled;
    RunKeeps(cfg, states, events);
  }

  /** A failed pause call and a failed audit write both release the claim, so the next
      breach can try again. */
  lemma FailureReleases(cfg: Config, s: System, e: Event)
    requires cfg.Valid() && Inv(cfg, s) && Enabled(cfg, s, e) && (e.PauseFailed? || e.AuditFailed?)
    ensures var s' := Apply(cfg, s, e);
            && !s'.detector.pending && s'.callers == map[] && s'.detector.lastPaused == s.detector.lastPaused
            && s'.detector.ring == s.detector.ring
  {
  }
}
