/** The Redis token bucket (internal/admin/ratelimit.go). Lua numbers are reals here;
    timestamps are whole milliseconds. A call runs its script atomically. */
module RateLimit {
  import opened Text

  datatype RateLimit = RateLimit(capacity: int, refill: real) {
    /** What the constructor guarantees: otherwise it substitutes the default limit. */
    predicate Valid() { capacity >= 1 && refill > 0.0 }
  }

  datatype Bucket = Bucket(tokens: real, last: int)

  const TTL_MS: int := 3_600_000

  function Min(a: real, b: real): real { if a <= b then a else b }

  function Ceil(x: real): int { -((-x).Floor) }

  /** The whole milliseconds until `k < 1` tokens have grown to one. */
  function Delay(lim: RateLimit, k: real): int
    requires lim.Valid()
  {
    Ceil((1.0 - k) / lim.refill * 1000.0)
  }

  /** The tokens a script run at `now` starts from; a missing key is a full bucket. */
  function Refilled(lim: RateLimit, b: Option<Bucket>, now: int): real {
    match b
    case None => lim.capacity as real
    case Some(x) =>
      var elapsed := if now < x.last then 0.0 else (now - x.last) as real / 1000.0;
      Min(lim.capacity as real, x.tokens + elapsed * lim.refill)
  }

  datatype Reply = Reply(bucket: Bucket, allowed: bool, retryMs: int)

  /** `tokenBucketLua`. */
  function Script(lim: RateLimit, b: Option<Bucket>, now: int): Reply
    requires lim.Valid()
  {
    var tokens := Refilled(lim, b, now);
    if tokens >= 1.0 then Reply(Bucket(tokens - 1.0, now), true, 0)
    else Reply(Bucket(tokens, now), false, Delay(lim, tokens))
  }

  ghost predicate Sane(lim: RateLimit, b: Option<Bucket>) {
    b.Some? ==> 0.0 <= b.value.tokens <= lim.capacity as real
  }

  /** Tokens stay within the bucket. */
  lemma ScriptKeepsSane(lim: RateLimit, b: Option<Bucket>, now: int)
    requires lim.Valid() && Sane(lim, b)
    ensures 0.0 <= Refilled(lim, b, now) <= lim.capacity as real
    ensures Sane(lim, Some(Script(lim, b, now).bucket))
  {
  }

  // ---------- runs ----------

  /** A call at `now`; `expired` says that Redis dropped the idle key before it. */
  datatype Call = Call(now: int, expired: bool)

  ghost function After(lim: RateLimit, b: Option<Bucket>, calls: seq<Call>): Option<Bucket>
    requires lim.Valid()
    decreases |calls|, 1
  {
    if calls == [] then b
    else Some(ReplyTo(lim, b, calls).bucket)
  }

  /** The reply to the last call. */
  ghost function ReplyTo(lim: RateLimit, b: Option<Bucket>, calls: seq<Call>): Reply
    requires lim.Valid() && calls != []
    decreases |calls|, 0
  {
    var c := calls[|calls| - 1];
    var before := After(lim, b, calls[..|calls| - 1]);
    Script(lim, if c.expired then None else before, c.now)
  }

  /** Redis drops a key no sooner than the time to live after the last call. */
  ghost predicate Legal(lim: RateLimit, b: Option<Bucket>, calls: seq<Call>)
    requires lim.Valid()
  {
    forall i | 0 <= i < |calls| && calls[i].expired ::
      var before := After(lim, b, calls[..i]);
      before.Some? && calls[i].now - before.value.last >= TTL_MS
  }

  predicate NoExpiry(calls: seq<Call>) {
    forall i | 0 <= i < |calls| :: !calls[i].expired
  }

  predicate ClockForward(b: Option<Bucket>, calls: seq<Call>) {
    && (b.Some? ==> forall i | 0 <= i < |calls| :: b.value.last <= calls[i].now)
    && forall i, j | 0 <= i < j < |calls| :: calls[i].now <= calls[j].now
  }

  /** The calls admitted at an instant in `[s, t]`. */
  ghost function AdmittedIn(lim: RateLimit, b: Option<Bucket>, calls: seq<Call>, s: int, t: int): nat
    requires lim.Valid()
  {
    if calls == [] then 0
    else
      AdmittedIn(lim, b, calls[..|calls| - 1], s, t)
      + if s <= calls[|calls| - 1].now <= t && ReplyTo(lim, b, calls).allowed then 1 else 0
  }

  /** Tokens earned between two instants. */
  function Earned(lim: RateLimit, s: int, t: int): real {
    (t - s) as real / 1000.0 * lim.refill
  }

  lemma EarnedAdds(lim: RateLimit, s: int, m: int, t: int)
    requires lim.Valid() && m <= t
    ensures Earned(lim, s, t) == Earned(lim, s, m) + Earned(lim, m, t) && Earned(lim, m, t) >= 0.0
  {
  }

  lemma RefillIsBounded(lim: RateLimit, x: Bucket, now: int)
    requires lim.Valid() && x.last <= now
    ensures Refilled(lim, Some(x), now) == Min(lim.capacity as real, x.tokens + Earned(lim, x.last, now))
  {
  }

  lemma {:induction false} AfterIsSane(lim: RateLimit, b: Option<Bucket>, calls: seq<Call>)
    requires lim.Valid() && Sane(lim, b)
    ensures Sane(lim, After(lim, b, calls))
    ensures calls != [] ==> After(lim, b, calls).value.last == calls[|calls| - 1].now
  {
    hide Refilled, Sane;
    if calls != [] {
      var init, c := calls[..|calls| - 1], calls[|calls| - 1];
      AfterIsSane(lim, b, init);
      MissingIsSane(lim);
      ScriptKeepsSane(lim, if c.expired then None else After(lim, b, init), c.now);
    }
  }

  lemma MissingIsSane(lim: RateLimit)
    ensures Sane(lim, None)
  {
  }

  /** What the calls in `[s, t]` have used, plus what is left, against what was earned. */
  ghost predicate Budget(lim: RateLimit, b: Option<Bucket>, calls: seq<Call>, s: int, t: int)
    requires lim.Valid() && calls != []
  {
    var now, used := calls[|calls| - 1].now, AdmittedIn(lim, b, calls, s, t) as real;
    var left := After(lim, b, calls).value.tokens;
    if now < s then used == 0.0
    else if now <= t then used + left <= lim.capacity as real + Earned(lim, s, now)
    else used <= lim.capacity as real + Earned(lim, s, t)
  }

  lemma {:induction false} BudgetKept(lim: RateLimit, b: Option<Bucket>, calls: seq<Call>, s: int, t: int)
    requires lim.Valid() && Sane(lim, b) && ClockForward(b, calls) && NoExpiry(calls) && calls != [] && s <= t
    ensures Budget(lim, b, calls, s, t)
  {
    hide Refilled, Earned;
    var init, c := calls[..|calls| - 1], calls[|calls| - 1];
    var before := After(lim, b, init);
    AfterIsSane(lim, b, init);
    AfterIsSane(lim, b, calls);
    ScriptKeepsSane(lim, before, c.now);
    EarnedAdds(lim, s, s, if c.now < s then s else c.now);
    EarnedAdds(lim, s, s, t);
    var used0, used := AdmittedIn(lim, b, init, s, t), AdmittedIn(lim, b, calls, s, t);
    var reply := Script(lim, before, c.now);
    assert reply == ReplyTo(lim, b, calls);
    assert used == used0 + if s <= c.now <= t && reply.allowed then 1 else 0;
    assert reply.bucket.tokens == Refilled(lim, before, c.now) - if reply.allowed then 1.0 else 0.0;
    if init == [] {
      assert used0 == 0;
    } else {
      BudgetKept(lim, b, init, s, t);
      var last := init[|init| - 1].now;
      assert last == calls[|init| - 1].now;
      RefillIsBounded(lim, before.value, c.now);
      EarnedAdds(lim, s, last, c.now);
      if last <= t {
        EarnedAdds(lim, s, last, t);
      }
    }
  }

  /** In every run under a clock that does not run back, for every interval, the calls
      admitted in it number at most the capacity plus the tokens earned in it. */
  lemma AdmissionBound(lim: RateLimit, b: Option<Bucket>, calls: seq<Call>, s: int, t: int)
    requires lim.Valid() && Sane(lim, b) && ClockForward(b, calls) && NoExpiry(calls) && s <= t
    ensures AdmittedIn(lim, b, calls, s, t) as real <= lim.capacity as real + Earned(lim, s, t)
  {
    hide Refilled, Earned;
    EarnedAdds(lim, s, s, t);
    if calls != [] {
      BudgetKept(lim, b, calls, s, t);
      AfterIsSane(lim, b, calls);
      var now := calls[|calls| - 1].now;
      if s <= now <= t {
        EarnedAdds(lim, s, now, t);
      }
    }
  }

  // ---------- expiry of idle buckets ----------

  predicate RefillsWithinTtl(lim: RateLimit) {
    lim.capacity as real <= 3600.0 * lim.refill
  }

  /** When the bucket refills within the time to live, dropping it changes nothing. */
  lemma ExpiryIsInvisible(lim: RateLimit, x: Bucket, now: int)
    requires lim.Valid() && RefillsWithinTtl(lim) && 0.0 <= x.tokens && now - x.last >= TTL_MS
    ensures Script(lim, None, now) == Script(lim, Some(x), now)
  {
  }

  function Unexpired(calls: seq<Call>): seq<Call> {
    seq(|calls|, i requires 0 <= i < |calls| => Call(calls[i].now, false))
  }

  lemma {:induction false} SameWithoutExpiry(lim: RateLimit, b: Option<Bucket>, calls: seq<Call>, s: int, t: int)
    requires lim.Valid() && Sane(lim, b) && Legal(lim, b, calls) && RefillsWithinTtl(lim)
    ensures After(lim, b, Unexpired(calls)) == After(lim, b, calls)
    ensures AdmittedIn(lim, b, Unexpired(calls), s, t) == AdmittedIn(lim, b, calls, s, t)
  {
    hide Refilled, Script;
    if calls != [] {
      var init, c := calls[..|calls| - 1], calls[|calls| - 1];
      assert forall i | 0 <= i < |init| :: init[..i] == calls[..i];
      SameWithoutExpiry(lim, b, init, s, t);
      assert Unexpired(calls)[..|calls| - 1] == Unexpired(init);
      AfterIsSane(lim, b, init);
      var before := After(lim, b, init);
      if c.expired {
        assert before == After(lim, b, calls[..|calls| - 1]);
        ExpiryIsInvisible(lim, before.value, c.now);
      }
    }
  }

  /** The bound survives expiry when the bucket refills within the time to live. */
  lemma BoundWithExpiry(lim: RateLimit, b: Option<Bucket>, calls: seq<Call>, s: int, t: int)
    requires lim.Valid() && Sane(lim, b) && ClockForward(b, calls) && Legal(lim, b, calls) && s <= t
    requires RefillsWithinTtl(lim)
    ensures AdmittedIn(lim, b, calls, s, t) as real <= lim.capacity as real + Earned(lim, s, t)
  {
    hide Refilled, Script, Earned;
    SameWithoutExpiry(lim, b, calls, s, t);
    AdmissionBound(lim, b, Unexpired(calls), s, t);
  }

  function Burst(now: int, n: nat): (calls: seq<Call>)
    ensures |calls| == n && forall i | 0 <= i < n :: calls[i] == Call(now, false)
  {
    seq(n, i => Call(now, false))
  }

  /** The n-th call of a burst takes the n-th token. */
  lemma TakeOne(lim: RateLimit, n: nat, now: int)
    requires lim.Valid() && 1 <= n <= lim.capacity
    ensures var before := if n == 1 then None else Some(Bucket((lim.capacity - n + 1) as real, now));
            Script(lim, before, now) == Reply(Bucket((lim.capacity - n) as real, now), true, 0)
  {
  }

  /** A full bucket admits a burst of its capacity at one instant. */
  lemma {:induction false} BurstAdmitted(lim: RateLimit, now: int, n: nat)
    requires lim.Valid() && n <= lim.capacity
    ensures n > 0 ==> After(lim, None, Burst(now, n)) == Some(Bucket((lim.capacity - n) as real, now))
    ensures AdmittedIn(lim, None, Burst(now, n), now, now) == n
  {
    if n > 0 {
      assert Burst(now, n)[..n - 1] == Burst(now, n - 1);
      BurstAdmitted(lim, now, n - 1);
      TakeOne(lim, n, now);
      var before := if n == 1 then None else Some(Bucket((lim.capacity - n + 1) as real, now));
      assert n == 1 ==> Burst(now, n - 1) == [];
      assert After(lim, None, Burst(now, n - 1)) == before;
      assert ReplyTo(lim, None, Burst(now, n)) == Script(lim, before, now);
    }
  }

  /** When the bucket does not refill within the time to live, expiry breaks the bound: a
      burst, an hour of silence, and another burst. */
  lemma ExpiryBreaksBound(lim: RateLimit) returns (calls: seq<Call>)
    requires lim.Valid() && !RefillsWithinTtl(lim)
    ensures ClockForward(None, calls) && Legal(lim, None, calls)
    ensures AdmittedIn(lim, None, calls, 0, TTL_MS) as real > lim.capacity as real + Earned(lim, 0, TTL_MS)
  {
    var n := lim.capacity;
    BurstAdmitted(lim, 0, n);
    var first := Burst(0, n);
    SecondBurst(lim, n, n);
    calls := first + Restart(n);
    forall i | 0 <= i < |calls| && calls[i].expired
      ensures var before := After(lim, None, calls[..i]);
              before.Some? && calls[i].now - before.value.last >= TTL_MS
    {
      assert i == n;
      assert calls[..i] == first;
    }
    assert Earned(lim, 0, TTL_MS) == 3600.0 * lim.refill;
  }

  /** A burst of `n` calls an hour later, the first finding its key dropped. */
  function Restart(n: nat): (calls: seq<Call>)
    ensures |calls| == n && forall i | 0 <= i < n :: calls[i] == Call(TTL_MS, i == 0)
  {
    seq(n, i => Call(TTL_MS, i == 0))
  }

  lemma {:induction false} SecondBurst(lim: RateLimit, n: nat, k: nat)
    requires lim.Valid() && n == lim.capacity && k <= n
    ensures AdmittedIn(lim, None, Burst(0, n) + Restart(k), 0, TTL_MS) == n + k
    ensures k > 0 ==> After(lim, None, Burst(0, n) + Restart(k)) == Some(Bucket((n - k) as real, TTL_MS))
  {
    var calls := Burst(0, n) + Restart(k);
    if k == 0 {
      assert calls == Burst(0, n);
      FirstBurst(lim, n, n);
    } else {
      hide Script;
      assert calls[..|calls| - 1] == Burst(0, n) + Restart(k - 1);
      SecondBurst(lim, n, k - 1);
      TakeOne(lim, k, TTL_MS);
    }
  }

  lemma {:induction false} FirstBurst(lim: RateLimit, n: nat, k: nat)
    requires lim.Valid() && n == lim.capacity && k <= n
    ensures AdmittedIn(lim, None, Burst(0, k), 0, TTL_MS) == k
  {
    if k > 0 {
      assert Burst(0, k)[..k - 1] == Burst(0, k - 1);
      FirstBurst(lim, n, k - 1);
      BurstAdmitted(lim, 0, k - 1);
      TakeOne(lim, k, 0);
      var before := if k == 1 then None else Some(Bucket((lim.capacity - k + 1) as real, 0));
      assert k == 1 ==> Burst(0, k - 1) == [];
      assert After(lim, None, Burst(0, k - 1)) == before;
      assert ReplyTo(lim, None, Burst(0, k)) == Script(lim, before, 0);
    }
  }

  /** Calls at 0 and `t` in turn, `n` times each. */
  function Zigzag(t: int, n: nat): (calls: seq<Call>)
    ensures NoExpiry(calls)
  {
    if n == 0 then [] else Zigzag(t, n - 1) + [Call(0, false)] + [Call(t, false)]
  }

  /** When a token is earned between 0 and `t`, every return to `t` is admitted. */
  lemma {:induction false} ZigzagAdmitted(lim: RateLimit, t: int, n: nat)
    requires lim.Valid() && t >= 0 && Earned(lim, 0, t) >= 1.0
    ensures AdmittedIn(lim, None, Zigzag(t, n), 0, t) >= n
  {
    hide Earned, Refilled;
    if n > 0 {
      ZigzagAdmitted(lim, t, n - 1);
      var back := Zigzag(t, n - 1) + [Call(0, false)];
      var calls := back + [Call(t, false)];
      assert back[..|back| - 1] == Zigzag(t, n - 1) && calls[..|calls| - 1] == back;
      MissingIsSane(lim);
      AfterIsSane(lim, None, back);
      RefillIsBounded(lim, After(lim, None, back).value, t);
    }
  }

  /** The script stores the call's timestamp even when it lies in the past, so a clock that
      runs back lets the same time be earned again: no limit's bound survives it. */
  lemma BackwardClockBreaksBound(lim: RateLimit) returns (calls: seq<Call>, t: int)
    requires lim.Valid()
    ensures NoExpiry(calls) && t >= 0
    ensures AdmittedIn(lim, None, calls, 0, t) as real > lim.capacity as real + Earned(lim, 0, t)
  {
    t := Delay(lim, 0.0);
    TokenArrives(lim, 0.0, 0, t);
    var bound := lim.capacity as real + Earned(lim, 0, t);
    hide Earned, Delay;
    calls := Zigzag(t, bound.Floor + 1);
    ZigzagAdmitted(lim, t, bound.Floor + 1);
  }

  /** How far the timestamps run back, all steps back together. */
  function Drift(b: Option<Bucket>, calls: seq<Call>): int {
    if calls == [] then 0
    else
      var init, c := calls[..|calls| - 1], calls[|calls| - 1];
      var prev := LastOf(b, init, c.now);
      Drift(b, init) + if prev > c.now then prev - c.now else 0
  }

  /** The timestamp before a call at `now`. */
  function LastOf(b: Option<Bucket>, init: seq<Call>, now: int): int {
    if init != [] then init[|init| - 1].now else if b.Some? then b.value.last else now
  }

  /** The same calls at timestamps that never run back: each later by the drift so far. */
  function Straight(b: Option<Bucket>, calls: seq<Call>): (r: seq<Call>)
    ensures |r| == |calls|
  {
    if calls == [] then []
    else Straight(b, calls[..|calls| - 1]) + [Call(calls[|calls| - 1].now + Drift(b, calls), false)]
  }

  /** The bucket with its timestamp moved by `d`. */
  function Moved(b: Option<Bucket>, d: int): Option<Bucket> {
    if b.None? then None else Some(Bucket(b.value.tokens, b.value.last + d))
  }

  lemma ForwardSnoc(b: Option<Bucket>, calls: seq<Call>, c: Call)
    requires ClockForward(b, calls) && LastOf(b, calls, c.now) <= c.now
    ensures ClockForward(b, calls + [c])
  {
  }

  lemma {:induction false} StraightForward(b: Option<Bucket>, calls: seq<Call>)
    ensures NoExpiry(Straight(b, calls)) && ClockForward(b, Straight(b, calls)) && Drift(b, calls) >= 0
    ensures calls != [] ==> Straight(b, calls)[|calls| - 1].now == calls[|calls| - 1].now + Drift(b, calls)
  {
    hide ClockForward;
    if calls == [] {
      assert ClockForward(b, []) by { NoCalls(b); }
    } else {
      var init, c := calls[..|calls| - 1], calls[|calls| - 1];
      StraightForward(b, init);
      ForwardSnoc(b, Straight(b, init), Call(c.now + Drift(b, calls), false));
    }
  }

  lemma NoCalls(b: Option<Bucket>)
    ensures ClockForward(b, [])
  {
  }

  /** The script only looks at the time that has passed, and takes none for a step back. */
  lemma ScriptMoves(lim: RateLimit, b: Option<Bucket>, prev: int, now: int, d: int)
    requires lim.Valid() && (b.Some? ==> b.value.last == prev)
    ensures var back := if prev > now then prev - now else 0;
            var r, r' := Script(lim, b, now), Script(lim, Moved(b, d), now + d + back);
            && r'.allowed == r.allowed && r'.bucket.tokens == r.bucket.tokens
            && r.bucket.last == now && r'.bucket.last == now + d + back
  {
    if b.Some? && prev > now {
      assert (now + d + (prev - now) - (prev + d)) == 0;
    }
  }

  /** One more call, in a run and in the straightened run. */
  lemma AnswerSnoc(lim: RateLimit, b: Option<Bucket>, calls: seq<Call>, c: Call, s: int, t: int)
    requires lim.Valid() && !c.expired
    ensures var reply := Script(lim, After(lim, b, calls), c.now);
            && After(lim, b, calls + [c]) == Some(reply.bucket)
            && AdmittedIn(lim, b, calls + [c], s, t)
               == AdmittedIn(lim, b, calls, s, t) + if s <= c.now <= t && reply.allowed then 1 else 0
  {
    hide Script;
    assert (calls + [c])[..|calls|] == calls;
    assert ReplyTo(lim, b, calls + [c]) == Script(lim, After(lim, b, calls), c.now);
  }

  lemma StraightSnoc(b: Option<Bucket>, calls: seq<Call>, c: Call)
    ensures var prev := LastOf(b, calls, c.now);
            Drift(b, calls + [c]) == Drift(b, calls) + if prev > c.now then prev - c.now else 0
    ensures Straight(b, calls + [c]) == Straight(b, calls) + [Call(c.now + Drift(b, calls + [c]), false)]
  {
    assert (calls + [c])[..|calls|] == calls;
  }

  lemma LastIs(lim: RateLimit, b: Option<Bucket>, calls: seq<Call>, now: int)
    requires lim.Valid() && Sane(lim, b)
    ensures After(lim, b, calls).Some? ==> After(lim, b, calls).value.last == LastOf(b, calls, now)
  {
    hide Script, Sane;
    AfterIsSane(lim, b, calls);
  }

  /** The straightened run has been answered call by call like the run itself. */
  ghost predicate AnsweredAlike(lim: RateLimit, b: Option<Bucket>, calls: seq<Call>, s: int, t: int, d: int)
    requires lim.Valid()
  {
    && After(lim, b, Straight(b, calls)) == Moved(After(lim, b, calls), Drift(b, calls))
    && AdmittedIn(lim, b, calls, s, t) <= AdmittedIn(lim, b, Straight(b, calls), s, t + d)
  }

  lemma NothingAnswered(lim: RateLimit, b: Option<Bucket>, s: int, t: int, d: int)
    requires lim.Valid()
    ensures AnsweredAlike(lim, b, [], s, t, d)
  {
    assert Moved(b, 0) == b;
  }

  lemma AnsweredStep(lim: RateLimit, b: Option<Bucket>, calls: seq<Call>, c: Call, s: int, t: int, d: int)
    requires lim.Valid() && Sane(lim, b) && !c.expired && AnsweredAlike(lim, b, calls, s, t, d)
    requires 0 <= Drift(b, calls) <= Drift(b, calls + [c]) <= d
    ensures AnsweredAlike(lim, b, calls + [c], s, t, d)
  {
    hide Script, Sane, After, AdmittedIn, Straight, Drift, LastOf;
    var c' := Call(c.now + Drift(b, calls + [c]), false);
    StraightSnoc(b, calls, c);
    AnswerSnoc(lim, b, calls, c, s, t);
    AnswerSnoc(lim, b, Straight(b, calls), c', s, t + d);
    LastIs(lim, b, calls, c.now);
    ScriptMoves(lim, After(lim, b, calls), LastOf(b, calls, c.now), c.now, Drift(b, calls));
  }

  lemma {:induction false} StraightAnswers(lim: RateLimit, b: Option<Bucket>, calls: seq<Call>, s: int, t: int, d: int)
    requires lim.Valid() && Sane(lim, b) && NoExpiry(calls) && d >= Drift(b, calls)
    ensures AnsweredAlike(lim, b, calls, s, t, d)
  {
    hide Sane, AnsweredAlike, Drift, Straight, ClockForward, LastOf;
    if calls == [] {
      NothingAnswered(lim, b, s, t, d);
    } else {
      var init, c := calls[..|calls| - 1], calls[|calls| - 1];
      assert calls == init + [c];
      StraightSnoc(b, init, c);
      StraightForward(b, init);
      StraightAnswers(lim, b, init, s, t, d);
      AnsweredStep(lim, b, init, c, s, t, d);
    }
  }

  /** With any timestamps, the calls admitted in an interval number at most the capacity plus
      the tokens earned in it and in the time by which the timestamps run back. */
  lemma BoundWithDrift(lim: RateLimit, b: Option<Bucket>, calls: seq<Call>, s: int, t: int)
    requires lim.Valid() && Sane(lim, b) && NoExpiry(calls) && s <= t
    ensures AdmittedIn(lim, b, calls, s, t) as real <= lim.capacity as real + Earned(lim, s, t + Drift(b, calls))
  {
    hide Earned, Sane, Drift, Straight, After;
    StraightForward(b, calls);
    StraightAnswers(lim, b, calls, s, t, Drift(b, calls));
    AdmissionBound(lim, b, Straight(b, calls), s, t + Drift(b, calls));
  }

  // ---------- the retry delay ----------

  lemma CeilIs(x: real, n: int)
    ensures n >= Ceil(x) <==> n as real >= x
  {
  }

  /** From `k < 1` tokens at `now`, a whole token is there at `u` exactly when the delay the
      script computes has passed. */
  lemma TokenArrives(lim: RateLimit, k: real, now: int, u: int)
    requires lim.Valid() && k < 1.0
    ensures k + Earned(lim, now, u) >= 1.0 <==> u - now >= Delay(lim, k)
    ensures Delay(lim, k) >= 1
  {
    var q := (1.0 - k) / lim.refill;
    var n := (u - now) as real;
    assert q * lim.refill == 1.0 - k;
    assert q > 0.0 by { assert q <= 0.0 ==> q * lim.refill <= 0.0; }
    CeilIs(q * 1000.0, u - now);
    CeilIs(q * 1000.0, 0);
    assert Earned(lim, now, u) == n / 1000.0 * lim.refill;
    var diff := n / 1000.0 - q;
    assert diff * lim.refill == n / 1000.0 * lim.refill - q * lim.refill;
    assert diff >= 0.0 <==> diff * lim.refill >= 0.0 by {
      if diff >= 0.0 {
        assert diff * lim.refill >= 0.0;
      } else {
        assert (-diff) * lim.refill > 0.0;
      }
    }
  }

  /** After a refusal, calls before the delay is over are refused, and leave exactly the
      tokens that time alone would have left. */
  lemma {:induction false} RefusedMeanwhile(lim: RateLimit, x: Bucket, calls: seq<Call>)
    requires lim.Valid() && 0.0 <= x.tokens < 1.0
    requires ClockForward(Some(x), calls) && NoExpiry(calls)
    requires forall i | 0 <= i < |calls| :: calls[i].now < x.last + Delay(lim, x.tokens)
    ensures calls != [] ==> !ReplyTo(lim, Some(x), calls).allowed
    ensures var u := if calls == [] then x.last else calls[|calls| - 1].now;
            After(lim, Some(x), calls) == Some(Bucket(x.tokens + Earned(lim, x.last, u), u))
  {
    hide Refilled, Earned, Delay;
    EarnedAdds(lim, x.last, x.last, x.last);
    if calls != [] {
      var init, c := calls[..|calls| - 1], calls[|calls| - 1];
      RefusedMeanwhile(lim, x, init);
      var u0 := if init == [] then x.last else init[|init| - 1].now;
      assert u0 <= c.now by { assert init != [] ==> u0 == calls[|init| - 1].now; }
      EarnedAdds(lim, x.last, u0, c.now);
      RefillIsBounded(lim, Bucket(x.tokens + Earned(lim, x.last, u0), u0), c.now);
      TokenArrives(lim, x.tokens, x.last, c.now);
    }
  }

  lemma NextTry(lim: RateLimit, x: Bucket, between: seq<Call>, u: int)
    requires lim.Valid() && 0.0 <= x.tokens < 1.0 && x.last <= u
    requires ClockForward(Some(x), between) && NoExpiry(between)
    requires forall i | 0 <= i < |between| :: between[i].now < x.last + Delay(lim, x.tokens) && between[i].now <= u
    ensures Script(lim, After(lim, Some(x), between), u).allowed <==> u >= x.last + Delay(lim, x.tokens)
  {
    hide Refilled, Earned, Delay;
    TokenArrives(lim, x.tokens, x.last, u);
    RefusedMeanwhile(lim, x, between);
    var u0 := if between == [] then x.last else between[|between| - 1].now;
    var y := Bucket(x.tokens + Earned(lim, x.last, u0), u0);
    assert After(lim, Some(x), between) == Some(y);
    hide After;
    EarnedAdds(lim, x.last, u0, u);
    RefillIsBounded(lim, y, u);
  }

  /** While the key is not dropped the delay of a refusal is exact: whatever refused calls come
      in between, every call earlier than `now + retryMs` is refused, and a call at
      `now + retryMs` is admitted. The delay is never zero, so the waiter's fallback sleep is
      never used. */
  lemma RetryWithoutExpiry(lim: RateLimit, b: Option<Bucket>, now: int, between: seq<Call>, u: int)
    requires lim.Valid() && Sane(lim, b) && !Script(lim, b, now).allowed
    requires var r := Script(lim, b, now);
             && ClockForward(Some(r.bucket), between) && NoExpiry(between)
             && forall i | 0 <= i < |between| :: between[i].now < now + r.retryMs && between[i].now <= u
    requires now <= u
    ensures var r := Script(lim, b, now);
            && r.retryMs >= 1
            && (forall k | 1 <= k <= |between| :: !ReplyTo(lim, Some(r.bucket), between[..k]).allowed)
            && (Script(lim, After(lim, Some(r.bucket), between), u).allowed <==> u >= now + r.retryMs)
  {
    ScriptKeepsSane(lim, b, now);
    hide Refilled, Earned, Delay, After, ReplyTo;
    var x := Script(lim, b, now).bucket;
    TokenArrives(lim, x.tokens, now, u);
    forall k | 1 <= k <= |between| ensures !ReplyTo(lim, Some(x), between[..k]).allowed {
      RefusedMeanwhile(lim, x, between[..k]);
    }
    NextTry(lim, x, between, u);
  }

  /** No key is dropped within a delay that is no longer than the time to live. */
  lemma NoExpiryYet(lim: RateLimit, x: Bucket, calls: seq<Call>, until: int)
    requires lim.Valid() && Sane(lim, Some(x)) && ClockForward(Some(x), calls) && Legal(lim, Some(x), calls)
    requires until <= x.last + TTL_MS && forall i | 0 <= i < |calls| :: calls[i].now < until
    ensures NoExpiry(calls)
  {
    hide Refilled, Script;
    forall i | 0 <= i < |calls| ensures !calls[i].expired {
      AfterIsSane(lim, Some(x), calls[..i]);
      assert i > 0 ==> calls[..i][i - 1] == calls[i - 1];
    }
  }

  /** In every legal run, expiry included, a delay of at most the time to live is exact:
      whatever calls come before it is over are refused, and the next call is admitted exactly
      when it is over. */
  lemma RetryIsExact(lim: RateLimit, b: Option<Bucket>, now: int, between: seq<Call>, next: Call)
    requires lim.Valid() && Sane(lim, b) && !Script(lim, b, now).allowed && Script(lim, b, now).retryMs <= TTL_MS
    requires var r := Script(lim, b, now);
             && ClockForward(Some(r.bucket), between + [next]) && Legal(lim, Some(r.bucket), between + [next])
             && forall i | 0 <= i < |between| :: between[i].now < now + r.retryMs
    ensures var r := Script(lim, b, now);
            && r.retryMs >= 1
            && (forall k | 1 <= k <= |between| :: !ReplyTo(lim, Some(r.bucket), between[..k]).allowed)
            && (ReplyTo(lim, Some(r.bucket), between + [next]).allowed <==> next.now >= now + r.retryMs)
  {
    ScriptKeepsSane(lim, b, now);
    hide Refilled, Earned, Delay, After, ReplyTo, Legal;
    var r := Script(lim, b, now);
    var x := r.bucket;
    assert x.last == now;
    hide Script;
    SplitLast(lim, x, between, next);
    NoExpiryYet(lim, x, between, now + r.retryMs);
    RetryWithoutExpiry(lim, b, now, between, next.now);
    if next.expired {
      AfterIsSane(lim, Some(x), between);
      FullBucketAdmits(lim, next.now);
    }
  }

  /** The last call of a legal run, against the run before it. */
  lemma SplitLast(lim: RateLimit, x: Bucket, between: seq<Call>, next: Call)
    requires lim.Valid() && ClockForward(Some(x), between + [next]) && Legal(lim, Some(x), between + [next])
    ensures ClockForward(Some(x), between) && Legal(lim, Some(x), between) && x.last <= next.now
    ensures forall i | 0 <= i < |between| :: between[i].now <= next.now
    ensures var before := After(lim, Some(x), between);
            && ReplyTo(lim, Some(x), between + [next]) == Script(lim, if next.expired then None else before, next.now)
            && (next.expired ==> before.Some? && next.now - before.value.last >= TTL_MS)
  {
    hide Script;
    var all := between + [next];
    assert forall i | 0 <= i <= |between| :: between[..i] == all[..i];
    assert forall i | 0 <= i < |between| :: between[i] == all[i];
    assert all[|between|] == next && all[..|between|] == between;
  }

  lemma FullBucketAdmits(lim: RateLimit, now: int)
    requires lim.Valid()
    ensures Script(lim, None, now).allowed
  {
  }

  /** A longer delay is cut short: the key is dropped first, and the full bucket admits. */
  lemma LongerRetryIsCutShort(lim: RateLimit, b: Option<Bucket>, now: int)
    requires lim.Valid() && Sane(lim, b) && !Script(lim, b, now).allowed && Script(lim, b, now).retryMs > TTL_MS
    ensures var r, next := Script(lim, b, now), Call(now + TTL_MS, true);
            && Legal(lim, Some(r.bucket), [next]) && ClockForward(Some(r.bucket), [next])
            && next.now < now + r.retryMs && ReplyTo(lim, Some(r.bucket), [next]).allowed
  {
    var r, next := Script(lim, b, now), Call(now + TTL_MS, true);
    assert [next][..0] == [];
    FullBucketAdmits(lim, next.now);
  }

  /** Timestamps that run back cut every delay short: a refused call stamped the delay earlier
      lets the next call at the very instant of the refusal through. */
  lemma BackwardCallCutsDelayShort(lim: RateLimit, b: Option<Bucket>, now: int)
    requires lim.Valid() && Sane(lim, b) && !Script(lim, b, now).allowed
    ensures var r := Script(lim, b, now);
            var back := [Call(now - r.retryMs, false)];
            && r.retryMs >= 1 && !ReplyTo(lim, Some(r.bucket), back).allowed
            && Script(lim, After(lim, Some(r.bucket), back), now).allowed
  {
    ScriptKeepsSane(lim, b, now);
    var r := Script(lim, b, now);
    var x := r.bucket;
    var back := [Call(now - r.retryMs, false)];
    TokenArrives(lim, x.tokens, now - r.retryMs, now);
    assert back[..0] == [];
    assert Refilled(lim, Some(x), now - r.retryMs) == x.tokens;
    assert After(lim, Some(x), back[..0]) == Some(x);
    assert ReplyTo(lim, Some(x), back) == Script(lim, Some(x), now - r.retryMs);
    assert After(lim, Some(x), back) == Some(Bucket(x.tokens, now - r.retryMs));
    RefillIsBounded(lim, Bucket(x.tokens, now - r.retryMs), now);
  }

  /** `inspectLua` and the status built from it. */
  datatype Status = Status(currentTokens: real, maxTokens: int, effectiveRate: real, isThrottled: bool)

  function Inspect(lim: RateLimit, b: Option<Bucket>, now: int): Status {
    var stored := if b.Some? then b.value.tokens else lim.capacity as real;
    var last := if b.Some? then b.value.last else now;
    var elapsed := if (now - last) as real / 1000.0 < 0.0 then 0.0 else (now - last) as real / 1000.0;
    var grown := stored + elapsed * lim.refill;
    var tokens := if grown > lim.capacity as real then lim.capacity as real else grown;
    Status(tokens, lim.capacity, lim.refill, tokens < 1.0)
  }

  /** The status says throttled exactly when a call at that instant would be refused, and a
      refused call finds the reported number of tokens. */
  lemma InspectAgrees(lim: RateLimit, b: Option<Bucket>, now: int)
    requires lim.Valid() && Sane(lim, b)
    ensures Inspect(lim, b, now).isThrottled <==> !Script(lim, b, now).allowed
    ensures Inspect(lim, b, now).currentTokens - Script(lim, b, now).bucket.tokens
            == (if Inspect(lim, b, now).isThrottled then 0.0 else 1.0)
    ensures 0.0 <= Inspect(lim, b, now).currentTokens <= Inspect(lim, b, now).maxTokens as real
  {
  }

  // ---------- the limiter ----------

  /** Whether a script call reaches Redis and runs, and whether its reply comes back. */
  datatype Try = Try(runs: bool, replies: bool)

  /** How Redis answers a call: by the cached script, and by the inline one if need be. */
  datatype Redis = Redis(cached: Try, inline: Try) {
    predicate Prompt() { cached == Try(true, true) }

    predicate Answers() { (cached.runs && cached.replies) || (inline.runs && inline.replies) }

    function Runs(): nat {
      if Prompt() then 1 else (if cached.runs then 1 else 0) + if inline.runs then 1 else 0
    }
  }

  datatype Ask = Ask(tenantId: string, sourceId: string, now: int, redis: Redis)

  /** The bucket after `n` runs of the script at one instant. */
  function AfterRuns(lim: RateLimit, b: Option<Bucket>, now: int, n: nat): (r: Option<Bucket>)
    requires lim.Valid()
    ensures n > 0 ==> r.Some?
  {
    if n == 0 then b else Some(Script(lim, AfterRuns(lim, b, now, n - 1), now).bucket)
  }

  /** One source, or two whose ids collide across the separator of the keys. */
  ghost predicate SameBucket(a: Pair, b: Pair) {
    a == b || PairsCollide(a, b, ':')
  }

  /** Separator-free ids never collide, and others can. */
  lemma PlainIdsNeverCollide(a: Pair, b: Pair)
    requires ':' !in a.0 && ':' !in b.0
    ensures SameBucket(a, b) <==> a == b
  {
  }

  lemma BucketCollisionWitness()
    ensures SameBucket(("a:b", "c"), ("a", "b:c"))
  {
    assert PairExtends(("a", "b:c"), ("a:b", "c"), ':', "b");
  }

  lemma KeySpelled(prefix: string, tenantId: string, sourceId: string)
    ensures Join([prefix, tenantId, sourceId], ':') == prefix + [':'] + JoinPair((tenantId, sourceId), ':')
  {
    var parts := [prefix, tenantId, sourceId];
    assert parts[1..] == [tenantId, sourceId] && parts[1..][1..] == [sourceId];
    assert Join([sourceId], ':') == sourceId;
    assert Join(parts[1..], ':') == JoinPair((tenantId, sourceId), ':');
  }

  class RateLimiter {
    const lim: RateLimit
    const prefix: string
    var store: map<string, Bucket>

    ghost predicate Valid()
      reads this
    {
      lim.Valid() && forall k | k in store :: Sane(lim, Some(store[k]))
    }

    constructor (prefix: string, limit: RateLimit)
      ensures Valid() && store == map[]
      ensures limit.Valid() ==> lim == limit
      ensures !limit.Valid() ==> lim == RateLimit(100, 10.0)
    {
      this.prefix := if prefix == "" then "hf:rl" else prefix;
      lim := if limit.capacity <= 0 || limit.refill <= 0.0 then RateLimit(100, 10.0) else limit;
      store := map[];
    }

    function Key(tenantId: string, sourceId: string): string {
      Join([prefix, tenantId, sourceId], ':')
    }

    /** Two sources share a bucket exactly when they are one, or their ids collide across the
        separator. */
    lemma KeysEqualExactlyWhen(tenantId: string, sourceId: string, tenantId': string, sourceId': string)
      ensures Key(tenantId, sourceId) == Key(tenantId', sourceId')
              <==> SameBucket((tenantId, sourceId), (tenantId', sourceId'))
    {
      var p, p' := JoinPair((tenantId, sourceId), ':'), JoinPair((tenantId', sourceId'), ':');
      KeySpelled(prefix, tenantId, sourceId);
      KeySpelled(prefix, tenantId', sourceId');
      PairsCollideExactlyWhen((tenantId, sourceId), (tenantId', sourceId'), ':');
      assert (prefix + [':'] + p)[|prefix| + 1..] == p && (prefix + [':'] + p')[|prefix| + 1..] == p';
    }

    function Lookup(key: string): Option<Bucket>
      reads this
    {
      if key in store then Some(store[key]) else None
    }

    /** One run of the script on a key. */
    method RunScript(key: string, now: int) returns (allowed: bool, retryMs: int)
      requires Valid()
      modifies this`store
      ensures Valid()
      ensures var reply := Script(lim, old(Lookup(key)), now);
              allowed == reply.allowed && retryMs == reply.retryMs && store == old(store)[key := reply.bucket]
    {
      var tokens := if key in store then store[key].tokens else lim.capacity as real;
      var last := if key in store then store[key].last else now;
      var elapsed := (now - last) as real / 1000.0;
      if elapsed < 0.0 {
        elapsed := 0.0;
      }
      tokens := Min(lim.capacity as real, tokens + elapsed * lim.refill);
      ScriptKeepsSane(lim, Lookup(key), now);
      assert tokens == Refilled(lim, Lookup(key), now);
      allowed, retryMs := true, 0;
      if tokens >= 1.0 {
        tokens := tokens - 1.0;
      } else {
        allowed, retryMs := false, Ceil((1.0 - tokens) / lim.refill * 1000.0);
      }
      store := store[key := Bucket(tokens, now)];
    }

    /** Runs the cached script on the key of the source and, when no reply comes back, the
        inline one. `None` is an error: an id is missing, or neither replied. Each run takes
        effect, reply or not, so a lost reply costs a second run. */
    method Allow(tenantId: string, sourceId: string, now: int, a: Redis) returns (r: Option<(bool, int)>)
      requires Valid()
      modifies this`store
      ensures Valid()
      ensures r.None? <==> tenantId == "" || sourceId == "" || !a.Answers()
      ensures tenantId == "" || sourceId == "" ==> store == old(store)
      ensures forall t, s | !SameBucket((tenantId, sourceId), (t, s)) :: Lookup(Key(t, s)) == old(Lookup(Key(t, s)))
      ensures tenantId != "" && sourceId != "" ==>
                var key := Key(tenantId, sourceId);
                && store == (if a.Runs() == 0 then old(store)
                             else old(store)[key := AfterRuns(lim, old(Lookup(key)), now, a.Runs()).value])
                && (r.Some? ==>
                      var reply := Script(lim, AfterRuns(lim, old(Lookup(key)), now, a.Runs() - 1), now);
                      r.value == (reply.allowed, reply.retryMs))
    {
      if tenantId == "" || sourceId == "" {
        return None;
      }
      hide Script, SameBucket;
      var key := Key(tenantId, sourceId);
      forall t, s | !SameBucket((tenantId, sourceId), (t, s)) ensures Key(t, s) != key {
        KeysEqualExactlyWhen(tenantId, sourceId, t, s);
      }
      hide Key;
      ghost var b0 := Lookup(key);
      assert AfterRuns(lim, b0, now, 1) == Some(Script(lim, AfterRuns(lim, b0, now, 0), now).bucket);
      assert AfterRuns(lim, b0, now, 2) == Some(Script(lim, AfterRuns(lim, b0, now, 1), now).bucket);
      if a.cached.runs {
        var allowed, retryMs := RunScript(key, now);
        assert Lookup(key) == AfterRuns(lim, b0, now, 1);
        if a.cached.replies {
          return Some((allowed, retryMs));
        }
      }
      if a.inline.runs {
        var allowed, retryMs := RunScript(key, now);
        if a.inline.replies {
          return Some((allowed, retryMs));
        }
      }
      return None;
    }

    /** A source that was never asked for is admitted at its first call, whatever other sources
        whose ids do not collide with its own have used up before. */
    method FirstCallAfter(others: seq<Ask>, tenantId: string, sourceId: string, now: int) returns (r: Option<(bool, int)>)
      requires Valid() && tenantId != "" && sourceId != "" && Lookup(Key(tenantId, sourceId)) == None
      requires forall i | 0 <= i < |others| :: !SameBucket((others[i].tenantId, others[i].sourceId), (tenantId, sourceId))
      modifies this`store
      ensures Valid() && r == Some((true, 0))
    {
      hide SameBucket, Key;
      for i := 0 to |others|
        invariant Valid() && Lookup(Key(tenantId, sourceId)) == None
      {
        var o := others[i];
        var answer := Allow(o.tenantId, o.sourceId, o.now, o.redis);
      }
      r := Allow(tenantId, sourceId, now, Redis(Try(true, true), Try(true, true)));
    }

    /** Reads the status of a source's bucket without touching it; `None` is an error. */
    method ReadStatus(tenantId: string, sourceId: string, now: int, redisOk: bool) returns (r: Option<Status>)
      requires Valid()
      ensures r.None? <==> tenantId == "" || sourceId == "" || !redisOk
      ensures r.Some? ==>
                && r.value == Inspect(lim, Lookup(Key(tenantId, sourceId)), now)
                && (r.value.isThrottled <==> !Script(lim, Lookup(Key(tenantId, sourceId)), now).allowed)
    {
      if tenantId == "" || sourceId == "" || !redisOk {
        return None;
      }
      var key := Key(tenantId, sourceId);
      var tokens, last := lim.capacity as real, now;
      if key in store {
        tokens, last := store[key].tokens, store[key].last;
      }
      var elapsed := (now - last) as real / 1000.0;
      if elapsed < 0.0 {
        elapsed := 0.0;
      }
      tokens := Min(lim.capacity as real, tokens + elapsed * lim.refill);
      InspectAgrees(lim, Lookup(key), now);
      return Some(Status(tokens, lim.capacity, lim.refill, tokens < 1.0));
    }

    /** Tries until admitted, cancelled or failed; `clock(i)` is the time of the i-th try,
        `redis(i)` how Redis answers it, and the context is cancelled during the sleep after
        try number `patience`. When Redis is prompt and the first sleep lasts as long as the
        script asked, the second try succeeds. */
    method WaitFor(tenantId: string, sourceId: string, clock: nat -> int, redis: nat -> Redis, patience: nat)
      returns (outcome: Wait, tries: nat)
      requires Valid()
      modifies this`store
      ensures Valid() && 1 <= tries <= patience + 1
      ensures outcome == Failed <==> tenantId == "" || sourceId == "" || !redis(tries - 1).Answers()
      ensures tenantId != "" && sourceId != "" ==> forall i: nat | i < tries - 1 :: redis(i).Answers()
      ensures outcome == Cancelled ==> tries == patience + 1
      ensures var first := Script(lim, old(Lookup(Key(tenantId, sourceId))), clock(0));
              tenantId != "" && sourceId != "" && redis(0).Prompt() ==>
                && (first.allowed ==> outcome == Admitted && tries == 1)
                && (redis(1).Prompt() && !first.allowed && patience >= 1 && clock(1) >= clock(0) + first.retryMs ==>
                      outcome == Admitted && tries == 2)
    {
      ghost var b0 := Lookup(Key(tenantId, sourceId));
      tries := 0;
      while true
        invariant Valid() && tries <= patience
        invariant tries == 0 ==> Lookup(Key(tenantId, sourceId)) == b0
        invariant tries > 0 ==> tenantId != "" && sourceId != ""
        invariant tries > 0 && redis(0).Prompt() ==> !Script(lim, b0, clock(0)).allowed
        invariant tries == 1 && redis(0).Prompt() ==>
                    Lookup(Key(tenantId, sourceId)) == Some(Script(lim, b0, clock(0)).bucket)
        invariant tries > 1 && redis(0).Prompt() && redis(1).Prompt() ==>
                    clock(1) < clock(0) + Script(lim, b0, clock(0)).retryMs
        invariant forall i: nat | i < tries :: redis(i).Answers()
        decreases patience - tries
      {
        if tries == 1 && redis(0).Prompt() && clock(1) >= clock(0) + Script(lim, b0, clock(0)).retryMs {
          SecondTry(lim, b0, clock(0), clock(1));
        }
        hide Script;
        var r := Allow(tenantId, sourceId, clock(tries), redis(tries));
        tries := tries + 1;
        if r.None? {
          return Failed, tries;
        }
        if r.value.0 {
          return Admitted, tries;
        }
        if tries > patience {
          return Cancelled, tries;
        }
      }
    }
  }

  datatype Wait = Admitted | Cancelled | Failed

  lemma SecondTry(lim: RateLimit, b: Option<Bucket>, now: int, u: int)
    requires lim.Valid() && Sane(lim, b) && !Script(lim, b, now).allowed && u >= now + Script(lim, b, now).retryMs
    ensures Script(lim, Some(Script(lim, b, now).bucket), u).allowed
  {
    ScriptKeepsSane(lim, b, now);
    var x := Script(lim, b, now).bucket;
    TokenArrives(lim, x.tokens, now, u);
    RefillIsBounded(lim, x, u);
  }
}
