/** Webhook delivery and its retries (internal/admin/notification.go and
    internal/admin/notification_retry_worker.go). */
module Notification {
  import opened Text

  /** What one HTTP post comes back with. */
  datatype Reply = TransportError | Code(code: int)

  /** A reply that ends the loop well, one that ends it badly, and one worth another try. */
  predicate Good(r: Reply) { r.Code? && r.code < 400 }

  predicate Hard(r: Reply) { r.Code? && 400 <= r.code < 500 && r.code != 429 }

  predicate Soft(r: Reply) { r.TransportError? || r.code == 429 || r.code >= 500 }

  function CodeOf(r: Reply): int { if r.Code? then r.code else 0 }

  predicate IsRetryable(code: int) {
    code == 0 || code >= 500 || code == 429
  }

  datatype DeliveryResult = DeliveryResult(statusCode: int, attempts: int)

  /** The world one delivery meets: whether the channel is a webhook, whether the request can
      be built, the reply to the i-th post, and whether the context is done after it. */
  datatype World = World(webhook: bool, requestOk: bool, reply: nat -> Reply, cancelled: nat -> bool)

  /** A server's codes are positive. */
  predicate Proper(w: World, max: nat) {
    forall i: nat | i <= max :: w.reply(i).Code? ==> w.reply(i).code >= 100
  }

  // ---------- one delivery ----------

  /** What `Send` must return with `backoffs` pauses to spend. All replies before the last
      were worth another try; the last one decides, unless tries or the context ran out. */
  ghost predicate SendMeaning(w: World, backoffs: nat, res: DeliveryResult, ok: bool) {
    if !w.webhook then res == DeliveryResult(0, 0) && !ok
    else if !w.requestOk then res == DeliveryResult(0, 1) && !ok
    else
      && 1 <= res.attempts <= backoffs + 1
      && (forall i: nat | 1 <= i < res.attempts :: Soft(w.reply(i)) && !w.cancelled(i))
      && var last := w.reply(res.attempts);
         && res.statusCode == CodeOf(last)
         && (ok <==> Good(last))
         && (Soft(last) ==> res.attempts == backoffs + 1 || w.cancelled(res.attempts))
  }

  method Send(w: World, backoffs: nat) returns (res: DeliveryResult, ok: bool)
    ensures SendMeaning(w, backoffs, res, ok)
  {
    res := DeliveryResult(0, 0);
    if !w.webhook {
      return res, false;
    }
    var maxAttempts := backoffs + 1;
    var attempt: nat := 1;
    while attempt <= maxAttempts
      invariant 1 <= attempt <= maxAttempts
      invariant attempt > 1 ==> w.requestOk
      invariant forall i: nat | 1 <= i < attempt :: Soft(w.reply(i)) && !w.cancelled(i)
    {
      res := DeliveryResult(0, attempt);
      if !w.requestOk {
        return res, false;
      }
      var resp := w.reply(attempt);
      if resp.Code? {
        res := DeliveryResult(resp.code, attempt);
        if resp.code < 400 {
          return res, true;
        }
        if resp.code >= 400 && resp.code < 500 && resp.code != 429 {
          return res, false;
        }
      }
      if attempt >= maxAttempts {
        break;
      }
      if w.cancelled(attempt) {
        return res, false;
      }
      attempt := attempt + 1;
    }
    return res, false;
  }

  /** The contract leaves no freedom: it determines the result. */
  lemma SendIsDetermined(w: World, backoffs: nat, a: DeliveryResult, aOk: bool, b: DeliveryResult, bOk: bool)
    requires SendMeaning(w, backoffs, a, aOk) && SendMeaning(w, backoffs, b, bOk)
    ensures a == b && aOk == bOk
  {
  }

  /** A failed delivery carries a retryable code exactly when its last reply was worth
      another try or there was no reply: a hard 4xx ends both the loop and the schedule. */
  lemma FailureCode(w: World, backoffs: nat, res: DeliveryResult, ok: bool)
    requires SendMeaning(w, backoffs, res, ok) && Proper(w, backoffs + 1) && !ok
    ensures IsRetryable(res.statusCode) <==> !w.webhook || !w.requestOk || Soft(w.reply(res.attempts))
    ensures !IsRetryable(res.statusCode) <==> w.webhook && w.requestOk && Hard(w.reply(res.attempts))
  {
  }

  /** Every reply is of one sort: a transport error, 429 and 5xx are worth another try, other
      4xx are not, and the rest is success. */
  lemma SortsOfReplies(r: Reply)
    ensures Good(r) || Hard(r) || Soft(r)
    ensures !(Good(r) && Hard(r)) && !(Good(r) && Soft(r)) && !(Hard(r) && Soft(r))
    ensures Soft(r) <==> r.TransportError? || r.code == 429 || r.code / 100 >= 5
    ensures Good(r) <==> r.Code? && r.code < 400
  {
  }

  /** Exactly when a delivery posts again after its i-th post: a pause is left, and every reply
      so far was a transport error, 429 or 5xx with the context still live. */
  lemma PostsAgainExactlyWhen(w: World, backoffs: nat, res: DeliveryResult, ok: bool, i: nat)
    requires SendMeaning(w, backoffs, res, ok) && w.webhook && w.requestOk && i >= 1
    ensures res.attempts > i <==> i <= backoffs && forall j: nat | 1 <= j <= i :: Soft(w.reply(j)) && !w.cancelled(j)
  {
    if i <= backoffs && forall j: nat | 1 <= j <= i :: Soft(w.reply(j)) && !w.cancelled(j) {
      assert res.attempts >= 1;
    }
  }

  /** A target that answers 404 gets a single post, whatever pauses are left. */
  lemma NotFoundIsNotRetriedWitness(res: DeliveryResult, ok: bool)
    requires SendMeaning(World(true, true, i => Code(404), i => false), 3, res, ok)
    ensures res == DeliveryResult(404, 1) && !ok
  {
    var w := World(true, true, i => Code(404), i => false);
    PostsAgainExactlyWhen(w, 3, res, ok, 1);
    assert !Soft(w.reply(1));
  }

  // ---------- one row of the delivery log ----------

  datatype Status = Delivered | Failed | Pending

  datatype Row = Row(status: Status, attempt: int, responseCode: int, nextRetryAt: Option<int>)

  const MINUTE: int := 60_000_000_000

  /** The row `Dispatch` appends. */
  function FirstRow(res: DeliveryResult, ok: bool, now: int): Row {
    Row(if ok then Delivered else Failed, 1, res.statusCode,
        if !ok && IsRetryable(res.statusCode) then Some(now + MINUTE) else None)
  }

  /** `retryOne` after its delivery. */
  function Retried(row: Row, res: DeliveryResult, ok: bool, now: int, maxAttempts: int): Row {
    var attempt := row.attempt + 1;
    if ok then Row(Delivered, attempt, res.statusCode, None)
    else if !IsRetryable(res.statusCode) || attempt >= maxAttempts then Row(Failed, attempt, res.statusCode, None)
    else Row(Pending, attempt, res.statusCode, Some(now + attempt * MINUTE))
  }

  /** A visit of the worker to the row: when the pending rows were listed, whether the body
      could be built, the delivery, the clock after it, and whether the update was stored. */
  datatype Visit = Visit(listedAt: int, marshalOk: bool, res: DeliveryResult, ok: bool, now: int, stored: bool)

  predicate Listed(row: Row, at: int) {
    row.nextRetryAt.Some? && row.nextRetryAt.value <= at
  }

  predicate Works(row: Row, v: Visit) {
    Listed(row, v.listedAt) && v.marshalOk
  }

  function Visited(row: Row, v: Visit, maxAttempts: int): Row {
    if Works(row, v) && v.stored then Retried(row, v.res, v.ok, v.now, maxAttempts) else row
  }

  function RowAfter(row: Row, visits: seq<Visit>, maxAttempts: int): Row {
    if visits == [] then row
    else Visited(RowAfter(row, visits[..|visits| - 1], maxAttempts), visits[|visits| - 1], maxAttempts)
  }

  /** Deliveries made, posts sent, and updates lost over the visits. */
  function Cycles(row: Row, visits: seq<Visit>, maxAttempts: int): nat {
    if visits == [] then 0
    else
      Cycles(row, visits[..|visits| - 1], maxAttempts)
      + if Works(RowAfter(row, visits[..|visits| - 1], maxAttempts), visits[|visits| - 1]) then 1 else 0
  }

  function Posts(row: Row, visits: seq<Visit>, maxAttempts: int): int {
    if visits == [] then 0
    else
      Posts(row, visits[..|visits| - 1], maxAttempts)
      + if Works(RowAfter(row, visits[..|visits| - 1], maxAttempts), visits[|visits| - 1])
        then visits[|visits| - 1].res.attempts else 0
  }

  function Lost(visits: seq<Visit>): nat {
    if visits == [] then 0 else Lost(visits[..|visits| - 1]) + if visits[|visits| - 1].stored then 0 else 1
  }

  function Max(a: int, b: int): int { if a >= b then a else b }

  /** Deliveries the row may still get. */
  function Budget(row: Row, maxAttempts: int): int {
    if row.nextRetryAt.None? then 0 else Max(1, maxAttempts - row.attempt)
  }

  lemma {:induction false} BudgetPays(row: Row, visits: seq<Visit>, maxAttempts: int)
    ensures Cycles(row, visits, maxAttempts) + Budget(RowAfter(row, visits, maxAttempts), maxAttempts)
            <= Budget(row, maxAttempts) + Lost(visits)
  {
    if visits != [] {
      BudgetPays(row, visits[..|visits| - 1], maxAttempts);
    }
  }

  /** Over any run of worker visits, a dispatched row gets at most max(1, maxAttempts - 1)
      worker deliveries plus one for each update that was not stored; and when that many
      have been made with every update stored, no retry is scheduled. */
  lemma DeliveriesAreBounded(res: DeliveryResult, ok: bool, now: int, visits: seq<Visit>, maxAttempts: int)
    requires maxAttempts >= 1
    ensures var row := FirstRow(res, ok, now);
            && Cycles(row, visits, maxAttempts) <= Max(1, maxAttempts - 1) + Lost(visits)
            && (Cycles(row, visits, maxAttempts) == Max(1, maxAttempts - 1) && Lost(visits) == 0
                ==> RowAfter(row, visits, maxAttempts).nextRetryAt.None?)
  {
    var row := FirstRow(res, ok, now);
    BudgetPays(row, visits, maxAttempts);
  }

  /** When the i-th visit finds its row due: a minute after the dispatch, and i + 1 minutes after
      the visit before. */
  function DueFrom(now: int, visits: seq<Visit>, i: int): int
    requires 0 <= i < |visits|
  {
    if i == 0 then now + MINUTE else visits[i - 1].now + (i + 1) * MINUTE
  }

  /** The visit comes when the row is due, makes its delivery, fails softly and is stored. */
  predicate FailsOnTime(now: int, visits: seq<Visit>, i: int)
    requires 0 <= i < |visits|
  {
    var v := visits[i];
    v.listedAt >= DueFrom(now, visits, i) && v.marshalOk && !v.ok && v.stored && IsRetryable(v.res.statusCode)
  }

  /** The retries do happen: a row whose deliveries keep failing softly gets one at every visit
      that comes when it is due, exactly max(1, maxAttempts - 1) of them, is scheduled after each
      but the last by as many minutes as it has attempts, and then ends failed. */
  lemma {:induction false} RetriesHappen(res: DeliveryResult, now: int, visits: seq<Visit>, maxAttempts: int)
    requires maxAttempts >= 1 && IsRetryable(res.statusCode) && |visits| <= Max(1, maxAttempts - 1)
    requires forall i | 0 <= i < |visits| :: FailsOnTime(now, visits, i)
    ensures var row, n := RowAfter(FirstRow(res, false, now), visits, maxAttempts), |visits|;
            && Cycles(FirstRow(res, false, now), visits, maxAttempts) == n
            && row.attempt == n + 1
            && row.responseCode == (if n == 0 then res.statusCode else visits[n - 1].res.statusCode)
            && row.status == (if 0 < n < Max(1, maxAttempts - 1) then Pending else Failed)
            && row.nextRetryAt == (if n == Max(1, maxAttempts - 1) then None
                                   else if n == 0 then Some(now + MINUTE)
                                   else Some(visits[n - 1].now + (n + 1) * MINUTE))
  {
    if visits != [] {
      var n := |visits| - 1;
      var init := visits[..n];
      forall i | 0 <= i < n ensures FailsOnTime(now, init, i) {
        assert FailsOnTime(now, visits, i);
      }
      RetriesHappen(res, now, init, maxAttempts);
      assert FailsOnTime(now, visits, n);
    }
  }

  /** How the row of a dispatch comes out, by the world it met: delivered, failed for good, or
      failed and scheduled for a minute later, the last exactly after a transport error, 429,
      5xx or no reply at all. */
  predicate FailsSoftly(w: World, res: DeliveryResult, ok: bool) {
    !ok && (!w.webhook || !w.requestOk || (res.attempts >= 0 && Soft(w.reply(res.attempts))))
  }

  lemma FirstRowIs(w: World, backoffs: nat, res: DeliveryResult, ok: bool, now: int)
    requires SendMeaning(w, backoffs, res, ok) && Proper(w, backoffs + 1)
    ensures var row := FirstRow(res, ok, now);
            && row.attempt == 1 && row.responseCode == res.statusCode
            && row.status == (if ok then Delivered else Failed)
            && row.nextRetryAt == if FailsSoftly(w, res, ok) then Some(now + MINUTE) else None
  {
    if !ok {
      FailureCode(w, backoffs, res, ok);
    }
  }

  function Triangle(n: int): int {
    if n <= 0 then 0 else Triangle(n - 1) + n
  }

  /** Retries back off linearly, so the n-th is scheduled no earlier than 1 + 2 + ... + n
      minutes after the dispatch, whatever updates are lost. */
  lemma {:induction false} RetriesBackOff(res: DeliveryResult, ok: bool, now: int, visits: seq<Visit>, maxAttempts: int)
    requires forall i | 0 <= i < |visits| :: visits[i].listedAt <= visits[i].now
    ensures var row := RowAfter(FirstRow(res, ok, now), visits, maxAttempts);
            && row.attempt >= 1
            && (row.nextRetryAt.Some? ==> row.nextRetryAt.value >= now + Triangle(row.attempt) * MINUTE)
  {
    if visits == [] {
      assert Triangle(1) == Triangle(0) + 1;
    } else {
      RetriesBackOff(res, ok, now, visits[..|visits| - 1], maxAttempts);
      var before := RowAfter(FirstRow(res, ok, now), visits[..|visits| - 1], maxAttempts);
      assert Triangle(before.attempt + 1) == Triangle(before.attempt) + before.attempt + 1;
    }
  }

  /** The visit's result is what `Send` returns in some world. */
  ghost predicate FromSend(v: Visit, backoffs: nat) {
    exists w :: SendMeaning(w, backoffs, v.res, v.ok)
  }

  /** Every delivery posts at most once more than there are pauses, so posts are bounded too. */
  lemma {:induction false} PostsAreBounded(row: Row, visits: seq<Visit>, maxAttempts: int, backoffs: nat)
    requires forall i | 0 <= i < |visits| :: FromSend(visits[i], backoffs)
    ensures Posts(row, visits, maxAttempts) <= Cycles(row, visits, maxAttempts) * (backoffs + 1)
  {
    hide SendMeaning;
    if visits != [] {
      var init, v := visits[..|visits| - 1], visits[|visits| - 1];
      PostsAreBounded(row, init, maxAttempts, backoffs);
      assert FromSend(v, backoffs);
      var w :| SendMeaning(w, backoffs, v.res, v.ok);
      AttemptsBounded(w, backoffs, v.res, v.ok);
      var c := Cycles(row, init, maxAttempts);
      assert (c + 1) * (backoffs + 1) == c * (backoffs + 1) + backoffs + 1;
    }
  }

  lemma AttemptsBounded(w: World, backoffs: nat, res: DeliveryResult, ok: bool)
    requires SendMeaning(w, backoffs, res, ok)
    ensures 0 <= res.attempts <= backoffs + 1
  {
  }

  /** A row without a scheduled retry never changes again. */
  lemma {:induction false} UnscheduledIsFinal(row: Row, visits: seq<Visit>, maxAttempts: int)
    requires row.nextRetryAt.None?
    ensures RowAfter(row, visits, maxAttempts) == row && Cycles(row, visits, maxAttempts) == 0
  {
    if visits != [] {
      UnscheduledIsFinal(row, visits[..|visits| - 1], maxAttempts);
    }
  }

  /** Once delivered, or refused with a hard 4xx, a row is never scheduled again. */
  lemma DeliveredOrRefusedIsFinal(row: Row, v: Visit, later: seq<Visit>, maxAttempts: int, w: World, backoffs: nat)
    requires Works(row, v) && v.stored && Proper(w, backoffs + 1)
    requires SendMeaning(w, backoffs, v.res, v.ok)
    requires v.ok || (w.webhook && w.requestOk && Hard(w.reply(v.res.attempts)))
    ensures var after := Visited(row, v, maxAttempts);
            && after.status == (if v.ok then Delivered else Failed) && after.nextRetryAt.None?
            && RowAfter(after, later, maxAttempts) == after && Cycles(after, later, maxAttempts) == 0
  {
  }

  // ---------- the log and the worker ----------

  const LIST_LIMIT: nat := 100

  /** A subscriber of an event: the world its delivery meets, the clock after it, the id its
      log row would get, and whether the log takes the row. */
  datatype Subscriber = Subscriber(world: World, clock: int, id: nat, appendOk: bool)

  datatype DispatchError = NoError | LookupFailed | MarshalFailed | DeliveryFailed(i: nat)

  /** How one visit of the worker goes: the world of the delivery, whether the body can be
      built, the clock after the delivery, and whether the update is stored. */
  datatype Answers = Answers(world: World, marshalOk: bool, clock: int, stored: bool)

  /** The log after the first `n` deliveries: an old row is as it was, and a subscriber whose
      row was taken has the row its result leads to. */
  ghost predicate Logged(before: map<nat, Row>, rows: map<nat, Row>, subs: seq<Subscriber>,
                         results: seq<(DeliveryResult, bool)>, n: nat)
    requires n <= |subs| && n <= |results|
  {
    && (forall k | k in before :: k in rows && rows[k] == before[k])
    && (forall i | 0 <= i < n && subs[i].appendOk ::
          subs[i].id in rows && rows[subs[i].id] == FirstRow(results[i].0, results[i].1, subs[i].clock))
    && (forall k | k in rows && k !in before :: exists i | 0 <= i < n :: subs[i].appendOk && subs[i].id == k)
  }

  /** Every row taken shows its delivery's outcome, and is scheduled for a minute after it exactly
      when the delivery failed softly: by a transport error, 429, 5xx or without a reply. */
  ghost predicate Scheduled(rows: map<nat, Row>, subs: seq<Subscriber>, results: seq<(DeliveryResult, bool)>, backoffs: nat)
    requires |results| == |subs|
  {
    forall i | 0 <= i < |subs| && subs[i].appendOk && Proper(subs[i].world, backoffs + 1) ::
      && subs[i].id in rows
      && rows[subs[i].id].attempt == 1 && rows[subs[i].id].responseCode == results[i].0.statusCode
      && rows[subs[i].id].status == (if results[i].1 then Delivered else Failed)
      && rows[subs[i].id].nextRetryAt
         == if FailsSoftly(subs[i].world, results[i].0, results[i].1) then Some(subs[i].clock + MINUTE) else None
  }

  lemma LoggedIsScheduled(before: map<nat, Row>, rows: map<nat, Row>, subs: seq<Subscriber>,
                          results: seq<(DeliveryResult, bool)>, backoffs: nat)
    requires |results| == |subs| && Logged(before, rows, subs, results, |subs|)
    requires forall i | 0 <= i < |subs| :: SendMeaning(subs[i].world, backoffs, results[i].0, results[i].1)
    ensures Scheduled(rows, subs, results, backoffs)
  {
    hide SendMeaning, FirstRow, FailsSoftly, Proper;
    forall i | 0 <= i < |subs| && subs[i].appendOk && Proper(subs[i].world, backoffs + 1)
      ensures var row := FirstRow(results[i].0, results[i].1, subs[i].clock);
              && row.attempt == 1 && row.responseCode == results[i].0.statusCode
              && row.status == (if results[i].1 then Delivered else Failed)
              && row.nextRetryAt
                 == if FailsSoftly(subs[i].world, results[i].0, results[i].1) then Some(subs[i].clock + MINUTE) else None
    {
      FirstRowIs(subs[i].world, backoffs, results[i].0, results[i].1, subs[i].clock);
    }
  }

  class DeliveryLog {
    var rows: map<nat, Row>

    /** `Dispatch` with a log. `None` is a failed lookup of the subscribers. Every subscriber
        gets its own delivery whatever happens to the others; the error is the first one. */
    method Dispatch(found: Option<seq<Subscriber>>, bodyOk: bool, backoffs: nat)
      returns (err: DispatchError, ghost results: seq<(DeliveryResult, bool)>)
      requires found.Some? ==>
                 && (forall i | 0 <= i < |found.value| :: found.value[i].id !in rows)
                 && (forall i, j | 0 <= i < j < |found.value| :: found.value[i].id != found.value[j].id)
      modifies this
      ensures err == LookupFailed <==> found.None?
      ensures err == MarshalFailed <==> found.Some? && found.value != [] && !bodyOk
      ensures err == LookupFailed || err == MarshalFailed ==> rows == old(rows)
      ensures err != LookupFailed && err != MarshalFailed ==>
                && |results| == |found.value|
                && (forall i | 0 <= i < |results| :: SendMeaning(found.value[i].world, backoffs, results[i].0, results[i].1))
                && Logged(old(rows), rows, found.value, results, |results|)
                && Scheduled(rows, found.value, results, backoffs)
                && (err == NoError <==> forall i | 0 <= i < |results| :: results[i].1)
                && (err.DeliveryFailed? ==>
                      err.i < |results| && !results[err.i].1 && forall i | 0 <= i < err.i :: results[i].1)
    {
      hide SendMeaning, FirstRow, Scheduled;
      results := [];
      if found.None? {
        return LookupFailed, results;
      }
      var subs := found.value;
      if |subs| == 0 {
        LoggedIsScheduled(rows, rows, subs, results, backoffs);
        return NoError, results;
      }
      if !bodyOk {
        return MarshalFailed, results;
      }
      err := NoError;
      for n := 0 to |subs|
        invariant |results| == n
        invariant forall i | 0 <= i < n :: SendMeaning(subs[i].world, backoffs, results[i].0, results[i].1)
        invariant Logged(old(rows), rows, subs, results, n)
        invariant err == NoError || err.DeliveryFailed?
        invariant err == NoError <==> forall i | 0 <= i < n :: results[i].1
        invariant err.DeliveryFailed? ==> err.i < n && !results[err.i].1 && forall i | 0 <= i < err.i :: results[i].1
      {
        var sub := subs[n];
        var res, ok := Send(sub.world, backoffs);
        if !ok && err == NoError {
          err := DeliveryFailed(n);
        }
        if sub.appendOk {
          rows := rows[sub.id := FirstRow(res, ok, sub.clock)];
        }
        results := results + [(res, ok)];
      }
      LoggedIsScheduled(old(rows), rows, subs, results, backoffs);
    }

    /** What the query for pending retries returns: due rows, each once, the earliest first,
        up to the limit; a due row is left out only when the batch is full of earlier ones. */
    static ghost predicate IsPendingListing(rows: map<nat, Row>, now: int, due: seq<nat>) {
      && |due| <= LIST_LIMIT
      && (forall i, j | 0 <= i < j < |due| :: due[i] != due[j])
      && (forall i | 0 <= i < |due| :: due[i] in rows && Listed(rows[due[i]], now))
      && (forall i, j | 0 <= i < j < |due| :: rows[due[i]].nextRetryAt.value <= rows[due[j]].nextRetryAt.value)
      && (forall k, i | k in rows && k !in due && Listed(rows[k], now) && 0 <= i < |due| ::
            rows[due[i]].nextRetryAt.value <= rows[k].nextRetryAt.value)
      && ((exists k :: k in rows && k !in due && Listed(rows[k], now)) ==> |due| == LIST_LIMIT)
    }

    /** The visit that the answers and a delivery make. */
    static ghost predicate IsVisit(v: Visit, now: int, a: Answers, backoffs: nat) {
      && v.listedAt == now && v.marshalOk == a.marshalOk && v.now == a.clock && v.stored == a.stored
      && (v.marshalOk ==> SendMeaning(a.world, backoffs, v.res, v.ok))
    }

    /** One tick over the rows the query listed, `None` being a failed query: each row moves
        on its own, and the others stay. */
    method Tick(listing: Option<seq<nat>>, now: int, answers: nat -> Answers, backoffs: nat, maxAttempts: int)
      returns (processed: nat, ghost visits: map<nat, Visit>)
      requires listing.Some? ==> IsPendingListing(rows, now, listing.value)
      modifies this
      ensures processed == if listing.None? then 0 else |listing.value|
      ensures visits.Keys == if listing.None? then {} else set i | 0 <= i < |listing.value| :: listing.value[i]
      ensures forall k | k in visits :: IsVisit(visits[k], now, answers(k), backoffs)
      ensures rows.Keys == old(rows).Keys
      ensures forall k | k in rows ::
                rows[k] == if k in visits then Visited(old(rows)[k], visits[k], maxAttempts) else old(rows)[k]
    {
      hide SendMeaning, Retried, IsVisit;
      processed, visits := 0, map[];
      if listing.None? {
        return;
      }
      var due := listing.value;
      for n := 0 to |due|
        invariant processed == n
        invariant rows.Keys == old(rows).Keys && visits.Keys == set i | 0 <= i < n :: due[i]
        invariant forall k | k in visits :: IsVisit(visits[k], now, answers(k), backoffs)
        invariant forall k | k in rows ::
                    rows[k] == if k in visits then Visited(old(rows)[k], visits[k], maxAttempts) else old(rows)[k]
      {
        var k := due[n];
        var v := RetryOne(k, now, answers(k), backoffs, maxAttempts);
        visits := visits[k := v];
        processed := processed + 1;
      }
    }

    method RetryOne(k: nat, now: int, answers: Answers, backoffs: nat, maxAttempts: int) returns (ghost v: Visit)
      requires k in rows && Listed(rows[k], now)
      modifies this
      ensures IsVisit(v, now, answers, backoffs)
      ensures rows == old(rows)[k := Visited(old(rows)[k], v, maxAttempts)]
    {
      var a := rows[k];
      if !answers.marshalOk {
        return Visit(now, false, DeliveryResult(0, 0), false, answers.clock, answers.stored);
      }
      var res, ok := Send(answers.world, backoffs);
      v := Visit(now, true, res, ok, answers.clock, answers.stored);
      a := a.(attempt := a.attempt + 1, responseCode := res.statusCode);
      if ok {
        a := a.(status := Delivered, nextRetryAt := None);
      } else if !IsRetryable(res.statusCode) || a.attempt >= maxAttempts {
        a := a.(status := Failed, nextRetryAt := None);
      } else {
        a := a.(nextRetryAt := Some(answers.clock + a.attempt * MINUTE), status := Pending);
      }
      if answers.stored {
        rows := rows[k := a];
      }
    }
  }
}
