/** The transactional outbox (internal/audit/outbox.go, with `PendingPublish` and
    `MarkPublished` of internal/audit/repository.go). Row number i is the i-th audit row in
    id order; rows appear in id order, so the table is a count. Kafka is an append-only log. */
module Outbox {

  /** What the single poller is doing: nothing, or working through a batch of which `sent`
      rows have been handed to Kafka. */
  datatype Poller = Idle | Sending(batch: seq<nat>, sent: nat)

  datatype State = State(rows: nat, marked: set<nat>, log: seq<nat>, poller: Poller)

  const DEFAULT_LIMIT: nat := 50

  /** The first `limit` unpublished rows from row `from` on, in id order. */
  function PendingFrom(rows: nat, marked: set<nat>, limit: nat, from: nat): (batch: seq<nat>)
    ensures |batch| <= limit
    decreases rows - from
  {
    if from >= rows || limit == 0 then []
    else if from in marked then PendingFrom(rows, marked, limit, from + 1)
    else [from] + PendingFrom(rows, marked, limit - 1, from + 1)
  }

  function Pending(rows: nat, marked: set<nat>, limit: int): seq<nat> {
    PendingFrom(rows, marked, if limit <= 0 then DEFAULT_LIMIT else limit, 0)
  }

  function Elements(ids: seq<nat>): set<nat> {
    set x | x in ids
  }

  // ---------- the protocol ----------

  datatype Event =
    | Append
    | Poll(limit: int)
    | SendOk
    | SendError(delivered: bool, markOk: bool)
    | MarshalError
    | Finish(markOk: bool)
    | Crash

  predicate Enabled(s: State, e: Event) {
    match e
    case Append => true
    case Poll(_) => s.poller.Idle?
    case SendOk => s.poller.Sending? && s.poller.sent < |s.poller.batch|
    case SendError(_, _) => s.poller.Sending? && s.poller.sent < |s.poller.batch|
    case MarshalError => s.poller.Sending? && s.poller.sent < |s.poller.batch|
    case Finish(_) => s.poller.Sending? && s.poller.sent == |s.poller.batch|
    case Crash => true
  }

  function Apply(s: State, e: Event): State
    requires Enabled(s, e)
  {
    match e
    case Append => s.(rows := s.rows + 1)
    case Poll(limit) =>
      var batch := Pending(s.rows, s.marked, limit);
      if batch == [] then s else s.(poller := Sending(batch, 0))
    case SendOk =>
      s.(log := s.log + [s.poller.batch[s.poller.sent]], poller := Sending(s.poller.batch, s.poller.sent + 1))
    case SendError(delivered, markOk) =>
      s.(log := if delivered then s.log + [s.poller.batch[s.poller.sent]] else s.log,
         marked := if markOk then s.marked + Elements(s.poller.batch[..s.poller.sent]) else s.marked,
         poller := Idle)
    case MarshalError => s.(poller := Idle)
    case Finish(markOk) =>
      s.(marked := if markOk then s.marked + Elements(s.poller.batch) else s.marked, poller := Idle)
    case Crash => s.(poller := Idle)
  }

  // ---------- what every run keeps ----------

  function UpTo(n: nat): (ids: set<nat>)
    ensures forall i: nat :: i in ids <==> i < n
  {
    if n == 0 then {} else UpTo(n - 1) + {n - 1}
  }

  /** The rows marked are the first `m`, the rows ever sent the first `n`, and the poller
      works on the rows right after the marked ones. */
  ghost predicate Inv(s: State, m: nat, n: nat) {
    && m <= n <= s.rows
    && s.marked == UpTo(m)
    && Elements(s.log) == UpTo(n)
    && (s.poller.Sending? ==>
          && s.poller.sent <= |s.poller.batch| && m + |s.poller.batch| <= s.rows && m + s.poller.sent <= n
          && forall i | 0 <= i < |s.poller.batch| :: s.poller.batch[i] == m + i)
  }

  lemma {:induction false} PendingFromIs(rows: nat, m: nat, limit: nat, from: nat)
    requires m <= rows
    ensures var batch := PendingFrom(rows, UpTo(m), limit, from);
            var start := if from < m then m else from;
            && (start <= rows ==> |batch| == if limit < rows - start then limit else rows - start)
            && (start > rows ==> batch == [])
            && forall i | 0 <= i < |batch| :: batch[i] == start + i
    decreases rows - from
  {
    if from < rows && limit > 0 {
      PendingFromIs(rows, m, if from < m then limit else limit - 1, from + 1);
    }
  }

  lemma SendKeeps(log: seq<nat>, n: nat, x: nat)
    requires Elements(log) == UpTo(n) && x <= n
    ensures Elements(log + [x]) == UpTo(if x == n then n + 1 else n)
  {
  }

  lemma MarkKeeps(batch: seq<nat>, m: nat)
    requires forall i | 0 <= i < |batch| :: batch[i] == m + i
    ensures UpTo(m) + Elements(batch) == UpTo(m + |batch|)
  {
    forall x: nat | m <= x < m + |batch| ensures x in Elements(batch) {
      assert batch[x - m] == x;
    }
  }

  /** Every step keeps the prefixes, and they only grow. A step that sends a row sends one
      that is not marked: the next new row, or one sent before whose mark is missing. */
  lemma StepKeeps(s: State, e: Event, m: nat, n: nat) returns (m': nat, n': nat)
    requires Enabled(s, e) && Inv(s, m, n)
    ensures Inv(Apply(s, e), m', n') && m <= m' && n <= n' <= n + 1
    ensures Apply(s, e).log == s.log ||
            exists x :: Apply(s, e).log == s.log + [x] && x !in s.marked && x <= n
  {
    m', n' := m, n;
    match e {
      case Append =>
      case Poll(limit) =>
        PendingFromIs(s.rows, m, if limit <= 0 then DEFAULT_LIMIT else limit, 0);
      case SendOk =>
        var x := s.poller.batch[s.poller.sent];
        SendKeeps(s.log, n, x);
        n' := if x == n then n + 1 else n;
      case SendError(delivered, markOk) =>
        var x := s.poller.batch[s.poller.sent];
        if delivered {
          SendKeeps(s.log, n, x);
          n' := if x == n then n + 1 else n;
        }
        if markOk {
          MarkKeeps(s.poller.batch[..s.poller.sent], m);
          m' := m + s.poller.sent;
        }
      case MarshalError =>
      case Finish(markOk) =>
        if markOk {
          MarkKeeps(s.poller.batch, m);
          m' := m + |s.poller.batch|;
        }
      case Crash =>
    }
  }

  ghost predicate IsRun(states: seq<State>, events: seq<Event>) {
    && |states| == |events| + 1
    && forall i | 0 <= i < |events| :: Enabled(states[i], events[i]) && states[i + 1] == Apply(states[i], events[i])
  }

  predicate Initial(s: State) {
    s.marked == {} && s.log == [] && s.poller == Idle
  }

  ghost predicate IsPrefix(ids: set<nat>) {
    exists n :: ids == UpTo(n)
  }

  /** In every run, with any pattern of failures and crashes: the marked rows are an id
      prefix, contained in the sent rows, which are an id prefix; and every initial part of
      the Kafka log covers an id prefix, so first sends happen in id order without a gap. */
  lemma {:induction false} RunsAreOrdered(states: seq<State>, events: seq<Event>) returns (m: nat, n: nat)
    requires IsRun(states, events) && Initial(states[0])
    ensures Inv(states[|events|], m, n)
    ensures states[|events|].marked <= Elements(states[|events|].log)
    ensures forall i | 0 <= i <= |states[|events|].log| :: IsPrefix(Elements(states[|events|].log[..i]))
    decreases |events|
  {
    if events == [] {
      m, n := 0, 0;
      assert Elements([]) == UpTo(0) == {};
    } else {
      var k := |events| - 1;
      var m0, n0 := RunsAreOrdered(states[..k + 1], events[..k]);
      m, n := StepKeeps(states[k], events[k], m0, n0);
      var before, after := states[k].log, states[k + 1].log;
      forall i | 0 <= i <= |after| ensures IsPrefix(Elements(after[..i])) {
        if i <= |before| {
          assert after[..i] == before[..i];
        } else {
          assert after[..i] == after && Elements(after) == UpTo(n);
        }
      }
    }
  }

  /** A row goes to Kafka again only while it is sent but not marked. */
  lemma ResendsAreUnmarked(states: seq<State>, events: seq<Event>, i: int)
    requires IsRun(states, events) && Initial(states[0]) && 0 <= i < |events|
    requires |states[i + 1].log| == |states[i].log| + 1
    ensures var x := states[i + 1].log[|states[i].log|];
            x !in states[i].marked && states[i + 1].log == states[i].log + [x]
  {
    var m, n := RunsAreOrdered(states[..i + 1], events[..i]);
    var m', n' := StepKeeps(states[i], events[i], m, n);
  }

  lemma RunSnoc(states: seq<State>, events: seq<Event>, e: Event, next: State)
    requires IsRun(states, events) && Enabled(states[|events|], e) && next == Apply(states[|events|], e)
    ensures IsRun(states + [next], events + [e])
    ensures (states + [next])[0] == states[0] && (states + [next])[|events + [e]|] == next
  {
  }

  // ---------- one pass of the poller ----------

  datatype Error = NoError | ListFailed | MarshalFailed | SendFailed | MarkFailed

  /** How the outside answers one pass: the query, each row, and the update that marks. */
  datatype Answers = Answers(listOk: bool, marshalOk: nat -> bool, sendOk: nat -> bool, delivered: nat -> bool, markOk: bool)

  /** What a pass that sent `drained` rows and ended with `err` leaves behind. */
  ghost predicate PassEffect(before: State, after: State, batch: seq<nat>, a: Answers, drained: nat, err: Error) {
    && drained <= |batch|
    && (forall i | 0 <= i < drained :: a.marshalOk(batch[i]) && a.sendOk(batch[i]))
    && after.poller == Idle && after.rows == before.rows
    && (err == ListFailed <==> !a.listOk)
    && match err
       case ListFailed => !a.listOk && drained == 0 && after == before
       case NoError =>
         && drained == |batch| && (batch != [] ==> a.markOk)
         && after.log == before.log + batch && after.marked == before.marked + Elements(batch)
       case MarkFailed =>
         && drained == |batch| && !a.markOk
         && after.log == before.log + batch && after.marked == before.marked
       case MarshalFailed =>
         && drained < |batch| && !a.marshalOk(batch[drained])
         && after.log == before.log + batch[..drained] && after.marked == before.marked
       case SendFailed =>
         && drained < |batch| && a.marshalOk(batch[drained]) && !a.sendOk(batch[drained])
         && after.log == before.log + batch[..if a.delivered(batch[drained]) then drained + 1 else drained]
         && after.marked == (if a.markOk then before.marked + Elements(batch[..drained]) else before.marked)
  }

  /** `n` passes in a row, nothing else happening, each with the same limit and answers. */
  ghost predicate Passes(states: seq<State>, limit: int, a: Answers, drained: nat, err: Error) {
    && states != []
    && forall i | 0 <= i < |states| - 1 ::
         PassEffect(states[i], states[i + 1], Pending(states[i].rows, states[i].marked, limit), a, drained, err)
  }

  function Repeated(ids: seq<nat>, n: nat): seq<nat> {
    if n == 0 then [] else Repeated(ids, n - 1) + ids
  }

  /** A row that cannot be marshalled blocks the outbox and repeats what precedes it: since
      that error marks nothing, every further pass sends the rows before it once more, and
      none of them is ever marked. */
  lemma {:induction false} UnmarshallableRowRepeats(states: seq<State>, limit: int, a: Answers, drained: nat)
    requires Passes(states, limit, a, drained, MarshalFailed)
    ensures var first, last := states[0], states[|states| - 1];
            var batch := Pending(first.rows, first.marked, limit);
            && last.marked == first.marked && last.rows == first.rows
            && (|states| > 1 ==> drained < |batch|)
            && (|states| > 1 ==> last.log == first.log + Repeated(batch[..drained], |states| - 1))
    decreases |states|
  {
    hide Pending;
    var n := |states| - 1;
    if n > 0 {
      UnmarshallableRowRepeats(states[..n], limit, a, drained);
      var batch := Pending(states[n - 1].rows, states[n - 1].marked, limit);
      assert PassEffect(states[n - 1], states[n], batch, a, drained, MarshalFailed);
      if n == 1 {
        assert states[..n] == [states[0]];
      }
    }
  }

  /** A row that cannot be sent blocks the outbox too, but once its predecessors are marked
      they are not sent again: the next pass starts at the row itself. */
  lemma UnsendableRowDoesNotRepeat(before: State, after: State, m: nat, limit: int, a: Answers, drained: nat)
    requires before.marked == UpTo(m) && m <= before.rows && a.markOk
    requires PassEffect(before, after, Pending(before.rows, before.marked, limit), a, drained, SendFailed)
    ensures var next := Pending(after.rows, after.marked, limit);
            next != [] && next[0] == Pending(before.rows, before.marked, limit)[drained]
  {
    var size := if limit <= 0 then DEFAULT_LIMIT else limit;
    var batch := Pending(before.rows, before.marked, limit);
    PendingFromIs(before.rows, m, size, 0);
    MarkKeeps(batch[..drained], m);
    PendingFromIs(after.rows, m + drained, size, 0);
  }

  /** Exactly when a row that a pass sent is pending again after it: the pass met a row it could
      not marshal, or the mark failed. The row a failed send may still have delivered always is. */
  lemma SentAgainExactlyWhen(before: State, after: State, m: nat, limit: int, a: Answers, drained: nat, err: Error, i: nat)
    requires before.marked == UpTo(m) && m <= before.rows && i < drained
    requires PassEffect(before, after, Pending(before.rows, before.marked, limit), a, drained, err)
    ensures var batch := Pending(before.rows, before.marked, limit);
            batch[i] in Pending(after.rows, after.marked, limit) <==> err == MarshalFailed || !a.markOk
    ensures var batch := Pending(before.rows, before.marked, limit);
            err == SendFailed ==> batch[drained] in Pending(after.rows, after.marked, limit)
  {
    var size := if limit <= 0 then DEFAULT_LIMIT else limit;
    var batch := Pending(before.rows, before.marked, limit);
    PendingFromIs(before.rows, m, size, 0);
    assert batch[..|batch|] == batch;
    if err != MarshalFailed && a.markOk {
      MarkKeeps(batch[..drained], m);
      PendingFromIs(after.rows, m + drained, size, 0);
      var next := Pending(after.rows, after.marked, limit);
      assert err == SendFailed ==> next != [] && next[0] == batch[drained];
    } else {
      assert batch[i] in batch;
      assert err == SendFailed ==> batch[drained] in batch;
    }
  }

  /** Two passes over a row that goes out and one that cannot be marshalled: the first row is in
      Kafka twice and marked never. */
  lemma SentAgainWitness() returns (states: seq<State>, a: Answers)
    ensures Passes(states, 0, a, 1, MarshalFailed) && |states| == 3
    ensures states[0] == State(2, {}, [], Idle) && states[2] == State(2, {}, [0, 0], Idle)
  {
    a := Answers(true, i => i != 1, i => true, i => true, true);
    states := [State(2, {}, [], Idle), State(2, {}, [0], Idle), State(2, {}, [0, 0], Idle)];
    FirstTwo();
    assert [0, 1][..1] == [0];
  }

  lemma FirstTwo()
    ensures Pending(2, {}, 0) == [0, 1]
  {
    PendingFromIs(2, 0, DEFAULT_LIMIT, 0);
    assert PendingFrom(2, {}, 48, 2) == [];
    assert PendingFrom(2, {}, 49, 1) == [1] + PendingFrom(2, {}, 48, 2);
  }

  class OutboxPoller {
    var state: State

    /** One pass: its effect row by row, and the run of protocol steps it is. */
    method RunOnce(limit: int, a: Answers)
      returns (drained: nat, err: Error, ghost states: seq<State>, ghost events: seq<Event>)
      requires state.poller == Idle
      modifies this
      ensures PassEffect(old(state), state, Pending(old(state).rows, old(state).marked, limit), a, drained, err)
      ensures IsRun(states, events) && states[0] == old(state) && states[|events|] == state
    {
      hide IsRun, Pending;
      ghost var s0 := state;
      var rows := Pending(state.rows, state.marked, limit);
      states, events := [state], [];
      assert IsRun(states, events) by { NoSteps(state); }
      if !a.listOk {
        return 0, ListFailed, states, events;
      }
      if |rows| == 0 {
        return 0, NoError, states, events;
      }
      state := state.(poller := Sending(rows, 0));
      RunSnoc(states, events, Poll(limit), state);
      states, events := states + [state], events + [Poll(limit)];
      var i := 0;
      while i < |rows|
        invariant 0 <= i <= |rows|
        invariant forall j | 0 <= j < i :: a.marshalOk(rows[j]) && a.sendOk(rows[j])
        invariant state == s0.(log := s0.log + rows[..i], poller := Sending(rows, i))
        invariant |states| == |events| + 1 && IsRun(states, events) && states[0] == s0 && states[|events|] == state
      {
        if !a.marshalOk(rows[i]) {
          state := state.(poller := Idle);
          RunSnoc(states, events, MarshalError, state);
          return i, MarshalFailed, states + [state], events + [MarshalError];
        }
        if !a.sendOk(rows[i]) {
          ghost var e := SendError(a.delivered(rows[i]), a.markOk);
          var published := rows[..i];
          if a.delivered(rows[i]) {
            state := state.(log := state.log + [rows[i]]);
            assert rows[..i + 1] == rows[..i] + [rows[i]];
          }
          if i > 0 && a.markOk {
            state := state.(marked := state.marked + Elements(published));
          }
          assert i == 0 ==> Elements(rows[..i]) == {};
          state := state.(poller := Idle);
          RunSnoc(states, events, e, state);
          return i, SendFailed, states + [state], events + [e];
        }
        assert rows[..i + 1] == rows[..i] + [rows[i]];
        state := state.(log := state.log + [rows[i]], poller := Sending(rows, i + 1));
        RunSnoc(states, events, SendOk, state);
        states, events := states + [state], events + [SendOk];
        i := i + 1;
      }
      assert rows[..|rows|] == rows;
      if a.markOk {
        state := state.(marked := state.marked + Elements(rows));
      }
      state := state.(poller := Idle);
      RunSnoc(states, events, Finish(a.markOk), state);
      return |rows|, if a.markOk then NoError else MarkFailed, states + [state], events + [Finish(a.markOk)];
    }
  }

  lemma NoSteps(s: State)
    ensures IsRun([s], [])
  {
  }
}
