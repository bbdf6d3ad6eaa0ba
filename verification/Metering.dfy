/** The usage counter (internal/admin/metering.go): a buffer of deltas, flushes that swap it
    out and merge failures back, and a store that adds atomically. */
module Metering {

  datatype Key = Key(tenantId: string, day: int, metric: string)

  type Tally = map<Key, int>

  function At(m: Tally, k: Key): int {
    if k in m then m[k] else 0
  }

  function Add(m: Tally, k: Key, delta: int): Tally {
    m[k := At(m, k) + delta]
  }

  /** Merging failed deltas back with `+=`. */
  function Merge(m: Tally, failed: Tally): Tally {
    map k | k in m.Keys + failed.Keys :: At(m, k) + At(failed, k)
  }

  /** The hot path ignores what it cannot key and what changes nothing. */
  predicate Accepted(k: Key, delta: int) {
    k.tenantId != "" && k.metric != "" && delta != 0
  }

  // ---------- any number of flushes at once ----------

  /** A flush in flight: the part of its snapshot not yet stored, and what failed so far. */
  datatype Flight = Flight(pending: Tally, failed: Tally)

  datatype State = State(buf: Tally, stored: Tally, flights: seq<Flight>, recorded: Tally)

  datatype Event =
    | Inc(key: Key, delta: int)
    | Begin
    | Store(f: nat, key: Key, ok: bool)
    | MergeBack(f: nat)

  predicate Enabled(s: State, e: Event) {
    match e
    case Inc(_, _) => true
    case Begin => true
    case Store(f, k, _) => f < |s.flights| && k in s.flights[f].pending
    case MergeBack(f) => f < |s.flights| && s.flights[f].pending == map[]
  }

  /** Each event is one critical section or one atomic upsert-add; `recorded` is the ledger
      of everything accepted. */
  function Apply(s: State, e: Event): State
    requires Enabled(s, e)
  {
    match e
    case Inc(k, delta) =>
      if !Accepted(k, delta) then s
      else s.(buf := Add(s.buf, k, delta), recorded := Add(s.recorded, k, delta))
    case Begin => s.(buf := map[], flights := s.flights + [Flight(s.buf, map[])])
    case Store(f, k, ok) =>
      var x := s.flights[f];
      if ok then s.(stored := Add(s.stored, k, x.pending[k]), flights := s.flights[f := Flight(x.pending - {k}, x.failed)])
      else s.(flights := s.flights[f := Flight(x.pending - {k}, x.failed[k := x.pending[k]])])
    case MergeBack(f) =>
      s.(buf := Merge(s.buf, s.flights[f].failed), flights := s.flights[f := Flight(map[], map[])])
  }

  function InFlight(flights: seq<Flight>, k: Key): int {
    if flights == [] then 0
    else
      var x := flights[|flights| - 1];
      InFlight(flights[..|flights| - 1], k) + At(x.pending, k) + At(x.failed, k)
  }

  function Total(s: State, k: Key): int {
    At(s.stored, k) + At(s.buf, k) + InFlight(s.flights, k)
  }

  /** A key is pending or failed in a flight, never both. */
  ghost predicate Inv(s: State) {
    && (forall f | 0 <= f < |s.flights| :: s.flights[f].pending.Keys !! s.flights[f].failed.Keys)
    && (forall k :: Total(s, k) == At(s.recorded, k))
  }

  lemma {:induction false} InFlightUpdate(flights: seq<Flight>, f: nat, x: Flight, k: Key)
    requires f < |flights|
    ensures InFlight(flights[f := x], k)
            == InFlight(flights, k) - At(flights[f].pending, k) - At(flights[f].failed, k)
               + At(x.pending, k) + At(x.failed, k)
  {
    hide At;
    var last := |flights| - 1;
    if f == last {
      assert flights[f := x][..last] == flights[..last];
    } else {
      assert flights[f := x][..last] == flights[..last][f := x];
      InFlightUpdate(flights[..last], f, x, k);
    }
  }

  lemma InFlightSnoc(flights: seq<Flight>, x: Flight, k: Key)
    ensures InFlight(flights + [x], k) == InFlight(flights, k) + At(x.pending, k) + At(x.failed, k)
  {
  }

  /** A step changes the total of a key by exactly the delta it accepts. */
  lemma TotalStep(s: State, e: Event, k: Key)
    requires Enabled(s, e)
    requires forall f | 0 <= f < |s.flights| :: s.flights[f].pending.Keys !! s.flights[f].failed.Keys
    ensures Total(Apply(s, e), k) == Total(s, k) + if e.Inc? && e.key == k && Accepted(k, e.delta) then e.delta else 0
  {
    hide InFlight;
    match e {
      case Inc(_, _) =>
      case Begin => InFlightSnoc(s.flights, Flight(s.buf, map[]), k);
      case Store(_, _, _) => StoreStep(s, e, k);
      case MergeBack(f) => InFlightUpdate(s.flights, f, Flight(map[], map[]), k);
    }
  }

  lemma StoreStep(s: State, e: Event, k: Key)
    requires Enabled(s, e) && e.Store?
    requires s.flights[e.f].pending.Keys !! s.flights[e.f].failed.Keys
    ensures Total(Apply(s, e), k) == Total(s, k)
  {
    hide InFlight;
    var x := s.flights[e.f];
    var y := if e.ok then Flight(x.pending - {e.key}, x.failed)
             else Flight(x.pending - {e.key}, x.failed[e.key := x.pending[e.key]]);
    InFlightUpdate(s.flights, e.f, y, k);
  }

  lemma StepConserves(s: State, e: Event)
    requires Inv(s) && Enabled(s, e)
    ensures Inv(Apply(s, e))
  {
    hide Total, Merge;
    var s' := Apply(s, e);
    forall k ensures Total(s', k) == At(s'.recorded, k) {
      TotalStep(s, e, k);
      LedgerStep(s, e, k);
    }
    hide At;
    forall f | 0 <= f < |s'.flights| ensures s'.flights[f].pending.Keys !! s'.flights[f].failed.Keys {
    }
  }

  ghost predicate IsRun(states: seq<State>, events: seq<Event>) {
    && |states| == |events| + 1
    && forall i | 0 <= i < |events| :: Enabled(states[i], events[i]) && states[i + 1] == Apply(states[i], events[i])
  }

  /** Nothing buffered and nothing in flight, the store holding what was recorded. */
  ghost predicate Initial(s: State) {
    s.buf == map[] && s.flights == [] && s.stored == s.recorded
  }

  lemma {:induction false} RunConserves(states: seq<State>, events: seq<Event>)
    requires IsRun(states, events) && Initial(states[0])
    ensures Inv(states[|events|])
    decreases |events|
  {
    hide Enabled, Apply, Inv;
    if events == [] {
      InitialConserves(states[0]);
    } else {
      var k := |events| - 1;
      RunConserves(states[..k + 1], events[..k]);
      StepConserves(states[k], events[k]);
    }
  }

  lemma InitialConserves(s: State)
    requires Initial(s)
    ensures Inv(s)
  {
  }

  /** Usage is conserved: in every interleaving of increments and flushes, whichever stores
      fail, what is stored, buffered and in flight for a key adds up to what was recorded. */
  lemma UsageConserved(states: seq<State>, events: seq<Event>, k: Key)
    requires IsRun(states, events) && Initial(states[0])
    ensures var s := states[|events|];
            At(s.stored, k) + At(s.buf, k) + InFlight(s.flights, k) == At(s.recorded, k)
  {
    RunConserves(states, events);
    assert Total(states[|events|], k) == At(states[|events|].recorded, k);
  }

  /** The sum of the deltas accepted for a key. */
  function DeltasFor(events: seq<Event>, k: Key): int {
    if events == [] then 0
    else
      var e := events[|events| - 1];
      DeltasFor(events[..|events| - 1], k) + if e.Inc? && e.key == k && Accepted(k, e.delta) then e.delta else 0
  }

  /** For a named key nothing but what changes nothing is left out: the accepted deltas add up to
      all deltas handed in, negative ones included. */
  lemma {:induction false} AcceptedAreAll(events: seq<Event>, k: Key)
    requires k.tenantId != "" && k.metric != ""
    ensures DeltasFor(events, k) == AllDeltasFor(events, k)
  {
    if events != [] {
      AcceptedAreAll(events[..|events| - 1], k);
    }
  }

  function AllDeltasFor(events: seq<Event>, k: Key): int {
    if events == [] then 0
    else
      var e := events[|events| - 1];
      AllDeltasFor(events[..|events| - 1], k) + if e.Inc? && e.key == k then e.delta else 0
  }

  /** The ledger is the sum of the accepted deltas, so once a run has drained its buffer and
      its flights the store holds exactly that sum. */
  lemma {:induction false} LedgerIsSum(states: seq<State>, events: seq<Event>, k: Key)
    requires IsRun(states, events)
    ensures At(states[|events|].recorded, k) == At(states[0].recorded, k) + DeltasFor(events, k)
    decreases |events|
  {
    hide Apply, Enabled;
    if events != [] {
      var n := |events| - 1;
      LedgerIsSum(states[..n + 1], events[..n], k);
      LedgerStep(states[n], events[n], k);
    }
  }

  lemma LedgerStep(s: State, e: Event, k: Key)
    requires Enabled(s, e)
    ensures At(Apply(s, e).recorded, k)
            == At(s.recorded, k) + if e.Inc? && e.key == k && Accepted(k, e.delta) then e.delta else 0
  {
  }

  lemma DrainedStoreIsExact(states: seq<State>, events: seq<Event>, k: Key)
    requires IsRun(states, events) && Initial(states[0])
    requires states[|events|].buf == map[]
    requires forall f | 0 <= f < |states[|events|].flights| :: states[|events|].flights[f] == Flight(map[], map[])
    ensures At(states[|events|].stored, k) == At(states[0].stored, k) + DeltasFor(events, k)
  {
    UsageConserved(states, events, k);
    LedgerIsSum(states, events, k);
    NothingInFlight(states[|events|].flights, k);
  }

  lemma {:induction false} NothingInFlight(flights: seq<Flight>, k: Key)
    requires forall f | 0 <= f < |flights| :: flights[f] == Flight(map[], map[])
    ensures InFlight(flights, k) == 0
  {
    if flights != [] {
      NothingInFlight(flights[..|flights| - 1], k);
    }
  }

  // ---------- the counter ----------

  class Counter {
    var buf: Tally
    var stored: Tally

    constructor ()
      ensures buf == map[] && stored == map[]
    {
      buf, stored := map[], map[];
    }

    method Inc(tenantId: string, metric: string, delta: int, day: int)
      modifies this`buf
      ensures var k := Key(tenantId, day, metric);
              buf == if Accepted(k, delta) then Add(old(buf), k, delta) else old(buf)
    {
      if tenantId == "" || metric == "" || delta == 0 {
        return;
      }
      var k := Key(tenantId, day, metric);
      buf := buf[k := At(buf, k) + delta];
    }

    /** A flush nobody interferes with: the pairs that fail are back in the buffer, the
        others are added to the store, and an error is returned exactly when one failed. Its
        steps are a run of the protocol above, from this counter's state with nothing in
        flight to its new state with nothing left in flight. */
    method Flush(fails: Key -> bool, ghost recorded: Tally)
      returns (failures: nat, ghost states: seq<State>, ghost events: seq<Event>)
      modifies this
      ensures buf == FailedOf(old(buf), {}, fails)
      ensures forall k :: At(stored, k) == At(old(stored), k) + StoredOf(old(buf), {}, fails, k)
      ensures failures == |buf|
      ensures IsRun(states, events) && states[0] == State(old(buf), old(stored), [], recorded)
      ensures states[|events|] == State(buf, stored, [Flight(map[], map[])], recorded)
    {
      hide FailedOf, StoredOf, IsRun, Apply, Enabled, Restrict, Merge;
      ghost var stored0 := stored;
      var snap := buf;
      states, events := FlushBegins(snap, stored, recorded);
      buf := map[];
      var failed: Tally := map[];
      var rest: set<Key> := snap.Keys;
      NothingStored(snap, fails);
      while rest != {}
        invariant rest <= snap.Keys && buf == map[]
        invariant failed == FailedOf(snap, rest, fails)
        invariant forall k :: At(stored, k) == At(stored0, k) + StoredOf(snap, rest, fails, k)
        invariant FlushRun(states, events, snap, stored0, recorded, stored, rest, failed)
        decreases rest
      {
        assert (forall x :: x !in rest) ==> rest == {};
        var k :| k in rest;
        OneStored(snap, rest, fails, k);
        states, events := FlushStores(states, events, snap, stored0, recorded, stored, rest, failed, k, !fails(k));
        if fails(k) {
          failed := failed[k := snap[k]];
        } else {
          stored := Add(stored, k, snap[k]);
        }
        rest := rest - {k};
      }
      states, events := FlushEnds(states, events, snap, stored0, recorded, stored, failed);
      failures := |failed|;
      if |failed| > 0 {
        buf := Merge(buf, failed);
      }
      MergeIntoNothing(failed);
    }
  }

  ghost function Restrict(snap: Tally, rest: set<Key>): Tally {
    map k | k in snap && k in rest :: snap[k]
  }

  lemma MergeIntoNothing(failed: Tally)
    ensures Merge(map[], failed) == failed
  {
  }

  /** A run with one more step. */
  lemma Extend(states: seq<State>, events: seq<Event>, e: Event) returns (states': seq<State>, events': seq<Event>)
    requires IsRun(states, events) && Enabled(states[|events|], e)
    ensures IsRun(states', events') && |states'| == |events'| + 1
    ensures states'[0] == states[0] && states'[|events'|] == Apply(states[|events|], e)
  {
    hide Apply, Enabled;
    states', events' := states + [Apply(states[|events|], e)], events + [e];
  }

  /** The steps so far of a lone flush of `snap` that still has `rest` to try. */
  ghost predicate FlushRun(states: seq<State>, events: seq<Event>, snap: Tally, stored0: Tally, recorded: Tally,
                           stored: Tally, rest: set<Key>, failed: Tally) {
    && |states| == |events| + 1 && IsRun(states, events)
    && states[0] == State(snap, stored0, [], recorded)
    && states[|events|] == State(map[], stored, [Flight(Restrict(snap, rest), failed)], recorded)
  }

  lemma FlushBegins(snap: Tally, stored: Tally, recorded: Tally) returns (states: seq<State>, events: seq<Event>)
    ensures FlushRun(states, events, snap, stored, recorded, stored, snap.Keys, map[])
  {
    states, events := Extend([State(snap, stored, [], recorded)], [], Begin);
    assert Restrict(snap, snap.Keys) == snap;
  }

  lemma FlushStores(states: seq<State>, events: seq<Event>, snap: Tally, stored0: Tally, recorded: Tally,
                    stored: Tally, rest: set<Key>, failed: Tally, k: Key, ok: bool)
    returns (states': seq<State>, events': seq<Event>)
    requires FlushRun(states, events, snap, stored0, recorded, stored, rest, failed) && k in rest && rest <= snap.Keys
    ensures FlushRun(states', events', snap, stored0, recorded, if ok then Add(stored, k, snap[k]) else stored,
                     rest - {k}, if ok then failed else failed[k := snap[k]])
  {
    hide IsRun, Add;
    states', events' := Extend(states, events, Store(0, k, ok));
    assert Restrict(snap, rest - {k}) == Restrict(snap, rest) - {k};
  }

  lemma FlushEnds(states: seq<State>, events: seq<Event>, snap: Tally, stored0: Tally, recorded: Tally,
                  stored: Tally, failed: Tally)
    returns (states': seq<State>, events': seq<Event>)
    requires FlushRun(states, events, snap, stored0, recorded, stored, {}, failed)
    ensures IsRun(states', events') && states'[0] == State(snap, stored0, [], recorded)
    ensures states'[|events'|] == State(failed, stored, [Flight(map[], map[])], recorded)
  {
    hide IsRun, Merge;
    assert Restrict(snap, {}) == map[];
    states', events' := Extend(states, events, MergeBack(0));
    MergeIntoNothing(failed);
  }

  /** The failed pairs of a snapshot, apart from the keys still to be tried. */
  ghost function FailedOf(snap: Tally, rest: set<Key>, fails: Key -> bool): Tally {
    map k | k in snap && k !in rest && fails(k) :: snap[k]
  }

  /** What a flush has added to the store for a key. */
  ghost function StoredOf(snap: Tally, rest: set<Key>, fails: Key -> bool, k: Key): int {
    if k in snap && k !in rest && !fails(k) then snap[k] else 0
  }

  lemma NothingStored(snap: Tally, fails: Key -> bool)
    ensures FailedOf(snap, snap.Keys, fails) == map[]
    ensures forall k :: StoredOf(snap, snap.Keys, fails, k) == 0
  {
  }

  lemma OneStored(snap: Tally, rest: set<Key>, fails: Key -> bool, k: Key)
    requires k in rest && rest <= snap.Keys
    ensures FailedOf(snap, rest - {k}, fails)
            == if fails(k) then FailedOf(snap, rest, fails)[k := snap[k]] else FailedOf(snap, rest, fails)
    ensures forall j ::
              StoredOf(snap, rest - {k}, fails, j)
              == StoredOf(snap, rest, fails, j) + if j == k && !fails(k) then snap[k] else 0
  {
  }
}
