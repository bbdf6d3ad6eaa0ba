/** The life of a source row (internal/admin/source_repository.go) and the fenced forget
    worker that ends it (internal/admin/forget_worker.go). */
module SourceLifecycle {
  import opened Text

  datatype Status = Active | Paused | Removing | Removed

  /** Position along {active, paused} -> removing -> removed. */
  function Rank(st: Status): int {
    match st
    case Active => 0
    case Paused => 0
    case Removing => 1
    case Removed => 2
  }

  predicate Terminal(st: Status) {
    st == Removing || st == Removed
  }

  datatype Source = Source(status: Status, config: string, scopes: seq<string>)

  datatype Patch = Patch(status: Option<Status>, scopes: Option<seq<string>>)

  datatype Error = NotFound | TerminalStatus | NotPatchable | StoreFailed

  /** A write's effect on one row and the error it returns. */
  datatype Write = Write(row: Option<Source>, error: Option<Error>)

  // ---------- the repository's atomic updates ----------

  /** Each is one guarded UPDATE; the lookup that tells 404 from 409 reads the same row. */
  function UpdateRow(row: Option<Source>, p: Patch): Write {
    if p.status.Some? && Terminal(p.status.value) then Write(row, Some(NotPatchable))
    else if row.None? then Write(row, Some(NotFound))
    else if Terminal(row.value.status) then Write(row, Some(TerminalStatus))
    else
      var s := if p.status.Some? then row.value.(status := p.status.value) else row.value;
      Write(Some(if p.scopes.Some? then s.(scopes := p.scopes.value) else s), None)
  }

  function UpdateConfigRow(row: Option<Source>, config: string): Write {
    if row.None? || Terminal(row.value.status) then Write(row, Some(NotFound))
    else Write(Some(row.value.(config := config)), None)
  }

  function MarkRemovingRow(row: Option<Source>): Write {
    if row.None? then Write(row, Some(NotFound))
    else if Terminal(row.value.status) then Write(row, None)
    else Write(Some(row.value.(status := Removing)), None)
  }

  function MarkRemovedRow(row: Option<Source>): Write {
    if row.None? then Write(row, Some(NotFound)) else Write(Some(row.value.(status := Removed)), None)
  }

  type Key = (string, string)

  class SourceRepository {
    var rows: map<Key, Source>

    function Row(key: Key): Option<Source>
      reads this
    {
      if key in rows then Some(rows[key]) else None
    }

    static predicate Missing(key: Key) {
      key.0 == "" || key.1 == ""
    }

    /** The table with one row written. */
    static function With(rows: map<Key, Source>, key: Key, row: Option<Source>): map<Key, Source> {
      if row.Some? then rows[key := row.value] else rows - {key}
    }

    /** A row that may be patched, written and deleted. */
    predicate Live(key: Key)
      reads this
    {
      key in rows && (rows[key].status == Active || rows[key].status == Paused)
    }

    method Get(key: Key, dbOk: bool) returns (r: Option<Source>, err: Option<Error>)
      ensures err.None? <==> r.Some?
      ensures r.Some? ==> dbOk && !Missing(key) && key in rows && r.value == rows[key]
      ensures err.Some? ==> err == Some(if !Missing(key) && !dbOk then StoreFailed else NotFound)
      ensures err == Some(NotFound) ==> Missing(key) || key !in rows
    {
      if Missing(key) {
        return None, Some(NotFound);
      }
      if !dbOk {
        return None, Some(StoreFailed);
      }
      if key !in rows {
        return None, Some(NotFound);
      }
      return Some(rows[key]), None;
    }

    /** The guarded write, what `others` do to the row before it is read back, and that read,
        which tells the caller the row or why nothing was written. The flags say whether the
        database takes the write and answers the read. */
    method Update(key: Key, p: Patch, others: Option<Source> -> Option<Source>, writeOk: bool, readOk: bool)
      returns (r: Option<Source>, err: Option<Error>)
      modifies this
      ensures Missing(key) ==> err == Some(NotFound) && rows == old(rows)
      ensures !Missing(key) ==>
                var w := UpdateRow(old(Row(key)), p);
                if w.error == Some(NotPatchable) then err == w.error && r == None && rows == old(rows)
                else if !writeOk then err == Some(StoreFailed) && r == None && rows == old(rows)
                else
                  var seen := others(w.row);
                  && rows == With(old(rows), key, seen)
                  && (!readOk ==> r == None && err == Some(StoreFailed))
                  && (readOk && w.error.None? ==> r == seen && err == if seen.None? then Some(NotFound) else None)
                  && (readOk && w.error.Some? ==> r == None && err == Some(if seen.None? then NotFound else TerminalStatus))
      // Column by column, with a sound database and nobody interfering.
      ensures !Missing(key) && writeOk && readOk && (forall x :: others(x) == x) ==>
                && rows.Keys == old(rows).Keys && (forall k | k in rows && k != key :: rows[k] == old(rows)[k])
                && (err.None? <==>
                      old(Live(key)) && (p.status == None || p.status == Some(Active) || p.status == Some(Paused)))
                && (err.None? ==>
                      && r == Some(rows[key])
                      && rows[key].status == (if p.status.Some? then p.status.value else old(rows[key].status))
                      && rows[key].scopes == (if p.scopes.Some? then p.scopes.value else old(rows[key].scopes))
                      && rows[key].config == old(rows[key].config))
                && (err.Some? ==> r == None && rows == old(rows))
    {
      if Missing(key) {
        return None, Some(NotFound);
      }
      if p.status.Some? && p.status.value != Active && p.status.value != Paused {
        return None, Some(NotPatchable);
      }
      if !writeOk {
        return None, Some(StoreFailed);
      }
      var written := key in rows && !Terminal(rows[key].status);
      if written {
        if p.status.Some? {
          rows := rows[key := rows[key].(status := p.status.value)];
        }
        if p.scopes.Some? {
          rows := rows[key := rows[key].(scopes := p.scopes.value)];
        }
      }
      rows := With(rows, key, others(Row(key)));
      r, err := Get(key, readOk);
      if !written {
        return None, if err.None? then Some(TerminalStatus) else err;
      }
    }

    method UpdateConfig(key: Key, config: string, writeOk: bool) returns (err: Option<Error>)
      modifies this
      ensures Missing(key) ==> err == Some(NotFound) && rows == old(rows)
      ensures !Missing(key) && !writeOk ==> err == Some(StoreFailed) && rows == old(rows)
      ensures !Missing(key) && writeOk ==>
                var w := UpdateConfigRow(old(Row(key)), config);
                err == w.error && rows == With(old(rows), key, w.row)
      ensures err.None? <==> !Missing(key) && writeOk && old(Live(key))
      ensures err.None? ==> key in rows && rows == old(rows)[key := rows[key]]
      ensures err.None? ==>
                && rows[key].config == config
                && rows[key].status == old(rows[key].status) && rows[key].scopes == old(rows[key].scopes)
      ensures err.Some? ==> rows == old(rows)
    {
      if Missing(key) {
        return Some(NotFound);
      }
      if !writeOk {
        return Some(StoreFailed);
      }
      if key !in rows || Terminal(rows[key].status) {
        return Some(NotFound);
      }
      rows := rows[key := rows[key].(config := config)];
      return None;
    }

    /** The guarded write, what `others` do meanwhile, and the read that answers the caller. */
    method MarkRemoving(key: Key, others: Option<Source> -> Option<Source>, writeOk: bool, readOk: bool)
      returns (r: Option<Source>, err: Option<Error>)
      modifies this
      ensures Missing(key) ==> err == Some(NotFound) && rows == old(rows)
      ensures !Missing(key) && !writeOk ==> err == Some(StoreFailed) && r == None && rows == old(rows)
      ensures !Missing(key) && writeOk ==>
                var seen := others(MarkRemovingRow(old(Row(key))).row);
                && rows == With(old(rows), key, seen)
                && (!readOk ==> r == None && err == Some(StoreFailed))
                && (readOk ==> r == seen && err == if seen.None? then Some(NotFound) else None)
      ensures !Missing(key) && writeOk && readOk && (forall x :: others(x) == x) ==>
                && rows.Keys == old(rows).Keys && (forall k | k in rows && k != key :: rows[k] == old(rows)[k])
                && (err.None? <==> key in old(rows)) && (err.None? ==> r == Some(rows[key]))
                && (key in rows ==>
                      && rows[key].status == (if old(Live(key)) then Removing else old(rows[key].status))
                      && rows[key].scopes == old(rows[key].scopes) && rows[key].config == old(rows[key].config))
    {
      if Missing(key) {
        return None, Some(NotFound);
      }
      if !writeOk {
        return None, Some(StoreFailed);
      }
      if key in rows && !Terminal(rows[key].status) {
        rows := rows[key := rows[key].(status := Removing)];
      }
      rows := With(rows, key, others(Row(key)));
      r, err := Get(key, readOk);
    }

    method MarkRemoved(key: Key, writeOk: bool) returns (err: Option<Error>)
      modifies this
      ensures Missing(key) ==> err == Some(NotFound) && rows == old(rows)
      ensures !Missing(key) && !writeOk ==> err == Some(StoreFailed) && rows == old(rows)
      ensures !Missing(key) && writeOk ==>
                var w := MarkRemovedRow(old(Row(key)));
                err == w.error && rows == With(old(rows), key, w.row)
      ensures err.None? <==> !Missing(key) && writeOk && key in old(rows)
      ensures err.None? ==> key in rows && rows == old(rows)[key := rows[key]]
      ensures err.None? ==>
                && rows[key].status == Removed
                && rows[key].scopes == old(rows[key].scopes) && rows[key].config == old(rows[key].config)
      ensures err.Some? ==> rows == old(rows)
    {
      if Missing(key) {
        return Some(NotFound);
      }
      if !writeOk {
        return Some(StoreFailed);
      }
      if key !in rows {
        return Some(NotFound);
      }
      rows := rows[key := rows[key].(status := Removed)];
      return None;
    }
  }

  // ---------- one source and any number of workers ----------

  /** How many sweepers a worker runs, and how long its lease lives. */
  datatype Config = Config(sweepers: nat, ttl: int) {
    predicate Valid() { ttl > 0 }
  }

  datatype Lease = Lease(token: nat, expiresAt: int)

  /** A run's place: lease taken; `next` sweepers done after seeing the row in removing;
      finished, with the deferred release still to come. */
  datatype Place = Holding | Sweeping(next: nat) | Finished

  datatype Worker = Worker(token: nat, acquiredAt: int, place: Place)

  /** What the runs did, in order. */
  datatype Deed = Took(token: nat) | Saw(token: nat) | Swept(token: nat, i: nat) | Marked(token: nat)

  datatype System = System(row: Option<Source>, lease: Option<Lease>, now: int,
                           workers: map<nat, Worker>, used: set<nat>, history: seq<Deed>)

  datatype Event =
    | Create(source: Source)
    | PatchIt(patch: Patch)
    | WriteConfig(config: string)
    | Delete
    | Pass(time: nat)
    | Expire
    | Acquire(w: nat, token: nat)
    | Check(w: nat, loadOk: bool)
    | Sweep(w: nat, ok: bool)
    | Mark(w: nat, ok: bool)
    | Release(w: nat)
    | Crash(w: nat)

  /** Redis keeps a key until its time to live is over, and tokens are random, so fresh. */
  predicate Enabled(cfg: Config, s: System, e: Event) {
    match e
    case Create(source) => s.row.None? && !Terminal(source.status)
    case PatchIt(_) => true
    case WriteConfig(_) => true
    case Delete => true
    case Pass(_) => true
    case Expire => s.lease.Some? && s.now >= s.lease.value.expiresAt
    case Acquire(w, token) => w !in s.workers && s.lease.None? && token !in s.used
    case Check(w, _) => w in s.workers && s.workers[w].place == Holding
    case Sweep(w, _) => w in s.workers && s.workers[w].place.Sweeping? && s.workers[w].place.next < cfg.sweepers
    case Mark(w, _) => w in s.workers && s.workers[w].place == Sweeping(cfg.sweepers)
    case Release(w) => w in s.workers && s.workers[w].place == Finished
    case Crash(w) => w in s.workers
  }

  function Move(s: System, w: nat, place: Place): System
    requires w in s.workers
  {
    s.(workers := s.workers[w := s.workers[w].(place := place)])
  }

  function Did(s: System, d: Deed): System {
    s.(history := s.history + [d])
  }

  function Apply(cfg: Config, s: System, e: Event): System
    requires Enabled(cfg, s, e)
  {
    match e
    case Create(source) => s.(row := Some(source))
    case PatchIt(p) => s.(row := UpdateRow(s.row, p).row)
    case WriteConfig(c) => s.(row := UpdateConfigRow(s.row, c).row)
    case Delete => s.(row := MarkRemovingRow(s.row).row)
    case Pass(time) => s.(now := s.now + time)
    case Expire => s.(lease := None)
    case Acquire(w, token) =>
      Did(s.(lease := Some(Lease(token, s.now + cfg.ttl)), used := s.used + {token},
             workers := s.workers[w := Worker(token, s.now, Holding)]), Took(token))
    case Check(w, loadOk) =>
      if loadOk && s.row.Some? && s.row.value.status == Removing
      then Did(Move(s, w, Sweeping(0)), Saw(s.workers[w].token))
      else Move(s, w, Finished)
    case Sweep(w, ok) =>
      var k := s.workers[w].place.next;
      if ok then Did(Move(s, w, Sweeping(k + 1)), Swept(s.workers[w].token, k)) else Move(s, w, Finished)
    case Mark(w, ok) =>
      if ok then Did(Move(s, w, Finished).(row := MarkRemovedRow(s.row).row), Marked(s.workers[w].token))
      else Move(s, w, Finished)
    case Release(w) =>
      s.(lease := if s.lease.Some? && s.lease.value.token == s.workers[w].token then None else s.lease,
         workers := s.workers - {w})
    case Crash(w) => s.(workers := s.workers - {w})
  }

  // ---------- what every step keeps ----------

  /** The deeds of the run with this token. */
  function DeedsOf(history: seq<Deed>, token: nat): seq<Deed> {
    if history == [] then []
    else
      var d := history[|history| - 1];
      DeedsOf(history[..|history| - 1], token) + if d.token == token then [d] else []
  }

  /** Acquired, saw the row in removing, swept the first `k` tiers in order. */
  function Progress(token: nat, k: nat): seq<Deed> {
    if k == 0 then [Took(token), Saw(token)] else Progress(token, k - 1) + [Swept(token, k - 1)]
  }

  ghost predicate WorkerOk(s: System, cfg: Config, w: nat)
    requires w in s.workers
  {
    var x := s.workers[w];
    && x.token in s.used
    && (s.now < x.acquiredAt + cfg.ttl ==> s.lease == Some(Lease(x.token, x.acquiredAt + cfg.ttl)))
    && (x.place == Holding ==> DeedsOf(s.history, x.token) == [Took(x.token)])
    && (x.place.Sweeping? ==>
          && s.row.Some? && Terminal(s.row.value.status)
          && DeedsOf(s.history, x.token) == Progress(x.token, x.place.next))
  }

  /** A run that marked the row did everything first, and does nothing more. */
  ghost predicate Completed(s: System, cfg: Config, token: nat) {
    && token in s.used
    && DeedsOf(s.history, token) == Progress(token, cfg.sweepers) + [Marked(token)]
    && forall w | w in s.workers && s.workers[w].token == token :: s.workers[w].place == Finished
  }

  ghost predicate Inv(cfg: Config, s: System) {
    && (forall w | w in s.workers :: WorkerOk(s, cfg, w))
    && (forall a, b | a in s.workers && b in s.workers && a != b :: s.workers[a].token != s.workers[b].token)
    && (forall t | t !in s.used :: DeedsOf(s.history, t) == [])
    && (s.row.Some? && s.row.value.status == Removed ==> exists t :: Completed(s, cfg, t))
  }

  lemma AllDeedsSnoc(history: seq<Deed>, d: Deed)
    ensures forall t :: DeedsOf(history + [d], t) == DeedsOf(history, t) + if d.token == t then [d] else []
  {
  }

  /** Steps that leave leases, runs and history alone. */
  lemma RowStepKeeps(cfg: Config, s: System, row: Option<Source>)
    requires Inv(cfg, s)
    requires s.row.Some? ==> row.Some? && Rank(s.row.value.status) <= Rank(row.value.status)
    requires row.Some? && row.value.status == Removed ==> s.row == row
    ensures Inv(cfg, s.(row := row))
  {
  }

  lemma StepKeeps(cfg: Config, s: System, e: Event)
    requires cfg.Valid() && Inv(cfg, s) && Enabled(cfg, s, e)
    ensures Inv(cfg, Apply(cfg, s, e))
  {
    match e {
      case Create(source) => RowStepKeeps(cfg, s, Some(source));
      case PatchIt(p) => RowStepKeeps(cfg, s, UpdateRow(s.row, p).row);
      case WriteConfig(c) => RowStepKeeps(cfg, s, UpdateConfigRow(s.row, c).row);
      case Delete => RowStepKeeps(cfg, s, MarkRemovingRow(s.row).row);
      case Pass(_) => TimeKeeps(cfg, s, e);
      case Expire => TimeKeeps(cfg, s, e);
      case Acquire(_, _) => AcquireKeeps(cfg, s, e);
      case Check(_, _) => WorkKeeps(cfg, s, e);
      case Sweep(_, _) => WorkKeeps(cfg, s, e);
      case Mark(_, _) => MarkKeeps(cfg, s, e);
      case Release(_) => LeaveKeeps(cfg, s, e);
      case Crash(_) => LeaveKeeps(cfg, s, e);
    }
  }

  lemma TimeKeeps(cfg: Config, s: System, e: Event)
    requires cfg.Valid() && Inv(cfg, s) && Enabled(cfg, s, e) && (e.Pass? || e.Expire?)
    ensures Inv(cfg, Apply(cfg, s, e))
  {
    hide DeedsOf, Progress;
    var s' := Apply(cfg, s, e);
    forall w | w in s'.workers ensures WorkerOk(s', cfg, w) {
      assert WorkerOk(s, cfg, w);
    }
    if s'.row.Some? && s'.row.value.status == Removed {
      var t :| Completed(s, cfg, t);
      assert Completed(s', cfg, t);
    }
  }

  lemma AcquireKeeps(cfg: Config, s: System, e: Event)
    requires cfg.Valid() && Inv(cfg, s) && Enabled(cfg, s, e) && e.Acquire?
    ensures Inv(cfg, Apply(cfg, s, e))
  {
    hide DeedsOf, Progress;
    var s' := Apply(cfg, s, e);
    AllDeedsSnoc(s.history, Took(e.token));
    assert forall w | w in s.workers :: WorkerOk(s, cfg, w) && s.workers[w].token != e.token;
    forall w | w in s'.workers ensures WorkerOk(s', cfg, w) {
      if w != e.w {
        assert WorkerOk(s, cfg, w);
        assert s'.workers[w] == s.workers[w];
      }
    }
    if s'.row.Some? && s'.row.value.status == Removed {
      var t :| Completed(s, cfg, t);
      assert Completed(s', cfg, t);
    }
  }

  /** A run stops without another deed. */
  lemma StopKeeps(cfg: Config, s: System, w: nat)
    requires cfg.Valid() && Inv(cfg, s) && w in s.workers
    ensures Inv(cfg, Move(s, w, Finished))
  {
    hide DeedsOf, Progress;
    var s' := Move(s, w, Finished);
    forall v | v in s'.workers ensures WorkerOk(s', cfg, v) {
      assert WorkerOk(s, cfg, v);
    }
    if s'.row.Some? && s'.row.value.status == Removed {
      var t :| Completed(s, cfg, t);
      assert Completed(s', cfg, t);
    }
  }

  /** A run makes progress by one deed. */
  lemma ProgressKeeps(cfg: Config, s: System, w: nat, k: nat, d: Deed)
    requires cfg.Valid() && Inv(cfg, s) && w in s.workers && s.workers[w].place != Finished
    requires s.row.Some? && Terminal(s.row.value.status) && d.token == s.workers[w].token
    requires DeedsOf(s.history, d.token) + [d] == Progress(d.token, k)
    ensures Inv(cfg, Did(Move(s, w, Sweeping(k)), d))
  {
    hide DeedsOf, Progress;
    var s' := Did(Move(s, w, Sweeping(k)), d);
    AllDeedsSnoc(s.history, d);
    assert WorkerOk(s, cfg, w);
    forall v | v in s'.workers ensures WorkerOk(s', cfg, v) {
      assert WorkerOk(s, cfg, v);
      if v != w {
        assert s.workers[v].token != d.token;
        assert DeedsOf(s'.history, s.workers[v].token) == DeedsOf(s.history, s.workers[v].token);
      }
    }
    if s'.row.value.status == Removed {
      var t :| Completed(s, cfg, t);
      assert t != d.token;
      assert Completed(s', cfg, t);
    }
  }

  lemma WorkKeeps(cfg: Config, s: System, e: Event)
    requires cfg.Valid() && Inv(cfg, s) && Enabled(cfg, s, e) && (e.Check? || e.Sweep?)
    ensures Inv(cfg, Apply(cfg, s, e))
  {
    var token := s.workers[e.w].token;
    assert WorkerOk(s, cfg, e.w);
    ProgressStep(token, if e.Sweep? then s.workers[e.w].place.next else 0);
    hide DeedsOf, Progress, Inv, WorkerOk;
    StopKeeps(cfg, s, e.w);
    if e.Check? && e.loadOk && s.row.Some? && s.row.value.status == Removing {
      ProgressKeeps(cfg, s, e.w, 0, Saw(token));
    } else if e.Sweep? && e.ok {
      var k := s.workers[e.w].place.next;
      ProgressKeeps(cfg, s, e.w, k + 1, Swept(token, k));
    }
  }

  lemma ProgressStep(token: nat, k: nat)
    ensures Progress(token, k + 1) == Progress(token, k) + [Swept(token, k)]
    ensures Progress(token, 0) == [Took(token)] + [Saw(token)]
  {
  }

  lemma MarkKeeps(cfg: Config, s: System, e: Event)
    requires cfg.Valid() && Inv(cfg, s) && Enabled(cfg, s, e) && e.Mark?
    ensures Inv(cfg, Apply(cfg, s, e))
  {
    hide DeedsOf, Progress;
    var s' := Apply(cfg, s, e);
    var token := s.workers[e.w].token;
    assert WorkerOk(s, cfg, e.w);
    AllDeedsSnoc(s.history, Marked(token));
    forall w | w in s'.workers ensures WorkerOk(s', cfg, w) {
      assert WorkerOk(s, cfg, w);
    }
    if e.ok {
      assert Completed(s', cfg, token);
    } else if s'.row.Some? && s'.row.value.status == Removed {
      var t :| Completed(s, cfg, t);
      assert Completed(s', cfg, t);
    }
  }

  lemma LeaveKeeps(cfg: Config, s: System, e: Event)
    requires cfg.Valid() && Inv(cfg, s) && Enabled(cfg, s, e) && (e.Release? || e.Crash?)
    ensures Inv(cfg, Apply(cfg, s, e))
  {
    hide DeedsOf, Progress;
    var s' := Apply(cfg, s, e);
    forall w | w in s'.workers ensures WorkerOk(s', cfg, w) {
      assert WorkerOk(s, cfg, w) && s.workers[w].token != s.workers[e.w].token;
    }
    if s'.row.Some? && s'.row.value.status == Removed {
      var t :| Completed(s, cfg, t);
      assert Completed(s', cfg, t);
    }
  }

  // ---------- what every run shows ----------

  ghost predicate IsRun(cfg: Config, states: seq<System>, events: seq<Event>) {
    && |states| == |events| + 1
    && forall i | 0 <= i < |events| ::
         Enabled(cfg, states[i], events[i]) && states[i + 1] == Apply(cfg, states[i], events[i])
  }

  /** No run yet, and a row that is absent or not yet removed. */
  ghost predicate Initial(s: System) {
    && s.workers == map[] && s.history == [] && s.lease == None
    && (s.row.Some? ==> s.row.value.status != Removed)
  }

  lemma {:induction false} RunKeeps(cfg: Config, states: seq<System>, events: seq<Event>)
    requires cfg.Valid() && IsRun(cfg, states, events) && Initial(states[0])
    ensures forall i | 0 <= i <= |events| :: Inv(cfg, states[i])
    decreases |events|
  {
    hide Inv, Enabled, Apply;
    if events == [] {
      InitialIsInv(cfg, states[0]);
    } else {
      var k := |events| - 1;
      RunKeeps(cfg, states[..k + 1], events[..k]);
      assert Inv(cfg, states[..k + 1][k]);
      StepKeeps(cfg, states[k], events[k]);
      forall i | 0 <= i <= |events| ensures Inv(cfg, states[i]) {
        if i <= k {
          assert states[..k + 1][i] == states[i];
        }
      }
    }
  }

  lemma InitialIsInv(cfg: Config, s: System)
    requires Initial(s)
    ensures Inv(cfg, s)
  {
  }

  /** No step moves the status backwards, and none skips removing. */
  lemma StatusMovesForward(cfg: Config, states: seq<System>, events: seq<Event>, i: int)
    requires cfg.Valid() && IsRun(cfg, states, events) && Initial(states[0]) && 0 <= i < |events|
    requires states[i].row.Some?
    ensures states[i + 1].row.Some?
    ensures Rank(states[i].row.value.status) <= Rank(states[i + 1].row.value.status) <= Rank(states[i].row.value.status) + 1
  {
    hide DeedsOf, Progress;
    RunKeeps(cfg, states, events);
    var s, e := states[i], events[i];
    assert Inv(cfg, s);
    if e.Mark? {
      assert WorkerOk(s, cfg, e.w);
    }
  }

  /** The row is there and active or paused. */
  predicate LiveRow(s: System) {
    s.row.Some? && (s.row.value.status == Active || s.row.value.status == Paused)
  }

  /** A patch that the repository takes. */
  predicate Takes(s: System, p: Patch) {
    LiveRow(s) && (p.status == None || p.status == Some(Active) || p.status == Some(Paused))
  }

  /** The status an event writes, if it writes one. */
  function StatusWritten(s: System, e: Event): Option<Status> {
    match e
    case Create(source) => Some(source.status)
    case PatchIt(p) => if Takes(s, p) then p.status else None
    case Delete => if LiveRow(s) then Some(Removing) else None
    case Mark(_, ok) => if ok && s.row.Some? then Some(Removed) else None
    case _ => None
  }

  function ScopesWritten(s: System, e: Event): Option<seq<string>> {
    match e
    case Create(source) => Some(source.scopes)
    case PatchIt(p) => if Takes(s, p) then p.scopes else None
    case _ => None
  }

  function ConfigWritten(s: System, e: Event): Option<string> {
    match e
    case Create(source) => Some(source.config)
    case WriteConfig(config) => if LiveRow(s) then Some(config) else None
    case _ => None
  }

  /** One step: each column is what the event wrote to it, or what it was. */
  lemma ColumnsStep(cfg: Config, s: System, e: Event)
    requires Enabled(cfg, s, e) && (s.row.Some? || e.Create?)
    ensures var row := Apply(cfg, s, e).row;
            && row.Some?
            && row.value.status == (var w := StatusWritten(s, e); if w.Some? then w.value else s.row.value.status)
            && row.value.scopes == (var w := ScopesWritten(s, e); if w.Some? then w.value else s.row.value.scopes)
            && row.value.config == (var w := ConfigWritten(s, e); if w.Some? then w.value else s.row.value.config)
  {
  }

  /** Over any stretch of any run of patches, configuration writes, deletions and workers, a
      column holds what the last event that wrote it wrote: what event `i` wrote to a column
      stays until another event writes that column. */
  lemma {:induction false} LastWriteStays(cfg: Config, states: seq<System>, events: seq<Event>, i: int, j: int)
    requires IsRun(cfg, states, events) && 0 <= i < j <= |events| && (states[i].row.Some? || events[i].Create?)
    ensures states[j].row.Some?
    ensures && StatusWritten(states[i], events[i]).Some?
            && (forall k | i < k < j :: StatusWritten(states[k], events[k]).None?) ==>
              states[j].row.value.status == StatusWritten(states[i], events[i]).value
    ensures && ScopesWritten(states[i], events[i]).Some?
            && (forall k | i < k < j :: ScopesWritten(states[k], events[k]).None?) ==>
              states[j].row.value.scopes == ScopesWritten(states[i], events[i]).value
    ensures && ConfigWritten(states[i], events[i]).Some?
            && (forall k | i < k < j :: ConfigWritten(states[k], events[k]).None?) ==>
              states[j].row.value.config == ConfigWritten(states[i], events[i]).value
    decreases j
  {
    hide Apply, Enabled, StatusWritten, ScopesWritten, ConfigWritten;
    if j > i + 1 {
      LastWriteStays(cfg, states, events, i, j - 1);
    }
    ColumnsStep(cfg, states[j - 1], events[j - 1]);
  }

  /** Once a source is being removed, nothing but its status ever changes again, and the
      status stays terminal: over any stretch of any run. */
  lemma {:induction false} TerminalIsFrozen(cfg: Config, states: seq<System>, events: seq<Event>, i: int, j: int)
    requires cfg.Valid() && IsRun(cfg, states, events) && Initial(states[0]) && 0 <= i <= j <= |events|
    requires states[i].row.Some? && Terminal(states[i].row.value.status)
    ensures states[j].row.Some? && Terminal(states[j].row.value.status)
    ensures states[j].row.value == states[i].row.value.(status := states[j].row.value.status)
    ensures states[i].row.value.status == Removed ==> states[j].row == states[i].row
    decreases j
  {
    hide Initial;
    if i < j {
      TerminalIsFrozen(cfg, states, events, i, j - 1);
      assert states[j] == Apply(cfg, states[j - 1], events[j - 1]);
    }
  }

  /** A source is removed only by a run that, in this order and with nothing in between,
      took its lease, saw the row in removing, had every sweeper succeed in order, and then
      marked it. */
  lemma RemovedOnlyAfterSweeping(cfg: Config, states: seq<System>, events: seq<Event>) returns (token: nat)
    requires cfg.Valid() && IsRun(cfg, states, events) && Initial(states[0])
    requires states[|events|].row.Some? && states[|events|].row.value.status == Removed
    ensures DeedsOf(states[|events|].history, token) == Progress(token, cfg.sweepers) + [Marked(token)]
  {
    RunKeeps(cfg, states, events);
    assert Inv(cfg, states[|events|]);
    token :| Completed(states[|events|], cfg, token);
  }

  /** Two runs overlap only when one of them has outlived its lease: while a run is within
      its time to live it holds the lease, and no other run does. */
  lemma OverlapOnlyPastTtl(cfg: Config, states: seq<System>, events: seq<Event>, a: nat, b: nat)
    requires cfg.Valid() && IsRun(cfg, states, events) && Initial(states[0])
    requires var s := states[|events|]; a in s.workers && b in s.workers && a != b
    ensures var s := states[|events|];
            s.now >= s.workers[a].acquiredAt + cfg.ttl || s.now >= s.workers[b].acquiredAt + cfg.ttl
  {
    hide DeedsOf, Progress;
    RunKeeps(cfg, states, events);
    var s := states[|events|];
    assert Inv(cfg, s);
    assert WorkerOk(s, cfg, a) && WorkerOk(s, cfg, b);
  }

  /** And past it they do overlap: for every configuration, a run that sleeps through its
      lease and a second run end up sweeping the same source side by side. */
  lemma OverlapWitness(cfg: Config, s: System, source: Source) returns (states: seq<System>, events: seq<Event>)
    requires cfg.Valid() && Initial(s) && s.row == Some(source) && source.status == Removing && s.used == {}
    ensures IsRun(cfg, states, events) && states[0] == s
    ensures var end := states[|events|];
            && 0 in end.workers && 1 in end.workers
            && end.workers[0].place == end.workers[1].place == Sweeping(0)
  {
    hide MarkRemovedRow, UpdateRow, UpdateConfigRow, MarkRemovingRow;
    var e1, e2, e3, e4, e5, e6 := Acquire(0, 0), Check(0, true), Pass(cfg.ttl), Expire, Acquire(1, 1), Check(1, true);
    var s1 := Apply(cfg, s, e1);
    var s2 := Apply(cfg, s1, e2);
    var s3 := Apply(cfg, s2, e3);
    var s4 := Apply(cfg, s3, e4);
    var s5 := Apply(cfg, s4, e5);
    var s6 := Apply(cfg, s5, e6);
    states, events := [s, s1, s2, s3, s4, s5, s6], [e1, e2, e3, e4, e5, e6];
  }

  /** A release never removes a lease carrying another run's token, and so every other run
      still within its time to live keeps its lease. */
  lemma ReleaseSparesOthers(cfg: Config, states: seq<System>, events: seq<Event>, i: int, b: nat)
    requires cfg.Valid() && IsRun(cfg, states, events) && Initial(states[0]) && 0 <= i < |events|
    requires events[i].Release? && b in states[i].workers && b != events[i].w
    ensures var s := states[i];
            s.lease.Some? && s.lease.value.token == s.workers[b].token ==> states[i + 1].lease == s.lease
    ensures var s := states[i];
            s.now < s.workers[b].acquiredAt + cfg.ttl ==>
              states[i + 1].lease == s.lease && s.lease.Some? && s.lease.value.token == s.workers[b].token
  {
    hide DeedsOf, Progress;
    RunKeeps(cfg, states, events);
    var s := states[i];
    assert Inv(cfg, s);
    assert WorkerOk(s, cfg, b) && WorkerOk(s, cfg, events[i].w);
  }

  // ---------- one undisturbed run ----------

  datatype Outcome =
    | MissingIds | TokenFailed | LeaseFailed | LeaseHeld
    | LoadFailed | NotRemoving | SweepFailed(i: nat) | MarkFailed | Purged

  /** How the job, the random source, Redis and the stores answer one run. */
  datatype Answers = Answers(idsOk: bool, randOk: bool, leaseOk: bool, loadOk: bool, sweepOk: nat -> bool, markOk: bool,
                             auditOk: bool, releaseOk: bool)

  predicate NeverStarted(o: Outcome) {
    o == MissingIds || o == TokenFailed || o == LeaseFailed || o == LeaseHeld
  }

  /** The outcome owed by a run that starts on this row with the lease free. */
  ghost predicate Owed(cfg: Config, row: Option<Source>, a: Answers, o: Outcome) {
    match o
    case LoadFailed => !a.loadOk || row.None?
    case NotRemoving => a.loadOk && row.Some? && row.value.status != Removing
    case SweepFailed(i) => a.loadOk && row.Some? && row.value.status == Removing && i < cfg.sweepers
                           && !a.sweepOk(i) && forall j | 0 <= j < i :: a.sweepOk(j)
    case MarkFailed => a.loadOk && row.Some? && row.value.status == Removing && !a.markOk
                       && forall j | 0 <= j < cfg.sweepers :: a.sweepOk(j)
    case Purged => a.loadOk && row.Some? && row.value.status == Removing && a.markOk
                   && forall j | 0 <= j < cfg.sweepers :: a.sweepOk(j)
    case _ => false
  }

  lemma OwedEarly(cfg: Config, row: Option<Source>, a: Answers)
    requires !(a.loadOk && row.Some? && row.value.status == Removing)
    ensures Owed(cfg, row, a, if !a.loadOk || row.None? then LoadFailed else NotRemoving)
  {
  }

  lemma OwedLate(cfg: Config, row: Option<Source>, a: Answers, done: nat)
    requires a.loadOk && row.Some? && row.value.status == Removing && done <= cfg.sweepers
    requires (forall j | 0 <= j < done :: a.sweepOk(j)) && (done < cfg.sweepers ==> !a.sweepOk(done))
    ensures Owed(cfg, row, a, if done < cfg.sweepers then SweepFailed(done) else if a.markOk then Purged else MarkFailed)
  {
  }

  lemma RunSnoc(cfg: Config, states: seq<System>, events: seq<Event>, e: Event)
    requires IsRun(cfg, states, events) && Enabled(cfg, states[|events|], e)
    ensures IsRun(cfg, states + [Apply(cfg, states[|events|], e)], events + [e])
  {
  }

  /** The runs with run `w` at another place. */
  function At(workers: map<nat, Worker>, w: nat, place: Place): (r: map<nat, Worker>)
    requires w in workers
    ensures w in r && r[w].place == place
  {
    workers[w := workers[w].(place := place)]
  }

  lemma AtTwice(workers: map<nat, Worker>, w: nat, p: Place, q: Place)
    requires w in workers
    ensures At(At(workers, w, p), w, q) == At(workers, w, q)
  {
  }

  lemma AtOwnPlace(workers: map<nat, Worker>, w: nat)
    requires w in workers
    ensures At(workers, w, workers[w].place) == workers
  {
  }

  /** Where a run is after a load, a sweep or a mark. */
  function PlaceAfter(s: System, e: Event): Place
    requires (e.Check? || e.Sweep? || e.Mark?) && (e.Sweep? ==> e.w in s.workers && s.workers[e.w].place.Sweeping?)
  {
    match e
    case Check(_, loadOk) =>
      if loadOk && s.row.Some? && s.row.value.status == Removing then Sweeping(0) else Finished
    case Sweep(w, ok) => if ok then Sweeping(s.workers[w].place.next + 1) else Finished
    case Mark(_, _) => Finished
  }

  /** Load, sweep and mark move their own run and, the last alone, the row. */
  lemma WorkStep(cfg: Config, s: System, e: Event)
    requires (e.Check? || e.Sweep? || e.Mark?) && Enabled(cfg, s, e)
    ensures var s' := Apply(cfg, s, e);
            && s'.lease == s.lease && e.w in s'.workers
            && s'.workers == At(s.workers, e.w, PlaceAfter(s, e))
            && s'.row == (if e.Mark? && e.ok then MarkRemovedRow(s.row).row else s.row)
  {
  }

  /** What taking the lease, giving it back and dying do to the lease and the runs. */
  lemma LeaseStep(cfg: Config, s: System, e: Event)
    requires (e.Acquire? || e.Release? || e.Crash?) && Enabled(cfg, s, e)
    ensures var s' := Apply(cfg, s, e);
            && s'.row == s.row
            && match e
               case Acquire(w, token) =>
                 && s'.lease == Some(Lease(token, s.now + cfg.ttl))
                 && s'.workers == s.workers[w := Worker(token, s.now, Holding)]
               case Release(w) =>
                 && s'.workers == s.workers - {w}
                 && s'.lease == if s.lease.Some? && s.lease.value.token == s.workers[w].token then None else s.lease
               case Crash(w) => s'.workers == s.workers - {w} && s'.lease == s.lease
  {
  }

  class ForgetWorker {
    const cfg: Config
    var system: System
    /** How many `source.purged` events were written. */
    var purged: nat
    ghost var states: seq<System>
    ghost var events: seq<Event>

    /** The recorded steps are a run that ends in the present state. */
    ghost predicate Valid()
      reads this`system, this`states, this`events
    {
      |states| == |events| + 1 && IsRun(cfg, states, events) && states[|events|] == system
    }

    constructor (cfg: Config, system: System)
      ensures Valid() && this.cfg == cfg && this.system == system && states == [system] && purged == 0
    {
      purged := 0;
      this.cfg := cfg;
      this.system := system;
      states := [system];
      events := [];
    }

    method Step(e: Event)
      requires Valid() && Enabled(cfg, system, e)
      modifies this`system, this`states, this`events
      ensures Valid() && system == Apply(cfg, old(system), e)
      ensures states == old(states) + [system] && events == old(events) + [e]
    {
      hide IsRun, Apply, Enabled;
      RunSnoc(cfg, states, events, e);
      system := Apply(cfg, system, e);
      states, events := states + [system], events + [e];
    }

    /** `Run` with nobody interfering: its steps extend the recorded run, the row becomes
        removed exactly when everything succeeded, and the lease is given back unless the
        release fails. Nothing happens when the run does not get its lease. */
    method Run(w: nat, token: nat, a: Answers) returns (o: Outcome)
      requires Valid() && w !in system.workers && token !in system.used
      modifies this
      ensures Valid() && old(states) <= states && old(events) <= events
      ensures o == MissingIds <==> !a.idsOk
      ensures o == TokenFailed <==> a.idsOk && !a.randOk
      ensures o == LeaseFailed <==> a.idsOk && a.randOk && !a.leaseOk
      ensures o == LeaseHeld <==> a.idsOk && a.randOk && a.leaseOk && old(system.lease).Some?
      ensures NeverStarted(o) ==> system == old(system) && purged == old(purged)
      ensures !NeverStarted(o) ==>
                && Owed(cfg, old(system.row), a, o) && system.workers == old(system.workers)
                && system.lease == (if a.releaseOk then None else Some(Lease(token, old(system.now) + cfg.ttl)))
                && system.row == (if o == Purged then MarkRemovedRow(old(system.row)).row else old(system.row))
                && purged == old(purged) + if o == Purged && a.auditOk then 1 else 0
    {
      hide IsRun, Valid, Apply, Owed, MarkRemovedRow;
      if !a.idsOk {
        return MissingIds;
      }
      if !a.randOk {
        return TokenFailed;
      }
      if !a.leaseOk {
        return LeaseFailed;
      }
      if system.lease.Some? {
        return LeaseHeld;
      }
      LeaseStep(cfg, system, Acquire(w, token));
      Step(Acquire(w, token));
      o := Work(w, a);
      if o == Purged && a.auditOk {
        purged := purged + 1;
      }
      LeaseStep(cfg, system, if a.releaseOk then Release(w) else Crash(w));
      Step(if a.releaseOk then Release(w) else Crash(w));
      assert system.workers == old(system.workers);
    }

    /** One of the load, sweep and mark steps of a run. */
    method StepWork(w: nat, e: Event)
      requires Valid() && (e.Check? || e.Sweep? || e.Mark?) && e.w == w && Enabled(cfg, system, e)
      modifies this`system, this`states, this`events
      ensures Valid() && old(states) <= states && old(events) <= events
      ensures system.lease == old(system.lease) && w in system.workers
      ensures system.workers == At(old(system.workers), w, system.workers[w].place)
      ensures system.row == if e.Mark? && e.ok then MarkRemovedRow(old(system.row)).row else old(system.row)
      ensures system.workers[w].place == PlaceAfter(old(system), e)
    {
      hide IsRun, Apply, Enabled, Valid;
      WorkStep(cfg, system, e);
      Step(e);
    }

    /** Runs the sweepers in order up to the first that fails. */
    method SweepAll(w: nat, a: Answers) returns (done: nat)
      requires Valid() && w in system.workers && system.workers[w].place == Sweeping(0)
      modifies this`system, this`states, this`events
      ensures Valid() && old(states) <= states && old(events) <= events
      ensures done <= cfg.sweepers && (done < cfg.sweepers ==> !a.sweepOk(done))
      ensures forall j | 0 <= j < done :: a.sweepOk(j)
      ensures system.row == old(system.row) && system.lease == old(system.lease)
      ensures system.workers == At(old(system.workers), w, if done < cfg.sweepers then Finished else Sweeping(done))
    {
      hide Valid, At;
      ghost var before := system.workers;
      AtOwnPlace(before, w);
      for i := 0 to cfg.sweepers
        invariant Valid() && old(states) <= states && old(events) <= events
        invariant system.row == old(system.row) && system.lease == old(system.lease)
        invariant w in system.workers
        invariant system.workers == At(old(system.workers), w, Sweeping(i))
        invariant forall j | 0 <= j < i :: a.sweepOk(j)
      {
        AtTwice(before, w, Sweeping(i), Sweeping(i + 1));
        AtTwice(before, w, Sweeping(i), Finished);
        StepWork(w, Sweep(w, a.sweepOk(i)));
        if !a.sweepOk(i) {
          return i;
        }
      }
      return cfg.sweepers;
    }

    method Work(w: nat, a: Answers) returns (o: Outcome)
      requires Valid() && w in system.workers && system.workers[w].place == Holding
      modifies this`system, this`states, this`events
      ensures Valid() && old(states) <= states && old(events) <= events
      ensures !NeverStarted(o) && Owed(cfg, old(system.row), a, o)
      ensures system.row == if o == Purged then MarkRemovedRow(old(system.row)).row else old(system.row)
      ensures system.lease == old(system.lease)
      ensures system.workers == At(old(system.workers), w, Finished)
    {
      hide Valid, MarkRemovedRow, At, Owed;
      ghost var before := system.workers;
      StepWork(w, Check(w, a.loadOk));
      if system.workers[w].place == Finished {
        OwedEarly(cfg, system.row, a);
        return if !a.loadOk || system.row.None? then LoadFailed else NotRemoving;
      }
      AtTwice(before, w, Sweeping(0), Finished);
      AtTwice(before, w, Sweeping(0), Sweeping(cfg.sweepers));
      AtTwice(before, w, Sweeping(cfg.sweepers), Finished);
      var done := SweepAll(w, a);
      OwedLate(cfg, system.row, a, done);
      if done < cfg.sweepers {
        return SweepFailed(done);
      }
      StepWork(w, Mark(w, a.markOk));
      return if a.markOk then Purged else MarkFailed;
    }
  }
}
