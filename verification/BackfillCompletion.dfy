/** The completion emitter (internal/admin/backfill_completion.go): subscribers with bounded
    channels, a dedup set, and an emit whose audit write runs between two critical sections. */
module BackfillCompletion {
  import opened Text

  datatype Completed = Completed(tenantId: string, sourceId: string)

  function KeyOf(ev: Completed): string {
    ev.tenantId + ['|'] + ev.sourceId
  }

  const CAPACITY: nat := 16

  /** A Go channel with its reader: what is buffered, what has been received, closed or not. */
  datatype Channel = Channel(buffer: seq<Completed>, received: seq<Completed>, closed: bool)

  /** What the mutex guards; a channel is its index. `panicked` records a send on a closed
      channel or a second close. */
  datatype Guarded = Guarded(channels: seq<Channel>, subscribers: seq<nat>, seen: set<string>, panicked: bool)

  // ---------- the critical sections ----------

  function SubscribeIn(g: Guarded): Guarded {
    g.(channels := g.channels + [Channel([], [], false)], subscribers := g.subscribers + [|g.channels|])
  }

  /** The first position of a channel in the subscriber list. */
  function Find(subscribers: seq<nat>, c: nat): (i: nat)
    ensures i <= |subscribers| && c !in subscribers[..i]
    ensures i < |subscribers| <==> c in subscribers
    ensures i < |subscribers| ==> subscribers[i] == c
  {
    if subscribers == [] then 0
    else if subscribers[0] == c then 0
    else
      var k := Find(subscribers[1..], c);
      assert subscribers[..k + 1] == [subscribers[0]] + subscribers[1..][..k];
      k + 1
  }

  function UnsubscribeIn(g: Guarded, c: nat): Guarded
    requires c in g.subscribers ==> c < |g.channels|
  {
    var i := Find(g.subscribers, c);
    if i == |g.subscribers| then g
    else
      g.(subscribers := g.subscribers[..i] + g.subscribers[i + 1..],
         channels := g.channels[c := g.channels[c].(closed := true)],
         panicked := g.panicked || g.channels[c].closed)
  }

  /** A non-blocking send: dropped when the buffer is full. */
  function Push(ch: Channel, ev: Completed): Channel {
    if |ch.buffer| < CAPACITY then ch.(buffer := ch.buffer + [ev]) else ch
  }

  function SendTo(g: Guarded, c: nat, ev: Completed): Guarded
    requires c < |g.channels|
  {
    if g.channels[c].closed then g.(panicked := true)
    else g.(channels := g.channels[c := Push(g.channels[c], ev)])
  }

  predicate InRange(g: Guarded) {
    forall i | 0 <= i < |g.subscribers| :: g.subscribers[i] < |g.channels|
  }

  /** The fan-out to the first `n` subscribers. */
  function FanOut(g: Guarded, ev: Completed, n: nat): (r: Guarded)
    requires InRange(g) && n <= |g.subscribers|
    ensures |r.channels| == |g.channels| && r.subscribers == g.subscribers && r.seen == g.seen
  {
    if n == 0 then g else SendTo(FanOut(g, ev, n - 1), g.subscribers[n - 1], ev)
  }

  // ---------- the protocol ----------

  /** `emitting` are the calls between their two critical sections, `emitted` the events of
      the calls that returned true, in order, `marked` every pair ever marked or emitted. */
  datatype State = State(g: Guarded, emitting: map<nat, Completed>, emitted: seq<Completed>, marked: set<Completed>)

  datatype Event =
    | Subscribe
    | Unsubscribe(c: nat)
    | Receive(c: nat)
    | MarkSeen(ev: Completed)
    | EmitBegin(who: nat, ev: Completed)
    | EmitEnd(who: nat)

  predicate Enabled(s: State, e: Event) {
    match e
    case Subscribe => true
    case Unsubscribe(c) => c < |s.g.channels|
    case Receive(c) => c < |s.g.channels| && s.g.channels[c].buffer != []
    case MarkSeen(_) => true
    case EmitBegin(who, _) => who !in s.emitting
    case EmitEnd(who) => who in s.emitting && InRange(s.g)
  }

  /** The first section of `Emit` lets a call through: its pair is named and its key new. */
  predicate Admits(g: Guarded, ev: Completed) {
    ev.tenantId != "" && ev.sourceId != "" && KeyOf(ev) !in g.seen
  }

  function Apply(s: State, e: Event): State
    requires Enabled(s, e)
  {
    match e
    case Subscribe => s.(g := SubscribeIn(s.g))
    case Unsubscribe(c) => s.(g := UnsubscribeIn(s.g, c))
    case Receive(c) =>
      var ch := s.g.channels[c];
      s.(g := s.g.(channels := s.g.channels[c := ch.(buffer := ch.buffer[1..], received := ch.received + [ch.buffer[0]])]))
    case MarkSeen(ev) => s.(g := s.g.(seen := s.g.seen + {KeyOf(ev)}), marked := s.marked + {ev})
    case EmitBegin(who, ev) =>
      if !Admits(s.g, ev) then s
      else s.(g := s.g.(seen := s.g.seen + {KeyOf(ev)}), emitting := s.emitting[who := ev], marked := s.marked + {ev})
    case EmitEnd(who) =>
      s.(g := FanOut(s.g, s.emitting[who], |s.g.subscribers|), emitting := s.emitting - {who},
         emitted := s.emitted + [s.emitting[who]])
  }

  // ---------- what every step keeps ----------

  /** `a` is `b` with some elements left out. */
  predicate Subsequence(a: seq<Completed>, b: seq<Completed>) {
    a == [] ||
    (b != [] &&
     (Subsequence(a, b[..|b| - 1])
      || (a[|a| - 1] == b[|b| - 1] && Subsequence(a[..|a| - 1], b[..|b| - 1]))))
  }

  function Stream(ch: Channel): seq<Completed> {
    ch.received + ch.buffer
  }

  /** A channel is open exactly while it is subscribed, once; no buffer overflows. */
  ghost predicate ChannelsOk(g: Guarded) {
    && InRange(g) && !g.panicked
    && (forall i, j | 0 <= i < j < |g.subscribers| :: g.subscribers[i] != g.subscribers[j])
    && (forall c: nat | c < |g.channels| :: !g.channels[c].closed <==> c in g.subscribers)
    && (forall c: nat | c < |g.channels| :: |g.channels[c].buffer| <= CAPACITY)
  }

  ghost predicate EmitsOk(s: State) {
    && (forall i, j | 0 <= i < j < |s.emitted| :: KeyOf(s.emitted[i]) != KeyOf(s.emitted[j]))
    && (forall i, w | 0 <= i < |s.emitted| && w in s.emitting :: KeyOf(s.emitted[i]) != KeyOf(s.emitting[w]))
    && (forall v, w | v in s.emitting && w in s.emitting && v != w :: KeyOf(s.emitting[v]) != KeyOf(s.emitting[w]))
    && (forall i | 0 <= i < |s.emitted| :: KeyOf(s.emitted[i]) in s.g.seen)
    && (forall w | w in s.emitting :: KeyOf(s.emitting[w]) in s.g.seen)
    && (forall k :: k in s.g.seen <==> exists ev :: ev in s.marked && KeyOf(ev) == k)
  }

  ghost predicate StreamsOk(s: State) {
    forall c: nat | c < |s.g.channels| :: Subsequence(Stream(s.g.channels[c]), s.emitted)
  }

  ghost predicate Inv(s: State) {
    ChannelsOk(s.g) && EmitsOk(s) && StreamsOk(s)
  }

  lemma SubsequenceSnoc(a: seq<Completed>, b: seq<Completed>, x: Completed)
    requires Subsequence(a, b)
    ensures Subsequence(a, b + [x]) && Subsequence(a + [x], b + [x])
  {
  }

  /** The fan-out pushes to exactly the subscribed channels, once each, and never panics. */
  lemma {:induction false} FanOutIs(g: Guarded, ev: Completed, n: nat)
    requires ChannelsOk(g) && n <= |g.subscribers|
    ensures var r := FanOut(g, ev, n);
            && !r.panicked
            && forall c: nat | c < |g.channels| ::
                 r.channels[c] == if c in g.subscribers[..n] then Push(g.channels[c], ev) else g.channels[c]
  {
    if n > 0 {
      FanOutIs(g, ev, n - 1);
      var c := g.subscribers[n - 1];
      assert c !in g.subscribers[..n - 1];
      assert g.subscribers[..n] == g.subscribers[..n - 1] + [c];
    }
  }

  lemma UnsubscribeKeeps(g: Guarded, c: nat)
    requires ChannelsOk(g)
    ensures ChannelsOk(UnsubscribeIn(g, c))
    ensures c !in UnsubscribeIn(g, c).subscribers
    ensures c < |g.channels| ==> UnsubscribeIn(g, c).channels[c].closed
    ensures var r := UnsubscribeIn(g, c);
            && |r.channels| == |g.channels| && r.seen == g.seen
            && (forall d: nat | d != c :: d in r.subscribers <==> d in g.subscribers)
            && (forall d: nat | d != c && d < |g.channels| :: r.channels[d] == g.channels[d])
  {
    hide Find;
    var r := UnsubscribeIn(g, c);
    var i := Find(g.subscribers, c);
    if i < |g.subscribers| {
      forall d: nat ensures d in r.subscribers <==> d in g.subscribers && d != c {
        if d in g.subscribers && d != c {
          var k :| 0 <= k < |g.subscribers| && g.subscribers[k] == d;
          assert k < i || k > i;
          assert d == if k < i then r.subscribers[k] else r.subscribers[k - 1];
        }
      }
    }
  }

  lemma FanOutKeeps(g: Guarded, ev: Completed)
    requires ChannelsOk(g)
    ensures ChannelsOk(FanOut(g, ev, |g.subscribers|))
  {
    FanOutIs(g, ev, |g.subscribers|);
  }

  lemma ChannelsKept(s: State, e: Event)
    requires Inv(s) && Enabled(s, e)
    ensures ChannelsOk(Apply(s, e).g)
  {
    hide EmitsOk, StreamsOk, FanOut, KeyOf;
    match e {
      case Subscribe =>
      case Unsubscribe(c) => UnsubscribeKeeps(s.g, c);
      case Receive(c) =>
      case MarkSeen(_) =>
      case EmitBegin(_, _) =>
      case EmitEnd(who) => FanOutKeeps(s.g, s.emitting[who]);
    }
  }

  lemma EmitsKept(s: State, e: Event)
    requires Inv(s) && Enabled(s, e)
    ensures EmitsOk(Apply(s, e))
  {
    hide ChannelsOk, StreamsOk, KeyOf, Find;
    var s' := Apply(s, e);
    if s'.marked != s.marked {
      var ev := e.ev;
      forall k ensures k in s'.g.seen <==> exists x :: x in s'.marked && KeyOf(x) == k {
        if k == KeyOf(ev) {
          assert ev in s'.marked;
        } else if k in s.g.seen {
          var x :| x in s.marked && KeyOf(x) == k;
          assert x in s'.marked;
        }
      }
    }
  }

  lemma StreamsKept(s: State, e: Event)
    requires Inv(s) && Enabled(s, e)
    ensures StreamsOk(Apply(s, e))
  {
    hide EmitsOk, Subsequence, FanOut, KeyOf, Find;
    var s' := Apply(s, e);
    forall c: nat | c < |s'.g.channels| ensures Subsequence(Stream(s'.g.channels[c]), s'.emitted) {
      if c < |s.g.channels| {
        var a, b := Stream(s.g.channels[c]), Stream(s'.g.channels[c]);
        assert Subsequence(a, s.emitted);
        if e.EmitEnd? {
          var ev := s.emitting[e.who];
          FanOutIs(s.g, ev, |s.g.subscribers|);
          SubsequenceSnoc(a, s.emitted, ev);
          assert b == a || b == a + [ev];
        } else {
          assert b == a;
        }
      } else {
        assert Stream(s'.g.channels[c]) == [];
        NothingReceived(s.emitted);
      }
    }
  }

  lemma NothingReceived(b: seq<Completed>)
    ensures Subsequence([], b)
  {
  }

  ghost predicate IsRun(states: seq<State>, events: seq<Event>) {
    && |states| == |events| + 1
    && forall i | 0 <= i < |events| :: Enabled(states[i], events[i]) && states[i + 1] == Apply(states[i], events[i])
  }

  ghost predicate Initial(s: State) {
    s == State(Guarded([], [], {}, false), map[], [], {})
  }

  lemma {:induction false} RunKeeps(states: seq<State>, events: seq<Event>)
    requires IsRun(states, events) && Initial(states[0])
    ensures Inv(states[|events|])
    decreases |events|
  {
    hide Enabled, Apply, ChannelsOk, EmitsOk, StreamsOk;
    if events == [] {
      InitialIsInv(states[0]);
    } else {
      var k := |events| - 1;
      RunKeeps(states[..k + 1], events[..k]);
      ChannelsKept(states[k], events[k]);
      EmitsKept(states[k], events[k]);
      StreamsKept(states[k], events[k]);
    }
  }

  lemma InitialIsInv(s: State)
    requires Initial(s)
    ensures Inv(s)
  {
  }

  /** In every interleaving of subscriptions, cancellations, reads and emits, audit writes
      included: no send meets a closed channel and no channel is closed twice, no buffer
      exceeds its capacity, and at most one emit per key returns true. */
  lemma EmitterIsSafe(states: seq<State>, events: seq<Event>)
    requires IsRun(states, events) && Initial(states[0])
    ensures var s := states[|events|];
            && !s.g.panicked
            && (forall c: nat | c < |s.g.channels| :: |s.g.channels[c].buffer| <= CAPACITY)
            && (forall i, j | 0 <= i < j < |s.emitted| :: KeyOf(s.emitted[i]) != KeyOf(s.emitted[j]))
  {
    RunKeeps(states, events);
  }

  /** Each subscriber sees the emitted events in emission order, none twice. */
  lemma StreamsAreOrdered(states: seq<State>, events: seq<Event>, c: nat)
    requires IsRun(states, events) && Initial(states[0]) && c < |states[|events|].g.channels|
    ensures var s := states[|events|];
            var stream := Stream(s.g.channels[c]);
            && Subsequence(stream, s.emitted)
            && forall i, j | 0 <= i < j < |stream| :: KeyOf(stream[i]) != KeyOf(stream[j])
  {
    hide KeyOf;
    RunKeeps(states, events);
    var s := states[|events|];
    SubsequenceDistinct(Stream(s.g.channels[c]), s.emitted);
  }

  lemma {:induction false} SubsequenceDistinct(a: seq<Completed>, b: seq<Completed>)
    requires Subsequence(a, b)
    requires forall i, j | 0 <= i < j < |b| :: KeyOf(b[i]) != KeyOf(b[j])
    ensures forall i, j | 0 <= i < j < |a| :: KeyOf(a[i]) != KeyOf(a[j])
    ensures forall x | x in a :: x in b
    decreases |b|
  {
    hide KeyOf;
    if a != [] {
      var b' := b[..|b| - 1];
      if Subsequence(a, b') {
        SubsequenceDistinct(a, b');
      } else {
        var a', x := a[..|a| - 1], a[|a| - 1];
        SubsequenceDistinct(a', b');
        assert a == a' + [x] && b == b' + [x];
        forall i | 0 <= i < |a'| ensures KeyOf(a'[i]) != KeyOf(x) {
          assert a'[i] in b';
        }
      }
    }
  }

  /** Two different pairs share a key exactly when one tenant id extends the other across a
      separator and the source ids make up for it. */
  ghost predicate Collide(a: Completed, b: Completed) {
    PairsCollide((a.tenantId, a.sourceId), (b.tenantId, b.sourceId), '|')
  }

  lemma CollideExactlyWhen(a: Completed, b: Completed)
    ensures Collide(a, b) <==> KeyOf(a) == KeyOf(b) && a != b
  {
    PairsCollideExactlyWhen((a.tenantId, a.sourceId), (b.tenantId, b.sourceId), '|');
  }

  /** In every run, an emit is let through exactly when both its ids are given and neither its
      pair nor one that collides with it was marked or emitted before. */
  lemma SuppressedExactlyWhenMarked(states: seq<State>, events: seq<Event>, ev: Completed)
    requires IsRun(states, events) && Initial(states[0])
    ensures Admits(states[|events|].g, ev) <==>
            && ev.tenantId != "" && ev.sourceId != ""
            && forall x | x in states[|events|].marked :: x != ev && !Collide(x, ev)
  {
    hide Collide, KeyOf;
    RunKeeps(states, events);
    var s := states[|events|];
    forall x ensures Collide(x, ev) <==> KeyOf(x) == KeyOf(ev) && x != ev {
      CollideExactlyWhen(x, ev);
    }
  }

  /** Tenant ids without the separator never collide. */
  lemma PlainTenantsNeverCollide(a: Completed, b: Completed)
    requires '|' !in a.tenantId && '|' !in b.tenantId
    ensures !Collide(a, b)
  {
  }

  /** A run that refuses a pair nobody ever marked or emitted. */
  lemma KeyCollisionWitness() returns (states: seq<State>, events: seq<Event>)
    ensures IsRun(states, events) && Initial(states[0])
    ensures var ev, s := Completed("a", "b|c"), states[|events|];
            ev !in s.marked && !Admits(s.g, ev)
  {
    var first := State(Guarded([], [], {}, false), map[], [], {});
    events := [MarkSeen(Completed("a|b", "c"))];
    states := [first, Apply(first, events[0])];
    assert KeyOf(Completed("a|b", "c")) == KeyOf(Completed("a", "b|c"));
  }

  /** What one step adds to the stream of an open channel: the event of a finishing emit, if
      the buffer has room. */
  lemma StreamStep(s: State, e: Event, c: nat)
    requires ChannelsOk(s.g) && Enabled(s, e) && c in s.g.subscribers && e != Unsubscribe(c)
    ensures var s' := Apply(s, e);
            && c in s'.g.subscribers && c < |s'.g.channels|
            && Stream(s'.g.channels[c])
               == Stream(s.g.channels[c])
                  + (if e.EmitEnd? && |s.g.channels[c].buffer| < CAPACITY then [s.emitting[e.who]] else [])
            && s'.emitted == s.emitted + (if e.EmitEnd? then [s.emitting[e.who]] else [])
  {
    match e {
      case Subscribe =>
      case Unsubscribe(d) => UnsubscribeKeeps(s.g, d);
      case Receive(d) =>
      case MarkSeen(_) =>
      case EmitBegin(_, _) =>
      case EmitEnd(who) =>
        FanOutIs(s.g, s.emitting[who], |s.g.subscribers|);
        assert s.g.subscribers[..|s.g.subscribers|] == s.g.subscribers;
        var ch, ev := s.g.channels[c], s.emitting[who];
        assert ch.received + (ch.buffer + [ev]) == Stream(ch) + [ev];
    }
  }

  /** The channel is subscribed at `i` and not cancelled before `j`. */
  ghost predicate Listens(states: seq<State>, events: seq<Event>, c: nat, i: int, j: int)
    requires |states| == |events| + 1 && 0 <= i <= j <= |events|
  {
    c in states[i].g.subscribers && forall k | i <= k < j :: events[k] != Unsubscribe(c)
  }

  /** Whenever an emit finishes, the channel has room. */
  ghost predicate KeepsUp(states: seq<State>, events: seq<Event>, c: nat, i: int, j: int)
    requires |states| == |events| + 1 && 0 <= i <= j <= |events|
  {
    forall k | i <= k < j && events[k].EmitEnd? && c < |states[k].g.channels| ::
      |states[k].g.channels[c].buffer| < CAPACITY
  }

  /** In every run, a subscriber gets every event emitted while it listens, in order, exactly
      when it keeps up: with room in its buffer at each of them. */
  lemma {:induction false} DeliveredExactlyWhenKeepingUp(states: seq<State>, events: seq<Event>, c: nat, i: int, j: int)
    requires IsRun(states, events) && Initial(states[0]) && 0 <= i <= j <= |events| && Listens(states, events, c, i, j)
    ensures c in states[j].g.subscribers && c < |states[i].g.channels| && c < |states[j].g.channels|
    ensures states[i].emitted <= states[j].emitted
    ensures var news := states[j].emitted[|states[i].emitted|..];
            && |Stream(states[j].g.channels[c])| <= |Stream(states[i].g.channels[c])| + |news|
            && (Stream(states[j].g.channels[c]) == Stream(states[i].g.channels[c]) + news
                <==> KeepsUp(states, events, c, i, j))
    decreases j
  {
    hide Apply, Enabled, ChannelsOk, EmitsOk, StreamsOk, Stream;
    RunKeeps(states[..i + 1], events[..i]);
    InRangeOf(states[i].g, c);
    if i == j {
      assert states[j].emitted[|states[i].emitted|..] == [];
    } else {
      DeliveredExactlyWhenKeepingUp(states, events, c, i, j - 1);
      RunKeeps(states[..j], events[..j - 1]);
      StreamStep(states[j - 1], events[j - 1], c);
      StreamGrows(states[i].emitted, states[j - 1].emitted, states[j].emitted);
      var a, p := Stream(states[i].g.channels[c]), Stream(states[j - 1].g.channels[c]);
      var news := states[j - 1].emitted[|states[i].emitted|..];
      if events[j - 1].EmitEnd? {
        var x := states[j].emitted[|states[j - 1].emitted|];
        assert states[j].emitted[|states[j - 1].emitted|..] == [x];
        OneMore(p, a, news, x);
      } else {
        assert states[j].emitted == states[j - 1].emitted && Stream(states[j].g.channels[c]) == p;
      }
    }
  }

  lemma InRangeOf(g: Guarded, c: nat)
    requires ChannelsOk(g) && c in g.subscribers
    ensures c < |g.channels|
  {
  }

  lemma OneMore(p: seq<Completed>, a: seq<Completed>, news: seq<Completed>, x: Completed)
    ensures p + [x] == a + (news + [x]) <==> p == a + news
  {
    assert a + (news + [x]) == a + news + [x];
    if p + [x] == a + news + [x] {
      assert p == (p + [x])[..|p|] && a + news == (a + news + [x])[..|a + news|];
    }
  }

  lemma StreamGrows(a: seq<Completed>, b: seq<Completed>, d: seq<Completed>)
    requires a <= b <= d
    ensures d[|a|..] == b[|a|..] + d[|b|..]
  {
  }

  /** Keys are never forgotten. */
  lemma {:induction false} SeenGrows(states: seq<State>, events: seq<Event>, i: int, j: int)
    requires IsRun(states, events) && Initial(states[0]) && 0 <= i <= j <= |events|
    ensures states[i].g.seen <= states[j].g.seen
    decreases j
  {
    hide UnsubscribeIn, FanOut;
    if i < j {
      SeenGrows(states, events, i, j - 1);
      SeenStep(states[j - 1], events[j - 1]);
    }
  }

  lemma SeenStep(s: State, e: Event)
    requires Enabled(s, e)
    ensures s.g.seen <= Apply(s, e).g.seen
  {
  }

  /** Marking a pair suppresses it for good: in every run, whatever happens in between, a later
      emit of the pair changes nothing. */
  lemma MarkedIsNeverEmitted(states: seq<State>, events: seq<Event>, i: int, j: int)
    requires IsRun(states, events) && Initial(states[0]) && 0 <= i < j < |events|
    requires events[i].MarkSeen? && events[j].EmitBegin? && events[j].ev == events[i].ev
    ensures states[j + 1] == states[j]
  {
    SeenGrows(states, events, i + 1, j);
    assert states[i + 1] == Apply(states[i], events[i]);
    assert KeyOf(events[i].ev) in states[i + 1].g.seen;
  }

  // ---------- the emitter ----------

  class Emitter {
    var g: Guarded

    constructor ()
      ensures g == Guarded([], [], {}, false)
    {
      g := Guarded([], [], {}, false);
    }

    method Subscribe() returns (c: nat)
      modifies this
      ensures g == SubscribeIn(old(g)) && c == |old(g).channels|
    {
      c := |g.channels|;
      g := g.(channels := g.channels + [Channel([], [], false)]);
      g := g.(subscribers := g.subscribers + [c]);
    }

    /** Scans for the channel; removes and closes it if it is there. */
    method Unsubscribe(c: nat)
      requires ChannelsOk(g)
      modifies this
      ensures g == UnsubscribeIn(old(g), c) && ChannelsOk(g)
    {
      UnsubscribeKeeps(g, c);
      for i := 0 to |g.subscribers|
        invariant g == old(g) && c !in g.subscribers[..i]
      {
        if g.subscribers[i] == c {
          FoundAt(g.subscribers, c, i);
          g := g.(subscribers := g.subscribers[..i] + g.subscribers[i + 1..],
                  channels := g.channels[c := g.channels[c].(closed := true)]);
          return;
        }
      }
      assert g.subscribers[..|g.subscribers|] == g.subscribers;
    }

    method MarkSeen(ev: Completed)
      modifies this
      ensures g == old(g).(seen := old(g).seen + {KeyOf(ev)})
    {
      g := g.(seen := g.seen + {KeyOf(ev)});
    }

    /** The first critical section of `Emit`. */
    method Admit(ev: Completed) returns (admitted: bool)
      modifies this
      ensures admitted == Admits(old(g), ev)
      ensures g == if admitted then old(g).(seen := old(g).seen + {KeyOf(ev)}) else old(g)
    {
      if ev.tenantId == "" || ev.sourceId == "" {
        return false;
      }
      if KeyOf(ev) in g.seen {
        return false;
      }
      g := g.(seen := g.seen + {KeyOf(ev)});
      return true;
    }

    /** The second critical section: a non-blocking send to each current subscriber. */
    method Notify(ev: Completed)
      requires ChannelsOk(g)
      modifies this
      ensures g == FanOut(old(g), ev, |old(g).subscribers|) && ChannelsOk(g)
    {
      FanOutKeeps(g, ev);
      ghost var g0 := g;
      for i := 0 to |g.subscribers|
        invariant g == FanOut(g0, ev, i) && g.subscribers == g0.subscribers
      {
        FanOutIs(g0, ev, i);
        var c := g.subscribers[i];
        assert c !in g0.subscribers[..i];
        var ch := g.channels[c];
        assert !ch.closed;
        if |ch.buffer| < CAPACITY {
          g := g.(channels := g.channels[c := ch.(buffer := ch.buffer + [ev])]);
        }
        assert g.channels == FanOut(g0, ev, i + 1).channels;
      }
    }
  }

  lemma FoundAt(subscribers: seq<nat>, c: nat, i: nat)
    requires i < |subscribers| && subscribers[i] == c && c !in subscribers[..i]
    ensures Find(subscribers, c) == i
  {
  }
}
