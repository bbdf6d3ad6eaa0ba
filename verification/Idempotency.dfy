/** The idempotency middleware (internal/admin/idempotency.go): the codec of cached responses,
    the cache key, and same-key requests racing for the cache. */
module Idempotency {
  import opened Text

  datatype Response = Response(status: int, contentType: string, body: string)

  // ---------- the codec ----------

  function Encode(r: Response): string {
    Itoa(r.status) + ['\n'] + r.contentType + ['\n'] + r.body
  }

  function Decode(b: string): Option<Response> {
    if |b| == 0 then None
    else
      var first := IndexOf(b, '\n');
      if first <= 0 then None
      else
        match Atoi(b[..first])
        case None => None
        case Some(status) =>
          var rest := b[first + 1..];
          var second := IndexOf(rest, '\n');
          if second < 0 then None
          else Some(Response(status, rest[..second], rest[second + 1..]))
  }

  predicate IsInt(n: int) {
    MIN_INT <= n <= MAX_INT
  }

  lemma NoNewlineInNumber(n: int)
    ensures '\n' !in Itoa(n) && |Itoa(n)| >= 1
  {
  }

  /** What decoding an encoded response yields: the status always, and the rest cut at the
      first newline of the content type or, without one, where it was put together. */
  lemma DecodeEncode(r: Response)
    requires IsInt(r.status)
    ensures var tail := r.contentType + ['\n'] + r.body;
            var cut := IndexOf(tail, '\n');
            cut >= 0 && Decode(Encode(r)) == Some(Response(r.status, tail[..cut], tail[cut + 1..]))
  {
    hide Atoi, Itoa, IndexOf;
    var num, tail := Itoa(r.status), r.contentType + ['\n'] + r.body;
    assert Encode(r) == num + ['\n'] + tail;
    NoNewlineInNumber(r.status);
    AtoiItoa(r.status);
    assert tail[|r.contentType|] == '\n';
    DecodeParts(num, tail);
  }

  lemma DecodeParts(num: string, tail: string)
    requires |num| >= 1 && '\n' !in num && '\n' in tail && Atoi(num).Some?
    ensures var cut := IndexOf(tail, '\n');
            cut >= 0 && Decode(num + ['\n'] + tail) == Some(Response(Atoi(num).value, tail[..cut], tail[cut + 1..]))
  {
    hide Atoi, IndexOf;
    var b := num + ['\n'] + tail;
    IndexAfter(num, '\n', tail);
    assert b[..|num|] == num && b[|num| + 1..] == tail;
  }

  /** A cached response comes back as it was exactly when its content type is free of
      newlines; status and body may be anything. */
  lemma RoundTripExactlyWhen(r: Response)
    requires IsInt(r.status)
    ensures Decode(Encode(r)) == Some(r) <==> '\n' !in r.contentType
  {
    hide Decode, Encode;
    DecodeEncode(r);
    var tail := r.contentType + ['\n'] + r.body;
    if '\n' !in r.contentType {
      IndexAfter(r.contentType, '\n', r.body);
      assert tail[..|r.contentType|] == r.contentType && tail[|r.contentType| + 1..] == r.body;
    } else {
      var cut := IndexOf(tail, '\n');
      assert '\n' !in tail[..cut];
    }
  }

  /** `b` is a number text for `r.status`, the content type and the body, one newline apart. */
  ghost predicate Reads(b: string, r: Response, num: string) {
    && '\n' !in num && Atoi(num) == Some(r.status)
    && '\n' !in r.contentType
    && b == num + ['\n'] + (r.contentType + ['\n'] + r.body)
  }

  /** A stored value decodes to `r` exactly when it reads as `r`; anything else is a miss. */
  lemma DecodeExactlyWhen(b: string, r: Response)
    ensures Decode(b) == Some(r) <==> exists num :: Reads(b, r, num)
  {
    hide Reads, Decode;
    if Decode(b) == Some(r) {
      var num := DecodeReads(b, r);
    }
    if num :| Reads(b, r, num) {
      ReadsDecodes(b, r, num);
    }
  }

  lemma DecodeReads(b: string, r: Response) returns (num: string)
    requires Decode(b) == Some(r)
    ensures Reads(b, r, num)
  {
    hide IndexOf, Atoi;
    var first := IndexOf(b, '\n');
    num := b[..first];
    var rest := b[first + 1..];
    CutAt(b, first);
    CutAt(rest, IndexOf(rest, '\n'));
  }

  lemma ReadsDecodes(b: string, r: Response, num: string)
    requires Reads(b, r, num)
    ensures Decode(b) == Some(r)
  {
    hide IndexOf, Decode;
    assert num != [];
    var tail := r.contentType + ['\n'] + r.body;
    assert tail[|r.contentType|] == '\n';
    DecodeParts(num, tail);
    IndexAfter(r.contentType, '\n', r.body);
    assert tail[..|r.contentType|] == r.contentType && tail[|r.contentType| + 1..] == r.body;
  }

  // ---------- the cache key ----------

  /** The text under the hash; the hash is taken to be injective. */
  function KeyText(tenantId: string, httpMethod: string, path: string, key: string): string {
    tenantId + ['\0'] + (httpMethod + ['\0'] + (path + ['\0'] + key))
  }

  lemma SplitTail(p: string, k: string, p': string, k': string, c: char)
    requires c !in k && c !in k' && p + [c] + k == p' + [c] + k'
    ensures p == p' && k == k'
  {
    var s, s' := p + [c] + k, p' + [c] + k';
    assert s[|p|] == c && s'[|p'|] == c;
    assert forall i | |p| < i < |s| :: s[i] == k[i - |p| - 1];
    assert forall i | |p'| < i < |s'| :: s'[i] == k'[i - |p'| - 1];
    assert |p| == |p'|;
    assert p == s[..|p|] && p' == s'[..|p'|] && k == s[|p| + 1..] && k' == s'[|p'| + 1..];
  }

  /** Requests share a cache key only when tenant, method, path and client key all agree. The
      path may hold anything: the other parts cannot hold the separator. */
  lemma KeysSeparateRequests(t: string, m: string, p: string, k: string, t': string, m': string, p': string, k': string)
    requires '\0' !in t && '\0' !in m && '\0' !in k && '\0' !in t' && '\0' !in m' && '\0' !in k'
    ensures KeyText(t, m, p, k) == KeyText(t', m', p', k') <==> t == t' && m == m' && p == p' && k == k'
  {
    if KeyText(t, m, p, k) == KeyText(t', m', p', k') {
      SplitHead(t, m + ['\0'] + (p + ['\0'] + k), t', m' + ['\0'] + (p' + ['\0'] + k'), '\0');
      SplitHead(m, p + ['\0'] + k, m', p' + ['\0'] + k', '\0');
      SplitTail(p, k, p', k', '\0');
    }
  }

  // ---------- same-key requests ----------

  predicate Is2xx(r: Response) {
    200 <= r.status < 300
  }

  datatype Entry = Entry(payload: string, expiresAt: int)

  /** A request that missed the cache: running its handler, or about to save the response. */
  datatype Phase = Running | Captured(r: Response)

  /** A replay and the cache period it happened in. */
  datatype Replay = Replay(period: nat, r: Response)

  /** One cache key: `period` counts its expiries, `executed` are the responses produced. */
  datatype State = State(entry: Option<Entry>, now: int, period: nat, requests: map<nat, Phase>,
                         executed: seq<Response>, replays: seq<Replay>)

  datatype Event =
    | Arrive(id: nat, readOk: bool)
    | Execute(id: nat, r: Response)
    | Save(id: nat, setOk: bool)
    | Abandon(id: nat)
    | Pass(time: nat)
    | Expire

  predicate Enabled(s: State, e: Event) {
    match e
    case Arrive(id, _) => id !in s.requests
    case Execute(id, r) => id in s.requests && s.requests[id].Running? && IsInt(r.status)
    case Save(id, _) => id in s.requests && s.requests[id].Captured?
    case Abandon(id) => id in s.requests
    case Pass(_) => true
    case Expire => s.entry.Some? && s.now >= s.entry.value.expiresAt
  }

  function Cached(s: State): Option<Response> {
    if s.entry.Some? then Decode(s.entry.value.payload) else None
  }

  function Apply(ttl: int, s: State, e: Event): State
    requires Enabled(s, e)
  {
    match e
    case Arrive(id, readOk) =>
      if readOk && Cached(s).Some? then s.(replays := s.replays + [Replay(s.period, Cached(s).value)])
      else s.(requests := s.requests[id := Running])
    case Execute(id, r) => s.(requests := s.requests[id := Captured(r)], executed := s.executed + [r])
    case Save(id, setOk) =>
      var r := s.requests[id].r;
      s.(requests := s.requests - {id},
         entry := if Is2xx(r) && setOk && s.entry.None? then Some(Entry(Encode(r), s.now + ttl)) else s.entry)
    case Abandon(id) => s.(requests := s.requests - {id})
    case Pass(time) => s.(now := s.now + time)
    case Expire => s.(entry := None, period := s.period + 1)
  }

  /** `r` is what caching a 2xx response of some execution gives back. */
  ghost predicate Produced(s: State, r: Response) {
    exists x :: x in s.executed && Is2xx(x) && Decode(Encode(x)) == Some(r)
  }

  ghost predicate Inv(s: State) {
    && (forall x | x in s.executed :: IsInt(x.status))
    && (forall id | id in s.requests && s.requests[id].Captured? ::
          s.requests[id].r in s.executed && IsInt(s.requests[id].r.status))
    && (s.entry.Some? ==> Cached(s).Some? && Produced(s, Cached(s).value))
    && (forall i | 0 <= i < |s.replays| :: Produced(s, s.replays[i].r) && s.replays[i].period <= s.period)
    && (forall i | 0 <= i < |s.replays| && s.replays[i].period == s.period :: Cached(s) == Some(s.replays[i].r))
    && (forall i, j | 0 <= i < |s.replays| && 0 <= j < |s.replays| && s.replays[i].period == s.replays[j].period ::
          s.replays[i].r == s.replays[j].r)
  }

  lemma StepKeeps(ttl: int, s: State, e: Event)
    requires Inv(s) && Enabled(s, e)
    ensures Inv(Apply(ttl, s, e))
  {
    hide Decode, Encode, Produced;
    var s' := Apply(ttl, s, e);
    forall r | Produced(s, r) ensures Produced(s', r) {
      StillProduced(s, s', r);
    }
    if e.Save? {
      SavedIsProduced(s, s.requests[e.id].r);
    }
  }

  lemma StillProduced(s: State, s': State, r: Response)
    requires Produced(s, r) && s.executed <= s'.executed
    ensures Produced(s', r)
  {
    hide Decode, Encode;
    var x :| x in s.executed && Is2xx(x) && Decode(Encode(x)) == Some(r);
    assert x in s'.executed;
  }

  lemma SavedIsProduced(s: State, x: Response)
    requires x in s.executed && IsInt(x.status)
    ensures Decode(Encode(x)).Some? && (Is2xx(x) ==> Produced(s, Decode(Encode(x)).value))
  {
    hide Decode, Encode;
    DecodeEncode(x);
  }

  ghost predicate IsRun(ttl: int, states: seq<State>, events: seq<Event>) {
    && |states| == |events| + 1
    && forall i | 0 <= i < |events| :: Enabled(states[i], events[i]) && states[i + 1] == Apply(ttl, states[i], events[i])
  }

  ghost predicate Initial(s: State) {
    s.entry == None && s.requests == map[] && s.executed == [] && s.replays == []
  }

  lemma {:induction false} RunKeeps(ttl: int, states: seq<State>, events: seq<Event>)
    requires IsRun(ttl, states, events) && Initial(states[0])
    ensures Inv(states[|events|])
    decreases |events|
  {
    hide Enabled, Apply, Inv;
    if events == [] {
      InitialIsInv(states[0]);
    } else {
      var k := |events| - 1;
      RunKeeps(ttl, states[..k + 1], events[..k]);
      StepKeeps(ttl, states[k], events[k]);
    }
  }

  lemma InitialIsInv(s: State)
    requires Initial(s)
    ensures Inv(s)
  {
  }

  /** In every interleaving of requests with one key, store failures and expiries included,
      all replays of one cache period are identical, and each is what caching a 2xx response
      of some execution gives back: that very response, unless a content type held a newline. */
  lemma ReplaysAgree(ttl: int, states: seq<State>, events: seq<Event>, i: int, j: int)
    requires IsRun(ttl, states, events) && Initial(states[0])
    requires var s := states[|events|];
             0 <= i < |s.replays| && 0 <= j < |s.replays| && s.replays[i].period == s.replays[j].period
    ensures var s := states[|events|]; s.replays[i].r == s.replays[j].r && Produced(s, s.replays[i].r)
    ensures var s := states[|events|];
            (forall x | x in s.executed :: '\n' !in x.contentType) ==> s.replays[i].r in s.executed && Is2xx(s.replays[i].r)
  {
    hide Decode, Encode;
    RunKeeps(ttl, states, events);
    var s := states[|events|];
    assert Produced(s, s.replays[i].r);
    var x :| x in s.executed && Is2xx(x) && Decode(Encode(x)) == Some(s.replays[i].r);
    RoundTripExactlyWhen(x);
  }

  /** Two requests in flight can both execute: the second caller then holds a response that
      no replay repeats. */
  lemma BothExecuteWitness(ttl: int, s: State, a: Response, b: Response)
    requires Initial(s) && IsInt(a.status) && IsInt(b.status) && Is2xx(a) && '\n' !in a.contentType
    ensures var s1 := Apply(ttl, s, Arrive(0, true));
            var s2 := Apply(ttl, s1, Arrive(1, true));
            var s3 := Apply(ttl, s2, Execute(0, a));
            var s4 := Apply(ttl, s3, Execute(1, b));
            var s5 := Apply(ttl, s4, Save(0, true));
            var s6 := Apply(ttl, s5, Save(1, true));
            s6.executed == [a, b] && Cached(s6) == Some(a)
  {
    hide Decode, Encode;
    RoundTripExactlyWhen(a);
  }

  /** Exactly when a request runs its handler, in every interleaving: the store did not answer
      its read, or nothing is stored. Otherwise it is a replay. */
  lemma ExecutesExactlyWhen(ttl: int, states: seq<State>, events: seq<Event>, i: int)
    requires IsRun(ttl, states, events) && Initial(states[0]) && 0 <= i < |events| && events[i].Arrive?
    ensures events[i].id in states[i + 1].requests <==> !events[i].readOk || states[i].entry.None?
    ensures events[i].id !in states[i + 1].requests <==>
            && Cached(states[i]).Some?
            && states[i + 1].replays == states[i].replays + [Replay(states[i].period, Cached(states[i]).value)]
  {
    hide Decode;
    RunKeeps(ttl, states[..i + 1], events[..i]);
  }

  /** From position `i` to `j` nothing expires. */
  predicate NoExpiry(events: seq<Event>, i: int, j: int)
    requires 0 <= i <= j <= |events|
  {
    forall k | i <= k < j :: !events[k].Expire?
  }

  lemma {:induction false} EntryStays(ttl: int, states: seq<State>, events: seq<Event>, i: int, j: int)
    requires IsRun(ttl, states, events) && 0 <= i <= j <= |events| && NoExpiry(events, i, j) && states[i].entry.Some?
    ensures states[j].entry == states[i].entry && states[j].period == states[i].period
    decreases j
  {
    hide Decode, Encode, Cached;
    if i < j {
      EntryStays(ttl, states, events, i, j - 1);
      assert states[j] == Apply(ttl, states[j - 1], events[j - 1]);
    }
  }

  /** Once a response is stored, every readable request until it expires replays that very
      response, and none of them runs its handler. */
  lemma ReplaysUntilExpiry(ttl: int, states: seq<State>, events: seq<Event>, i: int, j: int)
    requires IsRun(ttl, states, events) && Initial(states[0]) && 0 <= i <= j < |events|
    requires states[i].entry.Some? && NoExpiry(events, i, j) && events[j].Arrive? && events[j].readOk
    ensures Cached(states[i]).Some?
    ensures states[j + 1] == states[j].(replays := states[j].replays + [Replay(states[i].period, Cached(states[i]).value)])
  {
    hide Decode;
    RunKeeps(ttl, states[..i + 1], events[..i]);
    EntryStays(ttl, states, events, i, j);
    assert states[j + 1] == Apply(ttl, states[j], events[j]);
  }

  /** The requests whose handler is still to answer. */
  ghost function Unanswered(s: State): set<nat> {
    set id | id in s.requests && s.requests[id].Running?
  }

  /** Once a response is stored, and until it expires, handlers answer only requests that were
      in flight already, once each: with none in flight the handler never runs again. */
  lemma {:induction false} ExecutionsAfterSave(ttl: int, states: seq<State>, events: seq<Event>, i: int, j: int)
    requires IsRun(ttl, states, events) && Initial(states[0]) && 0 <= i <= j <= |events|
    requires states[i].entry.Some? && NoExpiry(events, i, j)
    requires forall k | i <= k < j && events[k].Arrive? :: events[k].readOk
    ensures Unanswered(states[j]) <= Unanswered(states[i])
    ensures |states[j].executed| - |states[i].executed| <= |Unanswered(states[i])| - |Unanswered(states[j])|
    decreases j
  {
    hide Decode, Encode, Cached;
    if i < j {
      ExecutionsAfterSave(ttl, states, events, i, j - 1);
      var s, s', e := states[j - 1], states[j], events[j - 1];
      assert s' == Apply(ttl, s, e);
      if e.Arrive? {
        ReplaysUntilExpiry(ttl, states, events, i, j - 1);
      }
      AnsweredStep(ttl, s, e);
    }
  }

  lemma AnsweredStep(ttl: int, s: State, e: Event)
    requires Enabled(s, e)
    requires e.Arrive? ==> Apply(ttl, s, e).requests == s.requests && Apply(ttl, s, e).executed == s.executed
    ensures var s' := Apply(ttl, s, e);
            && Unanswered(s') <= Unanswered(s)
            && |s'.executed| - |s.executed| <= |Unanswered(s)| - |Unanswered(s')|
  {
    hide Decode, Encode, Cached;
    var s' := Apply(ttl, s, e);
    var was, is' := Unanswered(s), Unanswered(s');
    if e.Execute? {
      assert is' == was - {e.id};
    } else if e.Save? || e.Abandon? {
      assert is' == was - {e.id};
    } else {
      assert is' == was;
    }
  }

  // ---------- the middleware ----------

  predicate Applies(httpMethod: string) {
    httpMethod == "POST" || httpMethod == "PATCH" || httpMethod == "PUT" || httpMethod == "DELETE"
  }

  /** The methods that change things are covered, the safe ones pass through, and what is kept
      is the 200s. */
  lemma CoveredAre(r: Response)
    ensures Applies("POST") && Applies("PATCH") && Applies("PUT") && Applies("DELETE")
    ensures !Applies("GET") && !Applies("HEAD") && !Applies("OPTIONS") && !Applies("")
    ensures Is2xx(r) <==> r.status / 100 == 2
  {
  }

  datatype Request = Request(tenantId: string, httpMethod: string, path: string, header: string)

  /** Opted in: a mutating method and a key that is not blank. */
  predicate OptsIn(q: Request) {
    Applies(q.httpMethod) && TrimSpace(q.header) != ""
  }

  function CacheKey(q: Request): string {
    KeyText(q.tenantId, q.httpMethod, q.path, TrimSpace(q.header))
  }

  /** Two requests share a cached response exactly when they agree in tenant, method, path and
      client key, white space around the key aside. */
  lemma CacheKeysExactlyWhen(q: Request, q': Request)
    requires '\0' !in q.tenantId && '\0' !in q.httpMethod && '\0' !in TrimSpace(q.header)
    requires '\0' !in q'.tenantId && '\0' !in q'.httpMethod && '\0' !in TrimSpace(q'.header)
    ensures CacheKey(q) == CacheKey(q') <==>
            && q.tenantId == q'.tenantId && q.httpMethod == q'.httpMethod && q.path == q'.path
            && TrimSpace(q.header) == TrimSpace(q'.header)
  {
    hide TrimSpace, KeyText;
    KeysSeparateRequests(q.tenantId, q.httpMethod, q.path, TrimSpace(q.header),
                         q'.tenantId, q'.httpMethod, q'.path, TrimSpace(q'.header));
  }

  class Middleware {
    /** The values in Redis, and how many times a handler has run. */
    var store: map<string, string>
    var executions: nat

    /** Serves one request; `handler` is what the handler answers if it runs, `expired` are the
        keys Redis has dropped by then, and the flags say whether Redis answers. */
    method Serve(q: Request, handler: Response, expired: set<string>, readOk: bool, setOk: bool)
      returns (r: Response, replayed: bool)
      modifies this
      ensures var live, key := old(store) - expired, CacheKey(q);
              && (replayed <==> OptsIn(q) && readOk && key in live && Decode(live[key]).Some?)
              && (replayed ==> Decode(live[key]) == Some(r) && store == live && executions == old(executions))
              && (!replayed ==> r == handler && executions == old(executions) + 1)
              && (forall k | k in live :: k in store && store[k] == live[k])
              && (forall k | k in store && k !in live ::
                    k == key && store[k] == Encode(handler) && OptsIn(q) && Is2xx(handler) && setOk)
              && (OptsIn(q) && Is2xx(handler) && setOk && !replayed ==> key in store)
    {
      hide Decode, Encode, KeyText, TrimSpace;
      store := store - expired;
      if !Applies(q.httpMethod) {
        executions := executions + 1;
        return handler, false;
      }
      if TrimSpace(q.header) == "" {
        executions := executions + 1;
        return handler, false;
      }
      var key := CacheKey(q);
      if readOk && key in store {
        var cached := Decode(store[key]);
        if cached.Some? {
          return cached.value, true;
        }
      }
      executions := executions + 1;
      if 200 <= handler.status < 300 {
        if setOk && key !in store {
          store := store[key := Encode(handler)];
        }
      }
      return handler, false;
    }
  }

  /** A request and its retry, as `Serve` answers them one after the other while Redis is up
      and keeps the key: the retry is a replay of the very same response, and the handler ran
      once. */
  method ServeTwice(m: Middleware, q: Request, first: Response, second: Response, expired: set<string>)
    returns (r: Response, r': Response, replayed: bool)
    requires IsInt(first.status) && Is2xx(first) && '\n' !in first.contentType
    requires OptsIn(q) && CacheKey(q) !in m.store && CacheKey(q) !in expired
    modifies m
    ensures replayed && r == r' == first && m.executions == old(m.executions) + 1
  {
    hide Decode, Encode, OptsIn, CacheKey;
    var again;
    r, again := m.Serve(q, first, {}, true, true);
    RoundTripExactlyWhen(first);
    r', replayed := m.Serve(q, second, expired, true, true);
  }
}
