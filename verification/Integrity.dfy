/** The audit hash chain (internal/audit/integrity.go) and the worker that re-checks it
    (internal/audit/integrity_worker.go). SHA-256 is taken to be ideal: a digest is the
    message it was computed from, so it is injective and never the all-zero block. */
module Integrity {
  import opened Text
  import opened AuditLog

  datatype Digest = ZeroBlock | Sum(message: Message)

  /** The two kinds of text that are hashed. They never coincide: a link's text starts with
      the 64 hex digits of the previous digest, and the second letter of the other kind's
      "audit-chain-empty:" is not a hex digit. */
  datatype Message = EmptyChain(tenantId: string) | Link(prev: Digest, text: string)

  // ---------- the chain ----------

  function Fields(r: Row): seq<string> {
    [r.id, r.tenantId, r.actorId, r.action, r.resourceType, r.resourceId]
  }

  function LinkText(r: Row): string {
    Join(Fields(r), '|')
  }

  function Chain(rows: seq<Row>): Digest {
    if rows == [] then ZeroBlock
    else Sum(Link(Chain(rows[..|rows| - 1]), LinkText(rows[|rows| - 1])))
  }

  function Texts(rows: seq<Row>): seq<string> {
    seq(|rows|, i requires 0 <= i < |rows| => LinkText(rows[i]))
  }

  /** What the chain covers: ids and the five other hashed columns, in order. */
  function Hashed(rows: seq<Row>): seq<seq<string>> {
    seq(|rows|, i requires 0 <= i < |rows| => Fields(rows[i]))
  }

  /** The chain's head determines its length and every text in it. */
  lemma {:induction false} ChainInjective(a: seq<Row>, b: seq<Row>)
    ensures Chain(a) == Chain(b) <==> Texts(a) == Texts(b)
  {
    hide LinkText;
    if a != [] && b != [] {
      var a', b' := a[..|a| - 1], b[..|b| - 1];
      ChainInjective(a', b');
      assert Texts(a) == Texts(a') + [LinkText(a[|a| - 1])];
      assert Texts(b) == Texts(b') + [LinkText(b[|b| - 1])];
      assert Texts(a) == Texts(b) ==> Texts(a)[..|a| - 1] == Texts(b)[..|b| - 1] && Texts(a)[|a| - 1] == Texts(b)[|b| - 1];
      assert Texts(a)[..|a| - 1] == Texts(a') && Texts(b)[..|b| - 1] == Texts(b');
    } else {
      assert |Texts(a)| == |a| && |Texts(b)| == |b|;
    }
  }

  /** A row's text determines the row, as far as hashing goes, if and only if none of its six
      columns holds the separator. Otherwise another row can take its place unseen. */
  lemma TextUniqueExactlyWhen(r: Row)
    ensures (forall x | LinkText(x) == LinkText(r) :: Fields(x) == Fields(r)) <==> AllFree(Fields(r), '|')
  {
    if AllFree(Fields(r), '|') {
      forall x | LinkText(x) == LinkText(r) ensures Fields(x) == Fields(r) {
        JoinUnique(Fields(r), Fields(x), '|');
      }
    } else {
      var ys := JoinAmbiguous(Fields(r), '|');
      var x := Row(ys[0], ys[1], ys[2], ys[3], ys[4], ys[5], r.rest);
      assert Fields(x) == ys;
      assert LinkText(x) == LinkText(r);
    }
  }

  /** The separator matters: two different rows with one text, hence one digest. */
  lemma SeparatorWitness()
    ensures var rest := Rest("", "", 0);
            var a := Row("1", "t", "x|y", "z", "k", "r", rest);
            var b := Row("1", "t", "x", "y|z", "k", "r", rest);
            Fields(a) != Fields(b) && Chain([a]) == Chain([b])
  {
    var rest := Rest("", "", 0);
    var a := Row("1", "t", "x|y", "z", "k", "r", rest);
    var b := Row("1", "t", "x", "y|z", "k", "r", rest);
    assert Fields(a)[2] != Fields(b)[2];
    var tail := ["k", "r"];
    assert Fields(a)[1..][1..][1..][1..] == tail && Fields(b)[1..][1..][1..][1..] == tail;
    assert Join(Fields(a)[1..][1..], '|') == "x|y" + "|" + ("z" + "|" + Join(tail, '|'));
    assert Join(Fields(b)[1..][1..], '|') == "x" + "|" + ("y|z" + "|" + Join(tail, '|'));
    assert Join(Fields(a)[1..][1..], '|') == Join(Fields(b)[1..][1..], '|');
    assert LinkText(a) == LinkText(b);
    assert [a][..0] == [] && [b][..0] == [];
  }

  /** The columns that say who did what to which resource. */
  function Content(r: Row): seq<string> {
    [r.actorId, r.action, r.resourceType, r.resourceId]
  }

  /** Neither the id nor the content holds the separator; the tenant id may. */
  predicate Clean(r: Row) {
    '|' !in r.id && AllFree(Content(r), '|')
  }

  ghost predicate AllClean(rows: seq<Row>) {
    forall r | r in rows :: Clean(r)
  }

  ghost predicate OfTenant(rows: seq<Row>, tenantId: string) {
    forall r | r in rows :: r.tenantId == tenantId
  }

  lemma TextSpelled(r: Row)
    ensures LinkText(r) == r.id + ['|'] + (r.tenantId + ['|'] + Join(Content(r), '|'))
    ensures Fields(r) == [r.id, r.tenantId] + Content(r)
  {
    hide *;
    FieldsSplit(r);
    JoinTail(r.id, [r.tenantId] + Content(r), '|');
    JoinTail(r.tenantId, Content(r), '|');
    LinkIs(r);
    assert [r.id] + ([r.tenantId] + Content(r)) == [r.id, r.tenantId] + Content(r);
  }

  lemma FieldsSplit(r: Row)
    ensures |Content(r)| == 4 && Fields(r) == [r.id, r.tenantId] + Content(r)
  {
  }

  lemma LinkIs(r: Row)
    ensures |Fields(r)| == 6 && LinkText(r) == Join(Fields(r), '|')
  {
  }

  lemma JoinTail(x: string, rest: seq<string>, c: char)
    requires |rest| >= 1
    ensures Join([x] + rest, c) == x + [c] + Join(rest, c)
  {
    assert ([x] + rest)[1..] == rest;
  }

  /** Against a clean row, any row of the same tenant with the same text has the same columns,
      whatever separators it holds itself. */
  lemma CleanTextUnique(a: Row, b: Row)
    requires Clean(a) && a.tenantId == b.tenantId && LinkText(a) == LinkText(b)
    ensures Fields(a) == Fields(b)
  {
    var t, ja, jb := a.tenantId, Join(Content(a), '|'), Join(Content(b), '|');
    TextSpelled(a);
    TextSpelled(b);
    OccursAround(a.id, t + ['|'] + ja, '|');
    OccursAround(b.id, t + ['|'] + jb, '|');
    OccursAround(t, ja, '|');
    OccursAround(t, jb, '|');
    OccursJoin(Content(a), '|');
    OccursJoin(Content(b), '|');
    OccursNone(a.id, '|');
    OccursNone(b.id, '|');
    hide Join, Occurs;
    SplitHead(a.id, t + ['|'] + ja, b.id, t + ['|'] + jb, '|');
    assert (t + ['|'] + ja)[|t| + 1..] == ja && (t + ['|'] + jb)[|t| + 1..] == jb;
    JoinUnique(Content(a), Content(b), '|');
  }

  lemma TextsDetermineFields(a: seq<Row>, b: seq<Row>, tenantId: string)
    requires AllClean(a) && OfTenant(a, tenantId) && OfTenant(b, tenantId)
    ensures Texts(a) == Texts(b) <==> Hashed(a) == Hashed(b)
  {
    hide Fields, Clean, LinkText;
    if Texts(a) == Texts(b) {
      assert |a| == |Texts(a)| == |b|;
      forall i | 0 <= i < |a| ensures Fields(a[i]) == Fields(b[i]) {
        assert a[i] in a && b[i] in b;
        assert Texts(a)[i] == Texts(b)[i];
        CleanTextUnique(a[i], b[i]);
      }
    }
    if Hashed(a) == Hashed(b) {
      assert |a| == |Hashed(a)| == |b|;
      forall i | 0 <= i < |a| ensures Texts(a)[i] == Texts(b)[i] {
        assert Hashed(a)[i] == Hashed(b)[i];
        LinkIs(a[i]);
        LinkIs(b[i]);
      }
    }
  }

  // ---------- ComputeIntegrity ----------

  datatype Observation = Observation(head: Digest, first: string, last: string, count: int)

  function Insert(r: Row, sorted: seq<Row>): seq<Row> {
    if sorted == [] || Less(r.id, sorted[0].id) then [r] + sorted
    else [sorted[0]] + Insert(r, sorted[1..])
  }

  /** `sort.Slice` by id. */
  function SortById(rows: seq<Row>): seq<Row> {
    if rows == [] then [] else Insert(rows[|rows| - 1], SortById(rows[..|rows| - 1]))
  }

  function IntegrityOf(tenantId: string, logs: seq<Row>): Observation {
    var o := SortById(logs);
    if o == [] then Observation(Sum(EmptyChain(tenantId)), "", "", 0)
    else Observation(Chain(o), o[0].id, o[|o| - 1].id, |o|)
  }

  method ComputeIntegrity(tenantId: string, logs: seq<Row>) returns (resp: Observation)
    ensures resp == IntegrityOf(tenantId, logs)
  {
    SortSize(logs);
    if |logs| == 0 {
      return Observation(Sum(EmptyChain(tenantId)), "", "", 0);
    }
    var ordered := SortById(logs);
    var prev := ZeroBlock;
    for i := 0 to |ordered|
      invariant prev == Chain(ordered[..i])
    {
      assert ordered[..i + 1][..i] == ordered[..i];
      prev := Sum(Link(prev, LinkText(ordered[i])));
    }
    assert ordered[..|ordered|] == ordered;
    resp := Observation(prev, ordered[0].id, ordered[|ordered| - 1].id, |ordered|);
  }

  lemma {:induction false} InsertElements(r: Row, sorted: seq<Row>)
    ensures multiset(Insert(r, sorted)) == multiset(sorted) + multiset{r}
    ensures |Insert(r, sorted)| == |sorted| + 1
  {
    hide Less;
    if sorted != [] {
      InsertElements(r, sorted[1..]);
      assert sorted == [sorted[0]] + sorted[1..];
    }
  }

  lemma {:induction false} SortElements(rows: seq<Row>)
    ensures multiset(SortById(rows)) == multiset(rows)
    ensures |SortById(rows)| == |rows|
  {
    if rows != [] {
      SortElements(rows[..|rows| - 1]);
      InsertElements(rows[|rows| - 1], SortById(rows[..|rows| - 1]));
      assert rows == rows[..|rows| - 1] + [rows[|rows| - 1]];
    }
  }

  lemma SortSize(rows: seq<Row>)
    ensures |SortById(rows)| == |rows|
  {
    SortElements(rows);
  }

  function Reverse(rows: seq<Row>): seq<Row> {
    seq(|rows|, i requires 0 <= i < |rows| => rows[|rows| - 1 - i])
  }

  /** Newest-first input comes out oldest first. */
  lemma {:induction false} SortReverses(rows: seq<Row>)
    requires Descending(rows)
    ensures SortById(rows) == Reverse(rows)
  {
    hide Less;
    if rows != [] {
      var init, last := rows[..|rows| - 1], rows[|rows| - 1];
      SortReverses(init);
      assert Reverse(rows) == [last] + Reverse(init);
      if init != [] {
        assert Reverse(init)[0] == init[|init| - 1];
      }
    }
  }

  lemma HashedReverse(a: seq<Row>, b: seq<Row>)
    ensures Hashed(Reverse(a)) == Hashed(Reverse(b)) <==> Hashed(a) == Hashed(b)
  {
    hide Fields;
    assert |Hashed(Reverse(a))| == |a| == |Hashed(a)| && |Hashed(Reverse(b))| == |b| == |Hashed(b)|;
    if Hashed(Reverse(a)) == Hashed(Reverse(b)) {
      forall i | 0 <= i < |a| ensures Hashed(a)[i] == Hashed(b)[i] {
        assert Hashed(Reverse(a))[|a| - 1 - i] == Hashed(Reverse(b))[|a| - 1 - i];
      }
    }
    if Hashed(a) == Hashed(b) {
      forall i | 0 <= i < |a| ensures Hashed(Reverse(a))[i] == Hashed(Reverse(b))[i] {
        assert Hashed(a)[|a| - 1 - i] == Hashed(b)[|a| - 1 - i];
      }
    }
  }

  /** Equal heads of two newest-first listings of a tenant, the first of them clean: the same
      rows as far as hashing goes. */
  lemma HeadsDetermineFields(a: seq<Row>, b: seq<Row>, tenantId: string)
    requires Descending(a) && Descending(b) && AllClean(a) && OfTenant(a, tenantId) && OfTenant(b, tenantId)
    ensures Chain(SortById(a)) == Chain(SortById(b)) <==> Hashed(a) == Hashed(b)
  {
    hide Clean, Less, Fields, Chain, SortById, Hashed;
    SortReverses(a);
    SortReverses(b);
    ChainInjective(Reverse(a), Reverse(b));
    forall r | r in Reverse(a) ensures r in a {
    }
    forall r | r in Reverse(b) ensures r in b {
    }
    TextsDetermineFields(Reverse(a), Reverse(b), tenantId);
    HashedReverse(a, b);
  }

  // ---------- the observed window ----------

  function WindowFilter(tenantId: string): ListFilter {
    ListFilter(tenantId, [], "", "", None, None, "", MAX_PAGE_SIZE, "", "", "")
  }

  function RangeFilter(tenantId: string, token: string, first: string, last: string): ListFilter {
    ListFilter(tenantId, [], "", "", None, None, "", MAX_PAGE_SIZE, token, first, last)
  }

  /** The newest rows of the tenant, one page of them. */
  function Window(t: Table, tenantId: string): seq<Row> {
    var all := Query(t, WindowFilter(tenantId), "");
    if |all| > MAX_PAGE_SIZE then all[..MAX_PAGE_SIZE] else all
  }

  /** The tenant's rows with `first <= id <= last`, newest first. */
  function Range(t: Table, tenantId: string, first: string, last: string): seq<Row> {
    Query(t, RangeFilter(tenantId, "", first, last), "")
  }

  function Observe(t: Table, tenantId: string): Observation {
    IntegrityOf(tenantId, Window(t, tenantId))
  }

  lemma {:induction false} DescendingUnique(a: seq<Row>, b: seq<Row>)
    requires Descending(a) && Descending(b)
    requires forall r :: r in a <==> r in b
    ensures a == b
  {
    hide Less;
    assert a != [] ==> a[0] in a;
    assert b != [] ==> b[0] in b;
    if a != [] {
      SameNewest(a, b);
      var a', b' := a[1..], b[1..];
      forall r ensures r in a' <==> r in b' {
        NewestOnce(a);
        NewestOnce(b);
        assert r in a <==> r == a[0] || r in a';
        assert r in b <==> r == b[0] || r in b';
      }
      DescendingUnique(a', b');
      assert a == [a[0]] + a' && b == [b[0]] + b';
    }
  }

  lemma NewestOnce(a: seq<Row>)
    requires Descending(a) && a != []
    ensures a[0] !in a[1..]
  {
    hide Less;
    LessIrreflexive(a[0].id);
  }

  lemma SameNewest(a: seq<Row>, b: seq<Row>)
    requires Descending(a) && Descending(b) && a != [] && b != []
    requires forall r :: r in a <==> r in b
    ensures a[0] == b[0]
  {
    hide Less;
    assert a[0] in a && b[0] in b;
    assert a[0] in b && b[0] in a;
    var i :| 0 <= i < |b| && b[i] == a[0];
    var j :| 0 <= j < |a| && a[j] == b[0];
    if i > 0 && j > 0 {
      LessTransitive(a[0].id, b[0].id, a[0].id);
      LessIrreflexive(a[0].id);
    }
  }

  lemma WindowMeaning(t: Table, tenantId: string)
    requires IsTable(t)
    ensures Descending(Window(t, tenantId)) && |Window(t, tenantId)| <= MAX_PAGE_SIZE
    ensures |Window(t, tenantId)| < 200 ==> forall r | r in t && r.tenantId == tenantId :: r in Window(t, tenantId)
    ensures forall r | r in Window(t, tenantId) :: r in t && r.tenantId == tenantId && r.id != ""
    ensures forall r | r in t && r.tenantId == tenantId && r !in Window(t, tenantId) ::
              Window(t, tenantId) != [] && Less(r.id, Window(t, tenantId)[|Window(t, tenantId)| - 1].id)
  {
    hide Less, LikeMatches, Query;
    var f := WindowFilter(tenantId);
    var all := Query(t, f, "");
    QueryMeaning(t, f, "");
    assert forall r | r in t :: Selects(f, r) <==> r.tenantId == tenantId;
    forall r | r in t && r.tenantId == tenantId && r !in Window(t, tenantId)
      ensures Window(t, tenantId) != [] && Less(r.id, Window(t, tenantId)[|Window(t, tenantId)| - 1].id)
    {
      var i :| 0 <= i < |all| && all[i] == r;
    }
  }

  /** The id range of a window holds exactly the window. */
  lemma WindowIsRange(t: Table, tenantId: string)
    requires IsTable(t) && Window(t, tenantId) != []
    ensures var w := Window(t, tenantId);
            Range(t, tenantId, w[|w| - 1].id, w[0].id) == w
  {
    hide Less, LikeMatches, Query, Window;
    var w := Window(t, tenantId);
    var first, last := w[|w| - 1].id, w[0].id;
    var f := RangeFilter(tenantId, "", first, last);
    WindowMeaning(t, tenantId);
    QueryMeaning(t, f, "");
    assert first != "" && last != "" by { assert w[|w| - 1] in w && w[0] in w; }
    forall r ensures r in Range(t, tenantId, first, last) <==> r in w {
      if r in w {
        InBounds(w, r);
      } else if r in t && r.tenantId == tenantId {
        assert Less(r.id, first);
      }
    }
    DescendingUnique(Range(t, tenantId, first, last), w);
  }

  lemma InBounds(w: seq<Row>, r: Row)
    requires Descending(w) && r in w
    ensures !Less(r.id, w[|w| - 1].id) && !Less(w[0].id, r.id)
  {
    hide Less;
    var i :| 0 <= i < |w| && w[i] == r;
    var z := w[|w| - 1].id;
    if Less(r.id, z) && i < |w| - 1 {
      LessTransitive(z, r.id, z);
    }
    if Less(w[0].id, r.id) && i > 0 {
      LessTransitive(r.id, w[0].id, r.id);
    }
    LessIrreflexive(z);
    LessIrreflexive(r.id);
  }

  // ---------- the verdict of a sweep ----------

  /** The re-fetched range has the observed number of rows and hashes to the observed head. */
  predicate TailMatches(t: Table, tenantId: string, prev: Observation) {
    && prev.first != "" && prev.last != ""
    && var rows := Range(t, tenantId, prev.first, prev.last);
       |rows| == prev.count && IntegrityOf(tenantId, rows).head == prev.head
  }

  /** The sweep reports nothing: the head is as before, or it differs and a successful
      re-fetch of the observed range still hashes to the previous head. */
  predicate Silent(t: Table, tenantId: string, prev: Observation, refetchOk: bool) {
    Observe(t, tenantId).head == prev.head || (refetchOk && TailMatches(t, tenantId, prev))
  }

  lemma ObservationOf(t: Table, tenantId: string)
    requires IsTable(t)
    ensures var w := Window(t, tenantId);
            && (w == [] ==> Observe(t, tenantId) == Observation(Sum(EmptyChain(tenantId)), "", "", 0))
            && (w != [] ==> Observe(t, tenantId) == Observation(Chain(SortById(w)), w[|w| - 1].id, w[0].id, |w|)
                            && w[|w| - 1].id != "" && w[0].id != "" && Observe(t, tenantId).head.message.Link?)
  {
    hide Less, Window;
    var w := Window(t, tenantId);
    WindowMeaning(t, tenantId);
    SortReverses(w);
    if w != [] {
      assert w[|w| - 1] in w && w[0] in w;
    }
  }

  /** What a sweep is meant to find out: the hashed columns of the rows in the observed id
      range are what they were, none changed, deleted or inserted, whatever was appended. */
  ghost predicate Unchanged(told: Table, tnew: Table, tenantId: string) {
    var prev := Observe(told, tenantId);
    Hashed(Range(tnew, tenantId, prev.first, prev.last)) == Hashed(Range(told, tenantId, prev.first, prev.last))
  }

  /** After an observation of `told` whose rows were clean, a sweep finds nothing wrong in
      `tnew` exactly when nothing observed has changed, whatever was written into `tnew`.
      After an observation of an empty chain it finds nothing wrong exactly when the chain is
      still empty, so the first append is reported. */
  lemma SilentExactlyWhen(told: Table, tnew: Table, tenantId: string)
    requires IsTable(told) && IsTable(tnew) && AllClean(Window(told, tenantId))
    ensures Silent(tnew, tenantId, Observe(told, tenantId), true) <==>
            if Window(told, tenantId) == [] then Window(tnew, tenantId) == [] else Unchanged(told, tnew, tenantId)
  {
    hide Less, Window, Range, IsTable, AllClean, Chain, SortById, Fields, Hashed, IntegrityOf, Observe, OfTenant;
    var w, w' := Window(told, tenantId), Window(tnew, tenantId);
    ObservationOf(told, tenantId);
    ObservationOf(tnew, tenantId);
    WindowFacts(told, tenantId);
    WindowFacts(tnew, tenantId);
    if w != [] {
      WindowIsRange(told, tenantId);
      TailExactlyWhen(told, tnew, tenantId);
      if w' != [] {
        HeadsDetermineFields(w, w', tenantId);
        if Hashed(w) == Hashed(w') {
          HashedEnds(w, w');
          WindowIsRange(tnew, tenantId);
        }
      }
    }
  }

  lemma WindowFacts(t: Table, tenantId: string)
    requires IsTable(t)
    ensures Descending(Window(t, tenantId)) && OfTenant(Window(t, tenantId), tenantId)
  {
    hide Less, Window;
    WindowMeaning(t, tenantId);
  }

  lemma HashedEnds(a: seq<Row>, b: seq<Row>)
    requires Hashed(a) == Hashed(b) && a != []
    ensures |a| == |b| && a[0].id == b[0].id && a[|a| - 1].id == b[|b| - 1].id
  {
    assert |a| == |Hashed(a)| == |b|;
    assert Hashed(a)[0] == Hashed(b)[0] && Hashed(a)[|a| - 1] == Hashed(b)[|a| - 1];
    assert Fields(a[0])[0] == Fields(b[0])[0] && Fields(a[|a| - 1])[0] == Fields(b[|a| - 1])[0];
  }

  lemma RangeFacts(t: Table, tenantId: string, first: string, last: string)
    requires IsTable(t)
    ensures Descending(Range(t, tenantId, first, last)) && OfTenant(Range(t, tenantId, first, last), tenantId)
  {
    hide Less, Query;
    QueryMeaning(t, RangeFilter(tenantId, "", first, last), "");
  }

  lemma TailExactlyWhen(told: Table, tnew: Table, tenantId: string)
    requires IsTable(told) && IsTable(tnew) && AllClean(Window(told, tenantId))
    requires Window(told, tenantId) != []
    ensures TailMatches(tnew, tenantId, Observe(told, tenantId)) <==> Unchanged(told, tnew, tenantId)
  {
    hide Less, Window, Range, IsTable, AllClean, Chain, SortById, Fields, Hashed, Observe, OfTenant;
    var prev := Observe(told, tenantId);
    var w, r := Window(told, tenantId), Range(tnew, tenantId, prev.first, prev.last);
    ObservationOf(told, tenantId);
    WindowFacts(told, tenantId);
    WindowIsRange(told, tenantId);
    RangeFacts(tnew, tenantId, prev.first, prev.last);
    HeadsDetermineFields(w, r, tenantId);
    SortSize(r);
    HashedSize(w, r);
  }

  lemma HashedSize(a: seq<Row>, b: seq<Row>)
    ensures Hashed(a) == Hashed(b) ==> |a| == |b|
  {
  }

  /** Appending never raises a report, whatever the columns hold and however far the chain
      grows past the page size, once the chain has been observed non-empty. */
  lemma AppendsAreSilent(told: Table, tnew: Table, tenantId: string)
    requires IsTable(tnew) && told <= tnew && Window(told, tenantId) != []
    ensures Silent(tnew, tenantId, Observe(told, tenantId), true)
  {
    hide Less, Window, Range, Chain, SortById, Observe;
    var w, prev := Window(told, tenantId), Observe(told, tenantId);
    ObservationOf(told, tenantId);
    WindowIsRange(told, tenantId);
    WindowMeaning(told, tenantId);
    assert w[0] in told;
    RangeIgnoresGrowth(told, tnew, tenantId, prev.first, w[0]);
    SortSize(w);
  }

  lemma {:induction false} RangeIgnoresGrowth(told: Table, tnew: Table, tenantId: string, first: string, top: Row)
    requires IsTable(tnew) && told <= tnew && top in told && top.id != ""
    ensures Range(tnew, tenantId, first, top.id) == Range(told, tenantId, first, top.id)
    decreases |tnew|
  {
    hide Less, LikeMatches;
    if |told| == |tnew| {
      assert told == tnew;
    } else {
      var last := tnew[|tnew| - 1];
      var i :| 0 <= i < |told| && told[i] == top;
      assert tnew[i] == top;
      assert Less(top.id, last.id);
      RangeIgnoresGrowth(told, tnew[..|tnew| - 1], tenantId, first, top);
    }
  }

  /** Only what was observed is checked: whatever happens to rows outside the observed id range
      goes unseen, older history included, whatever the columns hold. */
  lemma OutsideIsUnseen(told: Table, tnew: Table, tenantId: string)
    requires IsTable(told) && IsTable(tnew) && Window(told, tenantId) != []
    requires var w := Window(told, tenantId);
             forall r: Row | r.tenantId == tenantId && !Less(r.id, w[|w| - 1].id) && !Less(w[0].id, r.id) ::
               r in told <==> r in tnew
    ensures Silent(tnew, tenantId, Observe(told, tenantId), true)
  {
    hide Less, Window, Range, IsTable, Chain, SortById, Observe, Query, IntegrityOf;
    var w := Window(told, tenantId);
    ObservationOf(told, tenantId);
    WindowIsRange(told, tenantId);
    SameRange(told, tnew, tenantId, w[|w| - 1].id, w[0].id);
    SortSize(w);
    HeadOf(tenantId, w);
  }

  lemma HeadOf(tenantId: string, w: seq<Row>)
    requires w != [] && |SortById(w)| == |w|
    ensures IntegrityOf(tenantId, w).head == Chain(SortById(w))
  {
  }

  lemma SameRange(told: Table, tnew: Table, tenantId: string, first: string, last: string)
    requires IsTable(told) && IsTable(tnew) && first != "" && last != ""
    requires forall r: Row | r.tenantId == tenantId && !Less(r.id, first) && !Less(last, r.id) :: r in told <==> r in tnew
    ensures Range(tnew, tenantId, first, last) == Range(told, tenantId, first, last)
  {
    hide Less, IsTable, Query;
    var f := RangeFilter(tenantId, "", first, last);
    QueryMeaning(told, f, "");
    QueryMeaning(tnew, f, "");
    DescendingUnique(Range(tnew, tenantId, first, last), Range(told, tenantId, first, last));
  }

  /** So history is not fully covered: a row of the tenant older than the observed ones can be
      dropped from the log, and no sweep says so. */
  lemma OlderRowDroppedWitness(told: Table, tenantId: string, k: nat)
    requires IsTable(told) && k < |told| && told[k].tenantId == tenantId
    requires Window(told, tenantId) != [] && told[k] !in Window(told, tenantId)
    ensures IsTable(told[..k] + told[k + 1..])
    ensures Silent(told[..k] + told[k + 1..], tenantId, Observe(told, tenantId), true)
  {
    hide Less, Window, Observe, Silent;
    var tnew, w := told[..k] + told[k + 1..], Window(told, tenantId);
    WindowMeaning(told, tenantId);
    assert Less(told[k].id, w[|w| - 1].id);
    forall r | r != told[k] ensures r in told <==> r in tnew {
      assert told == told[..k] + [told[k]] + told[k + 1..];
    }
    OutsideIsUnseen(told, tnew, tenantId);
  }

  /** Over any run of sweeps of a chain that only grows, no sweep reports anything once the
      chain has been observed non-empty. */
  lemma {:induction false} GrowthIsNeverReported(tables: seq<Table>, tenantId: string, i: nat)
    requires i + 1 < |tables| && Window(tables[0], tenantId) != []
    requires forall k | 0 <= k < |tables| :: IsTable(tables[k])
    requires forall k | 0 <= k < |tables| - 1 :: tables[k] <= tables[k + 1]
    ensures Window(tables[i], tenantId) != [] && Silent(tables[i + 1], tenantId, Observe(tables[i], tenantId), true)
  {
    hide Window, Silent, Observe, IsTable;
    if i > 0 {
      GrowthIsNeverReported(tables, tenantId, i - 1);
      WindowGrows(tables[i - 1], tables[i], tenantId);
    }
    AppendsAreSilent(tables[i], tables[i + 1], tenantId);
  }

  lemma WindowGrows(told: Table, tnew: Table, tenantId: string)
    requires IsTable(told) && IsTable(tnew) && told <= tnew && Window(told, tenantId) != []
    ensures Window(tnew, tenantId) != []
  {
    hide Window, IsTable;
    WindowMeaning(told, tenantId);
    WindowMeaning(tnew, tenantId);
    var r := Window(told, tenantId)[0];
    assert r in Window(told, tenantId) && r in tnew;
  }

  /** Whatever is appended to a chain observed empty is reported as a violation. */
  lemma FirstAppendIsReported(told: Table, tnew: Table, tenantId: string)
    requires IsTable(told) && IsTable(tnew) && Window(told, tenantId) == [] && Window(tnew, tenantId) != []
    ensures !Silent(tnew, tenantId, Observe(told, tenantId), true)
  {
    hide Window, IsTable, Observe, Range;
    ObservationOf(told, tenantId);
    ObservationOf(tnew, tenantId);
  }

  // ---------- when every alteration is found ----------

  /** The rows with `a` replaced by `b`. */
  function Swap(rows: seq<Row>, a: Row, b: Row): seq<Row> {
    seq(|rows|, i requires 0 <= i < |rows| => if rows[i] == a then b else rows[i])
  }

  /** `b` differs from `a` in its content columns at most. */
  predicate SameButContent(a: Row, b: Row) {
    a.id == b.id && a.tenantId == b.tenantId && a.rest == b.rest
  }

  lemma {:induction false} QuerySwap(t: Table, k: nat, b: Row, tenantId: string)
    requires IsTable(t) && k < |t| && SameButContent(t[k], b)
    ensures IsTable(t[k := b])
    ensures Query(t[k := b], WindowFilter(tenantId), "") == Swap(Query(t, WindowFilter(tenantId), ""), t[k], b)
  {
    hide Less, Selects, BeforeToken, WindowFilter;
    var f, t', n := WindowFilter(tenantId), t[k := b], |t| - 1;
    SelectsAlike(tenantId, t[k], b);
    if k < n {
      QuerySwap(t[..n], k, b, tenantId);
      assert t'[..n] == t[..n][k := b];
      LessIrreflexive(t[n].id);
      assert t[n] != t[k] && t'[n] == t[n];
    } else {
      assert t'[..n] == t[..n];
      SwapNothing(t, f, b);
    }
  }

  lemma SelectsAlike(tenantId: string, a: Row, b: Row)
    requires SameButContent(a, b)
    ensures Selects(WindowFilter(tenantId), a) == Selects(WindowFilter(tenantId), b)
    ensures BeforeToken("", a) == BeforeToken("", b)
  {
  }

  lemma SwapNothing(t: Table, f: ListFilter, b: Row)
    requires IsTable(t) && t != []
    ensures Swap(Query(t[..|t| - 1], f, ""), t[|t| - 1], b) == Query(t[..|t| - 1], f, "")
  {
    hide Less, Query, Selects;
    var init, last := t[..|t| - 1], t[|t| - 1];
    assert IsTable(init);
    QueryMeaning(init, f, "");
    forall i | 0 <= i < |Query(init, f, "")| ensures Query(init, f, "")[i] != last {
      assert Query(init, f, "")[i] in init;
      LessIrreflexive(last.id);
    }
  }

  /** A row of the observed window with a separator in its content can be altered unseen. */
  lemma AlteredUnseen(told: Table, tenantId: string, a: Row) returns (tnew: Table)
    requires IsTable(told) && a in Window(told, tenantId) && !AllFree(Content(a), '|')
    ensures IsTable(tnew) && !Unchanged(told, tnew, tenantId)
    ensures Silent(tnew, tenantId, Observe(told, tenantId), true)
  {
    hide Less, Query, IsTable, Window, Range, Observe, Hashed, Chain, SortById, Fields, LinkText;
    var b := OtherContent(a);
    WindowMeaning(told, tenantId);
    var k: nat :| k < |told| && told[k] == a;
    tnew := told[k := b];
    QuerySwap(told, k, b, tenantId);
    WindowSwap(told, tnew, tenantId, a, b);
    var w, w' := Window(told, tenantId), Window(tnew, tenantId);
    WindowFacts(told, tenantId);
    WindowFacts(tnew, tenantId);
    ObservationOf(told, tenantId);
    ObservationOf(tnew, tenantId);
    SwapKeepsHead(w, w', a, b);
    WindowIsRange(told, tenantId);
    WindowIsRange(tnew, tenantId);
    SwapChanges(w, w', a, b);
  }

  lemma OtherContent(a: Row) returns (b: Row)
    requires !AllFree(Content(a), '|')
    ensures SameButContent(a, b) && LinkText(b) == LinkText(a) && Fields(b) != Fields(a)
  {
    hide Join;
    var ys := JoinAmbiguous(Content(a), '|');
    b := Row(a.id, a.tenantId, ys[0], ys[1], ys[2], ys[3], a.rest);
    assert Content(b) == ys;
    TextSpelled(a);
    TextSpelled(b);
    assert Fields(a)[2..] == Content(a) && Fields(b)[2..] == Content(b);
  }

  lemma WindowSwap(told: Table, tnew: Table, tenantId: string, a: Row, b: Row)
    requires Query(tnew, WindowFilter(tenantId), "") == Swap(Query(told, WindowFilter(tenantId), ""), a, b)
    ensures Window(tnew, tenantId) == Swap(Window(told, tenantId), a, b)
  {
    hide Query;
  }

  lemma SwapKeepsHead(w: seq<Row>, w': seq<Row>, a: Row, b: Row)
    requires Descending(w) && Descending(w') && w' == Swap(w, a, b) && LinkText(a) == LinkText(b)
    ensures Chain(SortById(w')) == Chain(SortById(w))
  {
    hide Less, Chain, SortById, LinkText;
    SortReverses(w);
    SortReverses(w');
    ChainInjective(Reverse(w), Reverse(w'));
    assert |Reverse(w)| == |w| == |w'| == |Reverse(w')|;
    assert Texts(Reverse(w)) == Texts(Reverse(w'));
  }

  lemma SwapChanges(w: seq<Row>, w': seq<Row>, a: Row, b: Row)
    requires a in w && w' == Swap(w, a, b) && SameButContent(a, b) && Fields(a) != Fields(b)
    ensures w != [] && |w'| == |w| && w'[0].id == w[0].id && w'[|w| - 1].id == w[|w| - 1].id
    ensures Hashed(w) != Hashed(w')
  {
    hide Fields;
    var i :| 0 <= i < |w| && w[i] == a;
    assert Hashed(w)[i] == Fields(a) && Hashed(w')[i] == Fields(b);
  }

  /** Every alteration of what was observed is found, and nothing else is reported, exactly
      when no content column of an observed row holds the separator; ids, being ULIDs, do not. */
  lemma DetectsExactlyWhen(told: Table, tenantId: string)
    requires IsTable(told) && Window(told, tenantId) != []
    requires forall r | r in Window(told, tenantId) :: '|' !in r.id
    ensures (forall tnew | IsTable(tnew) ::
               Silent(tnew, tenantId, Observe(told, tenantId), true) <==> Unchanged(told, tnew, tenantId))
            <==> forall r | r in Window(told, tenantId) :: AllFree(Content(r), '|')
  {
    hide IsTable, Window, Silent, Unchanged, Observe, AllFree, Content;
    if r :| r in Window(told, tenantId) && !AllFree(Content(r), '|') {
      var tnew := AlteredUnseen(told, tenantId, r);
    } else {
      forall tnew | IsTable(tnew)
        ensures Silent(tnew, tenantId, Observe(told, tenantId), true) <==> Unchanged(told, tnew, tenantId)
      {
        SilentExactlyWhen(told, tnew, tenantId);
      }
    }
  }

  // ---------- the worker ----------

  /** The rows a token leaves, out of a query result. */
  function Keep(rows: seq<Row>, token: string): seq<Row> {
    if rows == [] then []
    else (if BeforeToken(token, rows[0]) then [rows[0]] else []) + Keep(rows[1..], token)
  }

  lemma {:induction false} QueryFactors(t: Table, f: ListFilter, token: string)
    ensures Query(t, f, token) == Keep(Query(t, f, ""), token)
  {
    hide Selects, Less;
    if t != [] {
      var init, last := t[..|t| - 1], t[|t| - 1];
      QueryFactors(init, f, token);
      if Selects(f, last) {
        assert Query(t, f, "") == [last] + Query(init, f, "");
        assert Query(t, f, "")[1..] == Query(init, f, "");
      } else {
        assert Query(t, f, "") == Query(init, f, "");
      }
    }
  }

  /** The snapshots read page by page agree on the rows of the range. */
  ghost predicate Stable(tables: int -> Table, t: Table, tenantId: string, first: string, last: string) {
    && IsTable(t)
    && forall i :: IsTable(tables(i)) && Range(tables(i), tenantId, first, last) == Range(t, tenantId, first, last)
  }

  lemma RangePage(tables: int -> Table, t: Table, tenantId: string, first: string, last: string,
                  i: int, token: string, k: int)
    requires tenantId != "" && Stable(tables, t, tenantId, first, last)
    requires var whole := Range(t, tenantId, first, last);
             if k == 0 then token == "" else 0 < k < |whole| && token == whole[k - 1].id
    ensures List(tables(i), RangeFilter(tenantId, token, first, last))
            == Listed(PageOf(Range(t, tenantId, first, last)[k..], MAX_PAGE_SIZE))
  {
    hide Less, Selects, IsTable, Query;
    var f := RangeFilter(tenantId, "", first, last);
    QueryFactors(tables(i), f, token);
    QueryFactors(t, f, token);
    NextPage(t, t, f, token, k);
    TokenIsNoFilter(tables(i), f, token, token);
    TokenIsNoFilter(t, f, token, token);
  }

  /** The fetches that reading `count` rows takes all succeed. */
  ghost predicate FetchesOk(fetchOk: int -> bool, count: int) {
    forall i | 0 <= i * MAX_PAGE_SIZE < count :: fetchOk(i)
  }

  /** Re-reads the observed range page by page. `None` is a failed fetch. The guard that
      stops an overlong read answers what the row count would have answered. */
  method CheckTail(tables: int -> Table, ghost t: Table, tenantId: string, prev: Observation, fetchOk: int -> bool)
    returns (r: Option<bool>)
    requires tenantId != ""
    requires prev.first != "" ==> prev.count >= 1 && prev.last != "" && Stable(tables, t, tenantId, prev.first, prev.last)
    ensures r.Some? ==> r.value == TailMatches(t, tenantId, prev)
    ensures r == Some(true) <==> TailMatches(t, tenantId, prev) && FetchesOk(fetchOk, prev.count)
    ensures r.None? ==> exists i :: !fetchOk(i)
  {
    hide Query, List, PageOf, IsTable, Range, IntegrityOf, Less;
    if prev.last == "" || prev.first == "" {
      return Some(false);
    }
    ghost var whole := Range(t, tenantId, prev.first, prev.last);
    RangeIds(t, tenantId, prev.first, prev.last);
    var collected: seq<Row> := [];
    var token := "";
    var i := 0;
    while true
      invariant |collected| <= |whole| && collected == whole[..|collected|]
      invariant i >= 0 && |collected| == i * MAX_PAGE_SIZE && forall j | 0 <= j < i :: fetchOk(j)
      invariant if collected == [] then token == "" else 0 < |collected| < |whole| && token == whole[|collected| - 1].id
      decreases |whole| - |collected|
    {
      if !fetchOk(i) {
        return None;
      }
      RangePage(tables, t, tenantId, prev.first, prev.last, i, token, |collected|);
      var page := List(tables(i), RangeFilter(tenantId, token, prev.first, prev.last)).page;
      TakePage(whole, |collected|);
      collected := collected + page.items;
      if page.nextToken == "" {
        break;
      }
      token := page.nextToken;
      if |collected| > prev.count * 2 + MAX_PAGE_SIZE {
        return Some(false);
      }
      i := i + 1;
    }
    assert collected == whole;
    if prev.count > 0 && |collected| != prev.count {
      return Some(false);
    }
    var tail := ComputeIntegrity(tenantId, collected);
    return Some(tail.head == prev.head);
  }

  lemma RangeIds(t: Table, tenantId: string, first: string, last: string)
    requires IsTable(t)
    ensures forall r | r in Range(t, tenantId, first, last) :: r.id != ""
  {
    hide Query, IsTable;
    IdsNonEmpty(t, RangeFilter(tenantId, "", first, last), "");
  }

  lemma TakePage(whole: seq<Row>, k: int)
    requires 0 <= k <= |whole| && forall r | r in whole :: r.id != ""
    ensures var page := PageOf(whole[k..], MAX_PAGE_SIZE);
            && k + |page.items| <= |whole| && whole[..k] + page.items == whole[..k + |page.items|]
            && (page.nextToken == "" ==> k + |page.items| == |whole| && |page.items| <= MAX_PAGE_SIZE)
            && (page.nextToken != "" ==> |page.items| == MAX_PAGE_SIZE && k + |page.items| < |whole|
                                         && page.nextToken == whole[k + |page.items| - 1].id)
  {
  }

  /** How the store answers one tenant's check. */
  datatype Answers = Answers(listOk: bool, fetchOk: int -> bool)

  datatype Verdict = Skipped | Quiet | Reported

  /** The verdict on one tenant against the table `t`, given what was observed before. */
  ghost function VerdictOf(t: Table, tenantId: string, prev: Option<Observation>, a: Answers): Verdict {
    if tenantId == "" || !a.listOk then Skipped
    else if prev.None? || Silent(t, tenantId, prev.value, FetchesOk(a.fetchOk, prev.value.count)) then Quiet
    else Reported
  }

  /** After a clean observation of `told`, with the store answering, the check of `tnew` reports
      exactly when something observed has changed, or the chain observed empty no longer is. */
  lemma ReportsExactlyWhen(told: Table, tnew: Table, tenantId: string, a: Answers)
    requires IsTable(told) && IsTable(tnew) && AllClean(Window(told, tenantId))
    requires tenantId != "" && a.listOk && a.fetchOk(0)
    ensures VerdictOf(tnew, tenantId, Some(Observe(told, tenantId)), a) == Reported <==>
            if Window(told, tenantId) == [] then Window(tnew, tenantId) != [] else !Unchanged(told, tnew, tenantId)
    ensures VerdictOf(tnew, tenantId, Some(Observe(told, tenantId)), a) != Skipped
    ensures VerdictOf(tnew, tenantId, None, a) == Quiet
  {
    hide Window, IsTable, AllClean, Unchanged, Observe, Silent;
    SilentExactlyWhen(told, tnew, tenantId);
    ObservationOf(told, tenantId);
    WindowMeaning(told, tenantId);
    OnePageSuffices(a.fetchOk, Observe(told, tenantId).count);
  }

  lemma OnePageSuffices(fetchOk: int -> bool, count: int)
    requires fetchOk(0) && count <= MAX_PAGE_SIZE
    ensures FetchesOk(fetchOk, count)
  {
  }

  /** A changed head whose re-fetch fails is reported, and a tenant that cannot be listed is
      skipped. */
  lemma FailuresAreNotSilent(told: Table, tnew: Table, tenantId: string, a: Answers)
    requires IsTable(told) && IsTable(tnew) && Window(told, tenantId) != [] && tenantId != ""
    ensures a.listOk && !a.fetchOk(0) && Observe(tnew, tenantId).head != Observe(told, tenantId).head ==>
              VerdictOf(tnew, tenantId, Some(Observe(told, tenantId)), a) == Reported
    ensures !a.listOk ==> VerdictOf(tnew, tenantId, Some(Observe(told, tenantId)), a) == Skipped
  {
    hide Window, IsTable, Observe, TailMatches;
    ObservationOf(told, tenantId);
    assert 0 * MAX_PAGE_SIZE < Observe(told, tenantId).count;
  }

  function Recall(observations: map<string, Observation>, tenantId: string): Option<Observation> {
    if tenantId in observations then Some(observations[tenantId]) else None
  }

  /** One tenant's turn in a sweep: the table it is checked against, the snapshots a re-fetch
      would read, and the store's answers. */
  datatype Turn = Turn(tenantId: string, t: Table, tables: int -> Table, answers: Answers)

  /** While a tenant's turn lasts, the id range remembered for it is not rewritten. Rows may
      be appended. */
  ghost predicate Steady(observations: map<string, Observation>, c: Turn) {
    && IsTable(c.t)
    && (c.tenantId in observations && observations[c.tenantId].first != "" ==>
          Stable(c.tables, c.t, c.tenantId, observations[c.tenantId].first, observations[c.tenantId].last))
  }

  datatype Memory = Memory(observations: map<string, Observation>, violations: seq<string>)

  ghost function AfterTurn(m: Memory, c: Turn): Memory {
    var v := VerdictOf(c.t, c.tenantId, Recall(m.observations, c.tenantId), c.answers);
    Memory(if v == Skipped then m.observations else m.observations[c.tenantId := Observe(c.t, c.tenantId)],
           if v == Reported then m.violations + [c.tenantId] else m.violations)
  }

  ghost function AfterSweep(m: Memory, turns: seq<Turn>): Memory {
    if turns == [] then m else AfterTurn(AfterSweep(m, turns[..|turns| - 1]), turns[|turns| - 1])
  }

  /** Two sweeps of one tenant, from a worker that knows nothing: the first only observes, and
      the second reports the tenant exactly when what was observed has changed. */
  lemma SweptTwice(first: Turn, second: Turn)
    requires first.tenantId == second.tenantId != "" && IsTable(first.t) && IsTable(second.t)
    requires first.answers.listOk && second.answers.listOk && second.answers.fetchOk(0)
    requires Window(first.t, first.tenantId) != [] && AllClean(Window(first.t, first.tenantId))
    ensures var m := AfterSweep(Memory(map[], []), [first, second]);
            && m.observations == map[first.tenantId := Observe(second.t, first.tenantId)]
            && m.violations == if Unchanged(first.t, second.t, first.tenantId) then [] else [first.tenantId]
  {
    hide Window, IsTable, AllClean, Unchanged, Observe, VerdictOf;
    var tenantId := first.tenantId;
    assert [first, second][..1] == [first] && [first][..0] == [];
    FirstIsQuiet(first);
    ReportsExactlyWhen(first.t, second.t, tenantId, second.answers);
    assert AfterSweep(Memory(map[], []), [first]) == Memory(map[tenantId := Observe(first.t, tenantId)], []);
  }

  lemma FirstIsQuiet(c: Turn)
    requires c.tenantId != "" && c.answers.listOk
    ensures VerdictOf(c.t, c.tenantId, None, c.answers) == Quiet
  {
  }

  class IntegrityWorker {
    var observations: map<string, Observation>
    var violations: seq<string>

    /** Every remembered observation brackets its rows. */
    ghost predicate Valid()
      reads this
    {
      forall k | k in observations ::
        observations[k].first != "" ==> observations[k].count >= 1 && observations[k].last != ""
    }

    constructor ()
      ensures Valid() && observations == map[] && violations == []
    {
      observations := map[];
      violations := [];
    }

    /** Checks one tenant: replaces its observation, and reports exactly the verdict owed. */
    method CheckOne(t: Table, tables: int -> Table, tenantId: string, a: Answers) returns (v: Verdict)
      requires Valid() && IsTable(t)
      requires tenantId in observations && observations[tenantId].first != "" ==>
                 Stable(tables, t, tenantId, observations[tenantId].first, observations[tenantId].last)
      modifies this
      ensures Valid()
      ensures v == VerdictOf(t, tenantId, Recall(old(observations), tenantId), a)
      ensures observations == if v == Skipped then old(observations) else old(observations)[tenantId := Observe(t, tenantId)]
      ensures violations == if v == Reported then old(violations) + [tenantId] else old(violations)
    {
      hide Query, IsTable, Range, IntegrityOf, Less, Window, Stable;
      if !a.listOk || tenantId == "" {
        return Skipped;
      }
      ListsWindow(t, tenantId);
      var items := List(t, WindowFilter(tenantId)).page.items;
      var obs := ComputeIntegrity(tenantId, items);
      ObservationOf(t, tenantId);
      var seen := tenantId in observations;
      var prev := if seen then observations[tenantId] else obs;
      observations := observations[tenantId := obs];
      if !seen || prev.head == obs.head {
        return Quiet;
      }
      var tail := CheckTail(tables, t, tenantId, prev, a.fetchOk);
      if tail == Some(true) {
        return Quiet;
      }
      violations := violations + [tenantId];
      return Reported;
    }

    ghost function View(): Memory
      reads this
    {
      Memory(observations, violations)
    }

    /** One sweep over the tenants; `None` is a failed tenant listing. Tenants are checked in
        order, a failed check skips only its tenant, and the mismatches are counted. */
    method RunOnce(turns: Option<seq<Turn>>) returns (mismatches: Option<nat>)
      requires Valid()
      requires turns.Some? ==>
                 forall i | 0 <= i < |turns.value| ::
                   Steady(AfterSweep(View(), turns.value[..i]).observations, turns.value[i])
      modifies this
      ensures Valid() && (mismatches.None? <==> turns.None?)
      ensures View() == if turns.None? then old(View()) else AfterSweep(old(View()), turns.value)
      ensures turns.Some? ==> mismatches.value == |violations| - |old(violations)|
    {
      hide VerdictOf, Observe, Stable, IsTable;
      if turns.None? {
        return None;
      }
      var count := 0;
      for i := 0 to |turns.value|
        invariant Valid() && View() == AfterSweep(old(View()), turns.value[..i])
        invariant count == |violations| - |old(violations)|
      {
        var c := turns.value[i];
        var v := CheckOne(c.t, c.tables, c.tenantId, c.answers);
        if v == Reported {
          count := count + 1;
        }
        assert turns.value[..i + 1][..i] == turns.value[..i];
      }
      assert turns.value[..|turns.value|] == turns.value;
      return Some(count);
    }
  }

  lemma ListsWindow(t: Table, tenantId: string)
    requires tenantId != ""
    ensures List(t, WindowFilter(tenantId)).Listed?
    ensures List(t, WindowFilter(tenantId)).page.items == Window(t, tenantId)
  {
  }
}
