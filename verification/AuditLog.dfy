/** The audit table and its keyset pagination (internal/audit/repository.go, `List`), and the
    export stream that follows the pages (internal/admin/audit_export.go, `stream`). */
module AuditLog {
  import opened Text

  /** `rest` holds what `List` filters on or returns and the hash chain does not read:
      metadata, trace id and timestamps. */
  datatype Row = Row(id: string, tenantId: string, actorId: string, action: string,
                     resourceType: string, resourceId: string, rest: Rest)

  datatype Rest = Rest(metadata: string, traceId: string, createdAt: int)

  /** The table in primary-key order: one row per id. */
  type Table = seq<Row>

  ghost predicate IsTable(t: Table) {
    && (forall i | 0 <= i < |t| :: t[i].id != "")
    && (forall i, j | 0 <= i < j < |t| :: Less(t[i].id, t[j].id))
  }

  const DEFAULT_PAGE_SIZE: int := 50
  const MAX_PAGE_SIZE: int := 200

  /** Empty strings, an empty action list and `None` bounds mean "no filter". */
  datatype ListFilter = ListFilter(
    tenantId: string, actions: seq<string>, resourceType: string, resourceId: string,
    since: Option<int>, until: Option<int>, payloadSearch: string,
    pageSize: int, pageToken: string, idMin: string, idMax: string)

  function PageSizeOf(f: ListFilter): (n: int)
    ensures 1 <= n <= MAX_PAGE_SIZE
    ensures n != f.pageSize ==> (f.pageSize < 1 && n == 50) || (f.pageSize > 200 && n == 200)
  {
    if f.pageSize <= 0 then DEFAULT_PAGE_SIZE
    else if f.pageSize > MAX_PAGE_SIZE then MAX_PAGE_SIZE
    else f.pageSize
  }

  /** `text` contains `part` as a substring. */
  predicate Mentions(text: string, part: string) {
    exists i :: 0 <= i <= |text| && part <= text[i..]
  }

  /** The row conditions of the query that do not depend on the page. */
  predicate Selects(f: ListFilter, r: Row) {
    && r.tenantId == f.tenantId
    && (f.actions == [] || r.action in f.actions)
    && (f.resourceType == "" || r.resourceType == f.resourceType)
    && (f.resourceId == "" || r.resourceId == f.resourceId)
    && (f.payloadSearch == "" || LikeMatches(r.rest.metadata, ['%'] + EscapeLike(f.payloadSearch) + ['%']))
    && (f.since.None? || f.since.value <= r.rest.createdAt)
    && (f.until.None? || r.rest.createdAt < f.until.value)
    && (f.idMin == "" || !Less(r.id, f.idMin))
    && (f.idMax == "" || !Less(f.idMax, r.id))
  }

  predicate BeforeToken(token: string, r: Row) {
    token == "" || Less(r.id, token)
  }

  // ---------- LIKE ----------

  /** `escapeLike`: one pass that puts a backslash before each `\`, `%` and `_`. */
  function EscapeLike(s: string): string {
    if s == [] then []
    else (if s[0] == '\\' || s[0] == '%' || s[0] == '_' then ['\\', s[0]] else [s[0]]) + EscapeLike(s[1..])
  }

  /** SQL `LIKE ... ESCAPE '\'`. A trailing lone backslash matches nothing. */
  predicate LikeMatches(text: string, pattern: string)
    decreases |pattern|, |text|
  {
    if pattern == [] then text == []
    else if pattern[0] == '%' then
      LikeMatches(text, pattern[1..]) || (text != [] && LikeMatches(text[1..], pattern))
    else if pattern[0] == '\\' then
      |pattern| >= 2 && text != [] && text[0] == pattern[1] && LikeMatches(text[1..], pattern[2..])
    else
      text != [] && (pattern[0] == '_' || text[0] == pattern[0]) && LikeMatches(text[1..], pattern[1..])
  }

  lemma {:induction false} LikeAnything(text: string)
    ensures LikeMatches(text, ['%'])
  {
    var p: string := ['%'];
    assert p[1..] == [];
    if text != [] {
      LikeAnything(text[1..]);
    }
  }

  /** An escaped literal followed by `%` matches exactly the texts it is a prefix of. */
  lemma {:induction false} LikePrefix(text: string, s: string)
    ensures LikeMatches(text, EscapeLike(s) + ['%']) <==> s <= text
  {
    var p := EscapeLike(s) + ['%'];
    if s == [] {
      assert p == ['%'];
      LikeAnything(text);
    } else {
      var tail := EscapeLike(s[1..]) + ['%'];
      if s[0] == '\\' || s[0] == '%' || s[0] == '_' {
        assert p == ['\\', s[0]] + tail;
        assert p[2..] == tail;
      } else {
        assert p == [s[0]] + tail;
        assert p[1..] == tail;
      }
      if text != [] {
        LikePrefix(text[1..], s[1..]);
        assert s <= text <==> s[0] == text[0] && s[1..] <= text[1..];
      }
    }
  }

  /** The payload search is a literal substring search: escaping removes every wildcard. */
  lemma {:induction false} PayloadSearchIsSubstring(text: string, s: string)
    ensures LikeMatches(text, ['%'] + EscapeLike(s) + ['%']) <==> Mentions(text, s)
    decreases |text|
  {
    var p := ['%'] + EscapeLike(s) + ['%'];
    assert p[1..] == EscapeLike(s) + ['%'];
    LikePrefix(text, s);
    assert text[0..] == text;
    if text != [] {
      PayloadSearchIsSubstring(text[1..], s);
      MentionsTail(text, s);
    }
  }

  lemma MentionsTail(text: string, s: string)
    requires text != []
    ensures Mentions(text, s) <==> s <= text || Mentions(text[1..], s)
  {
    var tail := text[1..];
    assert text[0..] == text;
    forall i | 0 <= i <= |tail| ensures tail[i..] == text[i + 1..] {
    }
    if Mentions(text, s) {
      var i :| 0 <= i <= |text| && s <= text[i..];
      if i > 0 {
        assert tail[i - 1..] == text[i..];
      }
    }
  }

  // ---------- the query ----------

  /** Matching rows before the token, newest first. */
  function Query(t: Table, f: ListFilter, token: string): seq<Row> {
    if t == [] then []
    else
      var last := t[|t| - 1];
      (if Selects(f, last) && BeforeToken(token, last) then [last] else []) + Query(t[..|t| - 1], f, token)
  }

  datatype Page = Page(items: seq<Row>, nextToken: string)

  datatype ListError = TenantRequired

  datatype ListResult = Listed(page: Page) | Failed(error: ListError)

  /** One page: fetch one row more than the page holds, and if it is there return the id of
      the last row shown as the token of the next page. */
  function PageOf(rows: seq<Row>, size: int): Page
    requires size >= 1
  {
    if |rows| > size then Page(rows[..size], rows[size - 1].id) else Page(rows, "")
  }

  function List(t: Table, f: ListFilter): ListResult {
    if f.tenantId == "" then Failed(TenantRequired)
    else
      var size := PageSizeOf(f);
      var rows := Query(t, f, f.pageToken);
      Listed(PageOf(if |rows| > size + 1 then rows[..size + 1] else rows, size))
  }

  ghost predicate Descending(rows: seq<Row>) {
    forall i, j | 0 <= i < j < |rows| :: Less(rows[j].id, rows[i].id)
  }

  /** The query returns, newest first, exactly the matching rows before the token. */
  lemma {:induction false} QueryMeaning(t: Table, f: ListFilter, token: string)
    requires IsTable(t)
    ensures Descending(Query(t, f, token))
    ensures forall r :: r in Query(t, f, token) <==> r in t && Selects(f, r) && BeforeToken(token, r)
  {
    hide Selects, BeforeToken, Less;
    if t != [] {
      var init, last := t[..|t| - 1], t[|t| - 1];
      QueryMeaning(init, f, token);
      var below := Query(init, f, token);
      forall r | r in below ensures Less(r.id, last.id) {
        assert r in init;
      }
      assert t == init + [last];
      assert forall r :: r in t <==> r in init || r == last;
    }
  }

  // ---------- following the tokens ----------

  /** What a caller asked for, filter by filter: the tenant, any of the actions, the resource,
      a literal part of the metadata text, a time from `since` up to but not at `until`, and an
      id within both bounds. */
  predicate Passes(f: ListFilter, r: Row) {
    && r.tenantId == f.tenantId
    && (f.actions != [] ==> exists i | 0 <= i < |f.actions| :: f.actions[i] == r.action)
    && (f.resourceType != "" ==> f.resourceType == r.resourceType)
    && (f.resourceId != "" ==> f.resourceId == r.resourceId)
    && (f.payloadSearch != "" ==> Mentions(r.rest.metadata, f.payloadSearch))
    && (f.since.Some? ==> r.rest.createdAt >= f.since.value)
    && (f.until.Some? ==> r.rest.createdAt < f.until.value)
    && (f.idMin != "" ==> r.id == f.idMin || Less(f.idMin, r.id))
    && (f.idMax != "" ==> r.id == f.idMax || Less(r.id, f.idMax))
  }

  lemma SelectsWhatPasses(f: ListFilter, r: Row)
    ensures Selects(f, r) <==> Passes(f, r)
  {
    hide Less, LikeMatches, EscapeLike, Mentions;
    PayloadSearchIsSubstring(r.rest.metadata, f.payloadSearch);
    OrderedEither(r.id, f.idMin);
    OrderedEither(f.idMax, r.id);
  }

  lemma OrderedEither(a: string, b: string)
    ensures !Less(a, b) <==> a == b || Less(b, a)
  {
    LessTotal(a, b);
    LessIrreflexive(a);
    if Less(a, b) && Less(b, a) {
      LessTransitive(a, b, a);
      assert false;
    }
  }

  /** A listing shows exactly the newest rows that pass the filter and precede the token, up to
      the page size, and the token of the next page exactly when there are more. */
  lemma ListByFilter(t: Table, f: ListFilter)
    requires IsTable(t) && f.tenantId != ""
    ensures List(t, f).Listed?
    ensures var page, all := List(t, f).page, Query(t, f, f.pageToken);
            && Descending(all)
            && (forall r :: r in all <==> r in t && Passes(f, r) && (f.pageToken == "" || Less(r.id, f.pageToken)))
            && page.items == (if |all| <= PageSizeOf(f) then all else all[..PageSizeOf(f)])
            && (page.nextToken != "" ==> |all| > PageSizeOf(f))
            && (|all| > PageSizeOf(f) ==> page.nextToken == all[PageSizeOf(f) - 1].id != "")
  {
    hide Less, Selects, Passes, Query, PageSizeOf;
    QueryMeaning(t, f, f.pageToken);
    IdsNonEmpty(t, f, f.pageToken);
    forall r ensures Selects(f, r) <==> Passes(f, r) {
      SelectsWhatPasses(f, r);
    }
    FetchOneMore(Query(t, f, f.pageToken), PageSizeOf(f));
  }

  lemma {:induction false} SameBefore(t: Table, f: ListFilter, a: string, b: string)
    requires forall r | r in t :: BeforeToken(a, r) == BeforeToken(b, r)
    ensures Query(t, f, a) == Query(t, f, b)
  {
    hide Selects, BeforeToken;
    if t != [] {
      SameBefore(t[..|t| - 1], f, a, b);
    }
  }

  /** Asking again with the id of a row returned gives exactly the rows after it. */
  lemma {:induction false} QueryAfter(t: Table, f: ListFilter, token: string, k: int)
    requires IsTable(t) && 0 <= k < |Query(t, f, token)|
    ensures Query(t, f, Query(t, f, token)[k].id) == Query(t, f, token)[k + 1..]
  {
    hide Selects, Less;
    var init, last := t[..|t| - 1], t[|t| - 1];
    var r := Query(t, f, token)[k];
    forall x | x in init ensures Less(x.id, last.id) && x.id != "" {
    }
    if Selects(f, last) && BeforeToken(token, last) {
      forall x | x in init ensures BeforeToken(token, x) && BeforeToken(last.id, x) {
        if token != "" {
          LessTransitive(x.id, last.id, token);
        }
      }
      SameBefore(init, f, token, last.id);
      if k == 0 {
        LessIrreflexive(last.id);
      } else {
        QueryAfter(init, f, token, k - 1);
        NotAfter(init, f, token, r, last);
      }
    } else {
      QueryAfter(init, f, token, k);
      NotAfter(init, f, token, r, last);
    }
  }

  lemma NotAfter(init: Table, f: ListFilter, token: string, r: Row, last: Row)
    requires IsTable(init) && r in Query(init, f, token)
    requires forall x | x in init :: Less(x.id, last.id)
    ensures r.id != "" && !Less(last.id, r.id)
  {
    hide Less, Selects, BeforeToken;
    QueryMeaning(init, f, token);
    if Less(last.id, r.id) {
      LessTransitive(r.id, last.id, r.id);
    }
    LessIrreflexive(r.id);
  }

  /** Rows appended meanwhile carry higher ids and are invisible to a token taken earlier. */
  lemma {:induction false} QueryIgnoresGrowth(t0: Table, t: Table, f: ListFilter, token: string)
    requires IsTable(t) && t0 <= t && exists r :: r in t0 && r.id == token
    ensures Query(t, f, token) == Query(t0, f, token)
    decreases |t|
  {
    hide Less, Selects;
    if |t0| < |t| {
      var init, last := t[..|t| - 1], t[|t| - 1];
      var i :| 0 <= i < |t0| && t0[i].id == token;
      assert t[i] == t0[i];
      assert Less(token, last.id);
      if Less(last.id, token) {
        LessTransitive(token, last.id, token);
      }
      LessIrreflexive(token);
      QueryIgnoresGrowth(t0, init, f, token);
      assert !BeforeToken(token, last);
    } else {
      assert t0 == t;
    }
  }

  function Flat(pages: seq<seq<Row>>): seq<Row> {
    if pages == [] then [] else Flat(pages[..|pages| - 1]) + pages[|pages| - 1]
  }

  datatype StreamEnd = Done | ListFailed | EmitFailed | SafetyLimit

  const SAFETY: int := 1000

  /** The snapshots seen by successive fetches: the first, then the first plus appended rows. */
  ghost predicate Snapshots(tables: int -> Table) {
    && IsTable(tables(0))
    && forall i :: IsTable(tables(i)) && tables(0) <= tables(i)
  }

  lemma {:induction false} TokenIsNoFilter(t: Table, f: ListFilter, x: string, token: string)
    ensures Query(t, f.(pageToken := x), token) == Query(t, f, token)
  {
    hide LikeMatches, Less;
    if t != [] {
      TokenIsNoFilter(t[..|t| - 1], f, x, token);
    }
  }

  /** The fetch with the token of row `k - 1` returns the page that starts at row `k`. */
  lemma NextPage(t0: Table, t: Table, f: ListFilter, token: string, k: int)
    requires IsTable(t) && IsTable(t0) && t0 <= t && f.tenantId != ""
    requires var whole := Query(t0, f, f.pageToken);
             if k == 0 then token == f.pageToken && t == t0
             else 0 < k < |whole| && token == whole[k - 1].id
    ensures List(t, f.(pageToken := token)) == Listed(PageOf(Query(t0, f, f.pageToken)[k..], PageSizeOf(f)))
  {
    hide Less, Selects, BeforeToken, Query, IsTable;
    var whole := Query(t0, f, f.pageToken);
    TokenIsNoFilter(t, f, token, token);
    QueryMeaning(t0, f, f.pageToken);
    if k == 0 {
      assert whole[0..] == whole;
    } else {
      QueryAfter(t0, f, f.pageToken, k - 1);
      assert whole[k - 1] in whole;
      QueryIgnoresGrowth(t0, t, f, token);
    }
    FetchOneMore(whole[k..], PageSizeOf(f));
  }

  lemma FetchOneMore(rows: seq<Row>, size: int)
    requires size >= 1
    ensures PageOf(if |rows| > size + 1 then rows[..size + 1] else rows, size) == PageOf(rows, size)
  {
  }

  /** Streams all pages. Whatever is appended meanwhile and whichever call fails, the rows
      emitted are a prefix of the first snapshot's result, page by page without an empty
      page. The stream ends well only with the whole result; without a failure it ends
      otherwise only when the result does not fit the safety limit. */
  method Stream(tables: int -> Table, f: ListFilter, listOk: int -> bool, emitOk: int -> bool)
    returns (pages: seq<seq<Row>>, end: StreamEnd)
    requires Snapshots(tables)
    ensures Flat(pages) <= Query(tables(0), f, f.pageToken)
    ensures forall i | 0 <= i < |pages| :: 1 <= |pages[i]| <= PageSizeOf(f)
    ensures forall i | 0 <= i < |pages| - 1 :: |pages[i]| == PageSizeOf(f)
    ensures end == Done ==> Flat(pages) == Query(tables(0), f, f.pageToken) && |Flat(pages)| <= SAFETY * PageSizeOf(f)
    ensures end == SafetyLimit ==> |Flat(pages)| == SAFETY * PageSizeOf(f) < |Query(tables(0), f, f.pageToken)|
    ensures end == ListFailed ==> f.tenantId == "" || exists i :: !listOk(i)
    ensures end == EmitFailed ==> exists i :: !emitOk(i)
  {
    hide Query, List, PageOf, Flat, IsTable, PageSizeOf, Selects;
    pages := [];
    var size := PageSizeOf(f);
    ghost var whole := Query(tables(0), f, f.pageToken);
    ghost var k := 0;
    var token := f.pageToken;
    FlatNil();
    IdsNonEmpty(tables(0), f, f.pageToken);
    for safety := 0 to SAFETY
      invariant |pages| == safety && forall i | 0 <= i < |pages| :: |pages[i]| == size
      invariant k == safety * size && 0 <= k <= |whole| && Flat(pages) == whole[..k]
      invariant if safety == 0 then token == f.pageToken else 0 < k < |whole| && token == whole[k - 1].id
    {
      Room(safety, size);
      if !listOk(safety) || f.tenantId == "" {
        return pages, ListFailed;
      }
      NextPage(tables(0), tables(safety), f, token, k);
      var res := List(tables(safety), f.(pageToken := token)).page;
      if res.items == [] {
        PageEnds(whole, k, size);
        return pages, Done;
      }
      if !emitOk(safety) {
        return pages, EmitFailed;
      }
      PageEnds(whole, k, size);
      AddPage(pages, whole, k, size);
      pages := pages + [res.items];
      if res.nextToken == "" {
        return pages, Done;
      }
      token := res.nextToken;
      k := k + size;
    }
    return pages, SafetyLimit;
  }

  lemma Room(n: int, size: int)
    requires 0 <= n < SAFETY && size >= 1
    ensures (n + 1) * size == n * size + size <= SAFETY * size
  {
    var left := SAFETY - n - 1;
    assert left * size >= 0;
    assert SAFETY * size == (n + 1 + left) * size == (n + 1) * size + left * size;
  }

  lemma FlatNil()
    ensures Flat([]) == []
  {
  }

  lemma IdsNonEmpty(t: Table, f: ListFilter, token: string)
    requires IsTable(t)
    ensures forall r | r in Query(t, f, token) :: r.id != ""
  {
  }

  lemma PageEnds(whole: seq<Row>, k: int, size: int)
    requires 0 <= k <= |whole| && size >= 1
    ensures PageOf(whole[k..], size).items == [] <==> k == |whole|
  {
  }

  lemma AddPage(pages: seq<seq<Row>>, whole: seq<Row>, k: int, size: int)
    requires 0 <= k < |whole| && size >= 1 && Flat(pages) == whole[..k]
    requires forall r | r in whole :: r.id != ""
    ensures var page := PageOf(whole[k..], size);
            && Flat(pages + [page.items]) == whole[..k + |page.items|]
            && (page.nextToken == "" <==> k + size >= |whole|)
            && |page.items| == (if k + size >= |whole| then |whole| - k else size)
            && (page.nextToken != "" ==> page.nextToken == whole[k + size - 1].id)
  {
  }
}
