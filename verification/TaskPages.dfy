/** Paging through route tasks and legacy tasks as one list (lib/a2a-marketplace.ts). */
module TaskPages {
  import opened Options
  import opened KeyOrder

  const MAX_SAFE_INTEGER: int := 9_007_199_254_740_991
  const RETENTION_SECONDS: int := 604_800

  datatype TaskState = Submitted | Working | Completed | Failed | CanceledState | InputRequired | OtherState

  /** A retained route task with the state and timestamp (in milliseconds) its live view shows. */
  datatype RouteRow = RouteRow(createdAt: int, id: string, context: string, state: TaskState, stamp: int)

  /** A completed read-only task; it is always shown as completed. */
  datatype LegacyRow = LegacyRow(createdAt: int, id: string, context: string)

  /** One listed task, from either table. */
  datatype Item = Item(createdAt: int, id: string, fromRoute: bool)

  datatype Cursor = Cursor(createdAt: int, id: string)

  /** The page token of a request or an answer; a present token is the cursor it decodes to, or undecodable. */
  datatype Token = NoToken | Encoded(cursor: Cursor) | Undecodable

  datatype Query = Query(context: Option<string>, state: Option<TaskState>, after: Option<int>, pageSize: nat)

  datatype Page = Page(tasks: seq<Item>, totalSize: nat, next: Token)

  // ---- order ----

  /** x is listed ahead of y: newer first, and among equally new the greater id first. */
  predicate Ahead(x: Item, y: Item) {
    x.createdAt > y.createdAt || (x.createdAt == y.createdAt && Less(y.id, x.id))
  }

  predicate SameKey(x: Item, y: Item) { x.createdAt == y.createdAt && x.id == y.id }

  /** x comes after the cursor's position. */
  predicate Past(c: Cursor, x: Item) {
    x.createdAt < c.createdAt || (x.createdAt == c.createdAt && Less(x.id, c.id))
  }

  function CursorOf(x: Item): Cursor { Cursor(x.createdAt, x.id) }

  predicate HexOrDash(c: char) { '0' <= c <= '9' || 'a' <= c <= 'f' || 'A' <= c <= 'F' || c == '-' }

  predicate UuidShaped(id: string) {
    |id| == 36 && forall i | 0 <= i < |id| :: HexOrDash(id[i])
  }

  function Encode(x: Item): Token { Encoded(CursorOf(x)) }

  /** An absent token starts before everything; a present one must name a safe integer and a UUID. */
  function Decode(t: Token): Option<Cursor> {
    match t
    case NoToken => Some(Cursor(MAX_SAFE_INTEGER, ['\U{FFFF}']))
    case Undecodable => None
    case Encoded(c) =>
      if -MAX_SAFE_INTEGER <= c.createdAt <= MAX_SAFE_INTEGER && UuidShaped(c.id) then Some(c) else None
  }

  // ---- what the queries and the sort compute ----

  function InsertNewest(x: Item, s: seq<Item>): seq<Item> {
    if s == [] then [x] else if Ahead(s[0], x) then [s[0]] + InsertNewest(x, s[1..]) else [x] + s
  }

  function SortNewest(s: seq<Item>): seq<Item> {
    if s == [] then [] else InsertNewest(s[0], SortNewest(s[1..]))
  }

  function PastOnly(s: seq<Item>, c: Cursor): seq<Item> {
    if s == [] then [] else (if Past(c, s[0]) then [s[0]] else []) + PastOnly(s[1..], c)
  }

  function Take(s: seq<Item>, n: nat): seq<Item> { if n <= |s| then s[..n] else s }

  /** ORDER BY created_at DESC, id DESC LIMIT n over the rows past the cursor. */
  function LegacyQuery(rows: seq<Item>, c: Cursor, n: nat): seq<Item> { Take(SortNewest(PastOnly(rows, c)), n) }

  predicate RouteMatches(r: RouteRow, q: Query) {
    && (q.context.None? || r.context == q.context.value)
    && (q.after.None? || r.stamp >= q.after.value)
    && (q.state.None? || r.state == q.state.value)
  }

  /** Math.ceil(ms / 1000) */
  function CeilSeconds(ms: int): int { -((-ms) / 1000) }

  /** Rounding the filter up to seconds selects the same whole-second rows as comparing milliseconds would. */
  lemma SecondsFilterIsExact(createdAt: int, afterMs: int)
    ensures createdAt >= CeilSeconds(afterMs) <==> createdAt * 1000 >= afterMs
  {
    assert -afterMs == (-afterMs) / 1000 * 1000 + (-afterMs) % 1000;
  }

  predicate LegacyMatches(r: LegacyRow, q: Query, now: int) {
    && r.createdAt >= now - RETENTION_SECONDS
    && (q.context.None? || r.context == q.context.value)
    && (q.after.None? || r.createdAt >= CeilSeconds(q.after.value))
  }

  function RouteItems(rows: seq<RouteRow>, q: Query): seq<Item> {
    if rows == [] then []
    else
      (if RouteMatches(rows[0], q) then [Item(rows[0].createdAt, rows[0].id, true)] else [])
      + RouteItems(rows[1..], q)
  }

  predicate LegacyAllowed(q: Query) { q.state.None? || q.state == Some(Completed) }

  function LegacyItems(rows: seq<LegacyRow>, q: Query, now: int): seq<Item> {
    if rows == [] || !LegacyAllowed(q) then []
    else
      (if LegacyMatches(rows[0], q, now) then [Item(rows[0].createdAt, rows[0].id, false)] else [])
      + LegacyItems(rows[1..], q, now)
  }

  // ---- the reference definition: sort everything, then cut ----

  function Everything(routes: seq<RouteRow>, legacy: seq<LegacyRow>, q: Query, now: int): seq<Item> {
    RouteItems(routes, q) + LegacyItems(legacy, q, now)
  }

  /** The first size rows found; a token for the last of them if there are more. */
  function Cut(found: seq<Item>, total: nat, size: nat): Page
    requires size > 0
  {
    Page(Take(found, size), total, if |found| > size then Encode(found[size - 1]) else NoToken)
  }

  /** The page after a cursor of a list held in memory. */
  function PageOf(all: seq<Item>, size: nat, c: Cursor): Page
    requires size > 0
  {
    Cut(PastOnly(SortNewest(all), c), |all|, size)
  }

  predicate DistinctItems(s: seq<Item>) {
    forall i, j | 0 <= i < j < |s| :: !SameKey(s[i], s[j])
  }

  /** Ids are generated UUIDs, so no two rows of either table share one; creation times are safe integers. */
  predicate StoreOk(routes: seq<RouteRow>, legacy: seq<LegacyRow>) {
    && (forall i | 0 <= i < |routes| ::
        UuidShaped(routes[i].id) && -MAX_SAFE_INTEGER <= routes[i].createdAt <= MAX_SAFE_INTEGER)
    && (forall i | 0 <= i < |legacy| ::
        UuidShaped(legacy[i].id) && -MAX_SAFE_INTEGER <= legacy[i].createdAt <= MAX_SAFE_INTEGER)
    && (forall i, j | 0 <= i < j < |routes| :: routes[i].id != routes[j].id)
    && (forall i, j | 0 <= i < j < |legacy| :: legacy[i].id != legacy[j].id)
    && (forall i, j | 0 <= i < |routes| && 0 <= j < |legacy| :: routes[i].id != legacy[j].id)
  }

  // ---- order lemmas ----

  lemma AheadIsTotal(x: Item, y: Item)
    ensures Ahead(x, y) || Ahead(y, x) || SameKey(x, y)
    ensures !(Ahead(x, y) && Ahead(y, x)) && !(Ahead(x, y) && SameKey(x, y))
  {
    LessIsTotal(x.id, y.id);
  }

  lemma AheadIsTransitive(x: Item, y: Item, z: Item)
    requires Ahead(x, y) && Ahead(y, z)
    ensures Ahead(x, z)
  {
    if x.createdAt == y.createdAt == z.createdAt { LessIsTransitive(z.id, y.id, x.id); }
  }

  lemma PastIsBehind(c: Item, x: Item)
    ensures Past(CursorOf(c), x) <==> Ahead(c, x)
  {
  }

  predicate Descending(s: seq<Item>) {
    forall i, j | 0 <= i < j < |s| :: Ahead(s[i], s[j])
  }

  /** The standard merge of two descending lists; it relates a sort of a concatenation to the sorted parts. */
  function Merge(a: seq<Item>, b: seq<Item>): seq<Item> {
    if a == [] then b
    else if b == [] then a
    else if Ahead(a[0], b[0]) then [a[0]] + Merge(a[1..], b)
    else [b[0]] + Merge(a, b[1..])
  }

  lemma {:induction false} MergeLength(a: seq<Item>, b: seq<Item>)
    ensures |Merge(a, b)| == |a| + |b|
  {
    if a != [] && b != [] {
      if Ahead(a[0], b[0]) { MergeLength(a[1..], b); } else { MergeLength(a, b[1..]); }
    }
  }

  /** Reading only the first n of b is enough for the first k of the merge. */
  lemma {:induction false} MergePrefix(a: seq<Item>, b: seq<Item>, n: nat, k: nat)
    requires k <= n
    ensures Take(Merge(a, Take(b, n)), k) == Take(Merge(a, b), k)
  {
    if k > 0 && a != [] && b != [] {
      assert Take(b, n)[0] == b[0];
      if Ahead(a[0], b[0]) {
        MergePrefix(a[1..], b, n, k - 1);
        TakeCons(a[0], Merge(a[1..], Take(b, n)), k);
        TakeCons(a[0], Merge(a[1..], b), k);
      } else {
        assert Take(b, n)[1..] == Take(b[1..], n - 1);
        MergePrefix(a, b[1..], n - 1, k - 1);
        TakeCons(b[0], Merge(a, Take(b[1..], n - 1)), k);
        TakeCons(b[0], Merge(a, b[1..]), k);
      }
    }
  }

  lemma TakeCons(x: Item, s: seq<Item>, k: nat)
    requires k > 0
    ensures Take([x] + s, k) == [x] + Take(s, k - 1)
  {
  }

  lemma {:induction false} InsertMembers(x: Item, s: seq<Item>)
    ensures |InsertNewest(x, s)| == |s| + 1
    ensures forall y :: y in InsertNewest(x, s) <==> y == x || y in s
  {
    if s != [] && Ahead(s[0], x) {
      InsertMembers(x, s[1..]);
      assert s == [s[0]] + s[1..];
    }
  }

  lemma {:induction false} InsertDescends(x: Item, s: seq<Item>)
    requires Descending(s)
    requires forall i | 0 <= i < |s| :: !SameKey(s[i], x)
    ensures Descending(InsertNewest(x, s))
  {
    if s != [] {
      AheadIsTotal(s[0], x);
      if Ahead(s[0], x) {
        InsertDescends(x, s[1..]);
        InsertMembers(x, s[1..]);
        var r := InsertNewest(x, s[1..]);
        forall j | 0 <= j < |r| ensures Ahead(s[0], r[j]) {
          assert r[j] in r;
          assert r[j] == x || r[j] in s[1..];
        }
      } else {
        forall j | 0 <= j < |s| ensures Ahead(x, s[j]) {
          if j > 0 { AheadIsTransitive(x, s[0], s[j]); }
        }
      }
    }
  }

  lemma {:induction false} SortDescends(s: seq<Item>)
    requires DistinctItems(s)
    ensures Descending(SortNewest(s)) && |SortNewest(s)| == |s|
    ensures forall y :: y in SortNewest(s) <==> y in s
  {
    if s != [] {
      SortDescends(s[1..]);
      var done := SortNewest(s[1..]);
      forall i | 0 <= i < |done| ensures !SameKey(done[i], s[0]) {
        assert done[i] in done;
        var j :| 0 <= j < |s[1..]| && s[1..][j] == done[i];
        assert !SameKey(s[0], s[j + 1]);
      }
      InsertDescends(s[0], done);
      InsertMembers(s[0], done);
      assert s == [s[0]] + s[1..];
    }
  }

  /** Two descending lists with the same members are the same list. */
  lemma {:induction false} DescendingIsUnique(a: seq<Item>, b: seq<Item>)
    requires Descending(a) && Descending(b)
    requires forall x :: x in a <==> x in b
    ensures a == b
  {
    assert b == [] || b[0] in b;
    if a != [] {
      assert a[0] in b && b != [] && b[0] in a;
      AheadIsTotal(a[0], b[0]);
      var i :| 0 <= i < |b| && b[i] == a[0];
      var j :| 0 <= j < |a| && a[j] == b[0];
      assert i == 0 || j == 0;
      forall x ensures x in a[1..] <==> x in b[1..] {
        AheadIsTotal(a[0], a[0]);
        assert x in a[1..] ==> x in a && x != a[0];
        assert x in b[1..] ==> x in b && x != b[0];
        assert x in a ==> x == a[0] || x in a[1..];
        assert x in b ==> x == b[0] || x in b[1..];
      }
      DescendingIsUnique(a[1..], b[1..]);
      assert a == [a[0]] + a[1..] && b == [b[0]] + b[1..];
    }
  }

  lemma {:induction false} MergeDescends(a: seq<Item>, b: seq<Item>)
    requires Descending(a) && Descending(b)
    requires forall i, j | 0 <= i < |a| && 0 <= j < |b| :: !SameKey(a[i], b[j])
    ensures Descending(Merge(a, b))
    ensures forall x :: x in Merge(a, b) <==> x in a || x in b
  {
    if a != [] && b != [] {
      AheadIsTotal(a[0], b[0]);
      assert a == [a[0]] + a[1..] && b == [b[0]] + b[1..];
      if Ahead(a[0], b[0]) {
        MergeDescends(a[1..], b);
        HeadsMerge(a[0], Merge(a[1..], b), a[1..], b);
      } else {
        MergeDescends(a, b[1..]);
        HeadsMerge(b[0], Merge(a, b[1..]), b[1..], a);
      }
    }
  }

  lemma HeadsMerge(x: Item, m: seq<Item>, own: seq<Item>, other: seq<Item>)
    requires Descending(m) && Descending([x] + own) && Descending(other) && other != [] && Ahead(x, other[0])
    requires forall y :: y in m <==> y in own || y in other
    ensures Descending([x] + m)
  {
    forall j | 0 <= j < |m| ensures Ahead(x, m[j]) {
      assert m[j] in m;
      if m[j] in own {
        var i :| 0 <= i < |own| && own[i] == m[j];
        assert Ahead(([x] + own)[0], ([x] + own)[i + 1]);
      } else {
        var i :| 0 <= i < |other| && other[i] == m[j];
        if i > 0 { AheadIsTransitive(x, other[0], other[i]); }
      }
    }
  }

  lemma {:induction false} PastOnlyMembers(s: seq<Item>, c: Cursor)
    ensures forall x :: x in PastOnly(s, c) <==> x in s && Past(c, x)
    ensures DistinctItems(s) ==> DistinctItems(PastOnly(s, c))
    ensures Descending(s) ==> Descending(PastOnly(s, c))
  {
    if s != [] {
      PastOnlyMembers(s[1..], c);
      var r := PastOnly(s[1..], c);
      assert s == [s[0]] + s[1..];
      forall j | 0 <= j < |r|
        ensures DistinctItems(s) ==> !SameKey(s[0], r[j])
        ensures Descending(s) ==> Ahead(s[0], r[j])
      {
        assert r[j] in r;
        var i :| 0 <= i < |s[1..]| && s[1..][i] == r[j];
        assert s[i + 1] == r[j];
      }
    }
  }

  lemma {:induction false} PastOnlyConcat(a: seq<Item>, b: seq<Item>, c: Cursor)
    ensures PastOnly(a + b, c) == PastOnly(a, c) + PastOnly(b, c)
  {
    if a == [] {
      assert a + b == b;
    } else {
      PastOnlyConcat(a[1..], b, c);
      assert (a + b)[1..] == a[1..] + b;
    }
  }

  lemma SortThenFilter(s: seq<Item>, c: Cursor)
    requires DistinctItems(s)
    ensures SortNewest(PastOnly(s, c)) == PastOnly(SortNewest(s), c)
  {
    PastOnlyMembers(s, c);
    SortDescends(s);
    PastOnlyMembers(SortNewest(s), c);
    SortDescends(PastOnly(s, c));
    DescendingIsUnique(SortNewest(PastOnly(s, c)), PastOnly(SortNewest(s), c));
  }

  lemma SortIsMerge(a: seq<Item>, b: seq<Item>)
    requires DistinctItems(a + b)
    ensures DistinctItems(a) && DistinctItems(b)
    ensures SortNewest(a + b) == Merge(SortNewest(a), SortNewest(b))
  {
    forall i, j | 0 <= i < j < |a| ensures !SameKey(a[i], a[j]) { assert !SameKey((a + b)[i], (a + b)[j]); }
    forall i, j | 0 <= i < j < |b| ensures !SameKey(b[i], b[j]) { assert !SameKey((a + b)[|a| + i], (a + b)[|a| + j]); }
    SortDescends(a);
    SortDescends(b);
    SortDescends(a + b);
    var x, y := SortNewest(a), SortNewest(b);
    forall i, j | 0 <= i < |x| && 0 <= j < |y| ensures !SameKey(x[i], y[j]) {
      assert x[i] in x && y[j] in y;
      var k :| 0 <= k < |a| && a[k] == x[i];
      var m :| 0 <= m < |b| && b[m] == y[j];
      assert !SameKey((a + b)[k], (a + b)[|a| + m]);
    }
    MergeDescends(x, y);
    DescendingIsUnique(SortNewest(a + b), Merge(x, y));
  }

  // ---- the fast page equals the reference page ----

  lemma {:induction false} DescendingIsDistinct(s: seq<Item>)
    requires Descending(s)
    ensures DistinctItems(s)
  {
    forall i, j | 0 <= i < j < |s| ensures !SameKey(s[i], s[j]) { AheadIsTotal(s[i], s[j]); }
  }

  lemma SortOfDescending(s: seq<Item>)
    requires Descending(s)
    ensures SortNewest(s) == s
  {
    DescendingIsDistinct(s);
    SortDescends(s);
    DescendingIsUnique(SortNewest(s), s);
  }

  /** Reading only the head of the sorted legacy tasks introduces no duplicate. */
  lemma HeadsStayDistinct(r: seq<Item>, l: seq<Item>, read: seq<Item>)
    requires DistinctItems(r + l) && Descending(read) && forall x | x in read :: x in l
    ensures DistinctItems(r + read)
  {
    var all := r + read;
    forall i, j | 0 <= i < j < |all| ensures !SameKey(all[i], all[j]) {
      if i < |r| <= j {
        assert all[j] == read[j - |r|] && all[j] in l;
        var k :| 0 <= k < |l| && l[k] == all[j];
        assert !SameKey((r + l)[i], (r + l)[|r| + k]);
      } else if j < |r| {
        assert !SameKey((r + l)[i], (r + l)[j]);
      } else {
        AheadIsTotal(read[i - |r|], read[j - |r|]);
      }
    }
  }

  /** Candidates built from all route tasks but only size + 1 legacy rows give the reference page. */
  lemma LimitedReadsSuffice(routes: seq<Item>, legacy: seq<Item>, size: nat, c: Cursor)
    requires size > 0 && DistinctItems(routes + legacy)
    ensures var found := SortNewest(PastOnly(routes, c) + LegacyQuery(legacy, c, size + 1));
            var rest := PastOnly(SortNewest(routes + legacy), c);
            && Take(found, size) == Take(rest, size)
            && (|found| > size <==> |rest| > size)
  {
    var r, l := PastOnly(routes, c), PastOnly(legacy, c);
    PastOnlyConcat(routes, legacy, c);
    PastOnlyMembers(routes + legacy, c);
    SortThenFilter(routes + legacy, c);
    SortIsMerge(r, l);
    var a, b := SortNewest(r), SortNewest(l);
    SortDescends(l);
    SortDescends(r);
    var read := Take(b, size + 1);
    assert Descending(read);
    SortOfDescending(read);
    assert forall x | x in read :: x in b;
    HeadsStayDistinct(r, l, read);
    SortIsMerge(r, read);
    MergePrefix(a, b, size + 1, size);
    MergeLength(a, b);
    MergeLength(a, read);
  }

  lemma MergedCutIsThePage(routes: seq<Item>, legacy: seq<Item>, size: nat, c: Cursor)
    requires size > 0 && DistinctItems(routes + legacy)
    ensures Cut(SortNewest(PastOnly(routes, c) + LegacyQuery(legacy, c, size + 1)), |legacy| + |routes|, size)
         == PageOf(routes + legacy, size, c)
  {
    LimitedReadsSuffice(routes, legacy, size, c);
    var found := SortNewest(PastOnly(routes, c) + LegacyQuery(legacy, c, size + 1));
    var rest := PastOnly(SortNewest(routes + legacy), c);
    if |found| > size {
      assert found[size - 1] == Take(found, size)[size - 1] && rest[size - 1] == Take(rest, size)[size - 1];
    }
  }

  lemma LegacyCutIsThePage(all: seq<Item>, size: nat, c: Cursor)
    requires size > 0 && DistinctItems(all)
    ensures Cut(LegacyQuery(all, c, size + 1), |all|, size) == PageOf(all, size, c)
  {
    SortThenFilter(all, c);
    var rest := PastOnly(SortNewest(all), c);
    assert Take(Take(rest, size + 1), size) == Take(rest, size);
  }

  // ---- the request handler ----

  method MergedTaskList(routes: seq<RouteRow>, legacy: seq<LegacyRow>, q: Query, c: Cursor, now: int)
    returns (page: Page)
    requires q.pageSize > 0 && DistinctItems(Everything(routes, legacy, q, now))
    ensures page == PageOf(Everything(routes, legacy, q, now), q.pageSize, c)
  {
    var routeTasks: seq<Item> := [];
    for i := 0 to |routes|
      invariant routeTasks + RouteItems(routes[i..], q) == RouteItems(routes, q)
    {
      var row := routes[i];
      assert routes[i..][1..] == routes[i + 1..];
      if RouteMatches(row, q) {
        routeTasks := routeTasks + [Item(row.createdAt, row.id, true)];
      }
    }
    assert routeTasks == RouteItems(routes, q) by { assert routes[|routes|..] == [] && routeTasks + [] == routeTasks; }
    var oldTasks := LegacyItems(legacy, q, now);
    MergedCutIsThePage(routeTasks, oldTasks, q.pageSize, c);
    page := Cut(SortNewest(PastOnly(routeTasks, c) + LegacyQuery(oldTasks, c, q.pageSize + 1)),
        |oldTasks| + |routeTasks|, q.pageSize);
  }

  /** None for an undecodable page token; page sizes outside 1 to 100 are refused before this point. */
  method ListTasks(routes: seq<RouteRow>, legacy: seq<LegacyRow>, q: Query, token: Token, now: int)
    returns (page: Option<Page>)
    requires 1 <= q.pageSize <= 100 && StoreOk(routes, legacy)
    ensures page == if Decode(token).None? then None
                    else Some(PageOf(Everything(routes, legacy, q, now), q.pageSize, Decode(token).value))
  {
    var cursor := Decode(token);
    if cursor.None? { return None; }
    EverythingIsDistinct(routes, legacy, q, now);
    if |routes| > 0 {
      var merged := MergedTaskList(routes, legacy, q, cursor.value, now);
      return Some(merged);
    }
    var all := LegacyItems(legacy, q, now);
    assert Everything(routes, legacy, q, now) == all by { assert RouteItems(routes, q) == [] && [] + all == all; }
    LegacyCutIsThePage(all, q.pageSize, cursor.value);
    if !LegacyAllowed(q) {
      assert all == [];
      return Some(Page([], 0, NoToken));
    }
    return Some(Cut(LegacyQuery(all, cursor.value, q.pageSize + 1), |all|, q.pageSize));
  }

  lemma {:induction false} RouteItemsFrom(rows: seq<RouteRow>, q: Query, k: nat)
    requires k < |RouteItems(rows, q)|
    ensures exists i | 0 <= i < |rows| :: RouteItems(rows, q)[k] == Item(rows[i].createdAt, rows[i].id, true)
  {
    var here := if RouteMatches(rows[0], q) then 1 else 0;
    if k >= here {
      RouteItemsFrom(rows[1..], q, k - here);
      var i :| 0 <= i < |rows[1..]|
          && RouteItems(rows[1..], q)[k - here] == Item(rows[1..][i].createdAt, rows[1..][i].id, true);
      assert rows[i + 1] == rows[1..][i];
    }
  }

  lemma {:induction false} LegacyItemsFrom(rows: seq<LegacyRow>, q: Query, now: int, k: nat)
    requires k < |LegacyItems(rows, q, now)|
    ensures exists i | 0 <= i < |rows| :: LegacyItems(rows, q, now)[k] == Item(rows[i].createdAt, rows[i].id, false)
  {
    var here := if LegacyMatches(rows[0], q, now) then 1 else 0;
    if k >= here {
      LegacyItemsFrom(rows[1..], q, now, k - here);
      var i :| 0 <= i < |rows[1..]|
          && LegacyItems(rows[1..], q, now)[k - here] == Item(rows[1..][i].createdAt, rows[1..][i].id, false);
      assert rows[i + 1] == rows[1..][i];
    }
  }

  lemma {:induction false} RouteItemsDistinct(rows: seq<RouteRow>, q: Query)
    requires forall i, j | 0 <= i < j < |rows| :: rows[i].id != rows[j].id
    ensures DistinctItems(RouteItems(rows, q))
  {
    if rows != [] {
      RouteItemsDistinct(rows[1..], q);
      var r := RouteItems(rows[1..], q);
      forall k | 0 <= k < |r| ensures r[k].id != rows[0].id {
        RouteItemsFrom(rows[1..], q, k);
        var i :| 0 <= i < |rows[1..]| && r[k] == Item(rows[1..][i].createdAt, rows[1..][i].id, true);
        assert rows[i + 1] == rows[1..][i];
      }
    }
  }

  lemma {:induction false} LegacyItemsDistinct(rows: seq<LegacyRow>, q: Query, now: int)
    requires forall i, j | 0 <= i < j < |rows| :: rows[i].id != rows[j].id
    ensures DistinctItems(LegacyItems(rows, q, now))
  {
    if rows != [] {
      LegacyItemsDistinct(rows[1..], q, now);
      var r := LegacyItems(rows[1..], q, now);
      forall k | 0 <= k < |r| ensures r[k].id != rows[0].id {
        LegacyItemsFrom(rows[1..], q, now, k);
        var i :| 0 <= i < |rows[1..]| && r[k] == Item(rows[1..][i].createdAt, rows[1..][i].id, false);
        assert rows[i + 1] == rows[1..][i];
      }
    }
  }

  /** In a well-formed store every listed key is distinct, safe and shaped like a UUID. */
  lemma EverythingIsDistinct(routes: seq<RouteRow>, legacy: seq<LegacyRow>, q: Query, now: int)
    requires StoreOk(routes, legacy)
    ensures DistinctItems(Everything(routes, legacy, q, now))
    ensures Encodable(Everything(routes, legacy, q, now))
  {
    var r, l := RouteItems(routes, q), LegacyItems(legacy, q, now);
    RouteItemsDistinct(routes, q);
    LegacyItemsDistinct(legacy, q, now);
    forall k | 0 <= k < |r| ensures exists i | 0 <= i < |routes| ::
        r[k] == Item(routes[i].createdAt, routes[i].id, true)
    {
      RouteItemsFrom(routes, q, k);
    }
    forall k | 0 <= k < |l| ensures exists i | 0 <= i < |legacy| ::
        l[k] == Item(legacy[i].createdAt, legacy[i].id, false)
    {
      LegacyItemsFrom(legacy, q, now, k);
    }
    forall i, j | 0 <= i < j < |r + l| ensures !SameKey((r + l)[i], (r + l)[j]) {
      if i < |r| <= j { assert r[i].id != l[j - |r|].id; }
    }
  }

  // ---- following page tokens ----

  /** In a descending list, what lies past the entry before position i is everything from i on. */
  lemma {:induction false} PastEntry(s: seq<Item>, i: nat)
    requires Descending(s) && 0 < i <= |s|
    ensures PastOnly(s, CursorOf(s[i - 1])) == s[i..]
    decreases |s|
  {
    var c := CursorOf(s[i - 1]);
    PastOnlyMembers(s, c);
    forall x ensures x in s[i..] <==> x in s && Past(c, x) {
      if x in s {
        var j :| 0 <= j < |s| && s[j] == x;
        PastIsBehind(s[i - 1], x);
        AheadIsTotal(s[i - 1], x);
        if j < i - 1 { assert Ahead(s[j], s[i - 1]); }
        if x in s[i..] { var m :| i <= m < |s| && s[m] == x; assert Ahead(s[i - 1], s[m]); }
        if Past(c, x) { assert j >= i; assert s[j] in s[i..]; }
      }
    }
    DescendingIsUnique(PastOnly(s, c), s[i..]);
  }

  /** Every entry makes a page token that decodes. */
  predicate Encodable(all: seq<Item>) {
    forall x | x in all :: UuidShaped(x.id) && -MAX_SAFE_INTEGER <= x.createdAt <= MAX_SAFE_INTEGER
  }

  /** The pages a client collects by following nextPageToken from a cursor. */
  ghost function Follow(all: seq<Item>, size: nat, c: Cursor): seq<seq<Item>>
    requires size > 0 && DistinctItems(all)
    requires Encodable(all)
    decreases |PastOnly(SortNewest(all), c)|
  {
    var page := PageOf(all, size, c);
    NextPageIsShorter(all, size, c);
    if page.next == NoToken then [page.tasks] else [page.tasks] + Follow(all, size, Decode(page.next).value)
  }

  /** A returned token decodes, and resumes exactly where the page ended. */
  lemma NextPageIsShorter(all: seq<Item>, size: nat, c: Cursor)
    requires size > 0 && DistinctItems(all)
    requires Encodable(all)
    ensures var page := PageOf(all, size, c);
            page.next != NoToken ==>
              && Decode(page.next).Some?
              && PastOnly(SortNewest(all), Decode(page.next).value) == PastOnly(SortNewest(all), c)[size..]
              && |PastOnly(SortNewest(all), c)| > size
  {
    var sorted := SortNewest(all);
    SortDescends(all);
    PastOnlyMembers(sorted, c);
    var rest := PastOnly(sorted, c);
    if |rest| > size {
      var last := rest[size - 1];
      assert last in rest;
      PastEntry(rest, size);
      PastOnlyMembers(sorted, CursorOf(last));
      PastOnlyMembers(rest, CursorOf(last));
      forall x ensures x in PastOnly(sorted, CursorOf(last)) <==> x in PastOnly(rest, CursorOf(last)) {
        if x in sorted && Past(CursorOf(last), x) { PastIsTransitive(c, last, x); }
      }
      DescendingIsUnique(PastOnly(sorted, CursorOf(last)), PastOnly(rest, CursorOf(last)));
    }
  }

  lemma PastIsTransitive(c: Cursor, x: Item, y: Item)
    requires Past(c, x) && Past(CursorOf(x), y)
    ensures Past(c, y)
  {
    if c.createdAt == x.createdAt == y.createdAt { LessIsTransitive(y.id, x.id, c.id); }
  }

  function Flatten(pages: seq<seq<Item>>): seq<Item> {
    if pages == [] then [] else pages[0] + Flatten(pages[1..])
  }

  /** A page is all that remains, or what comes before the remainder its token points at. */
  lemma PageSplits(all: seq<Item>, size: nat, c: Cursor)
    requires size > 0 && DistinctItems(all)
    requires Encodable(all)
    ensures var page, rest := PageOf(all, size, c), PastOnly(SortNewest(all), c);
            if page.next == NoToken then page.tasks == rest
            else
              && Decode(page.next).Some?
              && page.tasks + PastOnly(SortNewest(all), Decode(page.next).value) == rest
              && |PastOnly(SortNewest(all), Decode(page.next).value)| < |rest|
  {
    NextPageIsShorter(all, size, c);
  }

  lemma FollowUnfolds(all: seq<Item>, size: nat, c: Cursor)
    requires size > 0 && DistinctItems(all)
    requires Encodable(all)
    ensures var page := PageOf(all, size, c);
            if page.next == NoToken then Follow(all, size, c) == [page.tasks] + []
            else
              && Decode(page.next).Some?
              && Follow(all, size, c) == [page.tasks] + Follow(all, size, Decode(page.next).value)
  {
    NextPageIsShorter(all, size, c);
  }

  lemma FlattenCons(page: seq<Item>, pages: seq<seq<Item>>)
    ensures Flatten([page] + pages) == page + Flatten(pages)
  {
    assert ([page] + pages)[1..] == pages;
  }

  lemma {:induction false} FollowCollects(all: seq<Item>, size: nat, c: Cursor)
    requires size > 0 && DistinctItems(all)
    requires Encodable(all)
    ensures Flatten(Follow(all, size, c)) == PastOnly(SortNewest(all), c)
    decreases |PastOnly(SortNewest(all), c)|
  {
    var page := PageOf(all, size, c);
    PageSplits(all, size, c);
    FollowUnfolds(all, size, c);
    if page.next == NoToken {
      FlattenCons(page.tasks, []);
    } else {
      var next := Decode(page.next).value;
      FollowCollects(all, size, next);
      FlattenCons(page.tasks, Follow(all, size, next));
    }
  }

  /**
   * Following nextPageToken from the empty token over an unchanging store ends, and the pages put end to end are all
   * matching route and legacy tasks, newest first, each exactly once.
   */
  lemma PagesCoverTheListOnce(routes: seq<RouteRow>, legacy: seq<LegacyRow>, q: Query, now: int)
    requires q.pageSize > 0 && StoreOk(routes, legacy)
    ensures var all := Everything(routes, legacy, q, now);
            && DistinctItems(all)
            && Encodable(all)
            && var collected := Flatten(Follow(all, q.pageSize, Decode(NoToken).value));
               && Descending(collected)
               && |collected| == |all|
               && (forall x :: x in collected <==> x in all)
  {
    var all := Everything(routes, legacy, q, now);
    EverythingIsDistinct(routes, legacy, q, now);
    var c := Decode(NoToken).value;
    FollowCollects(all, q.pageSize, c);
    SortDescends(all);
    forall x | x in SortNewest(all) ensures Past(c, x) { assert HexOrDash(x.id[0]) && x.id[0] < c.id[0]; }
    AllPast(SortNewest(all), c);
  }

  lemma {:induction false} AllPast(s: seq<Item>, c: Cursor)
    requires forall x | x in s :: Past(c, x)
    ensures PastOnly(s, c) == s
  {
    if s != [] {
      assert s[0] in s;
      AllPast(s[1..], c);
    }
  }
}
