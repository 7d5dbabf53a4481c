/**
 * Which tasks a list request finds and what one page of them holds, stated on the rows of both tables
 * (lib/a2a-marketplace.ts).
 */
module TaskAnswers {
  import opened Options
  import opened KeyOrder
  import opened TaskPages

  const SEVEN_DAYS: int := 7 * 24 * 60 * 60

  predicate InContext(context: string, q: Query) { q.context.None? || context == q.context.value }

  /** A live route task counts with the state and time its view shows. */
  predicate ListedRoute(r: RouteRow, q: Query) {
    && InContext(r.context, q)
    && (q.state == None || q.state == Some(r.state))
    && (q.after.None? || q.after.value <= r.stamp)
  }

  /** A stored read counts for seven days, as a completed task of its own second. */
  predicate ListedLegacy(r: LegacyRow, q: Query, now: int) {
    && InContext(r.context, q)
    && (q.state == None || q.state == Some(Completed))
    && (q.after.None? || q.after.value <= 1000 * r.createdAt)
    && now - r.createdAt <= SEVEN_DAYS
  }

  /** A route row of the agent shows this task, or a stored read does. */
  predicate ShowsRoute(r: RouteRow, q: Query, x: Item) { ListedRoute(r, q) && x == Item(r.createdAt, r.id, true) }

  predicate ShowsLegacy(r: LegacyRow, q: Query, now: int, x: Item) {
    ListedLegacy(r, q, now) && x == Item(r.createdAt, r.id, false)
  }

  predicate RouteShows(rows: seq<RouteRow>, q: Query, x: Item) {
    exists i :: 0 <= i < |rows| && ShowsRoute(rows[i], q, x)
  }

  predicate LegacyShows(rows: seq<LegacyRow>, q: Query, now: int, x: Item) {
    exists i :: 0 <= i < |rows| && ShowsLegacy(rows[i], q, now, x)
  }

  lemma RouteShowsFrom(rows: seq<RouteRow>, q: Query, x: Item)
    requires rows != []
    ensures RouteShows(rows, q, x) <==> ShowsRoute(rows[0], q, x) || RouteShows(rows[1..], q, x)
  {
    forall i | 0 <= i < |rows[1..]| ensures rows[1..][i] == rows[i + 1] {}
  }

  lemma LegacyShowsFrom(rows: seq<LegacyRow>, q: Query, now: int, x: Item)
    requires rows != []
    ensures LegacyShows(rows, q, now, x) <==> ShowsLegacy(rows[0], q, now, x) || LegacyShows(rows[1..], q, now, x)
  {
    forall i | 0 <= i < |rows[1..]| ensures rows[1..][i] == rows[i + 1] {}
  }

  lemma {:induction false} RouteListed(rows: seq<RouteRow>, q: Query, x: Item)
    ensures x in RouteItems(rows, q) <==> RouteShows(rows, q, x)
  {
    if rows != [] {
      RouteListed(rows[1..], q, x);
      RouteShowsFrom(rows, q, x);
    }
  }

  lemma {:induction false} LegacyListed(rows: seq<LegacyRow>, q: Query, now: int, x: Item)
    ensures x in LegacyItems(rows, q, now) <==> LegacyShows(rows, q, now, x)
  {
    if rows != [] {
      LegacyListed(rows[1..], q, now, x);
      LegacyShowsFrom(rows, q, now, x);
      if q.after.Some? { SecondsFilterIsExact(rows[0].createdAt, q.after.value); }
    }
  }

  /** A list request finds a task exactly when a row of one of the tables shows it and meets every filter given. */
  lemma ListedIff(routes: seq<RouteRow>, legacy: seq<LegacyRow>, q: Query, now: int, x: Item)
    ensures x in Everything(routes, legacy, q, now) <==> RouteShows(routes, q, x) || LegacyShows(legacy, q, now, x)
  {
    RouteListed(routes, q, x);
    LegacyListed(legacy, q, now, x);
  }

  /** x is shown before y: it is newer, or as new with the greater id. */
  predicate ShownBefore(x: Item, y: Item) {
    y.createdAt < x.createdAt || (y.createdAt == x.createdAt && Less(y.id, x.id))
  }

  /** What a client that has read up to the cursor has not seen. */
  predicate Unseen(all: seq<Item>, c: Cursor, x: Item) {
    x in all && (x.createdAt < c.createdAt || (x.createdAt == c.createdAt && Less(x.id, c.id)))
  }

  lemma UnseenAreTheRest(all: seq<Item>, c: Cursor)
    requires DistinctItems(all)
    ensures var rest := PastOnly(SortNewest(all), c);
            Descending(rest) && forall x :: x in rest <==> Unseen(all, c, x)
  {
    SortDescends(all);
    PastOnlyMembers(SortNewest(all), c);
  }

  lemma HeadOrTail(s: seq<Item>, n: nat, x: Item)
    ensures x in Take(s, n) ==> x in s
    ensures x in s && x !in Take(s, n) ==> exists k :: n <= k < |s| && s[k] == x
  {
    if n < |s| {
      assert s == s[..n] + s[n..];
      forall k | 0 <= k < |s[n..]| ensures s[n..][k] == s[n + k] {}
    }
  }

  lemma HeadIsFirst(s: seq<Item>, n: nat, x: Item)
    requires Descending(s) && n > 0
    ensures x in Take(s, n) ==> x in s
    ensures x in s && x !in Take(s, n) ==> n < |s| && ShownBefore(s[n - 1], x)
  {
    HeadOrTail(s, n, x);
  }

  lemma LaterEntryIsLeftOut(s: seq<Item>, n: nat)
    requires Descending(s) && n < |s|
    ensures s[n] in s && s[n] !in s[..n]
  {
    forall k | 0 <= k < n ensures s[..n][k] != s[n] { AheadIsTotal(s[k], s[n]); }
  }

  /**
   * A page holds the first unseen tasks in order, as many as fit; whatever is left out of it comes after all of it.
   * It counts the whole list, and carries a token, which is its last task, exactly when something is left out.
   */
  lemma PageIs(all: seq<Item>, size: nat, c: Cursor, x: Item, i: nat, j: nat)
    requires size > 0 && DistinctItems(all)
    ensures var page := PageOf(all, size, c);
            && page.totalSize == |all| && |page.tasks| <= size
            && (x in page.tasks ==> Unseen(all, c, x))
            && (i < j < |page.tasks| ==> ShownBefore(page.tasks[i], page.tasks[j]))
            && (Unseen(all, c, x) && x !in page.tasks ==>
                  |page.tasks| == size && ShownBefore(page.tasks[size - 1], x) && page.next != NoToken)
            && (page.next != NoToken ==>
                  && |page.tasks| == size
                  && page.next == Encoded(Cursor(page.tasks[size - 1].createdAt, page.tasks[size - 1].id))
                  && exists y :: Unseen(all, c, y) && y !in page.tasks)
  {
    UnseenAreTheRest(all, c);
    var rest := PastOnly(SortNewest(all), c);
    HeadIsFirst(rest, size, x);
    if |rest| > size { LaterEntryIsLeftOut(rest, size); }
  }

  predicate HexadecimalOrDash(c: char) {
    c == '-' || '0' <= c <= '9' || 'a' <= c <= 'f' || 'A' <= c <= 'F'
  }

  predicate WellFormed(c: Cursor) {
    && -9007199254740991 <= c.createdAt <= 9007199254740991
    && |c.id| == 36 && forall i | 0 <= i < 36 :: HexadecimalOrDash(c.id[i])
  }

  /** A token is honoured exactly when it names a safe integer and 36 hexadecimal digits or dashes; it resumes there. */
  lemma TokensDecode(t: Token)
    ensures Decode(t).Some? <==> t == NoToken || (t.Encoded? && WellFormed(t.cursor))
    ensures t.Encoded? && Decode(t).Some? ==> Decode(t).value == t.cursor
  {
    if t.Encoded? && |t.cursor.id| == 36 {
      assert forall i | 0 <= i < 36 :: HexOrDash(t.cursor.id[i]) == HexadecimalOrDash(t.cursor.id[i]);
    }
  }

  /** Without a token nothing has been seen yet. */
  lemma NothingIsSeenAtFirst(routes: seq<RouteRow>, legacy: seq<LegacyRow>, q: Query, now: int, x: Item)
    requires StoreOk(routes, legacy)
    ensures Decode(NoToken).Some?
    ensures Unseen(Everything(routes, legacy, q, now), Decode(NoToken).value, x)
       <==> x in Everything(routes, legacy, q, now)
  {
    EverythingIsDistinct(routes, legacy, q, now);
    if x in Everything(routes, legacy, q, now) {
      assert HexOrDash(x.id[0]) && x.id[0] < Decode(NoToken).value.id[0];
    }
  }
}
