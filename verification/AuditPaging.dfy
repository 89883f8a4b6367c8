/**
 Paging through the audit log of system settings, newest first. The query gives
 rows in batches; the remaining filters are applied to each batch, until a page
 is full.
 */
module AuditPaging {
  import opened Basics

  type RowId = nat

  /** `entry` stands for everything the filters look at. */
  datatype Row = Row(id: RowId, entry: string)

  ghost predicate UniqueIds(log: seq<Row>) {
    forall i, j | 0 <= i < j < |log| :: log[i].id != log[j].id
  }

  /** The rows after the one with the cursor's id; none if there is no such row. */
  function After(log: seq<Row>, cursor: Option<RowId>): (r: seq<Row>)
    ensures |r| <= |log|
  {
    if cursor == None then log
    else if log == [] then []
    else if log[0].id == cursor.value then log[1..]
    else After(log[1..], cursor)
  }

  lemma {:induction false} FilterSplits(a: seq<Row>, b: seq<Row>, matches: Row -> bool)
    ensures Filter(a + b, matches) == Filter(a, matches) + Filter(b, matches)
  {
    if a == [] {
      assert a + b == b;
    } else {
      assert (a + b)[1..] == a[1..] + b;
      FilterSplits(a[1..], b, matches);
      var head := if matches(a[0]) then [a[0]] else [];
      assert head + (Filter(a[1..], matches) + Filter(b, matches)) ==
           head + Filter(a[1..], matches) + Filter(b, matches);
    }
  }

  /** Going on from a row means dropping everything up to it. */
  lemma {:induction false} AfterRow(log: seq<Row>, k: nat)
    requires UniqueIds(log) && k < |log|
    ensures After(log, Some(log[k].id)) == log[k + 1..]
  {
    if k > 0 {
      AfterRow(log[1..], k - 1);
    }
  }

  lemma {:induction false} AfterIsSuffix(log: seq<Row>, cursor: Option<RowId>) returns (k: nat)
    ensures k <= |log| && After(log, cursor) == log[k..]
  {
    if cursor == None || log == [] {
      k := 0;
    } else if log[0].id == cursor.value {
      k := 1;
    } else {
      k := AfterIsSuffix(log[1..], cursor);
      k := k + 1;
    }
  }

  /** Cursors compose: going on from a row met after a cursor. */
  lemma AfterAfter(log: seq<Row>, cursor: Option<RowId>, k: nat)
    requires UniqueIds(log) && k < |After(log, cursor)|
    ensures After(log, Some(After(log, cursor)[k].id)) == After(log, cursor)[k + 1..]
  {
    var n := AfterIsSuffix(log, cursor);
    AfterRow(log, n + k);
  }

  /** A batch moves rows from what is left to what has been filtered. */
  lemma BatchTaken(log: seq<Row>, matches: Row -> bool, cursor: Option<RowId>, rows: seq<Row>, filteredRows: seq<Row>,
                   all: seq<Row>)
    requires UniqueIds(log) && rows != [] && rows <= After(log, cursor)
    requires filteredRows + Filter(After(log, cursor), matches) == all
    ensures var next := Some(rows[|rows| - 1].id);
            && After(log, next) == After(log, cursor)[|rows|..]
            && filteredRows + Filter(rows, matches) + Filter(After(log, next), matches) == all
  {
    var left := After(log, cursor);
    assert left == rows + left[|rows|..];
    FilterSplits(rows, left[|rows|..], matches);
    AfterAfter(log, cursor, |rows| - 1);
  }

  /** The batches bring a first part of the filtered log, long enough for the
      target or complete; how large they are makes no difference to that. */
  method CollectSystemSettingsAuditRows(log: seq<Row>, matches: Row -> bool, start: Option<RowId>, targetCount: nat)
    returns (filteredRows: seq<Row>)
    requires UniqueIds(log)
    ensures filteredRows <= Filter(After(log, start), matches)
    ensures |filteredRows| >= targetCount || filteredRows == Filter(After(log, start), matches)
  {
    var take := Max(Min(targetCount * 3, 200), 50);
    filteredRows := [];
    var cursor, exhausted := start, false;
    ghost var all := Filter(After(log, start), matches);
    while |filteredRows| < targetCount && !exhausted
      invariant filteredRows + Filter(After(log, cursor), matches) == all
      invariant exhausted ==> After(log, cursor) == []
      decreases |After(log, cursor)|, !exhausted
    {
      var rows := Take(After(log, cursor), take);
      if rows == [] {
        break;
      }
      BatchTaken(log, matches, cursor, rows, filteredRows, all);
      filteredRows := filteredRows + Filter(rows, matches);
      cursor := Some(rows[|rows| - 1].id);
      exhausted := |rows| < take;
    }
  }

  // ---------- pages ----------

  datatype Page = Page(items: seq<Row>, nextCursor: Option<RowId>)

  /** A page, told without batches. */
  function PageAfter(log: seq<Row>, matches: Row -> bool, cursor: Option<RowId>, limit: nat): (page: Page)
    requires 0 < limit
    ensures page.items <= Filter(After(log, cursor), matches)
  {
    var filtered := Filter(After(log, cursor), matches);
    Page(Take(filtered, limit), if |filtered| > limit then Some(filtered[limit - 1].id) else None)
  }

  method ListSystemSettingsAuditLogs(log: seq<Row>, matches: Row -> bool, cursor: Option<RowId>, limit: nat)
    returns (page: Page)
    requires UniqueIds(log) && 0 < limit
    ensures page == PageAfter(log, matches, cursor, limit)
  {
    var filteredRows := CollectSystemSettingsAuditRows(log, matches, cursor, limit + 1);
    var hasMore := |filteredRows| > limit;
    var items := Take(filteredRows, limit);
    page := Page(items, if hasMore && |items| > 0 then Some(items[|items| - 1].id) else None);
  }

  lemma {:induction false} FilteredPosition(rows: seq<Row>, matches: Row -> bool, n: nat) returns (k: nat)
    requires n < |Filter(rows, matches)|
    ensures k < |rows| && rows[k] == Filter(rows, matches)[n]
    ensures Filter(rows[k + 1..], matches) == Filter(rows, matches)[n + 1..]
  {
    var rest := Filter(rows[1..], matches);
    if matches(rows[0]) && n == 0 {
      k := 0;
      assert Filter(rows, matches)[1..] == rest;
    } else {
      var m := if matches(rows[0]) then n - 1 else n;
      k := FilteredPosition(rows[1..], matches, m);
      assert rows[1..][k + 1..] == rows[k + 2..];
      assert Filter(rows, matches)[n + 1..] == rest[m + 1..];
      k := k + 1;
    }
  }

  /** After a full page the filtered log goes on just where the page ended. */
  lemma NextPageGoesOn(log: seq<Row>, matches: Row -> bool, cursor: Option<RowId>, limit: nat)
    requires UniqueIds(log) && 0 < limit < |Filter(After(log, cursor), matches)|
    ensures var page := PageAfter(log, matches, cursor, limit);
            && page.nextCursor.Some?
            && Filter(After(log, page.nextCursor), matches) == Filter(After(log, cursor), matches)[limit..]
            && |After(log, page.nextCursor)| < |After(log, cursor)|
            && exists k :: 0 <= k < |log| && log[k].id == page.nextCursor.value
  {
    var k := FilteredPosition(After(log, cursor), matches, limit - 1);
    AfterAfter(log, cursor, k);
    var n := AfterIsSuffix(log, cursor);
    assert log[n + k] == After(log, cursor)[k];
  }

  /** The log each page finds: newer rows may have come in front of the first log. */
  ghost predicate Grows(log: seq<Row>, newer: nat -> seq<Row>) {
    forall page: nat :: GrownAt(log, newer, page)
  }

  ghost predicate GrownAt(log: seq<Row>, newer: nat -> seq<Row>, page: nat) {
    UniqueIds(newer(page) + log)
  }

  lemma {:induction false} NewerRowsAreSkipped(newer: seq<Row>, log: seq<Row>, k: nat)
    requires UniqueIds(newer + log) && k < |log|
    ensures After(newer + log, Some(log[k].id)) == After(log, Some(log[k].id))
  {
    if newer == [] {
      assert newer + log == log;
    } else {
      assert (newer + log)[|newer| + k] == log[k];
      assert (newer + log)[1..] == newer[1..] + log;
      NewerRowsAreSkipped(newer[1..], log, k);
    }
  }

  /** The first `count` pages from a cursor on, one after the other; `fetch` gives
      the page that a call of this number finds. */
  ghost function Follow(fetch: (nat, Option<RowId>) -> Page, cursor: Option<RowId>, number: nat, count: nat): seq<Row>
    decreases count
  {
    if count == 0 then []
    else
      var page := fetch(number, cursor);
      if page.nextCursor == None then page.items
      else page.items + Follow(fetch, page.nextCursor, number + 1, count - 1)
  }

  /** Each call finds its own newer rows in front of the log. */
  ghost predicate Serves(fetch: (nat, Option<RowId>) -> Page, log: seq<Row>, newer: nat -> seq<Row>,
                         matches: Row -> bool, limit: nat)
    requires 0 < limit
  {
    forall number: nat, cursor :: fetch(number, cursor) == PageAfter(newer(number) + log, matches, cursor, limit)
  }

  /** The first page sees the log itself, a later one goes on from a row of it. */
  ghost predicate SeesLog(log: seq<Row>, newer: seq<Row>, cursor: Option<RowId>) {
    if cursor == None then newer == [] else exists k :: 0 <= k < |log| && log[k].id == cursor.value
  }

  lemma SamePage(log: seq<Row>, newer: seq<Row>, matches: Row -> bool, cursor: Option<RowId>, limit: nat)
    requires UniqueIds(newer + log) && 0 < limit && SeesLog(log, newer, cursor)
    ensures PageAfter(newer + log, matches, cursor, limit) == PageAfter(log, matches, cursor, limit)
  {
    if cursor == None {
      assert newer + log == log;
    } else {
      var k :| 0 <= k < |log| && log[k].id == cursor.value;
      NewerRowsAreSkipped(newer, log, k);
    }
  }

  lemma ServedPage(fetch: (nat, Option<RowId>) -> Page, log: seq<Row>, newer: nat -> seq<Row>, matches: Row -> bool,
                   cursor: Option<RowId>,
                   limit: nat, number: nat)
    requires 0 < limit && Serves(fetch, log, newer, matches, limit) && Grows(log, newer) &&
             SeesLog(log, newer(number), cursor)
    ensures fetch(number, cursor) == PageAfter(log, matches, cursor, limit)
  {
    assert GrownAt(log, newer, number);
    SamePage(log, newer(number), matches, cursor, limit);
  }

  lemma NextPageSees(log: seq<Row>, newer: seq<Row>, matches: Row -> bool, cursor: Option<RowId>, limit: nat)
    requires UniqueIds(log) && 0 < limit && PageAfter(log, matches, cursor, limit).nextCursor.Some?
    ensures var next := PageAfter(log, matches, cursor, limit).nextCursor;
            SeesLog(log, newer, next) && |After(log, next)| < |After(log, cursor)|
  {
    NextPageGoesOn(log, matches, cursor, limit);
  }

  lemma PageThenRest(log: seq<Row>, matches: Row -> bool, cursor: Option<RowId>, limit: nat)
    requires UniqueIds(log) && 0 < limit
    ensures var filtered, page := Filter(After(log, cursor), matches), PageAfter(log, matches, cursor, limit);
            if page.nextCursor == None then page.items == filtered
            else page.items + Filter(After(log, page.nextCursor), matches) == filtered
  {
    var filtered := Filter(After(log, cursor), matches);
    if |filtered| > limit {
      NextPageGoesOn(log, matches, cursor, limit);
      assert filtered[..limit] + filtered[limit..] == filtered;
    }
  }

  /** The page at a cursor brings all that is left, or a first part of it. */
  ghost predicate GoesOn(page: Page, left: Option<RowId> -> seq<Row>, cursor: Option<RowId>) {
    if page.nextCursor == None then page.items == left(cursor)
    else page.items != [] && page.items + left(page.nextCursor) == left(cursor)
  }

  /** From a valid call the next one is valid, too. */
  ghost predicate StepsOn(fetch: (nat, Option<RowId>) -> Page, left: Option<RowId> -> seq<Row>,
                          valid: (nat, Option<RowId>) -> bool, number: nat, cursor: Option<RowId>) {
    valid(number, cursor) ==>
      var page := fetch(number, cursor);
      GoesOn(page, left, cursor) && (page.nextCursor.Some? ==> valid(number + 1, page.nextCursor))
  }

  lemma {:induction false} FollowBringsLeft(fetch: (nat, Option<RowId>) -> Page, left: Option<RowId> -> seq<Row>,
                                            valid: (nat, Option<RowId>) -> bool, cursor: Option<RowId>, number: nat,
                                            count: nat)
    requires forall n: nat, c :: StepsOn(fetch, left, valid, n, c)
    requires valid(number, cursor) && |left(cursor)| < count
    ensures Follow(fetch, cursor, number, count) == left(cursor)
    decreases count
  {
    var page := fetch(number, cursor);
    assert StepsOn(fetch, left, valid, number, cursor);
    if page.nextCursor.Some? {
      FollowBringsLeft(fetch, left, valid, page.nextCursor, number + 1, count - 1);
    }
  }

  lemma ServedGoesOn(fetch: (nat, Option<RowId>) -> Page, log: seq<Row>, newer: nat -> seq<Row>, matches: Row -> bool,
                     limit: nat,
                     left: Option<RowId> -> seq<Row>, cursor: Option<RowId>, number: nat)
    requires UniqueIds(log) && Grows(log, newer) && 0 < limit && Serves(fetch, log, newer, matches, limit)
    requires SeesLog(log, newer(number), cursor)
    requires forall c :: left(c) == Filter(After(log, c), matches)
    ensures GoesOn(fetch(number, cursor), left, cursor)
    ensures var next := fetch(number, cursor).nextCursor; next.Some? ==> SeesLog(log, newer(number + 1), next)
  {
    ServedPage(fetch, log, newer, matches, cursor, limit, number);
    PageThenRest(log, matches, cursor, limit);
    if PageAfter(log, matches, cursor, limit).nextCursor.Some? {
      NextPageSees(log, newer(number + 1), matches, cursor, limit);
    }
  }

  lemma AllServedGoOn(fetch: (nat, Option<RowId>) -> Page, log: seq<Row>, newer: nat -> seq<Row>,
                      matches: Row -> bool, limit: nat,
                      left: Option<RowId> -> seq<Row>, valid: (nat, Option<RowId>) -> bool)
    requires UniqueIds(log) && Grows(log, newer) && 0 < limit && Serves(fetch, log, newer, matches, limit)
    requires forall c :: left(c) == Filter(After(log, c), matches)
    requires forall n: nat, c :: valid(n, c) <==> SeesLog(log, newer(n), c)
    ensures forall n: nat, c :: StepsOn(fetch, left, valid, n, c)
  {
    forall n: nat, c: Option<RowId>
      ensures StepsOn(fetch, left, valid, n, c)
    {
      if valid(n, c) {
        ServedGoesOn(fetch, log, newer, matches, limit, left, c, n);
      }
    }
  }

  lemma StartIsValid(log: seq<Row>, newer: nat -> seq<Row>, matches: Row -> bool,
                     left: Option<RowId> -> seq<Row>, valid: (nat, Option<RowId>) -> bool)
    requires newer(0) == []
    requires left(None) == Filter(After(log, None), matches)
    requires valid(0, None) <==> SeesLog(log, newer(0), None)
    ensures valid(0, None) && |left(None)| <= |log|
  {
  }

  /** Following the cursors from the first page brings exactly the filtered log as
      the first page found it: no gap and no repeat, whatever the page size and
      whatever is logged meanwhile. */
  lemma PagesMakeTheLog(fetch: (nat, Option<RowId>) -> Page, log: seq<Row>, newer: nat -> seq<Row>,
                        matches: Row -> bool, limit: nat)
    requires 0 < limit && Serves(fetch, log, newer, matches, limit)
    requires UniqueIds(log) && Grows(log, newer) && newer(0) == []
    ensures Follow(fetch, None, 0, |log| + 1) == Filter(log, matches)
  {
    var left := (c: Option<RowId>) => Filter(After(log, c), matches);
    var valid := (n: nat, c: Option<RowId>) => SeesLog(log, newer(n), c);
    AllServedGoOn(fetch, log, newer, matches, limit, left, valid);
    StartIsValid(log, newer, matches, left, valid);
    FollowBringsLeft(fetch, left, valid, None, 0, |log| + 1);
  }
}
