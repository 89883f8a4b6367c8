/**
 Incremental customer sync: two streams, changed customers and tombstones of
 deleted ones, paged with one cursor each. A table is the list of its rows by
 time and id, as both queries order them; times are in milliseconds and ids
 stand for their place in the collation.
 */
module CustomerSync {
  import opened Sorting
  import opened Basics

  type Instant = int

  /** The empty id comes before every id of a row. */
  const NO_ID := -1

  datatype Cursor = Cursor(at: Instant, id: int)
  {
    predicate Before(other: Cursor) {
      at < other.at || (at == other.at && id < other.id)
    }

    predicate NotAfter(other: Cursor) {
      this == other || Before(other)
    }
  }

  /** Where a stream without a cursor starts: the epoch. */
  const START := Cursor(0, NO_ID)

  /** The cursor a stream jumps to: everything up to the watermark is done. */
  function Top(highWatermark: Instant): Cursor {
    Cursor(highWatermark, NO_ID)
  }

  datatype Row = Row(at: Instant, id: nat, owner: nat)
  {
    function Key(): Cursor {
      Cursor(at, id)
    }
  }

  ghost predicate Ascending(rows: seq<Row>) {
    forall i, j | 0 <= i < j < |rows| :: rows[i].Key().Before(rows[j].Key())
  }

  // ---------- the queries ----------

  function From(cursor: Option<Cursor>): Cursor {
    if cursor.Some? then cursor.value else START
  }

  predicate InWindow(r: Row, cursor: Option<Cursor>, highWatermark: Instant) {
    || (From(cursor).at < r.at <= highWatermark)
    || (r.at == From(cursor).at && From(cursor).id < r.id)
  }

  function Window(rows: seq<Row>, cursor: Option<Cursor>, highWatermark: Instant): seq<Row> {
    Filter(rows, (r: Row) => InWindow(r, cursor, highWatermark))
  }

  // ---------- one call ----------

  datatype Kind = Customer | Deleted

  datatype Event = Event(kind: Kind, row: Row)
  {
    predicate NotAfter(other: Event) {
      || row.at < other.row.at
      || (row.at == other.row.at && kind == Customer && other.kind == Deleted)
      || (row.at == other.row.at && kind == other.kind && row.id <= other.row.id)
    }
  }

  function Events(kind: Kind, rows: seq<Row>): (events: seq<Event>)
    ensures |events| == |rows| && forall i | 0 <= i < |rows| :: events[i] == Event(kind, rows[i])
  {
    seq(|rows|, i requires 0 <= i < |rows| => Event(kind, rows[i]))
  }

  /** How a page is ordered: by time, customers before tombstones, then by id. */
  predicate ByTime(a: Event, b: Event) {
    a.NotAfter(b)
  }

  /** The rows of one kind among the events. */
  function Rows(events: seq<Event>, kind: Kind): (r: seq<Row>)
    ensures |r| <= |events|
  {
    if events == [] then []
    else (if events[0].kind == kind then [events[0].row] else []) + Rows(events[1..], kind)
  }

  function NextStreamCursor(previous: Option<Cursor>, fetched: seq<Row>, selected: seq<Row>, highWatermark: Instant)
    : Cursor {
    if selected != [] then selected[|selected| - 1].Key()
    else if |fetched| > |selected| && previous.Some? then previous.value
    else Top(highWatermark)
  }

  datatype Page = Page(events: seq<Event>, customer: Cursor, deleted: Cursor, hasMore: bool)

  /** `customers` are the rows the caller may read; tombstones are filtered by
      `exposed` only after they have been taken. */
  function Fetched(rows: seq<Row>, cursor: Option<Cursor>, exposed: Row -> bool, limit: nat, highWatermark: Instant)
    : seq<Row> {
    Filter(Take(Window(rows, cursor, highWatermark), limit + 1), exposed)
  }

  function PageFrom(customer: Option<Cursor>, deleted: Option<Cursor>, customerRows: seq<Row>, deleteRows: seq<Row>,
                    limit: nat, highWatermark: Instant): Page
  {
    var all := Events(Customer, customerRows) + Events(Deleted, deleteRows);
    var selected := Take(Sort(all, ByTime), limit);
    Page(
      selected,
      NextStreamCursor(customer, customerRows, Rows(selected, Customer), highWatermark),
      NextStreamCursor(deleted, deleteRows, Rows(selected, Deleted), highWatermark),
      |customerRows| + |deleteRows| > |selected|)
  }

  function SyncCustomers(customers: seq<Row>, deletions: seq<Row>, exposed: Row -> bool, customer: Option<Cursor>,
                         deleted: Option<Cursor>, limit: nat, highWatermark: Instant): Page
  {
    var customerRows := Fetched(customers, customer, (r: Row) => true, limit, highWatermark);
    var deleteRows := Fetched(deletions, deleted, exposed, limit, highWatermark);
    PageFrom(customer, deleted, customerRows, deleteRows, limit, highWatermark)
  }

  // ---------- filtering and sorting ----------

  lemma {:induction false} FilterMembers(rows: seq<Row>, keep: Row -> bool)
    ensures forall r :: r in Filter(rows, keep) <==> r in rows && keep(r)
  {
    if rows != [] {
      FilterMembers(rows[1..], keep);
      assert rows == [rows[0]] + rows[1..];
    }
  }

  lemma {:induction false} FilterAscending(rows: seq<Row>, keep: Row -> bool)
    requires Ascending(rows)
    ensures Ascending(Filter(rows, keep))
  {
    if rows != [] {
      var rest := Filter(rows[1..], keep);
      FilterAscending(rows[1..], keep);
      FilterMembers(rows[1..], keep);
      forall i | 0 <= i < |rest|
        ensures rows[0].Key().Before(rest[i].Key())
      {
        assert rest[i] in rows[1..];
      }
    }
  }

  lemma {:induction false} FilterAll(rows: seq<Row>, keep: Row -> bool)
    requires forall i | 0 <= i < |rows| :: keep(rows[i])
    ensures Filter(rows, keep) == rows
  {
    if rows != [] {
      FilterAll(rows[1..], keep);
    }
  }

  lemma EventsSorted(events: seq<Event>)
    ensures Sorted(Sort(events, ByTime), ByTime)
  {
    SortSorted(events, ByTime);
  }

  /** A page is in order of time, customers before tombstones. */
  lemma PageIsInOrder(customers: seq<Row>, deletions: seq<Row>, exposed: Row -> bool, customer: Option<Cursor>,
                      deleted: Option<Cursor>, limit: nat, highWatermark: Instant)
    ensures Sorted(SyncCustomers(customers, deletions, exposed, customer, deleted, limit, highWatermark).events, ByTime)
  {
    EventsSorted(
      Events(Customer, Fetched(customers, customer, (r: Row) => true, limit, highWatermark)) +
      Events(Deleted, Fetched(deletions, deleted, exposed, limit, highWatermark)));
  }

  lemma {:induction false} RowsOfInsert(e: Event, events: seq<Event>, kind: Kind)
    requires Sorted(events, ByTime)
    requires e.kind == kind ==>
               forall i | 0 <= i < |Rows(events, kind)| :: e.row.Key().Before(Rows(events, kind)[i].Key())
    ensures Rows(Insert(e, events, ByTime), kind) == (if e.kind == kind then [e.row] else []) + Rows(events, kind)
  {
    if events == [] || e.NotAfter(events[0]) {
      assert ([e] + events)[1..] == events;
    } else {
      NextIsOther(e, events, kind);
      RowsOfInsert(e, events[1..], kind);
      assert ([events[0]] + Insert(e, events[1..], ByTime))[1..] == Insert(e, events[1..], ByTime);
      assert e.kind == kind ==> Rows(events, kind) == Rows(events[1..], kind);
    }
  }

  /** An event that passes another one of its own kind comes after it. */
  lemma NextIsOther(e: Event, events: seq<Event>, kind: Kind)
    requires events != [] && !e.NotAfter(events[0])
    requires e.kind == kind ==>
               forall i | 0 <= i < |Rows(events, kind)| :: e.row.Key().Before(Rows(events, kind)[i].Key())
    ensures e.kind == kind ==> events[0].kind != kind && Rows(events, kind) == Rows(events[1..], kind)
  {
    assert events[0].kind == kind ==> Rows(events, kind)[0] == events[0].row;
    assert [] + Rows(events[1..], kind) == Rows(events[1..], kind);
  }

  /** Sorting a page keeps each stream as it was fetched. */
  lemma {:induction false} RowsOfSort(events: seq<Event>, kind: Kind)
    requires Ascending(Rows(events, kind))
    ensures Rows(Sort(events, ByTime), kind) == Rows(events, kind)
  {
    if events != [] {
      var rest := Rows(events[1..], kind);
      if events[0].kind == kind {
        forall i, j | 0 <= i < j < |rest|
          ensures rest[i].Key().Before(rest[j].Key())
        {
          assert Rows(events, kind)[i + 1] == rest[i] && Rows(events, kind)[j + 1] == rest[j];
        }
        forall i | 0 <= i < |rest|
          ensures events[0].row.Key().Before(rest[i].Key())
        {
          assert Rows(events, kind)[0] == events[0].row && Rows(events, kind)[i + 1] == rest[i];
        }
      }
      assert events[0].kind != kind ==> Rows(events, kind) == rest;
      RowsOfSort(events[1..], kind);
      EventsSorted(events[1..]);
      RowsOfInsert(events[0], Sort(events[1..], ByTime), kind);
    }
  }

  lemma RowsHead(events: seq<Event>, kind: Kind)
    requires events != []
    ensures Rows(events, kind) == Rows([events[0]], kind) + Rows(events[1..], kind)
  {
    assert [events[0]][1..] == [];
    assert Rows([events[0]], kind) == if events[0].kind == kind then [events[0].row] else [];
  }

  lemma {:induction false} RowsOfConcat(a: seq<Event>, b: seq<Event>, kind: Kind)
    ensures Rows(a + b, kind) == Rows(a, kind) + Rows(b, kind)
  {
    if a == [] {
      assert a + b == b;
    } else {
      assert (a + b)[1..] == a[1..] + b;
      RowsOfConcat(a[1..], b, kind);
      RowsHead(a, kind);
      RowsHead(a + b, kind);
      var head := Rows([a[0]], kind);
      assert head + (Rows(a[1..], kind) + Rows(b, kind)) == head + Rows(a[1..], kind) + Rows(b, kind);
    }
  }

  lemma {:induction false} RowsOfEvents(rows: seq<Row>, tag: Kind, kind: Kind)
    ensures Rows(Events(tag, rows), kind) == if tag == kind then rows else []
  {
    if rows != [] {
      assert Events(tag, rows)[1..] == Events(tag, rows[1..]);
      RowsOfEvents(rows[1..], tag, kind);
    }
  }

  lemma {:induction false} RowsSplit(events: seq<Event>)
    ensures |Rows(events, Customer)| + |Rows(events, Deleted)| == |events|
  {
    if events != [] {
      RowsSplit(events[1..]);
    }
  }

  lemma RowsOfTake(events: seq<Event>, n: nat, kind: Kind)
    ensures Rows(Take(events, n), kind) <= Rows(events, kind)
  {
    var taken := Take(events, n);
    assert events == taken + events[|taken|..];
    RowsOfConcat(taken, events[|taken|..], kind);
  }

  lemma FetchedAscending(rows: seq<Row>, cursor: Option<Cursor>, exposed: Row -> bool, limit: nat,
                         highWatermark: Instant)
    requires Ascending(rows)
    ensures Ascending(Fetched(rows, cursor, exposed, limit, highWatermark))
  {
    FilterAscending(rows, (r: Row) => InWindow(r, cursor, highWatermark));
    FilterAscending(Take(Window(rows, cursor, highWatermark), limit + 1), exposed);
  }

  /** What a page selects of a stream is a first part of what was fetched of it;
      a page is full, or it selects all that was fetched. */
  lemma SelectsPrefix(customerRows: seq<Row>, deleteRows: seq<Row>, limit: nat)
    requires Ascending(customerRows) && Ascending(deleteRows)
    ensures var selected := Take(Sort(Events(Customer, customerRows) + Events(Deleted, deleteRows), ByTime), limit);
            && Rows(selected, Customer) <= customerRows
            && Rows(selected, Deleted) <= deleteRows
            && |Rows(selected, Customer)| + |Rows(selected, Deleted)| == |selected| <= limit
            && (|customerRows| + |deleteRows| > |selected| ==> |selected| == limit)
  {
    var sorted := Sort(Events(Customer, customerRows) + Events(Deleted, deleteRows), ByTime);
    RowsOfPage(customerRows, deleteRows, Customer);
    RowsOfPage(customerRows, deleteRows, Deleted);
    RowsOfTake(sorted, limit, Customer);
    RowsOfTake(sorted, limit, Deleted);
    RowsSplit(Take(sorted, limit));
  }

  lemma RowsOfPage(customerRows: seq<Row>, deleteRows: seq<Row>, kind: Kind)
    requires Ascending(customerRows) && Ascending(deleteRows)
    ensures Rows(Sort(Events(Customer, customerRows) + Events(Deleted, deleteRows), ByTime), kind) ==
            if kind == Customer then customerRows else deleteRows
  {
    var a, b := Events(Customer, customerRows), Events(Deleted, deleteRows);
    RowsOfConcat(a, b, kind);
    RowsOfEvents(customerRows, Customer, kind);
    RowsOfEvents(deleteRows, Deleted, kind);
    assert customerRows + [] == customerRows && [] + deleteRows == deleteRows;
    RowsOfSort(a + b, kind);
  }

  // ---------- when a call loses a row ----------

  /** A row the caller should still get, that this page does not bring and that
      the next cursor has passed. */
  ghost predicate Loses(rows: seq<Row>, exposed: Row -> bool, cursor: Option<Cursor>, highWatermark: Instant,
                        selected: seq<Row>, next: Cursor, r: Row) {
    && r in rows && exposed(r) && InWindow(r, cursor, highWatermark)
    && r !in selected && !next.Before(r.Key())
  }

  ghost predicate LosesSome(rows: seq<Row>, exposed: Row -> bool, cursor: Option<Cursor>, highWatermark: Instant,
                            selected: seq<Row>, next: Cursor) {
    exists r :: Loses(rows, exposed, cursor, highWatermark, selected, next, r)
  }

  /** The table has an exposed row since the cursor that is older than the watermark. */
  ghost predicate HasOlder(rows: seq<Row>, exposed: Row -> bool, cursor: Option<Cursor>, highWatermark: Instant) {
    exists r :: r in rows && exposed(r) && InWindow(r, cursor, highWatermark) && r.at < highWatermark
  }

  /** Everything in an ascending list that is not among its first part comes after it. */
  lemma AfterPrefix(rows: seq<Row>, prefix: seq<Row>, r: Row)
    requires Ascending(rows) && prefix <= rows && r in rows
    ensures r in prefix || forall i | 0 <= i < |prefix| :: prefix[i].Key().Before(r.Key())
  {
    var k :| 0 <= k < |rows| && rows[k] == r;
    if k < |prefix| {
      assert prefix[k] == r;
    }
  }

  /** What is in the window and exposed, but not selected, comes after all that is. */
  lemma UnselectedComeLater(rows: seq<Row>, exposed: Row -> bool, cursor: Option<Cursor>, limit: nat,
                            highWatermark: Instant,
                            selected: seq<Row>, r: Row)
    requires Ascending(rows) && selected <= Fetched(rows, cursor, exposed, limit, highWatermark)
    requires r in rows && exposed(r) && InWindow(r, cursor, highWatermark) && r !in selected
    ensures forall i | 0 <= i < |selected| :: selected[i].Key().Before(r.Key())
  {
    var window := Window(rows, cursor, highWatermark);
    var taken := Take(window, limit + 1);
    var fetched := Filter(taken, exposed);
    FilterMembers(rows, (x: Row) => InWindow(x, cursor, highWatermark));
    FilterAscending(rows, (x: Row) => InWindow(x, cursor, highWatermark));
    FilterMembers(taken, exposed);
    FilterAscending(taken, exposed);
    if r in taken {
      AfterPrefix(fetched, selected, r);
    } else {
      AfterPrefix(window, taken, r);
      forall i | 0 <= i < |selected|
        ensures selected[i].Key().Before(r.Key())
      {
        assert selected[i] == fetched[i] && fetched[i] in taken;
      }
    }
  }

  /** Whatever a page selects, a stream loses a row exactly when its cursor jumps
      over one: nothing of the stream is selected, and either nothing exposed was
      fetched or there was no cursor to keep. */
  lemma LosesExactly(rows: seq<Row>, exposed: Row -> bool, cursor: Option<Cursor>, limit: nat, highWatermark: Instant,
                     selected: seq<Row>)
    requires Ascending(rows) && selected <= Fetched(rows, cursor, exposed, limit, highWatermark)
    ensures var fetched := Fetched(rows, cursor, exposed, limit, highWatermark);
            var next := NextStreamCursor(cursor, fetched, selected, highWatermark);
            LosesSome(rows, exposed, cursor, highWatermark, selected, next) <==>
              && selected == [] && (fetched == [] || cursor == None) && HasOlder(rows, exposed, cursor, highWatermark)
  {
    var fetched := Fetched(rows, cursor, exposed, limit, highWatermark);
    var next := NextStreamCursor(cursor, fetched, selected, highWatermark);
    if r :| Loses(rows, exposed, cursor, highWatermark, selected, next, r) {
      UnselectedComeLater(rows, exposed, cursor, limit, highWatermark, selected, r);
      assert selected == [];
      assert InWindow(r, cursor, highWatermark);
      assert r.at < highWatermark;
    }
    if selected == [] && (fetched == [] || cursor == None) {
      if r :| r in rows && exposed(r) && InWindow(r, cursor, highWatermark) && r.at < highWatermark {
        assert Loses(rows, exposed, cursor, highWatermark, selected, next, r);
      }
    }
  }

  function Other(kind: Kind): Kind {
    if kind == Customer then Deleted else Customer
  }

  lemma {:induction false} RowIsEvent(events: seq<Event>, kind: Kind, i: nat)
    requires i < |Rows(events, kind)|
    ensures exists j | 0 <= j < |events| :: events[j] == Event(kind, Rows(events, kind)[i])
  {
    if events[0].kind == kind {
      if i > 0 {
        RowIsEvent(events[1..], kind, i - 1);
        var j :| 0 <= j < |events[1..]| && events[1..][j] == Event(kind, Rows(events[1..], kind)[i - 1]);
        assert events[j + 1] == events[1..][j];
      }
    } else {
      RowIsEvent(events[1..], kind, i);
      var j :| 0 <= j < |events[1..]| && events[1..][j] == Event(kind, Rows(events[1..], kind)[i]);
      assert events[j + 1] == events[1..][j];
    }
  }

  lemma TakeOne(events: seq<Event>, limit: nat, kind: Kind)
    requires events != [] && 0 < limit
    ensures Rows(Take(events, limit), kind) ==
            (if events[0].kind == kind then [events[0].row] else []) + Rows(Take(events[1..], limit - 1), kind)
  {
    assert Take(events, limit) == [events[0]] + Take(events[1..], limit - 1);
    assert Take(events, limit)[1..] == Take(events[1..], limit - 1);
  }

  /** The first `limit` rows are all from before the given time. */
  predicate FilledBy(rows: seq<Row>, limit: nat, before: Instant) {
    0 < limit <= |rows| && rows[limit - 1].at < before
  }

  /** A row of the given kind comes after the other kind's rows from before this time. */
  function Precedence(kind: Kind, row: Row): Instant {
    if kind == Customer then row.at else row.at + 1
  }

  /** An event at the front comes before all rows of the other kind. */
  lemma FrontComesFirst(events: seq<Event>, kind: Kind, i: nat)
    requires Sorted(events, ByTime) && events != [] && events[0].kind != kind && i < |Rows(events, kind)|
    ensures events[0].row.at < Precedence(kind, Rows(events, kind)[i])
    ensures Precedence(events[0].kind, events[0].row) <= Rows(events, kind)[i].at
  {
    RowIsEvent(events, kind, i);
    var j :| 0 <= j < |events| && events[j] == Event(kind, Rows(events, kind)[i]);
    assert ByTime(events[0], events[j]);
  }

  /** There is nothing of the one kind, or rows of the other kind fill the page before it. */
  predicate Crowded(own: seq<Row>, others: seq<Row>, limit: nat, kind: Kind) {
    own == [] || limit == 0 || FilledBy(others, limit, Precedence(kind, own[0]))
  }

  lemma OtherFirst(own: seq<Row>, first: Row, others: seq<Row>, limit: nat, kind: Kind)
    requires 0 < limit && (own != [] ==> first.at < Precedence(kind, own[0]))
    ensures Crowded(own, [first] + others, limit, kind) <==> Crowded(own, others, limit - 1, kind)
  {
    if 1 < limit <= |others| + 1 {
      assert ([first] + others)[limit - 1] == others[limit - 2];
    }
  }

  lemma OwnFirst(events: seq<Event>, limit: nat, kind: Kind)
    requires Sorted(events, ByTime) && events != [] && events[0].kind == kind && 0 < limit
    ensures !Crowded(Rows(events, kind), Rows(events, Other(kind)), limit, kind)
  {
    if limit <= |Rows(events, Other(kind))| {
      FrontComesFirst(events, Other(kind), limit - 1);
    }
  }

  /** A page brings nothing of one kind exactly when there is nothing, or it is
      filled by rows of the other kind that come before the first. */
  lemma {:induction false} NoneOfKind(events: seq<Event>, limit: nat, kind: Kind)
    requires Sorted(events, ByTime)
    ensures Rows(Take(events, limit), kind) == [] <==>
              Crowded(Rows(events, kind), Rows(events, Other(kind)), limit, kind)
    decreases events
  {
    if events != [] && limit > 0 {
      TakeOne(events, limit, kind);
      if events[0].kind == kind {
        OwnFirst(events, limit, kind);
      } else {
        NoneOfKind(events[1..], limit - 1, kind);
        if Rows(events, kind) != [] {
          FrontComesFirst(events, kind, 0);
        }
        OtherFirst(Rows(events, kind), events[0].row, Rows(events[1..], Other(kind)), limit, kind);
      }
    }
  }

  /** A customer is lost exactly on a call without a cursor for customers whose
      page is filled by exposed tombstones older than the first customer. */
  lemma CustomersLostExactly(customers: seq<Row>, deletions: seq<Row>, exposed: Row -> bool, customer: Option<Cursor>,
                             deleted: Option<Cursor>, limit: nat, highWatermark: Instant)
    requires Ascending(customers) && Ascending(deletions) && 0 < limit
    ensures var page := SyncCustomers(customers, deletions, exposed, customer, deleted, limit, highWatermark);
            var changed := Window(customers, customer, highWatermark);
            var tombstones := Fetched(deletions, deleted, exposed, limit, highWatermark);
            LosesSome(customers, (x: Row) => true, customer, highWatermark, Rows(page.events, Customer), page.customer)
            <==>
              && customer == None && changed != [] && changed[0].at < highWatermark
              && FilledBy(tombstones, limit, changed[0].at)
  {
    var all := (x: Row) => true;
    var changed := Window(customers, customer, highWatermark);
    var customerRows := Fetched(customers, customer, all, limit, highWatermark);
    var tombstones := Fetched(deletions, deleted, exposed, limit, highWatermark);
    var page := SyncCustomers(customers, deletions, exposed, customer, deleted, limit, highWatermark);
    FilterAll(Take(changed, limit + 1), all);
    PageOfFetched(customers, deletions, exposed, customer, deleted, limit, highWatermark);
    LosesExactly(customers, all, customer, limit, highWatermark, Rows(page.events, Customer));
    FirstInWindow(customers, customer, highWatermark);
  }

  /** Some row of the window is older than the watermark exactly when the first one is. */
  lemma FirstInWindow(rows: seq<Row>, cursor: Option<Cursor>, highWatermark: Instant)
    requires Ascending(rows)
    ensures var window := Window(rows, cursor, highWatermark);
            HasOlder(rows, (x: Row) => true, cursor, highWatermark) <==> window != [] && window[0].at < highWatermark
  {
    var window := Window(rows, cursor, highWatermark);
    FilterMembers(rows, (x: Row) => InWindow(x, cursor, highWatermark));
    FilterAscending(rows, (x: Row) => InWindow(x, cursor, highWatermark));
    if window != [] {
      assert window[0] in window;
    }
    if r :| r in rows && InWindow(r, cursor, highWatermark) && r.at < highWatermark {
      var k :| 0 <= k < |window| && window[k] == r;
      assert k == 0 || window[0].Key().Before(window[k].Key());
    }
  }

  function Stream(kind: Kind, customerRows: seq<Row>, deleteRows: seq<Row>): seq<Row> {
    if kind == Customer then customerRows else deleteRows
  }

  /** A stream gets nothing of the page. */
  predicate Starved(kind: Kind, customerRows: seq<Row>, deleteRows: seq<Row>, limit: nat) {
    Crowded(Stream(kind, customerRows, deleteRows), Stream(Other(kind), customerRows, deleteRows), limit, kind)
  }

  lemma SelectsNone(customerRows: seq<Row>, deleteRows: seq<Row>, limit: nat, kind: Kind)
    requires Ascending(customerRows) && Ascending(deleteRows) && 0 < limit
    ensures var selected := Take(Sort(Events(Customer, customerRows) + Events(Deleted, deleteRows), ByTime), limit);
            Rows(selected, kind) == [] <==> Starved(kind, customerRows, deleteRows, limit)
  {
    RowsOfPage(customerRows, deleteRows, kind);
    RowsOfPage(customerRows, deleteRows, Other(kind));
    EventsSorted(Events(Customer, customerRows) + Events(Deleted, deleteRows));
    NoneOfKind(Sort(Events(Customer, customerRows) + Events(Deleted, deleteRows), ByTime), limit, kind);
  }

  /** What a page brings of each stream, told by what was fetched. */
  lemma PageOfFetched(customers: seq<Row>, deletions: seq<Row>, exposed: Row -> bool, customer: Option<Cursor>,
                      deleted: Option<Cursor>, limit: nat, highWatermark: Instant)
    requires Ascending(customers) && Ascending(deletions) && 0 < limit
    ensures var page := SyncCustomers(customers, deletions, exposed, customer, deleted, limit, highWatermark);
            var customerRows := Fetched(customers, customer, (x: Row) => true, limit, highWatermark);
            var deleteRows := Fetched(deletions, deleted, exposed, limit, highWatermark);
            && Rows(page.events, Customer) <= customerRows && Rows(page.events, Deleted) <= deleteRows
            && forall kind :: Rows(page.events, kind) == [] <==> Starved(kind, customerRows, deleteRows, limit)
  {
    FetchedAscending(customers, customer, (x: Row) => true, limit, highWatermark);
    FetchedAscending(deletions, deleted, exposed, limit, highWatermark);
    var customerRows := Fetched(customers, customer, (x: Row) => true, limit, highWatermark);
    var deleteRows := Fetched(deletions, deleted, exposed, limit, highWatermark);
    SelectsPrefix(customerRows, deleteRows, limit);
    forall kind {
      SelectsNone(customerRows, deleteRows, limit, kind);
    }
  }

  /** A tombstone is lost exactly when all that were taken are hidden, or, without
      a cursor for tombstones, when the page is filled by customers not younger
      than the first exposed one; and some exposed one is older than the watermark. */
  lemma TombstonesLostExactly(customers: seq<Row>, deletions: seq<Row>, exposed: Row -> bool, customer: Option<Cursor>,
                              deleted: Option<Cursor>, limit: nat, highWatermark: Instant)
    requires Ascending(customers) && Ascending(deletions) && 0 < limit
    ensures var page := SyncCustomers(customers, deletions, exposed, customer, deleted, limit, highWatermark);
            var changed := Window(customers, customer, highWatermark);
            var tombstones := Fetched(deletions, deleted, exposed, limit, highWatermark);
            LosesSome(deletions, exposed, deleted, highWatermark, Rows(page.events, Deleted), page.deleted) <==>
              && HasOlder(deletions, exposed, deleted, highWatermark)
              && (tombstones == [] || (deleted == None && FilledBy(changed, limit, tombstones[0].at + 1)))
  {
    var page := SyncCustomers(customers, deletions, exposed, customer, deleted, limit, highWatermark);
    FetchedByAll(customers, customer, limit, highWatermark);
    TombstonesStarved(Window(customers, customer, highWatermark),
                      Fetched(deletions, deleted, exposed, limit, highWatermark), limit);
    PageOfFetched(customers, deletions, exposed, customer, deleted, limit, highWatermark);
    LosesExactly(deletions, exposed, deleted, limit, highWatermark, Rows(page.events, Deleted));
  }

  lemma FetchedByAll(rows: seq<Row>, cursor: Option<Cursor>, limit: nat, highWatermark: Instant)
    ensures Fetched(rows, cursor, (x: Row) => true, limit, highWatermark) ==
            Take(Window(rows, cursor, highWatermark), limit + 1)
  {
    FilterAll(Take(Window(rows, cursor, highWatermark), limit + 1), (x: Row) => true);
  }

  /** One row more than the page is enough to see whether the page is filled. */
  lemma TombstonesStarved(changed: seq<Row>, tombstones: seq<Row>, limit: nat)
    requires 0 < limit
    ensures Starved(Deleted, Take(changed, limit + 1), tombstones, limit) <==>
              tombstones == [] || FilledBy(changed, limit, tombstones[0].at + 1)
  {
  }

  /** For an administrator a stream with a cursor never loses a row. */
  lemma NothingLostWithCursor(rows: seq<Row>, cursor: Cursor, limit: nat, highWatermark: Instant, selected: seq<Row>,
                              r: Row)
    requires Ascending(rows) && selected <= Fetched(rows, Some(cursor), (x: Row) => true, limit, highWatermark)
    ensures var fetched := Fetched(rows, Some(cursor), (x: Row) => true, limit, highWatermark);
            !Loses(rows, (x: Row) => true, Some(cursor), highWatermark, selected,
                   NextStreamCursor(Some(cursor), fetched, selected, highWatermark), r)
  {
    var exposed := (x: Row) => true;
    var window := Window(rows, Some(cursor), highWatermark);
    LosesExactly(rows, exposed, Some(cursor), limit, highWatermark, selected);
    FilterMembers(rows, (x: Row) => InWindow(x, Some(cursor), highWatermark));
    FilterAll(Take(window, limit + 1), exposed);
  }

  /** A cursor moves back exactly when its stream has nothing to bring and the
      watermark is behind it: the clock has not moved on since a row was brought. */
  lemma MovesBackExactly(rows: seq<Row>, exposed: Row -> bool, cursor: Cursor, limit: nat, highWatermark: Instant,
                         selected: seq<Row>)
    requires selected <= Fetched(rows, Some(cursor), exposed, limit, highWatermark)
    ensures var fetched := Fetched(rows, Some(cursor), exposed, limit, highWatermark);
            NextStreamCursor(Some(cursor), fetched, selected, highWatermark).Before(cursor) <==>
              fetched == [] && Top(highWatermark).Before(cursor)
  {
    var window := Window(rows, Some(cursor), highWatermark);
    var fetched := Fetched(rows, Some(cursor), exposed, limit, highWatermark);
    if selected != [] {
      var last := |selected| - 1;
      FilterMembers(rows, (x: Row) => InWindow(x, Some(cursor), highWatermark));
      FilterMembers(Take(window, limit + 1), exposed);
      assert selected[last] == fetched[last] && fetched[last] in Take(window, limit + 1);
      assert fetched[last] in window;
    }
  }

  // ---------- a run of calls ----------

  /** One call: the tables it finds, its limit and its watermark. */
  datatype Round = Round(customers: seq<Row>, deletions: seq<Row>, limit: nat, highWatermark: Instant)

  datatype Progress = Progress(customer: Cursor, deleted: Cursor, customers: seq<Row>, deletions: seq<Row>)

  function PageOf(round: Round, at: Progress): Page {
    SyncCustomers(round.customers, round.deletions, (r: Row) => true, Some(at.customer), Some(at.deleted),
                  round.limit, round.highWatermark)
  }

  function Advanced(round: Round, at: Progress): Progress {
    var page := PageOf(round, at);
    Progress(page.customer, page.deleted,
             at.customers + Rows(page.events, Customer), at.deletions + Rows(page.events, Deleted))
  }

  /** Following the cursors call by call, an administrator collects both streams. */
  function Follow(rounds: seq<Round>, start: Progress): Progress {
    if rounds == [] then start
    else
      Advanced(rounds[|rounds| - 1], Follow(rounds[..|rounds| - 1], start))
  }

  /** Between two calls the clock moves on, and a change leaves its stamp after
      the earlier watermark; rows may also vanish, updated or deleted. */
  ghost predicate Arrives(before: seq<Row>, after: seq<Row>, highWatermark: Instant) {
    forall r :: r in after && r.at <= highWatermark ==> r in before
  }

  ghost predicate Timely(rounds: seq<Round>) {
    && (forall i | 0 <= i < |rounds| ::
          Ascending(rounds[i].customers) && Ascending(rounds[i].deletions) && 0 < rounds[i].limit)
    && forall i | 0 < i < |rounds| ::
         && rounds[i - 1].highWatermark < rounds[i].highWatermark
         && Arrives(rounds[i - 1].customers, rounds[i].customers, rounds[i - 1].highWatermark)
         && Arrives(rounds[i - 1].deletions, rounds[i].deletions, rounds[i - 1].highWatermark)
  }

  /** Delivered in order and so without repeats, and all between start and cursor. */
  ghost predicate Orderly(start: Cursor, cursor: Cursor, delivered: seq<Row>) {
    && Ascending(delivered) && start.NotAfter(cursor)
    && forall i | 0 <= i < |delivered| :: start.Before(delivered[i].Key()) && delivered[i].Key().NotAfter(cursor)
  }

  /** Nothing since the start is missing: it is delivered or still ahead. */
  ghost predicate NoGap(rows: seq<Row>, start: Cursor, cursor: Cursor, delivered: seq<Row>) {
    forall r :: r in rows && start.Before(r.Key()) ==> r in delivered || cursor.Before(r.Key())
  }

  lemma NewcomersAreAhead(before: seq<Row>, after: seq<Row>, start: Cursor, cursor: Cursor, delivered: seq<Row>,
                          highWatermark: Instant)
    requires NoGap(before, start, cursor, delivered) && Arrives(before, after, highWatermark) &&
             cursor.at <= highWatermark
    ensures NoGap(after, start, cursor, delivered)
  {
  }

  /** One stream over one call, whatever prefix the page selects of it. */
  lemma StreamStep(rows: seq<Row>, start: Cursor, cursor: Cursor, delivered: seq<Row>, limit: nat,
                   highWatermark: Instant, selected: seq<Row>)
    requires Ascending(rows) && Orderly(start, cursor, delivered) && NoGap(rows, start, cursor, delivered)
    requires cursor.NotAfter(Top(highWatermark))
    requires selected <= Fetched(rows, Some(cursor), (r: Row) => true, limit, highWatermark)
    ensures var fetched := Fetched(rows, Some(cursor), (r: Row) => true, limit, highWatermark);
            var next := NextStreamCursor(Some(cursor), fetched, selected, highWatermark);
            && Orderly(start, next, delivered + selected) && next.at <= highWatermark
            && NoGap(rows, start, next, delivered + selected)
  {
    var fetched := Fetched(rows, Some(cursor), (r: Row) => true, limit, highWatermark);
    var next := NextStreamCursor(Some(cursor), fetched, selected, highWatermark);
    SelectedAreNew(rows, cursor, limit, highWatermark, selected);
    FetchedAscending(rows, Some(cursor), (r: Row) => true, limit, highWatermark);
    OrderlyStep(start, cursor, next, delivered, selected);
    forall r | r in rows && start.Before(r.Key())
      ensures r in delivered + selected || next.Before(r.Key())
    {
      NothingLostWithCursor(rows, cursor, limit, highWatermark, selected, r);
    }
  }

  lemma SelectedAreNew(rows: seq<Row>, cursor: Cursor, limit: nat, highWatermark: Instant, selected: seq<Row>)
    requires selected <= Fetched(rows, Some(cursor), (r: Row) => true, limit, highWatermark)
    requires cursor.at <= highWatermark
    ensures forall i | 0 <= i < |selected| :: cursor.Before(selected[i].Key()) && selected[i].at <= highWatermark
  {
    var window := Window(rows, Some(cursor), highWatermark);
    FilterMembers(rows, (x: Row) => InWindow(x, Some(cursor), highWatermark));
    FilterMembers(Take(window, limit + 1), (r: Row) => true);
    forall i | 0 <= i < |selected|
      ensures InWindow(selected[i], Some(cursor), highWatermark)
    {
      assert selected[i] == Fetched(rows, Some(cursor), (r: Row) => true, limit, highWatermark)[i];
      assert selected[i] in Take(window, limit + 1);
      assert selected[i] in window;
    }
  }

  lemma OrderlyStep(start: Cursor, cursor: Cursor, next: Cursor, delivered: seq<Row>, selected: seq<Row>)
    requires Orderly(start, cursor, delivered) && Ascending(selected) && cursor.NotAfter(next)
    requires forall i | 0 <= i < |selected| :: cursor.Before(selected[i].Key()) && selected[i].Key().NotAfter(next)
    ensures Orderly(start, next, delivered + selected)
  {
  }

  /** What a page brings of its two streams, and where it leaves the cursors. */
  ghost predicate Brings(page: Page, customer: Cursor, deleted: Cursor, customerRows: seq<Row>, deleteRows: seq<Row>,
                         limit: nat, highWatermark: Instant) {
    && Rows(page.events, Customer) <= customerRows
    && Rows(page.events, Deleted) <= deleteRows
    && page.customer == NextStreamCursor(Some(customer), customerRows, Rows(page.events, Customer), highWatermark)
    && page.deleted == NextStreamCursor(Some(deleted), deleteRows, Rows(page.events, Deleted), highWatermark)
    && |page.events| <= limit
    && (page.hasMore ==> |page.events| == limit)
    && (!page.hasMore ==> Rows(page.events, Customer) == customerRows && Rows(page.events, Deleted) == deleteRows)
  }

  lemma PageFromBrings(customer: Cursor, deleted: Cursor, customerRows: seq<Row>, deleteRows: seq<Row>, limit: nat,
                       highWatermark: Instant)
    requires Ascending(customerRows) && Ascending(deleteRows)
    ensures Brings(PageFrom(Some(customer), Some(deleted), customerRows, deleteRows, limit, highWatermark),
                   customer, deleted, customerRows, deleteRows, limit, highWatermark)
  {
    SelectsPrefix(customerRows, deleteRows, limit);
  }

  /** Both streams of one call. */
  lemma PageSelects(round: Round, at: Progress)
    requires Ascending(round.customers) && Ascending(round.deletions)
    ensures Brings(PageOf(round, at), at.customer, at.deleted,
                   Fetched(round.customers, Some(at.customer), (r: Row) => true, round.limit, round.highWatermark),
                   Fetched(round.deletions, Some(at.deleted), (r: Row) => true, round.limit, round.highWatermark),
                   round.limit, round.highWatermark)
  {
    var customerRows := Fetched(round.customers, Some(at.customer), (r: Row) => true, round.limit, round.highWatermark);
    var deleteRows := Fetched(round.deletions, Some(at.deleted), (r: Row) => true, round.limit, round.highWatermark);
    FetchedAscending(round.customers, Some(at.customer), (r: Row) => true, round.limit, round.highWatermark);
    FetchedAscending(round.deletions, Some(at.deleted), (r: Row) => true, round.limit, round.highWatermark);
    PageFromBrings(at.customer, at.deleted, customerRows, deleteRows, round.limit, round.highWatermark);
  }

  function Fresh(customer: Cursor, deleted: Cursor): Progress {
    Progress(customer, deleted, [], [])
  }

  /** One stream so far, against the table as the last call found it. */
  ghost predicate Kept(rows: seq<Row>, start: Cursor, cursor: Cursor, delivered: seq<Row>) {
    Orderly(start, cursor, delivered) && NoGap(rows, start, cursor, delivered)
  }

  ghost predicate BothKept(round: Round, customer: Cursor, deleted: Cursor, at: Progress) {
    Kept(round.customers, customer, at.customer, at.customers) &&
    Kept(round.deletions, deleted, at.deleted, at.deletions)
  }

  ghost predicate BothBehind(at: Progress, bound: Cursor) {
    at.customer.NotAfter(bound) && at.deleted.NotAfter(bound)
  }

  ghost predicate Faithful(rounds: seq<Round>, customer: Cursor, deleted: Cursor) {
    var at := Follow(rounds, Fresh(customer, deleted));
    if rounds == [] then at == Fresh(customer, deleted)
    else
      var last := rounds[|rounds| - 1];
      BothKept(last, customer, deleted, at) &&
      at.customer.at <= last.highWatermark && at.deleted.at <= last.highWatermark
  }

  /** Before a call: nothing has been passed over, and the cursors are behind. */
  lemma ReadyForRound(rounds: seq<Round>, customer: Cursor, deleted: Cursor)
    requires rounds != [] && Timely(rounds) && Faithful(rounds[..|rounds| - 1], customer, deleted)
    requires BothBehind(Fresh(customer, deleted), Top(rounds[0].highWatermark))
    ensures var at, last := Follow(rounds[..|rounds| - 1], Fresh(customer, deleted)), rounds[|rounds| - 1];
            BothKept(last, customer, deleted, at) && BothBehind(at, Top(last.highWatermark))
  {
    var n := |rounds| - 1;
    var at := Follow(rounds[..n], Fresh(customer, deleted));
    if n > 0 {
      var previous := rounds[..n][n - 1];
      assert previous == rounds[n - 1];
      NewcomersAreAhead(previous.customers, rounds[n].customers, customer, at.customer, at.customers,
                        previous.highWatermark);
      NewcomersAreAhead(previous.deletions, rounds[n].deletions, deleted, at.deleted, at.deletions,
                        previous.highWatermark);
    }
  }

  lemma RoundKeeps(round: Round, customer: Cursor, deleted: Cursor, at: Progress)
    requires Ascending(round.customers) && Ascending(round.deletions)
    requires BothKept(round, customer, deleted, at) && BothBehind(at, Top(round.highWatermark))
    ensures var next := Advanced(round, at);
            && BothKept(round, customer, deleted, next)
            && next.customer.at <= round.highWatermark && next.deleted.at <= round.highWatermark
  {
    PageSelects(round, at);
    var page := PageOf(round, at);
    StreamStep(round.customers, customer, at.customer, at.customers, round.limit, round.highWatermark,
               Rows(page.events, Customer));
    StreamStep(round.deletions, deleted, at.deleted, at.deletions, round.limit, round.highWatermark,
               Rows(page.events, Deleted));
  }

  lemma TimelyPrefix(rounds: seq<Round>)
    requires Timely(rounds) && rounds != []
    ensures Timely(rounds[..|rounds| - 1])
  {
  }

  /** However long the walk and whatever changes between the calls: both streams
      are delivered in order, nothing twice, and nothing is passed over. */
  lemma {:induction false} FollowIsFaithful(rounds: seq<Round>, customer: Cursor, deleted: Cursor)
    requires Timely(rounds)
    requires rounds != [] ==> BothBehind(Fresh(customer, deleted), Top(rounds[0].highWatermark))
    ensures Faithful(rounds, customer, deleted)
  {
    if rounds != [] {
      var front, last := rounds[..|rounds| - 1], rounds[|rounds| - 1];
      TimelyPrefix(rounds);
      FollowIsFaithful(front, customer, deleted);
      ReadyForRound(rounds, customer, deleted);
      RoundKeeps(last, customer, deleted, Follow(front, Fresh(customer, deleted)));
    }
  }

  lemma WholeWindow(rows: seq<Row>, cursor: Cursor, limit: nat, highWatermark: Instant, r: Row)
    requires |Fetched(rows, Some(cursor), (x: Row) => true, limit, highWatermark)| <= limit
    requires r in rows && cursor.Before(r.Key()) && r.at <= highWatermark
    ensures r in Fetched(rows, Some(cursor), (x: Row) => true, limit, highWatermark)
  {
    var window := Window(rows, Some(cursor), highWatermark);
    FilterAll(Take(window, limit + 1), (x: Row) => true);
    FilterMembers(rows, (x: Row) => InWindow(x, Some(cursor), highWatermark));
    assert window == Take(window, limit + 1);
  }

  /** Everything since `start` up to the watermark has been delivered. */
  ghost predicate Complete(rows: seq<Row>, start: Cursor, delivered: seq<Row>, highWatermark: Instant) {
    forall r :: r in rows && start.Before(r.Key()) && r.at <= highWatermark ==> r in delivered
  }

  lemma DrainedStream(rows: seq<Row>, start: Cursor, cursor: Cursor, delivered: seq<Row>, limit: nat,
                      highWatermark: Instant)
    requires NoGap(rows, start, cursor, delivered)
    requires |Fetched(rows, Some(cursor), (x: Row) => true, limit, highWatermark)| <= limit
    ensures Complete(rows, start, delivered + Fetched(rows, Some(cursor), (x: Row) => true, limit, highWatermark),
                     highWatermark)
  {
    forall r | r in rows && start.Before(r.Key()) && r.at <= highWatermark
      ensures r in delivered + Fetched(rows, Some(cursor), (x: Row) => true, limit, highWatermark)
    {
      if r !in delivered {
        WholeWindow(rows, cursor, limit, highWatermark, r);
      }
    }
  }

  lemma DrainedRound(round: Round, customer: Cursor, deleted: Cursor, at: Progress)
    requires Ascending(round.customers) && Ascending(round.deletions) && BothKept(round, customer, deleted, at)
    requires !PageOf(round, at).hasMore
    ensures var next := Advanced(round, at);
            && Complete(round.customers, customer, next.customers, round.highWatermark)
            && Complete(round.deletions, deleted, next.deletions, round.highWatermark)
  {
    PageSelects(round, at);
    var page := PageOf(round, at);
    RowsSplit(page.events);
    DrainedStream(round.customers, customer, at.customer, at.customers, round.limit, round.highWatermark);
    DrainedStream(round.deletions, deleted, at.deleted, at.deletions, round.limit, round.highWatermark);
  }

  /** Once a call says there is no more, every change and every tombstone since
      the start, up to its watermark, has been delivered; being in order, each
      has been delivered once. */
  lemma DrainedIsComplete(rounds: seq<Round>, customer: Cursor, deleted: Cursor)
    requires Timely(rounds) && rounds != []
    requires BothBehind(Fresh(customer, deleted), Top(rounds[0].highWatermark))
    requires !PageOf(rounds[|rounds| - 1], Follow(rounds[..|rounds| - 1], Fresh(customer, deleted))).hasMore
    ensures var at, last := Follow(rounds, Fresh(customer, deleted)), rounds[|rounds| - 1];
            && Complete(last.customers, customer, at.customers, last.highWatermark)
            && Complete(last.deletions, deleted, at.deletions, last.highWatermark)
            && Ascending(at.customers) && Ascending(at.deletions)
  {
    var front, last := rounds[..|rounds| - 1], rounds[|rounds| - 1];
    var at := Follow(front, Fresh(customer, deleted));
    TimelyPrefix(rounds);
    FollowIsFaithful(front, customer, deleted);
    ReadyForRound(rounds, customer, deleted);
    DrainedRound(last, customer, deleted, at);
    RoundKeeps(last, customer, deleted, at);
  }

  // ---------- the walk ends ----------

  /** How many rows of a table are still ahead of a cursor. */
  function Ahead(rows: seq<Row>, cursor: Cursor): nat {
    |Filter(rows, (r: Row) => cursor.Before(r.Key()))|
  }

  lemma {:induction false} AheadShrinks(rows: seq<Row>, cursor: Cursor, next: Cursor)
    requires cursor.NotAfter(next)
    ensures Ahead(rows, next) <= Ahead(rows, cursor)
  {
    if rows != [] {
      AheadShrinks(rows[1..], cursor, next);
    }
  }

  lemma {:induction false} AheadDrops(rows: seq<Row>, cursor: Cursor, next: Cursor, selected: seq<Row>)
    requires Ascending(rows) && Ascending(selected) && cursor.NotAfter(next)
    requires forall i | 0 <= i < |selected| ::
               selected[i] in rows && cursor.Before(selected[i].Key()) && selected[i].Key().NotAfter(next)
    ensures Ahead(rows, next) + |selected| <= Ahead(rows, cursor)
  {
    if rows == [] {
    } else if selected == [] {
      AheadShrinks(rows, cursor, next);
    } else {
      var rest := if selected[0] == rows[0] then selected[1..] else selected;
      forall i | 0 <= i < |rest|
        ensures rest[i] in rows[1..] && cursor.Before(rest[i].Key()) && rest[i].Key().NotAfter(next)
      {
        var k := if selected[0] == rows[0] then i + 1 else i;
        assert rest[i] == selected[k];
        var m :| 0 <= m < |rows| && rows[m] == selected[k];
        NotTheFirst(rows, selected);
        assert rows[1..][m - 1] == rest[i];
      }
      AheadDrops(rows[1..], cursor, next, rest);
    }
  }

  /** In ascending lists only the first selected row can be the first row. */
  lemma NotTheFirst(rows: seq<Row>, selected: seq<Row>)
    requires rows != [] && Ascending(rows) && selected != [] && Ascending(selected)
    requires forall i | 0 <= i < |selected| :: selected[i] in rows
    ensures forall k | 0 < k < |selected| :: selected[k] != rows[0]
  {
    var m :| 0 <= m < |rows| && rows[m] == selected[0];
    assert rows[0].Key().NotAfter(rows[m].Key());
    forall k | 0 < k < |selected|
      ensures selected[k] != rows[0]
    {
      assert selected[0].Key().Before(selected[k].Key());
    }
  }

  lemma StreamShrinks(rows: seq<Row>, cursor: Cursor, limit: nat, highWatermark: Instant, selected: seq<Row>)
    requires Ascending(rows) && cursor.NotAfter(Top(highWatermark))
    requires selected <= Fetched(rows, Some(cursor), (r: Row) => true, limit, highWatermark)
    ensures var fetched := Fetched(rows, Some(cursor), (r: Row) => true, limit, highWatermark);
            var next := NextStreamCursor(Some(cursor), fetched, selected, highWatermark);
            Ahead(rows, next) + |selected| <= Ahead(rows, cursor)
  {
    var fetched := Fetched(rows, Some(cursor), (r: Row) => true, limit, highWatermark);
    var next := NextStreamCursor(Some(cursor), fetched, selected, highWatermark);
    SelectedAreNew(rows, cursor, limit, highWatermark, selected);
    FetchedAscending(rows, Some(cursor), (r: Row) => true, limit, highWatermark);
    FilterMembers(rows, (x: Row) => InWindow(x, Some(cursor), highWatermark));
    FilterMembers(Take(Window(rows, Some(cursor), highWatermark), limit + 1), (r: Row) => true);
    forall i | 0 <= i < |selected|
      ensures selected[i] in rows && selected[i].Key().NotAfter(next)
    {
      assert selected[i] == fetched[i];
      assert fetched[i] in Take(Window(rows, Some(cursor), highWatermark), limit + 1);
      assert fetched[i] in Window(rows, Some(cursor), highWatermark);
    }
    AheadDrops(rows, cursor, next, selected);
  }

  /** A page that says there is more is full, and brings the walk nearer to its
      end by as many rows: without new changes it ends. */
  lemma MoreMakesProgress(round: Round, at: Progress)
    requires Ascending(round.customers) && Ascending(round.deletions)
    requires BothBehind(at, Top(round.highWatermark))
    ensures var page := PageOf(round, at);
            && |page.events| <= round.limit
            && (page.hasMore ==>
                  Ahead(round.customers, page.customer) + Ahead(round.deletions, page.deleted) + round.limit <=
                  Ahead(round.customers, at.customer) + Ahead(round.deletions, at.deleted))
  {
    PageSelects(round, at);
    var page := PageOf(round, at);
    RowsSplit(page.events);
    StreamShrinks(round.customers, at.customer, round.limit, round.highWatermark, Rows(page.events, Customer));
    StreamShrinks(round.deletions, at.deleted, round.limit, round.highWatermark, Rows(page.events, Deleted));
  }

  // ---------- where the guarantee ends ----------

  /** Two calls in the same millisecond: when the second finds nothing new, every
      row of that millisecond that was brought before is asked for again. */
  lemma SameMillisecondRepeats(rows: seq<Row>, exposed: Row -> bool, cursor: Cursor, limit: nat,
                               highWatermark: Instant, later: Instant, r: Row)
    requires Fetched(rows, Some(cursor), exposed, limit, highWatermark) == []
    requires r.at == highWatermark <= later && r.Key().NotAfter(cursor)
    ensures !InWindow(r, Some(cursor), highWatermark)
    ensures InWindow(r, Some(NextStreamCursor(Some(cursor), [], [], highWatermark)), later)
  {
  }

  lemma OneRow(row: Row, cursor: Option<Cursor>, highWatermark: Instant)
    requires InWindow(row, cursor, highWatermark)
    ensures Fetched([row], cursor, (r: Row) => true, 1, highWatermark) == [row]
  {
    FilterAll([row], (r: Row) => InWindow(r, cursor, highWatermark));
    FilterAll([row], (r: Row) => true);
  }

  /** A first call without cursors: a tombstone fills the page, and the customer
      stream jumps over a customer it had already fetched. */
  lemma EmptySinceLoses()
    ensures var customer, tombstone := Row(2, 1, 0), Row(1, 2, 0);
            var page := SyncCustomers([customer], [tombstone], (r: Row) => true, None, None, 1, 9);
            && page.hasMore
            && Loses([customer], (r: Row) => true, None, 9, Rows(page.events, Customer), page.customer, customer)
  {
    var customer, tombstone := Row(2, 1, 0), Row(1, 2, 0);
    var a, b := Event(Customer, customer), Event(Deleted, tombstone);
    OneRow(customer, None, 9);
    OneRow(tombstone, None, 9);
    assert Events(Customer, [customer]) + Events(Deleted, [tombstone]) == [a, b];
    SortOfTwo(a, b);
    assert Take([b, a], 1) == [b] && [b][1..] == [];
    assert Rows([b], Customer) == [];
  }

  lemma SortOfTwo(a: Event, b: Event)
    requires !ByTime(a, b)
    ensures Sort([a, b], ByTime) == [b, a]
  {
    assert [a, b][1..] == [b] && [b][1..] == [];
    assert Sort([b], ByTime) == [b];
    assert Insert(a, [], ByTime) == [a];
    assert Insert(a, [b], ByTime) == [b] + [a];
  }

  /** A salesperson: two tombstones of others are taken first and hidden, and the
      cursor jumps over the salesperson's own. */
  lemma SalesLoses()
    ensures var own := Row(3, 3, 7);
            var deletions := [Row(1, 1, 8), Row(2, 2, 8), own];
            var exposed := (r: Row) => r.owner == 7;
            var page := SyncCustomers([], deletions, exposed, Some(START), Some(START), 1, 9);
            && !page.hasMore
            && Loses(deletions, exposed, Some(START), 9, Rows(page.events, Deleted), page.deleted, own)
  {
    var other, another, own := Row(1, 1, 8), Row(2, 2, 8), Row(3, 3, 7);
    var deletions := [other, another, own];
    var exposed := (r: Row) => r.owner == 7;
    FilterAll(deletions, (r: Row) => InWindow(r, Some(START), 9));
    assert Take(deletions, 2) == [other, another];
    assert [other, another][1..] == [another] && [another][1..] == [];
    assert Filter([another], exposed) == [];
    assert Filter([other, another], exposed) == [];
    assert Events(Customer, []) + Events(Deleted, []) == [];
    assert own == deletions[2];
  }
}
