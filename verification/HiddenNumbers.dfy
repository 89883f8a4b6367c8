/**
 A number that later rows hide: after rows x, x/y and y of one save no order has
 the number x any more.
 */
module HiddenNumbers {
  import opened Basics
  import opened Sorting
  import opened Ledger
  import opened LedgerMerges
  import opened OrderAlias
  import opened Consolidation
  import opened InvoiceSave
  import opened InvoiceRows
  import opened RowsApart

  // ---------- two segments and their composite ----------

  function Pair(x: string, y: string): string {
    x + ['/'] + y
  }

  /** Two words in order that make a canonical number together, the first not inside
      the second. */
  ghost predicate TwoSegments(x: string, y: string, locale: Locale) {
    && IsWord(x) && IsWord(y) && Free(x, '/') && Free(y, '/') && x != y && !Contains(y, x)
    && locale.lower(x) == x && locale.lower(y) == y && locale.lower(Pair(x, y)) == Pair(x, y)
    && locale.before(x, y)
  }

  lemma PairSplits(x: string, y: string, locale: Locale)
    requires TwoSegments(x, y, locale)
    ensures SplitComposite(x) == [x] && SplitComposite(y) == [y] && SplitComposite(Pair(x, y)) == [x, y]
    ensures Trim(x) == x && Trim(y) == y && Trim(Pair(x, y)) == Pair(x, y)
  {
    WordIsWhole(x);
    WordIsWhole(y);
    SplitOfJoin([x]);
    SplitOfJoin([y]);
    SplitOfJoin([x, y]);
    JoinTrimmed([x, y]);
    assert [x, y][1..] == [y];
    assert Join([x, y], '/') == Pair(x, y);
  }

  lemma PairSorts(x: string, y: string, locale: Locale)
    requires TwoSegments(x, y, locale)
    ensures Sort(Distinct([x, y], {}, locale), ByKey(locale)) == [Segment(x, x), Segment(y, y)]
    ensures Texts([Segment(x, x), Segment(y, y)]) == [x, y]
  {
    PairSplits(x, y, locale);
    var segments := [Segment(x, x), Segment(y, y)];
    assert segments[1..] == [Segment(y, y)];
    assert Texts(segments) == [x, y];
    DistinctOfTexts(segments, {}, locale);
    SortOfOrdered(segments, locale);
  }

  lemma PairFolds(x: string, y: string, locale: Locale)
    requires TwoSegments(x, y, locale)
    ensures Folded([x, y], locale) == {x, y}
  {
    PairSplits(x, y, locale);
    FoldedCons(y, [], locale);
    FoldedCons(x, [y], locale);
    assert [x] + [y] == [x, y] && [y] + [] == [y];
  }

  lemma PairIsCanonical(x: string, y: string, locale: Locale)
    requires TwoSegments(x, y, locale)
    ensures IsCanonical(x, locale) && IsCanonical(y, locale) && IsCanonical(Pair(x, y), locale)
    ensures AliasNos(x, locale) == {} && AliasNos(y, locale) == {} && AliasNos(Pair(x, y), locale) == {x, y}
  {
    PairSplits(x, y, locale);
    PairSorts(x, y, locale);
    PairFolds(x, y, locale);
    assert [x, y][1..] == [y];
    assert Canonical(Pair(x, y), locale) == Join([x, y], '/');
  }

  /** A search for the composite number tries the first segment. */
  lemma PairCandidates(x: string, y: string, locale: Locale)
    requires TwoSegments(x, y, locale)
    ensures ExactCandidates(Pair(x, y), locale) != [] && ExactCandidates(Pair(x, y), locale)[0] == x
    ensures x in FoldedCandidates(Pair(x, y), locale)
  {
    PairSplits(x, y, locale);
    PairIsCanonical(x, y, locale);
    var p := Pair(x, y);
    var tried := [x, y] + [x, y] + [p, p];
    assert tried[0] == x;
    assert Distinct(tried, {}, locale)[0] == Segment(x, x);
    AliasIsCandidate(p, locale);
  }

  // ---------- one order that takes one number after the other ----------

  /** Beyond the orders there were there is one, with this number and these aliases. */
  ghost predicate OnlyOne(start: Book, b: Book, invoice: InvoiceId, o: OrderId, no: string, aliasNos: set<string>) {
    && OldOrdersKept(start, b) && AliasRefs(b) && o !in start.orders && b.orders.Keys == start.orders.Keys + {o}
    && b.orders[o].invoiceId == invoice && b.orders[o].orderNo == no && AliasesOf(b, o) == aliasNos
  }

  lemma OneMatches(start: Book, b: Book, invoice: InvoiceId, o: OrderId, m: string, aliasNos: set<string>, no: string,
                   q: OrderId, locale: Locale)
    requires OnlyOne(start, b, invoice, o, m, aliasNos) && IsCanonical(no, locale)
    requires !Findable(start, no, Anywhere, locale) && q in b.orders && Matches(b, q, no, locale)
    ensures q == o
  {
    if q in start.orders {
      StartMatchesNone(start, b, no, q, locale);
    }
  }

  lemma OneFound(start: Book, b: Book, after: Book, invoice: InvoiceId, o: OrderId, m: string, aliasNos: set<string>,
                 no: string, amount: int, newId: OrderId, p: OrderId, locale: Locale)
    requires OnlyOne(start, b, invoice, o, m, aliasNos) && IsCanonical(no, locale)
    requires !Findable(start, no, Anywhere, locale) && Matches(b, o, no, locale)
    requires RowBooked(b, after, invoice, no, amount, newId, p, locale)
    ensures p == o && after == Raised(b, o, amount, no, locale)
  {
    assert InScope(b, o, InInvoice(invoice)) && Findable(b, no, InInvoice(invoice), locale);
    if q :| PoolMatch(b, q, no, locale) {
      OneMatches(start, b, invoice, o, m, aliasNos, no, q, locale);
    }
    FoundInInvoice(b, after, invoice, no, amount, newId, p, locale);
    OneMatches(start, b, invoice, o, m, aliasNos, no, p, locale);
  }

  /** The aliases of a new number are free, or with the one order. */
  lemma NewAliasesFree(start: Book, b: Book, invoice: InvoiceId, o: OrderId, m: string, aliasNos: set<string>,
                       no: string, a: string, locale: Locale)
    requires OnlyOne(start, b, invoice, o, m, aliasNos) && IsCanonical(no, locale)
    requires !Findable(start, no, Anywhere, locale) && a in AliasNos(no, locale)
    ensures a in b.aliases ==> b.aliases[a] == o
  {
    if a in b.aliases {
      HeldAliasMatches(b, a, no, locale);
      OneMatches(start, b, invoice, o, m, aliasNos, no, b.aliases[a], locale);
    }
  }

  lemma RenamedNames(b: Book, o: OrderId, amount: int, no: string, locale: Locale)
    requires o in b.orders && Normalize(b.orders[o].orderNo, locale) != Normalize(no, locale) && AliasRefs(b)
    requires forall a | a in AliasNos(no, locale) && a in b.aliases :: b.aliases[a] == o
    ensures var after := Raised(b, o, amount, no, locale);
            && after.orders == b.orders[o := after.orders[o]] && after.orders[o].orderNo == no
            && after.orders[o].invoiceId == b.orders[o].invoiceId && after.invoices == b.invoices
            && AliasRefs(after) && AliasesOf(after, o) == AliasNos(no, locale)
  {
    var row := WithRow(b, o, RaisedRow(b.orders[o], amount, no, locale));
    SyncedRefs(row, o, no, locale);
    SyncedNames(row, o, no, locale, o);
  }

  lemma RenamedKeepsOld(start: Book, b: Book, o: OrderId, amount: int, no: string, locale: Locale)
    requires OldOrdersKept(start, b) && o in b.orders && o !in start.orders
    ensures OldOrdersKept(start, Raised(b, o, amount, no, locale))
  {
    var row := WithRow(b, o, RaisedRow(b.orders[o], amount, no, locale));
    forall q | q in start.orders
      ensures SameOrder(start, Raised(b, o, amount, no, locale), q)
    {
      assert SameOrder(start, b, q);
      SameAliases(b, o, row.orders[o], q);
      SyncedNames(row, o, no, locale, q);
    }
  }

  /** The one order takes the next number, and the aliases of that one only. */
  lemma OneTakes(start: Book, b: Book, after: Book, invoice: InvoiceId, o: OrderId, m: string, aliasNos: set<string>,
                 e: Entry, newId: OrderId, p: OrderId, locale: Locale)
    requires OnlyOne(start, b, invoice, o, m, aliasNos) && NewEntry(start, e, locale)
    requires Matches(b, o, e.no, locale) && Normalize(m, locale) != Normalize(e.no, locale)
    requires RowBooked(b, after, invoice, e.no, e.amount, newId, p, locale)
    ensures p == o && OnlyOne(start, after, invoice, o, e.no, e.aliasNos)
  {
    OneFound(start, b, after, invoice, o, m, aliasNos, e.no, e.amount, newId, p, locale);
    forall a | a in AliasNos(e.no, locale) && a in b.aliases {
      NewAliasesFree(start, b, invoice, o, m, aliasNos, e.no, a, locale);
    }
    RenamedNames(b, o, e.amount, e.no, locale);
    RenamedKeepsOld(start, b, o, e.amount, e.no, locale);
  }

  // ---------- the hidden number ----------

  /** The three rows of such a save. */
  ghost predicate HidingRows(rows: seq<Row>, x: string, y: string, locale: Locale) {
    && |rows| == 3 && TwoSegments(x, y, locale)
    && RowNumber(rows[0], locale) == x && RowNumber(rows[1], locale) == Pair(x, y) && RowNumber(rows[2], locale) == y
  }

  lemma OneOwned(start: Book, b: Book, invoice: InvoiceId, entries: seq<Entry>, orders: seq<OrderId>,
                 newIds: seq<OrderId>)
    requires 1 <= |entries| == |newIds| && 1 <= |orders|
    requires OwnOrders(start, b, invoice, entries, orders, newIds, 1)
    ensures OnlyOne(start, b, invoice, orders[0], entries[0].no, entries[0].aliasNos)
  {
    assert OwnOrder(start, b, invoice, orders[0], entries[0].no, SumWith(entries[..1], entries[0].no),
                    entries[0].aliasNos);
    assert orders[..1] == [orders[0]];
    forall q | q in start.orders
      ensures q in b.orders
    {
      assert SameOrder(start, b, q);
    }
  }

  lemma FirstIsOne(books: seq<Book>, orders: seq<OrderId>, invoice: InvoiceId, rows: seq<Row>, newIds: seq<OrderId>,
                   locale: Locale)
    requires NewRowsBooked(books, orders, invoice, rows, newIds, locale) && rows != []
    ensures OnlyOne(books[0], books[1], invoice, orders[0], Entries(rows, locale)[0].no,
                    Entries(rows, locale)[0].aliasNos)
  {
    OwnOrdersAfter(books, orders, invoice, rows, newIds, 1, locale);
    OneOwned(books[0], books[1], invoice, Entries(rows, locale), orders, newIds);
  }

  lemma WordMeetsPair(b: Book, o: OrderId, x: string, y: string, locale: Locale)
    requires TwoSegments(x, y, locale) && o in b.orders && b.orders[o].orderNo == x
    ensures Matches(b, o, Pair(x, y), locale)
  {
    PairSplits(x, y, locale);
    PairCandidates(x, y, locale);
    assert x <= x[0..];
    assert Contains(x, ExactCandidates(Pair(x, y), locale)[0]);
    assert Normalize(SplitComposite(x)[0], locale) in FoldedCandidates(Pair(x, y), locale);
  }

  lemma PairMeetsWord(b: Book, o: OrderId, x: string, y: string, locale: Locale)
    requires TwoSegments(x, y, locale) && AliasesOf(b, o) == {x, y} && o in b.orders
    ensures Matches(b, o, y, locale)
  {
    PairSplits(x, y, locale);
    WordCandidates(y, locale);
    assert y in AliasesOf(b, o) && b.aliases[y] == o;
    assert MatchesAlias(b, o, y, locale);
  }

  lemma WordsDoNotMeet(b: Book, o: OrderId, x: string, y: string, locale: Locale)
    requires TwoSegments(x, y, locale) && AliasesOf(b, o) == {} && o in b.orders && b.orders[o].orderNo == y
    ensures !Matches(b, o, x, locale)
  {
    PairSplits(x, y, locale);
    PairIsCanonical(x, y, locale);
    WordCandidates(x, locale);
    HasAlias(b, o, x, locale);
  }

  /** After rows x, x/y and y with new numbers there is one order for all three, and a
      search for the first number finds nothing. */
  lemma LaterRowsHide(books: seq<Book>, orders: seq<OrderId>, invoice: InvoiceId, rows: seq<Row>,
                      newIds: seq<OrderId>, x: string, y: string, locale: Locale)
    requires NewRowsBooked(books, orders, invoice, rows, newIds, locale) && HidingRows(rows, x, y, locale)
    ensures orders[0] == orders[1] == orders[2] && books[3].orders.Keys == books[0].orders.Keys + {orders[0]}
    ensures !Findable(books[3], x, Anywhere, locale)
  {
    var start, o, entries := books[0], orders[0], Entries(rows, locale);
    PairIsCanonical(x, y, locale);
    PairSplits(x, y, locale);
    assert forall i | 0 <= i < 3 :: NewEntry(start, entries[i], locale);
    FirstIsOne(books, orders, invoice, rows, newIds, locale);
    WordMeetsPair(books[1], o, x, y, locale);
    BookedEntry(books, orders, invoice, rows, newIds, 1, locale);
    OneTakes(start, books[1], books[2], invoice, o, x, {}, entries[1], newIds[1], orders[1], locale);
    PairMeetsWord(books[2], o, x, y, locale);
    BookedEntry(books, orders, invoice, rows, newIds, 2, locale);
    OneTakes(start, books[2], books[3], invoice, o, Pair(x, y), {x, y}, entries[2], newIds[2], orders[2], locale);
    WordsDoNotMeet(books[3], o, x, y, locale);
    if q :| q in books[3].orders && Matches(books[3], q, x, locale) {
      OneMatches(start, books[3], invoice, o, y, {}, x, q, locale);
    }
  }

  // ---------- such rows ----------

  lemma HidingWords(locale: Locale)
    requires locale.lower("a-1") == "a-1" && locale.lower("b-2") == "b-2" && locale.lower("a-1/b-2") == "a-1/b-2"
    requires locale.before("a-1", "b-2")
    ensures TwoSegments("a-1", "b-2", locale)
  {
    assert Pair("a-1", "b-2") == "a-1/b-2";
  }
}
