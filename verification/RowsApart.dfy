/**
 Saving rows whose numbers are new: when every number gets an order of its own,
 what that order holds, and when two numbers end up on one order.
 */
module RowsApart {
  import opened Basics
  import opened Ledger
  import opened LedgerRuns
  import opened LedgerMerges
  import opened OrderAlias
  import opened Consolidation
  import opened InvoiceSave
  import opened InvoiceRows

  /** What a row says: its canonical number, its amount, and the aliases of the number. */
  datatype Entry = Entry(no: string, amount: int, aliasNos: set<string>)

  function EntryOf(row: Row, locale: Locale): Entry {
    var no := RowNumber(row, locale);
    Entry(no, row.amount, AliasNos(no, locale))
  }

  function Entries(rows: seq<Row>, locale: Locale): (entries: seq<Entry>)
    ensures |entries| == |rows| && forall i | 0 <= i < |rows| :: entries[i] == EntryOf(rows[i], locale)
  {
    seq(|rows|, i requires 0 <= i < |rows| => EntryOf(rows[i], locale))
  }

  /** A search for the number of `n` finds an order that was saved under `m`. */
  ghost predicate Meets(m: Entry, n: Entry, locale: Locale) {
    m.no == n.no || m.aliasNos * FoldedCandidates(n.no, locale) != {} || HasSegment(m.no, n.no, locale)
  }

  /** No entry before has the number. */
  ghost predicate IsFirst(entries: seq<Entry>, j: nat)
    requires j < |entries|
  {
    forall i | 0 <= i < j :: entries[i].no != entries[j].no
  }

  ghost predicate MeetsNone(entries: seq<Entry>, j: nat, locale: Locale)
    requires j < |entries|
  {
    forall i | 0 <= i < j :: !Meets(entries[i], entries[j], locale)
  }

  /** Among the first `n` no number, where it comes first, meets an earlier one. */
  ghost predicate Unrelated(entries: seq<Entry>, n: nat, locale: Locale)
    requires n <= |entries|
  {
    forall j | 0 <= j < n && IsFirst(entries, j) :: MeetsNone(entries, j, locale)
  }

  /** Two of the first `n` are on one order exactly when they have one number. */
  ghost predicate Apart(orders: seq<OrderId>, entries: seq<Entry>, n: nat)
    requires n <= |entries| && n <= |orders|
  {
    forall i, j | 0 <= i < j < n :: orders[i] == orders[j] <==> entries[i].no == entries[j].no
  }

  /** What the entries with the number add up to. */
  function SumWith(entries: seq<Entry>, no: string): int {
    if entries == [] then 0
    else
      var last := entries[|entries| - 1];
      SumWith(entries[..|entries| - 1], no) + if last.no == no then last.amount else 0
  }

  /** A new order of the invoice with this number, amount and balance, and exactly
      these aliases. */
  ghost predicate OwnOrder(start: Book, b: Book, invoice: InvoiceId, o: OrderId, no: string, amount: int,
                           aliasNos: set<string>) {
    && o !in start.orders && o in b.orders && b.orders[o] == Order(invoice, no, amount, amount, false)
    && AliasesOf(b, o) == aliasNos
  }

  ghost predicate SameOrder(start: Book, b: Book, o: OrderId) {
    && o in start.orders && o in b.orders && b.orders[o] == start.orders[o]
    && AliasesOf(b, o) == AliasesOf(start, o)
  }

  /** The orders there were are what they were. */
  ghost predicate OldOrdersKept(start: Book, b: Book) {
    b.invoices == start.invoices && forall o | o in start.orders :: SameOrder(start, b, o)
  }

  ghost predicate NoOtherOrders(start: Book, b: Book, orders: seq<OrderId>, newIds: seq<OrderId>, n: nat)
    requires n <= |orders| && n <= |newIds|
  {
    forall o | o in b.orders :: o in start.orders || (o in orders[..n] && o in newIds[..n])
  }

  ghost predicate AllOwned(start: Book, b: Book, invoice: InvoiceId, entries: seq<Entry>, orders: seq<OrderId>, n: nat)
    requires n <= |entries| && n <= |orders|
  {
    forall i | 0 <= i < n ::
      OwnOrder(start, b, invoice, orders[i], entries[i].no, SumWith(entries[..n], entries[i].no), entries[i].aliasNos)
  }

  /** After `n` rows: every number has an order of its own with the sum of its rows;
      the orders there were are what they were, and there are no others. */
  ghost predicate OwnOrders(start: Book, b: Book, invoice: InvoiceId, entries: seq<Entry>, orders: seq<OrderId>,
                            newIds: seq<OrderId>, n: nat)
    requires n <= |entries| == |newIds| && n <= |orders|
  {
    && Apart(orders, entries, n) && OldOrdersKept(start, b) && AliasRefs(b)
    && AllOwned(start, b, invoice, entries, orders, n) && NoOtherOrders(start, b, orders, newIds, n)
  }

  // ---------- who matches ----------

  lemma OwnMatches(start: Book, b: Book, invoice: InvoiceId, o: OrderId, e: Entry, sum: int, no: string, n: Entry,
                   locale: Locale)
    requires OwnOrder(start, b, invoice, o, e.no, sum, e.aliasNos) && IsCanonical(no, locale) && n.no == no
    ensures Matches(b, o, no, locale) <==> Meets(e, n, locale)
    ensures MatchesNumber(b, o, no, locale) <==> e.no == no
  {
    HasAlias(b, o, no, locale);
  }

  lemma StartMatchesNone(start: Book, b: Book, no: string, o: OrderId, locale: Locale)
    requires IsCanonical(no, locale) && !Findable(start, no, Anywhere, locale) && SameOrder(start, b, o)
    ensures !Matches(b, o, no, locale)
  {
    SameNames(start, b, o, no, locale);
  }

  /** Any match is the order of an earlier row that the number meets. */
  lemma MatchIsOwn(start: Book, b: Book, invoice: InvoiceId, entries: seq<Entry>, orders: seq<OrderId>,
                   newIds: seq<OrderId>, n: nat, e: Entry, o: OrderId, locale: Locale) returns (i: nat)
    requires n <= |entries| == |newIds| && n <= |orders|
    requires OwnOrders(start, b, invoice, entries, orders, newIds, n)
    requires IsCanonical(e.no, locale) && !Findable(start, e.no, Anywhere, locale)
    requires o in b.orders && Matches(b, o, e.no, locale)
    ensures i < n && orders[i] == o && Meets(entries[i], e, locale) && b.orders[o].invoiceId == invoice
    ensures MatchesNumber(b, o, e.no, locale) <==> entries[i].no == e.no
  {
    if o in start.orders {
      StartMatchesNone(start, b, e.no, o, locale);
    }
    i :| 0 <= i < n && orders[i] == o;
    OwnMatches(start, b, invoice, o, entries[i], SumWith(entries[..n], entries[i].no), e.no, e, locale);
  }

  // ---------- where the next row goes ----------

  lemma NoneInPools(start: Book, b: Book, invoice: InvoiceId, entries: seq<Entry>, orders: seq<OrderId>,
                    newIds: seq<OrderId>, n: nat, e: Entry, locale: Locale)
    requires n <= |entries| == |newIds| && n <= |orders|
    requires OwnOrders(start, b, invoice, entries, orders, newIds, n)
    requires IsCanonical(e.no, locale) && !Findable(start, e.no, Anywhere, locale)
    ensures !(invoice in b.invoices && IsSystemPool(b.invoices[invoice])) ==> !InSomePool(b, e.no, locale)
  {
    if p :| PoolMatch(b, p, e.no, locale) {
      var l := MatchIsOwn(start, b, invoice, entries, orders, newIds, n, e, p, locale);
    }
  }

  lemma FoundInInvoice(b: Book, after: Book, invoice: InvoiceId, no: string, amount: int, newId: OrderId, o: OrderId,
                       locale: Locale)
    requires Findable(b, no, InInvoice(invoice), locale)
    requires !(invoice in b.invoices && IsSystemPool(b.invoices[invoice])) ==> !InSomePool(b, no, locale)
    requires RowBooked(b, after, invoice, no, amount, newId, o, locale)
    ensures Found(b, o, no, InInvoice(invoice), locale) && after == Raised(b, o, amount, no, locale)
  {
  }

  /** A number that was there before is booked on its own order. */
  lemma AgainIsRaised(start: Book, b: Book, after: Book, invoice: InvoiceId, entries: seq<Entry>,
                      orders: seq<OrderId>, newIds: seq<OrderId>, n: nat, i: nat, e: Entry, newId: OrderId,
                      o: OrderId, locale: Locale)
    requires i < n <= |entries| == |newIds| && n <= |orders|
    requires OwnOrders(start, b, invoice, entries, orders, newIds, n)
    requires IsCanonical(e.no, locale) && !Findable(start, e.no, Anywhere, locale) && entries[i].no == e.no
    requires RowBooked(b, after, invoice, e.no, e.amount, newId, o, locale)
    ensures o == orders[i] && after == Raised(b, o, e.amount, e.no, locale)
  {
    OwnMatches(start, b, invoice, orders[i], entries[i], SumWith(entries[..n], e.no), e.no, e, locale);
    assert InScope(b, orders[i], InInvoice(invoice)) && FindableByNumber(b, e.no, InInvoice(invoice), locale);
    assert Findable(b, e.no, InInvoice(invoice), locale);
    NoneInPools(start, b, invoice, entries, orders, newIds, n, e, locale);
    FoundInInvoice(b, after, invoice, e.no, e.amount, newId, o, locale);
    var l := MatchIsOwn(start, b, invoice, entries, orders, newIds, n, e, o, locale);
    assert entries[l].no == e.no;
  }

  lemma FirstMatchesNone(start: Book, b: Book, invoice: InvoiceId, entries: seq<Entry>, orders: seq<OrderId>,
                         newIds: seq<OrderId>, n: nat, q: OrderId, locale: Locale)
    requires n < |entries| == |newIds| && n <= |orders|
    requires OwnOrders(start, b, invoice, entries, orders, newIds, n)
    requires IsCanonical(entries[n].no, locale) && !Findable(start, entries[n].no, Anywhere, locale)
    requires MeetsNone(entries, n, locale) && q in b.orders
    ensures !Matches(b, q, entries[n].no, locale)
  {
    if Matches(b, q, entries[n].no, locale) {
      var l := MatchIsOwn(start, b, invoice, entries, orders, newIds, n, entries[n], q, locale);
    }
  }

  /** A number that no order has gets a new order. */
  lemma UnmatchedIsCreated(b: Book, after: Book, invoice: InvoiceId, no: string, amount: int, newId: OrderId,
                           o: OrderId, locale: Locale)
    requires forall q | q in b.orders :: !Matches(b, q, no, locale)
    requires RowBooked(b, after, invoice, no, amount, newId, o, locale)
    ensures o == newId && after == Created(b, newId, invoice, amount, no, locale)
  {
    assert !Findable(b, no, InInvoice(invoice), locale) && !Findable(b, no, Anywhere, locale);
    assert !InSomePool(b, no, locale);
  }

  // ---------- what the next row leaves ----------

  /** One row: the order gets the number, its amount so far and the new one, and the
      aliases; everything else stays. */
  ghost predicate OwnStep(b: Book, after: Book, invoice: InvoiceId, o: OrderId, no: string, sum: int,
                          aliasNos: set<string>) {
    && after.orders == b.orders[o := Order(invoice, no, sum, sum, false)]
    && after.invoices == b.invoices && AliasRefs(after)
    && AliasesOf(after, o) == aliasNos
    && forall q | q in b.orders && q != o :: AliasesOf(after, q) == AliasesOf(b, q)
  }

  lemma SyncedRefs(b: Book, o: OrderId, no: string, locale: Locale)
    requires AliasRefs(b) && o in b.orders
    ensures AliasRefs(WithAliases(b, o, no, locale))
  {
  }

  /** Syncing an order that has the aliases of the number already changes none. */
  lemma SyncedAgain(b: Book, o: OrderId, no: string, locale: Locale)
    requires AliasesOf(b, o) == AliasNos(no, locale)
    ensures AliasesOf(WithAliases(b, o, no, locale), o) == AliasNos(no, locale)
  {
    SyncedNames(b, o, no, locale, o);
    forall a
      ensures a in AliasesOf(WithAliases(b, o, no, locale), o) <==> a in AliasNos(no, locale)
    {
      assert a in AliasesOf(b, o) <==> a in AliasNos(no, locale);
    }
  }

  lemma SyncedStep(b: Book, o: OrderId, row: Order, no: string, locale: Locale)
    requires AliasRefs(b) && AliasesOf(WithAliases(WithRow(b, o, row), o, no, locale), o) == AliasNos(no, locale)
    requires row == Order(row.invoiceId, no, row.amount, row.amount, false)
    ensures OwnStep(b, WithAliases(WithRow(b, o, row), o, no, locale), row.invoiceId, o, no, row.amount,
                    AliasNos(no, locale))
  {
    SyncedRefs(WithRow(b, o, row), o, no, locale);
    forall q | q in b.orders && q != o
      ensures AliasesOf(WithAliases(WithRow(b, o, row), o, no, locale), q) == AliasesOf(b, q)
    {
      SyncedNames(WithRow(b, o, row), o, no, locale, q);
      SameAliases(b, o, row, q);
    }
  }

  lemma SameAliases(b: Book, o: OrderId, row: Order, q: OrderId)
    ensures AliasesOf(WithRow(b, o, row), q) == AliasesOf(b, q)
  {
  }

  /** Raising an own order is writing it anew with the new sum. */
  lemma RaisedIsCreated(b: Book, o: OrderId, invoice: InvoiceId, no: string, had: int, amount: int, sum: int,
                        locale: Locale)
    requires o in b.orders && b.orders[o] == Order(invoice, no, had, had, false) && sum == had + amount
    ensures Raised(b, o, amount, no, locale) == Created(b, o, invoice, sum, no, locale)
  {
    assert RaisedRow(b.orders[o], amount, no, locale) == Order(invoice, no, sum, sum, false);
  }

  lemma AgainSteps(b: Book, o: OrderId, invoice: InvoiceId, no: string, sum: int, locale: Locale)
    requires AliasesOf(b, o) == AliasNos(no, locale) && AliasRefs(b)
    ensures OwnStep(b, Created(b, o, invoice, sum, no, locale), invoice, o, no, sum, AliasNos(no, locale))
  {
    var row := Order(invoice, no, sum, sum, false);
    SameAliases(b, o, row, o);
    SyncedAgain(WithRow(b, o, row), o, no, locale);
    SyncedStep(b, o, row, no, locale);
  }

  lemma HeldAliasMatches(b: Book, a: string, no: string, locale: Locale)
    requires AliasRefs(b) && IsCanonical(no, locale) && a in AliasNos(no, locale) && a in b.aliases
    ensures b.aliases[a] in b.orders && Matches(b, b.aliases[a], no, locale)
  {
    AliasIsCandidate(no, locale);
    assert MatchesAlias(b, b.aliases[a], no, locale);
  }

  lemma FreeAliases(b: Book, o: OrderId, no: string, locale: Locale)
    requires forall a | a in AliasNos(no, locale) :: a !in b.aliases
    ensures AliasesOf(WithAliases(b, o, no, locale), o) == AliasNos(no, locale)
  {
    SyncedNames(b, o, no, locale, o);
  }

  lemma FirstSteps(b: Book, o: OrderId, invoice: InvoiceId, no: string, amount: int, locale: Locale)
    requires o !in b.orders && AliasRefs(b) && IsCanonical(no, locale)
    requires forall q | q in b.orders :: !Matches(b, q, no, locale)
    ensures OwnStep(b, Created(b, o, invoice, amount, no, locale), invoice, o, no, amount, AliasNos(no, locale))
  {
    var row := Order(invoice, no, amount, amount, false);
    forall a | a in AliasNos(no, locale)
      ensures a !in b.aliases
    {
      if a in b.aliases {
        HeldAliasMatches(b, a, no, locale);
      }
    }
    FreeAliases(WithRow(b, o, row), o, no, locale);
    SyncedStep(b, o, row, no, locale);
  }

  lemma SumWithSnoc(entries: seq<Entry>, n: nat, no: string)
    requires n < |entries|
    ensures SumWith(entries[..n + 1], no) ==
            SumWith(entries[..n], no) + if entries[n].no == no then entries[n].amount else 0
  {
    assert entries[..n + 1][..n] == entries[..n];
  }

  lemma {:induction false} SumWithNone(entries: seq<Entry>, no: string)
    requires forall i | 0 <= i < |entries| :: entries[i].no != no
    ensures SumWith(entries, no) == 0
  {
    if entries != [] {
      SumWithNone(entries[..|entries| - 1], no);
    }
  }

  lemma FirstSum(entries: seq<Entry>, n: nat)
    requires n < |entries| && IsFirst(entries, n)
    ensures SumWith(entries[..n + 1], entries[n].no) == entries[n].amount
  {
    SumWithNone(entries[..n], entries[n].no);
    SumWithSnoc(entries, n, entries[n].no);
  }

  lemma StepKeepsOne(start: Book, b: Book, after: Book, invoice: InvoiceId, o: OrderId, no: string, sum: int,
                     aliasNos: set<string>, p: OrderId, e: Entry, had: int)
    requires OwnStep(b, after, invoice, o, no, sum, aliasNos) && p != o
    requires OwnOrder(start, b, invoice, p, e.no, had, e.aliasNos)
    ensures OwnOrder(start, after, invoice, p, e.no, had, e.aliasNos)
  {
  }

  lemma StepKeepsOld(start: Book, b: Book, after: Book, invoice: InvoiceId, o: OrderId, no: string, sum: int,
                     aliasNos: set<string>)
    requires OwnStep(b, after, invoice, o, no, sum, aliasNos) && OldOrdersKept(start, b) && o !in start.orders
    ensures OldOrdersKept(start, after)
  {
    forall p | p in start.orders
      ensures SameOrder(start, after, p)
    {
      assert SameOrder(start, b, p);
    }
  }

  /** Whose order the next row is on: the order of its number, or a new one. */
  ghost predicate OnOwnOrder(start: Book, entries: seq<Entry>, orders: seq<OrderId>, newIds: seq<OrderId>, n: nat)
    requires n < |entries| == |newIds| && n < |orders|
  {
    && (forall i | 0 <= i < n :: orders[i] == orders[n] <==> entries[i].no == entries[n].no)
    && orders[n] !in start.orders && orders[n] in newIds[..n + 1]
  }

  lemma StepOwnsAll(start: Book, b: Book, after: Book, invoice: InvoiceId, entries: seq<Entry>, orders: seq<OrderId>,
                    newIds: seq<OrderId>, n: nat)
    requires n < |entries| == |newIds| && n < |orders|
    requires AllOwned(start, b, invoice, entries, orders, n) && OnOwnOrder(start, entries, orders, newIds, n)
    requires forall i | 0 <= i < n && entries[i].no == entries[n].no :: entries[i].aliasNos == entries[n].aliasNos
    requires OwnStep(b, after, invoice, orders[n], entries[n].no, SumWith(entries[..n + 1], entries[n].no),
                     entries[n].aliasNos)
    ensures AllOwned(start, after, invoice, entries, orders, n + 1)
  {
    var sum := SumWith(entries[..n + 1], entries[n].no);
    forall i | 0 <= i < n + 1
      ensures OwnOrder(start, after, invoice, orders[i], entries[i].no, SumWith(entries[..n + 1], entries[i].no),
                       entries[i].aliasNos)
    {
      if i < n && entries[i].no != entries[n].no {
        SumWithSnoc(entries, n, entries[i].no);
        StepKeepsOne(start, b, after, invoice, orders[n], entries[n].no, sum, entries[n].aliasNos, orders[i],
                     entries[i], SumWith(entries[..n], entries[i].no));
      }
    }
  }

  lemma StepKeepsOwn(start: Book, b: Book, after: Book, invoice: InvoiceId, entries: seq<Entry>,
                     orders: seq<OrderId>, newIds: seq<OrderId>, n: nat)
    requires n < |entries| == |newIds| && n < |orders|
    requires OwnOrders(start, b, invoice, entries, orders, newIds, n) && OnOwnOrder(start, entries, orders, newIds, n)
    requires forall i | 0 <= i < n && entries[i].no == entries[n].no :: entries[i].aliasNos == entries[n].aliasNos
    requires OwnStep(b, after, invoice, orders[n], entries[n].no, SumWith(entries[..n + 1], entries[n].no),
                     entries[n].aliasNos)
    ensures OwnOrders(start, after, invoice, entries, orders, newIds, n + 1)
  {
    var sum := SumWith(entries[..n + 1], entries[n].no);
    assert orders[..n + 1] == orders[..n] + [orders[n]] && newIds[..n + 1] == newIds[..n] + [newIds[n]];
    StepKeepsOld(start, b, after, invoice, orders[n], entries[n].no, sum, entries[n].aliasNos);
    StepOwnsAll(start, b, after, invoice, entries, orders, newIds, n);
  }

  // ---------- one more row ----------

  /** The entry is that of a row with a new number. */
  ghost predicate NewEntry(start: Book, e: Entry, locale: Locale) {
    IsCanonical(e.no, locale) && e.aliasNos == AliasNos(e.no, locale) && !Findable(start, e.no, Anywhere, locale)
  }

  ghost predicate NewEntries(start: Book, entries: seq<Entry>, locale: Locale) {
    forall i | 0 <= i < |entries| :: NewEntry(start, entries[i], locale)
  }

  lemma SharesApart(orders: seq<OrderId>, entries: seq<Entry>, n: nat, i: nat)
    requires i < n < |entries| && n < |orders| && Apart(orders, entries, n)
    requires orders[n] == orders[i] && entries[n].no == entries[i].no
    ensures forall l | 0 <= l < n :: orders[l] == orders[n] <==> entries[l].no == entries[n].no
  {
    forall l | 0 <= l < n
      ensures orders[l] == orders[n] <==> entries[l].no == entries[n].no
    {
      if l < i {
        assert orders[l] == orders[i] <==> entries[l].no == entries[i].no;
      } else if i < l {
        assert orders[i] == orders[l] <==> entries[i].no == entries[l].no;
      }
    }
  }

  lemma SharesId(start: Book, b: Book, orders: seq<OrderId>, newIds: seq<OrderId>, n: nat)
    requires n < |newIds| && n < |orders| && NoOtherOrders(start, b, orders, newIds, n)
    requires orders[n] in b.orders && orders[n] !in start.orders
    ensures orders[n] in newIds[..n + 1]
  {
    assert newIds[..n + 1] == newIds[..n] + [newIds[n]];
  }

  lemma SameNumberSameAliases(start: Book, entries: seq<Entry>, n: nat, locale: Locale)
    requires n < |entries| && NewEntries(start, entries, locale)
    ensures entries[n].aliasNos == AliasNos(entries[n].no, locale)
    ensures forall i | 0 <= i < n && entries[i].no == entries[n].no :: entries[i].aliasNos == entries[n].aliasNos
  {
    assert NewEntry(start, entries[n], locale);
    forall i | 0 <= i < n && entries[i].no == entries[n].no
      ensures entries[i].aliasNos == entries[n].aliasNos
    {
      assert NewEntry(start, entries[i], locale);
    }
  }

  lemma AgainOwned(start: Book, b: Book, after: Book, invoice: InvoiceId, entries: seq<Entry>, orders: seq<OrderId>,
                   newIds: seq<OrderId>, n: nat, i: nat, locale: Locale)
    requires i < n < |entries| == |newIds| && n < |orders| && NewEntries(start, entries, locale)
    requires OwnOrders(start, b, invoice, entries, orders, newIds, n) && entries[i].no == entries[n].no
    requires orders[n] == orders[i]
    requires after == Created(b, orders[n], invoice, SumWith(entries[..n + 1], entries[n].no), entries[n].no, locale)
    ensures OwnOrders(start, after, invoice, entries, orders, newIds, n + 1)
  {
    SameNumberSameAliases(start, entries, n, locale);
    assert OwnOrder(start, b, invoice, orders[i], entries[i].no, SumWith(entries[..n], entries[i].no),
                    entries[i].aliasNos);
    AgainSteps(b, orders[n], invoice, entries[n].no, SumWith(entries[..n + 1], entries[n].no), locale);
    SharesApart(orders, entries, n, i);
    SharesId(start, b, orders, newIds, n);
    StepKeepsOwn(start, b, after, invoice, entries, orders, newIds, n);
  }

  lemma CreatedOwns(start: Book, b: Book, invoice: InvoiceId, entries: seq<Entry>, orders: seq<OrderId>,
                    newIds: seq<OrderId>, n: nat)
    requires n < |entries| == |newIds| && n < |orders| && Distinctly(newIds) && newIds[n] !in start.orders
    requires OwnOrders(start, b, invoice, entries, orders, newIds, n)
    requires IsFirst(entries, n) && orders[n] == newIds[n]
    ensures OnOwnOrder(start, entries, orders, newIds, n) && newIds[n] !in b.orders
  {
    assert newIds[..n + 1] == newIds[..n] + [newIds[n]] && newIds[n] !in newIds[..n];
    forall i | 0 <= i < n
      ensures orders[i] != orders[n]
    {
      assert OwnOrder(start, b, invoice, orders[i], entries[i].no, SumWith(entries[..n], entries[i].no),
                      entries[i].aliasNos);
    }
  }

  lemma FirstOwned(start: Book, b: Book, after: Book, invoice: InvoiceId, entries: seq<Entry>, orders: seq<OrderId>,
                   newIds: seq<OrderId>, n: nat, locale: Locale)
    requires n < |entries| == |newIds| && n < |orders| && NewEntries(start, entries, locale)
    requires Distinctly(newIds) && newIds[n] !in start.orders
    requires OwnOrders(start, b, invoice, entries, orders, newIds, n)
    requires IsFirst(entries, n) && orders[n] == newIds[n]
    requires forall q | q in b.orders :: !Matches(b, q, entries[n].no, locale)
    requires after == Created(b, orders[n], invoice, SumWith(entries[..n + 1], entries[n].no), entries[n].no, locale)
    ensures OwnOrders(start, after, invoice, entries, orders, newIds, n + 1)
  {
    SameNumberSameAliases(start, entries, n, locale);
    assert NewEntry(start, entries[n], locale);
    CreatedOwns(start, b, invoice, entries, orders, newIds, n);
    FirstSteps(b, orders[n], invoice, entries[n].no, SumWith(entries[..n + 1], entries[n].no), locale);
    StepKeepsOwn(start, b, after, invoice, entries, orders, newIds, n);
  }

  lemma AgainGoes(start: Book, b: Book, after: Book, invoice: InvoiceId, entries: seq<Entry>, orders: seq<OrderId>,
                  newIds: seq<OrderId>, n: nat, i: nat, locale: Locale)
    requires i < n < |entries| == |newIds| && n < |orders| && NewEntries(start, entries, locale)
    requires OwnOrders(start, b, invoice, entries, orders, newIds, n) && entries[i].no == entries[n].no
    requires RowBooked(b, after, invoice, entries[n].no, entries[n].amount, newIds[n], orders[n], locale)
    ensures orders[n] == orders[i]
    ensures after == Created(b, orders[n], invoice, SumWith(entries[..n + 1], entries[n].no), entries[n].no, locale)
  {
    var e := entries[n];
    assert NewEntry(start, e, locale);
    AgainIsRaised(start, b, after, invoice, entries, orders, newIds, n, i, e, newIds[n], orders[n], locale);
    assert OwnOrder(start, b, invoice, orders[i], entries[i].no, SumWith(entries[..n], entries[i].no),
                    entries[i].aliasNos);
    SumWithSnoc(entries, n, e.no);
    RaisedIsCreated(b, orders[n], invoice, e.no, SumWith(entries[..n], e.no), e.amount, SumWith(entries[..n + 1], e.no),
                    locale);
  }

  lemma FirstGoes(start: Book, b: Book, after: Book, invoice: InvoiceId, entries: seq<Entry>, orders: seq<OrderId>,
                  newIds: seq<OrderId>, n: nat, locale: Locale)
    requires n < |entries| == |newIds| && n < |orders| && NewEntries(start, entries, locale)
    requires OwnOrders(start, b, invoice, entries, orders, newIds, n)
    requires IsFirst(entries, n) && MeetsNone(entries, n, locale)
    requires RowBooked(b, after, invoice, entries[n].no, entries[n].amount, newIds[n], orders[n], locale)
    ensures orders[n] == newIds[n] && forall q | q in b.orders :: !Matches(b, q, entries[n].no, locale)
    ensures after == Created(b, orders[n], invoice, SumWith(entries[..n + 1], entries[n].no), entries[n].no, locale)
  {
    var e := entries[n];
    assert NewEntry(start, e, locale);
    forall q | q in b.orders {
      FirstMatchesNone(start, b, invoice, entries, orders, newIds, n, q, locale);
    }
    UnmatchedIsCreated(b, after, invoice, e.no, e.amount, newIds[n], orders[n], locale);
    FirstSum(entries, n);
  }

  // ---------- all rows ----------

  /** A save of rows with new numbers, booked from `books[0]` on. */
  ghost predicate NewRowsBooked(books: seq<Book>, orders: seq<OrderId>, invoice: InvoiceId, rows: seq<Row>,
                                newIds: seq<OrderId>, locale: Locale) {
    && |rows| == |newIds| && RowsBooked(books, orders, invoice, rows, newIds, |rows|, locale)
    && AliasRefs(books[0]) && NewEntries(books[0], Entries(rows, locale), locale)
    && Distinctly(newIds) && forall i | 0 <= i < |newIds| :: newIds[i] !in books[0].orders
  }

  lemma BookedEntry(books: seq<Book>, orders: seq<OrderId>, invoice: InvoiceId, rows: seq<Row>, newIds: seq<OrderId>,
                    i: nat, locale: Locale)
    requires i < |rows| == |newIds| && RowsBooked(books, orders, invoice, rows, newIds, |rows|, locale)
    ensures var e := Entries(rows, locale)[i];
            RowBooked(books[i], books[i + 1], invoice, e.no, e.amount, newIds[i], orders[i], locale)
  {
    assert BookedAt(books[i], books[i + 1], invoice, rows[i], newIds[i], orders[i], locale);
  }

  lemma NextOwned(books: seq<Book>, orders: seq<OrderId>, invoice: InvoiceId, rows: seq<Row>, newIds: seq<OrderId>,
                  n: nat, locale: Locale)
    requires NewRowsBooked(books, orders, invoice, rows, newIds, locale) && n < |rows|
    requires OwnOrders(books[0], books[n], invoice, Entries(rows, locale), orders, newIds, n)
    requires IsFirst(Entries(rows, locale), n) ==> MeetsNone(Entries(rows, locale), n, locale)
    ensures OwnOrders(books[0], books[n + 1], invoice, Entries(rows, locale), orders, newIds, n + 1)
  {
    var entries := Entries(rows, locale);
    BookedEntry(books, orders, invoice, rows, newIds, n, locale);
    if i :| 0 <= i < n && entries[i].no == entries[n].no {
      AgainGoes(books[0], books[n], books[n + 1], invoice, entries, orders, newIds, n, i, locale);
      AgainOwned(books[0], books[n], books[n + 1], invoice, entries, orders, newIds, n, i, locale);
    } else {
      FirstGoes(books[0], books[n], books[n + 1], invoice, entries, orders, newIds, n, locale);
      FirstOwned(books[0], books[n], books[n + 1], invoice, entries, orders, newIds, n, locale);
    }
  }

  lemma {:induction false} OwnOrdersAfter(books: seq<Book>, orders: seq<OrderId>, invoice: InvoiceId, rows: seq<Row>,
                                          newIds: seq<OrderId>, n: nat, locale: Locale)
    requires NewRowsBooked(books, orders, invoice, rows, newIds, locale)
    requires n <= |rows| && Unrelated(Entries(rows, locale), n, locale)
    ensures OwnOrders(books[0], books[n], invoice, Entries(rows, locale), orders, newIds, n)
  {
    if n > 0 {
      OwnOrdersAfter(books, orders, invoice, rows, newIds, n - 1, locale);
      NextOwned(books, orders, invoice, rows, newIds, n - 1, locale);
    }
  }

  /** The first number that meets an earlier one is booked on the order of another number. */
  lemma MeetingShares(books: seq<Book>, orders: seq<OrderId>, invoice: InvoiceId, rows: seq<Row>,
                      newIds: seq<OrderId>, n: nat, locale: Locale)
    requires NewRowsBooked(books, orders, invoice, rows, newIds, locale)
    requires n < |rows| && Unrelated(Entries(rows, locale), n, locale)
    requires IsFirst(Entries(rows, locale), n) && !MeetsNone(Entries(rows, locale), n, locale)
    ensures !Apart(orders, Entries(rows, locale), |rows|)
  {
    var start, b, entries := books[0], books[n], Entries(rows, locale);
    var e := entries[n];
    assert NewEntry(start, e, locale);
    OwnOrdersAfter(books, orders, invoice, rows, newIds, n, locale);
    BookedEntry(books, orders, invoice, rows, newIds, n, locale);
    var i :| 0 <= i < n && Meets(entries[i], e, locale);
    OwnMatches(start, b, invoice, orders[i], entries[i], SumWith(entries[..n], entries[i].no), e.no, e, locale);
    assert InScope(b, orders[i], InInvoice(invoice)) && Findable(b, e.no, InInvoice(invoice), locale);
    NoneInPools(start, b, invoice, entries, orders, newIds, n, e, locale);
    FoundInInvoice(b, books[n + 1], invoice, e.no, e.amount, newIds[n], orders[n], locale);
    var l := MatchIsOwn(start, b, invoice, entries, orders, newIds, n, e, orders[n], locale);
    assert entries[l].no != e.no;
  }

  lemma {:induction false} FirstMeeting(entries: seq<Entry>, n: nat, locale: Locale) returns (j: nat)
    requires n <= |entries| && !Unrelated(entries, n, locale)
    ensures j < n && Unrelated(entries, j, locale) && IsFirst(entries, j) && !MeetsNone(entries, j, locale)
    decreases n
  {
    j :| 0 <= j < n && IsFirst(entries, j) && !MeetsNone(entries, j, locale);
    if !Unrelated(entries, j, locale) {
      j := FirstMeeting(entries, j, locale);
    }
  }

  /** Rows with new numbers share an order exactly when they have one number, unless
      some number, where it comes first, meets an earlier one: exactly then two
      different numbers end up on one order. */
  lemma NewRowsApartExactly(books: seq<Book>, orders: seq<OrderId>, invoice: InvoiceId, rows: seq<Row>,
                            newIds: seq<OrderId>, locale: Locale)
    requires NewRowsBooked(books, orders, invoice, rows, newIds, locale)
    ensures Apart(orders, Entries(rows, locale), |rows|) <==> Unrelated(Entries(rows, locale), |rows|, locale)
  {
    if Unrelated(Entries(rows, locale), |rows|, locale) {
      OwnOrdersAfter(books, orders, invoice, rows, newIds, |rows|, locale);
    } else {
      var j := FirstMeeting(Entries(rows, locale), |rows|, locale);
      MeetingShares(books, orders, invoice, rows, newIds, j, locale);
    }
  }

  /** Rows with new, unrelated numbers: every number has an order of its own with
      exactly the sum of its rows, and the orders there were are what they were. */
  lemma NewNumbersBooked(books: seq<Book>, orders: seq<OrderId>, invoice: InvoiceId, rows: seq<Row>,
                         newIds: seq<OrderId>, i: nat, locale: Locale)
    requires NewRowsBooked(books, orders, invoice, rows, newIds, locale)
    requires Unrelated(Entries(rows, locale), |rows|, locale) && i < |rows|
    ensures var no := RowNumber(rows[i], locale);
            OwnOrder(books[0], books[|rows|], invoice, orders[i], no, SumWith(Entries(rows, locale), no),
                     AliasNos(no, locale))
    ensures OldOrdersKept(books[0], books[|rows|])
    ensures forall o | o in books[|rows|].orders :: o in books[0].orders || o in orders
  {
    var entries := Entries(rows, locale);
    OwnOrdersAfter(books, orders, invoice, rows, newIds, |rows|, locale);
    assert entries[..|rows|] == entries && orders[..|rows|] == orders;
    assert entries[i] == EntryOf(rows[i], locale);
  }

  /** The number of every such row is found in the invoice, and leads to its own order. */
  lemma NewNumbersFound(books: seq<Book>, orders: seq<OrderId>, invoice: InvoiceId, rows: seq<Row>,
                        newIds: seq<OrderId>, i: nat, o: OrderId, locale: Locale)
    requires NewRowsBooked(books, orders, invoice, rows, newIds, locale)
    requires Unrelated(Entries(rows, locale), |rows|, locale) && i < |rows|
    ensures Findable(books[|rows|], RowNumber(rows[i], locale), InInvoice(invoice), locale)
    ensures Found(books[|rows|], o, RowNumber(rows[i], locale), InInvoice(invoice), locale) ==> o == orders[i]
  {
    var start, after, entries := books[0], books[|rows|], Entries(rows, locale);
    var e := entries[i];
    assert NewEntry(start, e, locale);
    OwnOrdersAfter(books, orders, invoice, rows, newIds, |rows|, locale);
    OwnMatches(start, after, invoice, orders[i], e, SumWith(entries[..|rows|], e.no), e.no, e, locale);
    assert InScope(after, orders[i], InInvoice(invoice)) && FindableByNumber(after, e.no, InInvoice(invoice), locale);
    if Found(after, o, e.no, InInvoice(invoice), locale) {
      var l := MatchIsOwn(start, after, invoice, entries, orders, newIds, |rows|, e, o, locale);
      assert entries[l].no == e.no;
    }
  }

  /** A save is such a run when no order had the number of a row before. */
  lemma SavedRowsAreNew(b: Book, books: seq<Book>, orders: seq<OrderId>, invoice: InvoiceId, invNo: string,
                        newInvoiceId: InvoiceId, rows: seq<Row>, newIds: seq<OrderId>, locale: Locale)
    requires Consistent(b) && TotalPreorder(locale) && |rows| == |newIds|
    requires RowsBooked(books, orders, invoice, rows, newIds, |rows|, locale)
    requires InvoiceEnsured(b, books[0], invoice, invNo, newInvoiceId)
    requires forall i | 0 <= i < |rows| ::
               RowComplete(rows[i], locale) && !Findable(b, RowNumber(rows[i], locale), Anywhere, locale)
    requires Distinctly(newIds) && forall i | 0 <= i < |newIds| :: newIds[i] !in b.orders
    ensures NewRowsBooked(books, orders, invoice, rows, newIds, locale)
  {
    forall i | 0 <= i < |rows|
      ensures NewEntry(books[0], Entries(rows, locale)[i], locale)
    {
      CanonicalIsCanonical(Trim(rows[i].orderNo), locale);
      assert RowComplete(rows[i], locale) && !Findable(b, RowNumber(rows[i], locale), Anywhere, locale);
      SameOrdersFind(b, books[0], RowNumber(rows[i], locale), locale);
    }
  }

  lemma SameOrdersFind(b: Book, after: Book, no: string, locale: Locale)
    requires after.orders == b.orders && after.aliases == b.aliases
    ensures Findable(after, no, Anywhere, locale) <==> Findable(b, no, Anywhere, locale)
  {
    forall o | o in b.orders
      ensures Matches(after, o, no, locale) <==> Matches(b, o, no, locale)
    {
      SameNames(b, after, o, no, locale);
    }
  }
}
