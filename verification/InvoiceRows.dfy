/**
 What saving makes of the rows of an invoice: the order each row is booked on,
 and when rows with different numbers stay on different orders.
 */
module InvoiceRows {
  import opened Basics
  import opened Ledger
  import opened LedgerRuns
  import opened LedgerMerges
  import opened OrderAlias
  import opened Consolidation
  import opened InvoiceSave

  // ---------- one row ----------

  /** The order `o`, which had the amount `had` so far, got the row. */
  ghost predicate HoldsRow(b: Book, after: Book, no: string, amount: int, had: int, o: OrderId, locale: Locale) {
    && o in after.orders && Normalize(after.orders[o].orderNo, locale) == Normalize(no, locale)
    && after.orders[o].amount == had + amount
    && AliasNos(no, locale) <= after.aliases.Keys
    && forall q | q in b.orders && q in after.orders && q != o :: after.orders[q] == b.orders[q]
  }

  /** The receipts of an order that is gone are on `o`, all others are where they were. */
  ghost predicate ReceiptsFollow(b: Book, after: Book, o: OrderId) {
    && after.receipts.Keys == b.receipts.Keys
    && forall r | r in b.receipts ::
         var from := b.receipts[r].orderId;
         after.receipts[r] ==
           b.receipts[r].(orderId :=
             if from.Some? && from.value in b.orders && from.value !in after.orders then Some(o) else from)
  }

  function AmountOf(b: Book, o: OrderId): int {
    if o in b.orders then b.orders[o].amount else 0
  }

  lemma RaisedHolds(b: Book, o: OrderId, amount: int, no: string, locale: Locale)
    requires o in b.orders
    ensures var after := Raised(b, o, amount, no, locale);
            && HoldsRow(b, after, no, amount, b.orders[o].amount, o, locale) && after.orders.Keys == b.orders.Keys
            && after.receipts == b.receipts
  {
  }

  lemma MergedHolds(b: Book, raised: Book, source: OrderId, o: OrderId, no: string, amount: int, had: int,
                    locale: Locale)
    requires HoldsRow(b, raised, no, amount, had, o, locale) && raised.orders.Keys == b.orders.Keys && source != o
    requires source in b.orders && raised.receipts == b.receipts
    ensures var after := PoolMerged(raised, source, o, no, locale);
            && HoldsRow(b, after, no, amount, had, o, locale) && after.orders.Keys == b.orders.Keys - {source}
            && ReceiptsFollow(b, after, o)
  {
    RefreshKeeps(WithAliases(Absorbed(raised, source, o), o, no, locale), o);
  }

  lemma AdoptedHolds(b: Book, source: OrderId, invoice: InvoiceId, amount: int, no: string, locale: Locale)
    requires source in b.orders
    ensures var after := PoolAdopted(b, source, invoice, amount, no, locale);
            && HoldsRow(b, after, no, amount, 0, source, locale) && after.orders.Keys == b.orders.Keys
            && after.receipts == b.receipts
            && after.orders[source].invoiceId == invoice
  {
    AdoptedShape(b, source, invoice, amount, no, locale);
  }

  /** The order of a pool that comes over brings its receipts, but not its amount. */
  ghost predicate TakesPoolOrder(b: Book, invoice: InvoiceId, no: string, locale: Locale) {
    && !(invoice in b.invoices && IsSystemPool(b.invoices[invoice]))
    && !Findable(b, no, InInvoice(invoice), locale) && InSomePool(b, no, locale)
  }

  /** Where the row goes: an order of the invoice that matches, else for a formal
      invoice a pool order that does, else any order that does, else a new one. */
  ghost predicate RowGoesTo(b: Book, invoice: InvoiceId, no: string, newId: OrderId, o: OrderId, locale: Locale) {
    if exists q | q in b.orders && b.orders[q].invoiceId == invoice :: Matches(b, q, no, locale) then
      o in b.orders && b.orders[o].invoiceId == invoice && Matches(b, o, no, locale)
    else if TakesPoolOrder(b, invoice, no, locale) then
      PoolMatch(b, o, no, locale)
    else if exists q | q in b.orders :: Matches(b, q, no, locale) then
      o in b.orders && Matches(b, o, no, locale)
    else
      o == newId
  }

  /** Only pool orders with the number are ever taken away; their receipts go to the
      order of the row. */
  ghost predicate OnlyPoolOrdersGo(b: Book, after: Book, no: string, newId: OrderId, o: OrderId, locale: Locale) {
    && (forall q | q in b.orders && q !in after.orders :: PoolMatch(b, q, no, locale))
    && after.orders.Keys <= b.orders.Keys + {newId}
    && ReceiptsFollow(b, after, o)
  }

  lemma InPoolInvoice(b: Book, after: Book, invoice: InvoiceId, no: string, amount: int, newId: OrderId, o: OrderId,
                      locale: Locale)
    requires IsCanonical(no, locale) && newId !in b.orders
    requires PoolRowSaved(b, after, invoice, no, amount, newId, o, locale)
    requires invoice in b.invoices && IsSystemPool(b.invoices[invoice])
    ensures HoldsRow(b, after, no, amount, AmountOf(b, o), o, locale)
    ensures RowGoesTo(b, invoice, no, newId, o, locale) && OnlyPoolOrdersGo(b, after, no, newId, o, locale)
  {
    if Findable(b, no, Anywhere, locale) || Findable(b, no, InInvoice(invoice), locale) {
      RaisedElsewhere(b, invoice, no, amount, newId, o, locale);
    } else {
      CreatedElsewhere(b, invoice, no, amount, newId, locale);
    }
  }

  lemma SourceWasPool(b: Book, o: OrderId, amount: int, no: string, p: OrderId, locale: Locale)
    requires o in b.orders && !InPool(b, o) && Found(Raised(b, o, amount, no, locale), p, no, InPools, locale)
    ensures PoolMatch(b, p, no, locale) && p != o
  {
    assert PoolMatch(Raised(b, o, amount, no, locale), p, no, locale);
    RaisedPoolMatch(b, o, amount, no, locale, p);
  }

  lemma TookPoolOrder(b: Book, after: Book, o: OrderId, invoice: InvoiceId, amount: int, no: string, newId: OrderId,
                      locale: Locale)
    requires o in b.orders && !InPool(b, o)
    requires Migrated(Raised(b, o, amount, no, locale), after, o, invoice, amount, Some(o), no, locale)
    ensures HoldsRow(b, after, no, amount, b.orders[o].amount, o, locale)
    ensures OnlyPoolOrdersGo(b, after, no, newId, o, locale)
  {
    var raised := Raised(b, o, amount, no, locale);
    var p :| MigratedFrom(raised, after, p, o, invoice, amount, Some(o), no, locale);
    SourceWasPool(b, o, amount, no, p, locale);
    RaisedHolds(b, o, amount, no, locale);
    MergedHolds(b, raised, p, o, no, amount, b.orders[o].amount, locale);
  }

  lemma AdoptedPoolOrder(b: Book, after: Book, o: OrderId, invoice: InvoiceId, amount: int, no: string, newId: OrderId,
                         locale: Locale)
    requires Migrated(b, after, o, invoice, amount, None, no, locale)
    ensures HoldsRow(b, after, no, amount, 0, o, locale) && PoolMatch(b, o, no, locale)
    ensures OnlyPoolOrdersGo(b, after, no, newId, o, locale)
  {
    AdoptedHolds(b, o, invoice, amount, no, locale);
  }

  lemma InOwnInvoice(b: Book, after: Book, invoice: InvoiceId, no: string, amount: int, newId: OrderId, o: OrderId,
                     locale: Locale)
    requires Findable(b, no, InInvoice(invoice), locale) && RowSaved(b, after, invoice, no, amount, newId, o, locale)
    requires !(invoice in b.invoices && IsSystemPool(b.invoices[invoice]))
    ensures HoldsRow(b, after, no, amount, AmountOf(b, o), o, locale)
    ensures RowGoesTo(b, invoice, no, newId, o, locale) && OnlyPoolOrdersGo(b, after, no, newId, o, locale)
  {
    RaisedHolds(b, o, amount, no, locale);
    if InSomePool(b, no, locale) {
      TookPoolOrder(b, after, o, invoice, amount, no, newId, locale);
    }
  }

  lemma NotInInvoice(b: Book, invoice: InvoiceId, no: string, locale: Locale)
    requires IsCanonical(no, locale) && !Findable(b, no, InInvoice(invoice), locale)
    ensures forall q | q in b.orders && b.orders[q].invoiceId == invoice :: !Matches(b, q, no, locale)
  {
  }

  lemma RaisedElsewhere(b: Book, invoice: InvoiceId, no: string, amount: int, newId: OrderId, o: OrderId,
                        locale: Locale)
    requires o in b.orders
    ensures var after := Raised(b, o, amount, no, locale);
            && HoldsRow(b, after, no, amount, AmountOf(b, o), o, locale)
            && OnlyPoolOrdersGo(b, after, no, newId, o, locale)
  {
    RaisedHolds(b, o, amount, no, locale);
  }

  lemma CreatedElsewhere(b: Book, invoice: InvoiceId, no: string, amount: int, newId: OrderId, locale: Locale)
    requires newId !in b.orders
    ensures var after := Created(b, newId, invoice, amount, no, locale);
            && HoldsRow(b, after, no, amount, AmountOf(b, newId), newId, locale)
            && OnlyPoolOrdersGo(b, after, no, newId, newId, locale)
  {
  }

  lemma InOtherPlace(b: Book, after: Book, invoice: InvoiceId, no: string, amount: int, newId: OrderId, o: OrderId,
                     locale: Locale)
    requires IsCanonical(no, locale) && newId !in b.orders
    requires !Findable(b, no, InInvoice(invoice), locale) && !InSomePool(b, no, locale)
    requires RowSaved(b, after, invoice, no, amount, newId, o, locale)
    ensures HoldsRow(b, after, no, amount, AmountOf(b, o), o, locale)
    ensures RowGoesTo(b, invoice, no, newId, o, locale) && OnlyPoolOrdersGo(b, after, no, newId, o, locale)
  {
    NotInInvoice(b, invoice, no, locale);
    if Findable(b, no, Anywhere, locale) {
      RaisedElsewhere(b, invoice, no, amount, newId, o, locale);
    } else {
      CreatedElsewhere(b, invoice, no, amount, newId, locale);
    }
  }

  /** A booked row: one order got exactly its amount and goes by its number, every
      order left is otherwise what it was, and only pool orders may be gone. */
  lemma BookedRow(b: Book, after: Book, invoice: InvoiceId, no: string, amount: int, newId: OrderId, o: OrderId,
                  locale: Locale)
    requires IsCanonical(no, locale) && newId !in b.orders
    requires RowBooked(b, after, invoice, no, amount, newId, o, locale)
    ensures HoldsRow(b, after, no, amount, if TakesPoolOrder(b, invoice, no, locale) then 0 else AmountOf(b, o), o,
                     locale)
    ensures RowGoesTo(b, invoice, no, newId, o, locale) && OnlyPoolOrdersGo(b, after, no, newId, o, locale)
  {
    if invoice in b.invoices && IsSystemPool(b.invoices[invoice]) {
      InPoolInvoice(b, after, invoice, no, amount, newId, o, locale);
    } else if Findable(b, no, InInvoice(invoice), locale) {
      InOwnInvoice(b, after, invoice, no, amount, newId, o, locale);
    } else if InSomePool(b, no, locale) {
      NotInInvoice(b, invoice, no, locale);
      AdoptedPoolOrder(b, after, o, invoice, amount, no, newId, locale);
    } else {
      InOtherPlace(b, after, invoice, no, amount, newId, o, locale);
    }
  }

  // ---------- finding the number again ----------

  lemma AliasIsCandidate(no: string, locale: Locale)
    requires IsCanonical(no, locale)
    ensures AliasNos(no, locale) <= FoldedCandidates(no, locale)
  {
    var parts := SplitComposite(no);
    var tried := parts + parts + [no, no];
    DistinctKeys(tried, {}, locale);
    FoldedTexts(Distinct(tried, {}, locale), locale);
    assert forall i | 0 <= i < |parts| :: tried[i] == parts[i];
  }

  lemma RaisedFindable(b: Book, o: OrderId, amount: int, no: string, locale: Locale)
    requires o in b.orders && AliasRefs(b) && IsCanonical(no, locale)
    requires Normalize(b.orders[o].orderNo, locale) != Normalize(no, locale) || AliasNos(no, locale) != {}
    ensures Findable(Raised(b, o, amount, no, locale), no, Anywhere, locale)
  {
    var after := Raised(b, o, amount, no, locale);
    if AliasNos(no, locale) != {} {
      var a :| a in AliasNos(no, locale);
      AliasIsCandidate(no, locale);
      assert MatchesAlias(after, after.aliases[a], no, locale);
      assert Matches(after, after.aliases[a], no, locale);
    } else {
      assert Matches(after, o, no, locale);
    }
  }

  /** The order `q` has the number, and not just by an alias that `o` holds. */
  ghost predicate MatchesWithout(b: Book, q: OrderId, o: OrderId, no: string, locale: Locale)
    requires q in b.orders
  {
    || MatchesNumber(b, q, no, locale) || MatchesSegment(b, q, no, locale)
    || (q != o && MatchesAlias(b, q, no, locale))
  }

  /** Whether an order has a number depends only on its own number and aliases. */
  lemma SameNames(b: Book, after: Book, q: OrderId, no: string, locale: Locale)
    requires q in b.orders && q in after.orders && after.orders[q].orderNo == b.orders[q].orderNo
    requires AliasesOf(after, q) == AliasesOf(b, q)
    ensures Matches(after, q, no, locale) <==> Matches(b, q, no, locale)
  {
    assert MatchesAlias(after, q, no, locale) <==> MatchesAlias(b, q, no, locale) by {
      HasAlias(b, q, no, locale);
      HasAlias(after, q, no, locale);
    }
  }

  lemma HasAlias(b: Book, q: OrderId, no: string, locale: Locale)
    ensures MatchesAlias(b, q, no, locale) <==> AliasesOf(b, q) * FoldedCandidates(no, locale) != {}
  {
    if a :| a in AliasesOf(b, q) * FoldedCandidates(no, locale) {
      assert b.aliases[a] == q;
    }
    if MatchesAlias(b, q, no, locale) {
      var a :| a in b.aliases && b.aliases[a] == q && a in FoldedCandidates(no, locale);
      assert a in AliasesOf(b, q) * FoldedCandidates(no, locale);
    }
  }

  /** Syncing gives an order the aliases that no other order holds, and no other
      order any new ones. */
  lemma SyncedNames(b: Book, o: OrderId, no: string, locale: Locale, q: OrderId)
    ensures var after := WithAliases(b, o, no, locale);
            && (q != o ==> AliasesOf(after, q) == AliasesOf(b, q))
            && (forall a :: a in AliasesOf(after, o) <==>
                  a in AliasNos(no, locale) && (a in b.aliases ==> b.aliases[a] == o))
  {
    var after := WithAliases(b, o, no, locale);
    forall a
      ensures a in after.aliases <==> a in AliasNos(no, locale) || (a in b.aliases && b.aliases[a] != o)
      ensures a in after.aliases ==>
                after.aliases[a] == if a in b.aliases && b.aliases[a] != o then b.aliases[a] else o
    {
    }
    assert q != o ==> forall a :: a in AliasesOf(after, q) <==> a in AliasesOf(b, q);
  }

  lemma RaisedMatches(b: Book, o: OrderId, amount: int, no: string, locale: Locale, q: OrderId)
    requires o in b.orders && q in b.orders
    requires Normalize(b.orders[o].orderNo, locale) == Normalize(no, locale) && AliasNos(no, locale) == {}
    ensures Matches(Raised(b, o, amount, no, locale), q, no, locale) <==> MatchesWithout(b, q, o, no, locale)
  {
    var row, after := WithRow(b, o, RaisedRow(b.orders[o], amount, no, locale)), Raised(b, o, amount, no, locale);
    SyncedNames(row, o, no, locale, q);
    if q != o {
      assert AliasesOf(row, q) == AliasesOf(b, q);
      SameNames(b, after, q, no, locale);
    } else {
      HasAlias(after, o, no, locale);
    }
  }

  /** When the number of a row that raised an order is found again: when the order
      took the number as it is, the number is composite, or the number was found
      otherwise than by an alias of that order.  An alias of it is lost. */
  lemma RaisedFindableExactly(b: Book, o: OrderId, amount: int, no: string, locale: Locale)
    requires o in b.orders && AliasRefs(b) && IsCanonical(no, locale)
    ensures Findable(Raised(b, o, amount, no, locale), no, Anywhere, locale) <==>
              || Normalize(b.orders[o].orderNo, locale) != Normalize(no, locale)
              || AliasNos(no, locale) != {}
              || exists q | q in b.orders :: MatchesWithout(b, q, o, no, locale)
  {
    if Normalize(b.orders[o].orderNo, locale) != Normalize(no, locale) || AliasNos(no, locale) != {} {
      RaisedFindable(b, o, amount, no, locale);
    } else {
      forall q | q in b.orders {
        RaisedMatches(b, o, amount, no, locale, q);
      }
    }
  }
}
