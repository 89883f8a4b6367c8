/** The manual resolution of conflicting orders: one order takes the others over. */
module Rematch {
  import opened Basics
  import opened Sums
  import opened Ledger
  import opened LedgerRuns
  import opened LedgerMerges
  import opened OrderAlias
  import opened Consolidation

  /** The chosen order takes the receipts of the others, and in merge mode their amounts. */
  ghost function Rematched(b: Book, sources: seq<OrderId>, keep: OrderId, merge: bool): Book
    requires keep in b.orders && keep !in sources && forall o | o in sources :: o in b.orders
  {
    AbsorbAllKeeps(b, sources, keep);
    RaisedBy(AbsorbAll(b, sources, keep), keep, if merge then AmountsOf(b, sources) else 0)
  }

  ghost function RaisedBy(b: Book, o: OrderId, extra: int): Book
    requires o in b.orders
  {
    Refresh(WithRow(b, o, b.orders[o].(amount := b.orders[o].amount + extra)), o)
  }

  lemma {:induction false} AbsorbAllKeeps(b: Book, sources: seq<OrderId>, keep: OrderId)
    requires keep in b.orders && keep !in sources
    ensures keep in AbsorbAll(b, sources, keep).orders
    ensures AbsorbAll(b, sources, keep).orders[keep] == b.orders[keep]
    decreases |sources|
  {
    if sources != [] {
      AbsorbAllKeeps(Absorbed(b, sources[0], keep), sources[1..], keep);
    }
  }

  /** Merging keeps the total balance; keeping one order only drops exactly the
      amounts of the others.  Receipts and cached balances are right either way. */
  lemma RematchConserves(b: Book, sources: seq<OrderId>, keep: OrderId, merge: bool)
    requires Coherent(b) && Mergeable(b, sources, keep)
    ensures var after := Rematched(b, sources, keep, merge);
            && Coherent(after) && ReceiptsKept(b, after)
            && after.orders.Keys == b.orders.Keys - RowSet(sources)
            && TotalBalance(after) == TotalBalance(b) - if merge then 0 else AmountsOf(b, sources)
  {
    AbsorbAllKeeps(b, sources, keep);
    AbsorbAllRows(b, sources, keep);
    RematchTotals(b, sources, keep, merge);
    RematchTables(b, sources, keep, merge);
  }

  lemma AbsorbAllFacts(b: Book, sources: seq<OrderId>, keep: OrderId)
    requires Coherent(b) && Mergeable(b, sources, keep)
    ensures var absorbed := AbsorbAll(b, sources, keep);
            && keep in absorbed.orders && CoherentExcept(absorbed, {keep})
            && Sum(Lives(absorbed)) == TotalBalance(b) - AmountsOf(b, sources)
  {
    AbsorbAllKeeps(b, sources, keep);
    AbsorbAllLives(b, sources, keep);
    AbsorbAllCoherent(b, sources, keep);
    CoherentTotal(b);
  }

  lemma RematchTotals(b: Book, sources: seq<OrderId>, keep: OrderId, merge: bool)
    requires Coherent(b) && Mergeable(b, sources, keep)
    ensures Coherent(Rematched(b, sources, keep, merge))
    ensures TotalBalance(Rematched(b, sources, keep, merge)) ==
              TotalBalance(b) - if merge then 0 else AmountsOf(b, sources)
  {
    AbsorbAllFacts(b, sources, keep);
    RaisedConserves(AbsorbAll(b, sources, keep), keep, if merge then AmountsOf(b, sources) else 0);
  }

  lemma RematchTables(b: Book, sources: seq<OrderId>, keep: OrderId, merge: bool)
    requires keep in b.orders && keep !in sources && forall o | o in sources :: o in b.orders
    ensures var after, absorbed := Rematched(b, sources, keep, merge), AbsorbAll(b, sources, keep);
            after.receipts == absorbed.receipts && after.orders.Keys == absorbed.orders.Keys
  {
    AbsorbAllKeeps(b, sources, keep);
  }

  lemma OtherRowsCoherent(b: Book, keep: OrderId, row: Order)
    requires CoherentExcept(b, {keep})
    ensures CoherentExcept(WithRow(b, keep, row), {keep})
  {
  }

  lemma RaisedTables(b: Book, keep: OrderId, extra: int)
    requires keep in b.orders && CoherentExcept(b, {keep})
    ensures var after := RaisedBy(b, keep, extra);
            Coherent(after) && after.receipts == b.receipts && after.orders.Keys == b.orders.Keys
  {
    var row := b.orders[keep].(amount := b.orders[keep].amount + extra);
    OtherRowsCoherent(b, keep, row);
    RefreshedRow(WithRow(b, keep, row), keep);
  }

  lemma RefreshedRow(b: Book, keep: OrderId)
    requires CoherentExcept(b, {keep})
    ensures Coherent(Refresh(b, keep)) && Refresh(b, keep).receipts == b.receipts
    ensures Refresh(b, keep).orders.Keys == b.orders.Keys
  {
    RefreshCoherent(b, {keep}, keep);
    RefreshKeeps(b, keep);
  }

  lemma RaisedConserves(b: Book, keep: OrderId, extra: int)
    requires keep in b.orders && CoherentExcept(b, {keep})
    ensures var after := RaisedBy(b, keep, extra);
            Coherent(after) && TotalBalance(after) == Sum(Lives(b)) + extra
  {
    var row := b.orders[keep].(amount := b.orders[keep].amount + extra);
    RaisedTables(b, keep, extra);
    WithRowLives(b, keep, row);
    RaisedAmounts(b, keep, extra, row);
    CoherentTotal(RaisedBy(b, keep, extra));
  }

  lemma RaisedAmounts(b: Book, keep: OrderId, extra: int, row: Order)
    requires keep in b.orders && row == b.orders[keep].(amount := b.orders[keep].amount + extra)
    ensures Sum(Lives(RaisedBy(b, keep, extra))) == Sum(Lives(WithRow(b, keep, row)))
  {
    RefreshKeeps(WithRow(b, keep, row), keep);
    SameAmounts(WithRow(b, keep, row), RaisedBy(b, keep, extra));
  }

  method RaiseKept(db: LedgerDb, keep: OrderId, extra: int)
    requires keep in db.orders
    modifies db`orders
    ensures db.Tables() == RaisedBy(old(db.Tables()), keep, extra)
  {
    db.orders := db.orders[keep := db.orders[keep].(amount := db.orders[keep].amount + extra)];
    var _, _ := db.UpdateOrderBalance(keep);
  }

  /** After a resolution the receipts of the others are on the chosen order, its amount
      is its own and in merge mode theirs, and every other order is what it was. */
  lemma RematchGathers(b: Book, sources: seq<OrderId>, keep: OrderId, merge: bool)
    requires Mergeable(b, sources, keep)
    ensures var after := Rematched(b, sources, keep, merge);
            && keep in after.orders
            && after.orders[keep].amount == b.orders[keep].amount + (if merge then AmountsOf(b, sources) else 0)
            && (forall o | o in b.orders && o !in sources && o != keep ::
                  o in after.orders && after.orders[o] == b.orders[o])
            && forall r | r in b.receipts ::
                 && r in after.receipts
                 && after.receipts[r].orderId ==
                      if b.receipts[r].orderId.Some? && b.receipts[r].orderId.value in sources then Some(keep)
                      else b.receipts[r].orderId
  {
    var extra := if merge then AmountsOf(b, sources) else 0;
    var absorbed := AbsorbAll(b, sources, keep);
    AbsorbAllKeeps(b, sources, keep);
    AbsorbAllRows(b, sources, keep);
    RefreshKeeps(WithRow(absorbed, keep, absorbed.orders[keep].(amount := absorbed.orders[keep].amount + extra)), keep);
    forall r | r in b.receipts {
      AbsorbAllReceipts(b, sources, keep, r);
    }
  }

  /** One resolution: `sources` are the other orders of the conflict. */
  method ApplyRematchConflict(db: LedgerDb, sources: seq<OrderId>, keep: OrderId, merge: bool) returns (r: Result<bool>)
    requires keep in db.orders && keep !in sources && Distinctly(sources) && forall o | o in sources :: o in db.orders
    modifies db
    ensures r.Ok? <==> Untouched(old(db.Tables()), sources)
    ensures r.Ok? ==> db.Tables() == Rematched(old(db.Tables()), sources, keep, merge)
    ensures r.Err? ==> r.error == ForeignKey && db.Tables() == old(db.Tables())
  {
    var b := db.Tables();
    var deleted := AbsorbOrders(db, sources, keep);
    if !deleted {
      Rollback(db, b);
      return Err(ForeignKey);
    }
    AbsorbAllKeeps(b, sources, keep);
    RaiseKept(db, keep, if merge then AmountsOf(b, sources) else 0);
    r := Ok(true);
  }
}
