/**
 What transfers, reversals and receipt edits keep, over whole runs: cached
 balances stay right, money is conserved, and undoing is exact.
 */
module LedgerRuns {
  import opened Basics
  import opened Sums
  import opened Ledger

  // ---------- the invariant ----------

  /** Each live transfer moved a positive amount and owns a receipt that counts. */
  ghost predicate Linked(b: Book) {
    forall t | t in b.transfers ::
      && GeneratedOk(b, t)
      && 0 < b.transfers[t].amount
      && b.receipts[b.transfers[t].generatedReceiptId.value].status != SigningPending
  }

  ghost predicate Refs(b: Book) {
    OrderRefs(b) && ReceiptRefs(b) && TransferRefs(b) && GeneratedUnique(b)
  }

  ghost predicate Sound(b: Book) {
    Refs(b) && Linked(b) && Coherent(b)
  }

  ghost function TotalBalance(b: Book): int {
    Sum(Balances(b.orders))
  }

  ghost function Outgoing(b: Book, o: OrderId): map<TransferId, int> {
    map t | t in b.transfers && b.transfers[t].fromOrderId == o :: b.transfers[t].amount
  }

  /** The part of an order's amount that no live transfer put there. */
  ghost function Invoiced(b: Book, o: OrderId): int
    requires o in b.orders
  {
    b.orders[o].amount - Sum(Outgoing(b, o))
  }

  // ---------- refreshing ----------

  ghost predicate CoherentExcept(b: Book, stale: set<OrderId>) {
    forall o | o in b.orders && o !in stale :: b.orders[o].orderBalance == Live(b, o)
  }

  lemma RefreshKeeps(b: Book, o: OrderId)
    ensures Refresh(b, o) == b.(orders := Refresh(b, o).orders)
    ensures Refresh(b, o).orders.Keys == b.orders.Keys
    ensures forall p | p in b.orders ::
              Refresh(b, o).orders[p] == if p == o then b.orders[p].(orderBalance := Live(b, p)) else b.orders[p]
  {
  }

  lemma RefreshCoherent(b: Book, stale: set<OrderId>, o: OrderId)
    requires CoherentExcept(b, stale)
    ensures CoherentExcept(Refresh(b, o), stale - {o})
  {
    RefreshKeeps(b, o);
  }

  /** Refreshing the two orders a change touched makes the whole book coherent. */
  lemma RefreshBoth(b: Book, p: OrderId, q: OrderId)
    requires CoherentExcept(b, {p, q})
    ensures var after := Refresh(Refresh(b, p), q);
            && Coherent(after)
            && after == b.(orders := after.orders)
            && after.orders.Keys == b.orders.Keys
            && forall o | o in b.orders :: after.orders[o] == b.orders[o].(orderBalance := Live(b, o))
  {
    RefreshCoherent(b, {p, q}, p);
    RefreshCoherent(Refresh(b, p), {p, q} - {p}, q);
    RefreshKeeps(b, p);
    RefreshKeeps(Refresh(b, p), q);
  }

  /** Links between transfers and receipts do not look at the orders. */
  lemma LinkedFrame(b: Book, c: Book)
    requires c.receipts == b.receipts && c.transfers == b.transfers
    requires Linked(b)
    ensures Linked(c)
  {
    forall t | t in c.transfers
      ensures GeneratedOk(c, t)
    {
      assert GeneratedOk(b, t);
    }
  }

  lemma RefreshSound(b: Book, p: OrderId, q: OrderId)
    requires Refs(b) && Linked(b) && CoherentExcept(b, {p, q})
    ensures Sound(Refresh(Refresh(b, p), q))
  {
    RefreshBoth(b, p, q);
    LinkedFrame(b, Refresh(Refresh(b, p), q));
  }

  // ---------- receipts of an order ----------

  lemma CountedInsert(receipts: map<ReceiptId, Receipt>, r: ReceiptId, row: Receipt, o: OrderId)
    requires r !in receipts
    ensures Sum(Counted(receipts[r := row], o)) ==
            Sum(Counted(receipts, o)) + if row.CountedIn(o) then row.usd else 0
  {
    SumSet(Counted(receipts, o), r, row.usd);
    if row.CountedIn(o) {
      assert Counted(receipts[r := row], o) == Counted(receipts, o)[r := row.usd];
    } else {
      assert Counted(receipts[r := row], o) == Counted(receipts, o);
    }
  }

  lemma CountedRemove(receipts: map<ReceiptId, Receipt>, r: ReceiptId, o: OrderId)
    requires r in receipts
    ensures Sum(Counted(receipts - {r}, o)) ==
            Sum(Counted(receipts, o)) - if receipts[r].CountedIn(o) then receipts[r].usd else 0
  {
    CountedInsert(receipts - {r}, r, receipts[r], o);
    assert (receipts - {r})[r := receipts[r]] == receipts;
  }

  // ---------- one transfer ----------

  lemma PostedLive(b: Book, from: OrderId, to: OrderId, amount: int, r: ReceiptId, t: TransferId, o: OrderId)
    requires Coherent(b) && from in b.orders && r !in b.receipts && o in b.orders
    ensures Live(Posted(b, from, to, amount, r, t), o) == b.orders[o].orderBalance + Shift(o, from, to, amount)
  {
    CountedInsert(b.receipts, r, Receipt(amount, BankTransfer, Some(to), true, false), o);
  }

  /** The order rows after money moved between two orders. */
  ghost predicate Moved(b: Book, after: Book, raised: OrderId, amount: int, up: OrderId, down: OrderId, shift: int) {
    && after.orders.Keys == b.orders.Keys
    && forall o | o in b.orders ::
         && after.orders[o].amount == b.orders[o].amount + (if o == raised then amount else 0)
         && after.orders[o].orderBalance == b.orders[o].orderBalance + Shift(o, up, down, shift)
         && SameLabels(after.orders[o], b.orders[o])
  }

  predicate SameLabels(p: Order, q: Order) {
    p.invoiceId == q.invoiceId && p.orderNo == q.orderNo && p.tracked == q.tracked
  }

  /** Refreshing both orders after one amount was raised and money was moved. */
  lemma RefreshMoves(b: Book, mid: Book, p: OrderId, q: OrderId, raised: OrderId, amount: int, up: OrderId,
                     down: OrderId, shift: int)
    requires mid.orders.Keys == b.orders.Keys && {up, down} == {p, q}
    requires forall o | o in b.orders ::
               && mid.orders[o] == b.orders[o].(amount := b.orders[o].amount + if o == raised then amount else 0)
               && Live(mid, o) == b.orders[o].orderBalance + Shift(o, up, down, shift)
    ensures Coherent(Refresh(Refresh(mid, p), q)) &&
            Moved(b, Refresh(Refresh(mid, p), q), raised, amount, up, down, shift)
  {
    assert forall o | o in mid.orders && o !in {p, q} :: Shift(o, up, down, shift) == 0;
    RefreshBoth(mid, p, q);
  }

  lemma PostedLives(b: Book, from: OrderId, to: OrderId, amount: int, r: ReceiptId, t: TransferId)
    requires Coherent(b) && from in b.orders && to in b.orders && r !in b.receipts
    ensures Posted(b, from, to, amount, r, t).orders.Keys == b.orders.Keys
    ensures forall o | o in b.orders ::
              && Posted(b, from, to, amount, r, t).orders[o] ==
                 b.orders[o].(amount := b.orders[o].amount + if o == from then amount else 0)
              && Live(Posted(b, from, to, amount, r, t), o) == b.orders[o].orderBalance + Shift(o, from, to, amount)
  {
    assert Posted(b, from, to, amount, r, t).orders.Keys == b.orders.Keys;
    forall o | o in b.orders {
      PostedLive(b, from, to, amount, r, t, o);
    }
  }

  /** A transfer raises the amount of its source only, and moves its balance
      up and the target's down by the amount transferred. */
  lemma TransferEffect(b: Book, from: OrderId, to: OrderId, amount: int, r: ReceiptId, t: TransferId)
    requires Coherent(b) && from in b.orders && to in b.orders && r !in b.receipts
    ensures Coherent(AfterTransfer(b, from, to, amount, r, t))
    ensures Moved(b, AfterTransfer(b, from, to, amount, r, t), from, amount, from, to, amount)
  {
    PostedLives(b, from, to, amount, r, t);
    RefreshMoves(b, Posted(b, from, to, amount, r, t), from, to, from, amount, from, to, amount);
  }

  lemma PostedLinked(b: Book, from: OrderId, to: OrderId, amount: int, r: ReceiptId, t: TransferId)
    requires Linked(b) && GeneratedUnique(b) && 0 < amount
    requires from in b.orders && r !in b.receipts && t !in b.transfers
    ensures Linked(Posted(b, from, to, amount, r, t)) && GeneratedUnique(Posted(b, from, to, amount, r, t))
  {
    var posted := Posted(b, from, to, amount, r, t);
    forall u | u in posted.transfers
      ensures GeneratedOk(posted, u)
      ensures 0 < posted.transfers[u].amount
      ensures posted.receipts[posted.transfers[u].generatedReceiptId.value].status != SigningPending
      ensures u != t ==> posted.transfers[u].generatedReceiptId != Some(r)
    {
      if u != t {
        assert u in b.transfers && GeneratedOk(b, u);
      }
    }
  }

  lemma PostedRefs(b: Book, from: OrderId, to: OrderId, amount: int, r: ReceiptId, t: TransferId)
    requires OrderRefs(b) && ReceiptRefs(b) && TransferRefs(b)
    requires from in b.orders && to in b.orders
    ensures var posted := Posted(b, from, to, amount, r, t);
            OrderRefs(posted) && ReceiptRefs(posted) && TransferRefs(posted)
  {
  }

  lemma PostedCoherent(b: Book, from: OrderId, to: OrderId, amount: int, r: ReceiptId, t: TransferId)
    requires Coherent(b) && from in b.orders && to in b.orders && r !in b.receipts
    ensures CoherentExcept(Posted(b, from, to, amount, r, t), {from, to})
  {
    PostedLives(b, from, to, amount, r, t);
  }

  lemma TransferSound(b: Book, from: OrderId, to: OrderId, amount: int, r: ReceiptId, t: TransferId)
    requires Sound(b) && 0 < amount
    requires from in b.orders && to in b.orders && r !in b.receipts && t !in b.transfers
    ensures Sound(AfterTransfer(b, from, to, amount, r, t))
  {
    PostedCoherent(b, from, to, amount, r, t);
    PostedLinked(b, from, to, amount, r, t);
    PostedRefs(b, from, to, amount, r, t);
    RefreshSound(Posted(b, from, to, amount, r, t), from, to);
  }

  // ---------- one reversal ----------

  lemma UndoneLive(b: Book, t: TransferId, o: OrderId)
    requires Coherent(b) && Linked(b) && t in b.transfers
    requires b.transfers[t].fromOrderId in b.orders && o in b.orders
    ensures Live(Undone(b, t), o) == b.orders[o].orderBalance +
              Shift(o, b.transfers[t].toOrderId, b.transfers[t].fromOrderId, b.transfers[t].amount)
  {
    assert GeneratedOk(b, t);
    CountedRemove(b.receipts, b.transfers[t].generatedReceiptId.value, o);
  }

  lemma UndoneLinked(b: Book, t: TransferId)
    requires Linked(b) && GeneratedUnique(b) && t in b.transfers
    requires b.transfers[t].fromOrderId in b.orders
    ensures Linked(Undone(b, t)) && GeneratedUnique(Undone(b, t))
  {
    var undone := Undone(b, t);
    forall u | u in undone.transfers
      ensures GeneratedOk(undone, u)
    {
      assert GeneratedOk(b, u) && GeneratedOk(b, t);
      assert b.transfers[u].generatedReceiptId != b.transfers[t].generatedReceiptId;
    }
  }

  lemma UndoneRefs(b: Book, t: TransferId)
    requires Refs(b) && Linked(b) && t in b.transfers
    ensures var undone := Undone(b, t);
            OrderRefs(undone) && ReceiptRefs(undone) && TransferRefs(undone)
  {
    assert GeneratedOk(b, t);
  }

  lemma UndoneLives(b: Book, t: TransferId)
    requires Coherent(b) && Linked(b) && t in b.transfers
    requires b.transfers[t].fromOrderId in b.orders
    ensures var row := b.transfers[t];
            GeneratedOk(b, t) && Undone(b, t).orders.Keys == b.orders.Keys &&
            forall o | o in b.orders ::
              && Undone(b, t).orders[o] ==
                 b.orders[o].(amount := b.orders[o].amount + if o == row.fromOrderId then -row.amount else 0)
              && Live(Undone(b, t), o) ==
                   b.orders[o].orderBalance + Shift(o, row.toOrderId, row.fromOrderId, row.amount)
  {
    assert GeneratedOk(b, t);
    forall o | o in b.orders {
      UndoneLive(b, t, o);
    }
  }

  /** A reversal takes the same amounts back. */
  lemma ReversalEffect(b: Book, t: TransferId)
    requires Coherent(b) && Linked(b) && t in b.transfers
    requires b.transfers[t].fromOrderId in b.orders && b.transfers[t].toOrderId in b.orders
    ensures GeneratedOk(b, t) && Coherent(AfterReversal(b, t))
    ensures var row := b.transfers[t];
            Moved(b, AfterReversal(b, t), row.fromOrderId, -row.amount, row.toOrderId, row.fromOrderId, row.amount)
  {
    var row := b.transfers[t];
    UndoneLives(b, t);
    RefreshMoves(b, Undone(b, t), row.fromOrderId, row.toOrderId, row.fromOrderId, -row.amount,
                 row.toOrderId, row.fromOrderId, row.amount);
  }

  lemma UndoneCoherent(b: Book, t: TransferId)
    requires Coherent(b) && Linked(b) && t in b.transfers && b.transfers[t].fromOrderId in b.orders
    ensures GeneratedOk(b, t)
    ensures CoherentExcept(Undone(b, t), {b.transfers[t].fromOrderId, b.transfers[t].toOrderId})
  {
    UndoneLives(b, t);
  }

  lemma ReversalSound(b: Book, t: TransferId)
    requires Sound(b) && t in b.transfers
    ensures GeneratedOk(b, t) && Sound(AfterReversal(b, t))
  {
    UndoneCoherent(b, t);
    UndoneLinked(b, t);
    UndoneRefs(b, t);
    RefreshSound(Undone(b, t), b.transfers[t].fromOrderId, b.transfers[t].toOrderId);
  }

  /** A change of two balances only touches the orders table. */
  lemma RefreshTwiceTables(b: Book, p: OrderId, q: OrderId)
    ensures Refresh(Refresh(b, p), q) == b.(orders := Refresh(Refresh(b, p), q).orders)
  {
    RefreshKeeps(b, p);
    RefreshKeeps(Refresh(b, p), q);
  }

  /** What a transfer leaves in the tables besides the orders. */
  lemma TransferTables(b: Book, from: OrderId, to: OrderId, amount: int, r: ReceiptId, t: TransferId)
    requires from in b.orders && to in b.orders
    ensures var after := AfterTransfer(b, from, to, amount, r, t);
            && after.transfers == b.transfers[t := BalanceTransfer(from, to, Some(r), amount)]
            && after.receipts == b.receipts[r := Receipt(amount, BankTransfer, Some(to), true, false)]
            && after.invoices == b.invoices && after.aliases == b.aliases
            && from in after.orders && to in after.orders
  {
    RefreshTwiceTables(Posted(b, from, to, amount, r, t), from, to);
    RefreshKeeps(Posted(b, from, to, amount, r, t), from);
    RefreshKeeps(Refresh(Posted(b, from, to, amount, r, t), from), to);
  }

  /** After a transfer its row can be reversed. */
  lemma TransferLinked(b: Book, from: OrderId, to: OrderId, amount: int, r: ReceiptId, t: TransferId)
    requires Linked(b) && GeneratedUnique(b) && 0 < amount
    requires from in b.orders && to in b.orders && r !in b.receipts && t !in b.transfers
    ensures Linked(AfterTransfer(b, from, to, amount, r, t)) && GeneratedOk(AfterTransfer(b, from, to, amount, r, t), t)
  {
    TransferTables(b, from, to, amount, r, t);
    PostedLinked(b, from, to, amount, r, t);
    LinkedFrame(Posted(b, from, to, amount, r, t), AfterTransfer(b, from, to, amount, r, t));
  }

  lemma ReversalTables(b: Book, t: TransferId)
    requires t in b.transfers && b.transfers[t].generatedReceiptId.Some?
    requires b.transfers[t].fromOrderId in b.orders
    ensures var after := AfterReversal(b, t);
            && after.transfers == b.transfers - {t}
            && after.receipts == b.receipts - {b.transfers[t].generatedReceiptId.value}
            && after.invoices == b.invoices && after.aliases == b.aliases
  {
    RefreshTwiceTables(Undone(b, t), b.transfers[t].fromOrderId, b.transfers[t].toOrderId);
  }

  /** Reversing a transfer right after posting it gives back the very same book. */
  lemma ReversalUndoesTransfer(b: Book, from: OrderId, to: OrderId, amount: int, r: ReceiptId, t: TransferId)
    requires Coherent(b) && Linked(b) && GeneratedUnique(b) && 0 < amount
    requires from in b.orders && to in b.orders && r !in b.receipts && t !in b.transfers
    ensures var after := AfterTransfer(b, from, to, amount, r, t);
            && t in after.transfers && after.transfers[t] == BalanceTransfer(from, to, Some(r), amount)
            && from in after.orders
            && AfterReversal(after, t) == b
  {
    var after := AfterTransfer(b, from, to, amount, r, t);
    TransferEffect(b, from, to, amount, r, t);
    TransferTables(b, from, to, amount, r, t);
    TransferLinked(b, from, to, amount, r, t);
    ReversalEffect(after, t);
    ReversalTables(after, t);
    SameOrders(b, after, AfterReversal(after, t), from, amount, from, to, amount);
    AddRemove(b.receipts, r, after.receipts[r]);
    AddRemove(b.transfers, t, after.transfers[t]);
  }

  lemma AddRemove<K, V>(m: map<K, V>, k: K, v: V)
    requires k !in m
    ensures m[k := v] - {k} == m
  {
  }

  lemma SameOrders(b: Book, mid: Book, after: Book, raised: OrderId, amount: int, up: OrderId, down: OrderId,
                   shift: int)
    requires Moved(b, mid, raised, amount, up, down, shift)
    requires Moved(mid, after, raised, -amount, down, up, shift)
    ensures after.orders == b.orders
  {
    forall o | o in b.orders
      ensures after.orders[o] == b.orders[o]
    {
      assert SameLabels(mid.orders[o], b.orders[o]) && SameLabels(after.orders[o], mid.orders[o]);
    }
  }

  // ---------- conservation ----------

  lemma MovedKeepsTotal(b: Book, after: Book, raised: OrderId, amount: int, up: OrderId, down: OrderId, shift: int)
    requires up in b.orders && down in b.orders
    requires Moved(b, after, raised, amount, up, down, shift)
    ensures TotalBalance(after) == TotalBalance(b)
  {
    SumShift(Balances(b.orders), Balances(after.orders), up, down, shift);
  }

  // ---------- steps and runs ----------

  datatype Op =
    | Transfer(from: OrderId, to: OrderId, amount: int, r: ReceiptId, t: TransferId)
    | TransferToNew(from: OrderId, pool: InvoiceId, order: OrderId, orderNo: string, aliasNos: set<string>,
                    amount: int, r: ReceiptId, t: TransferId)
    | Reverse(t: TransferId, expected: ReceiptId, actor: Actor)

  /** A refused transaction leaves the book as it was. */
  ghost function Step(b: Book, op: Op): Book
    requires TransferRefs(b)
  {
    match op
    case Transfer(from, to, amount, r, t) =>
      if CanTransfer(b, from, amount) && to in b.orders && r !in b.receipts && t !in b.transfers
      then AfterTransfer(b, from, to, amount, r, t)
      else b
    case TransferToNew(from, pool, order, orderNo, aliasNos, amount, r, t) =>
      if CanTransfer(b, from, amount) && order !in b.orders && PoolFor(b.invoices, pool, pool) &&
         r !in b.receipts && t !in b.transfers
      then AfterTransfer(AfterNewTarget(b, pool, order, orderNo, aliasNos), from, order, amount, r, t)
      else b
    case Reverse(t, expected, actor) =>
      match Reversed(b, t, expected, actor, false)
      case Ok(after) => after
      case Err(_) => b
  }

  lemma NewTargetCoherent(b: Book, pool: InvoiceId, order: OrderId, orderNo: string, aliasNos: set<string>)
    requires Coherent(b) && ReceiptRefs(b) && order !in b.orders
    ensures Coherent(AfterNewTarget(b, pool, order, orderNo, aliasNos))
  {
    var after := AfterNewTarget(b, pool, order, orderNo, aliasNos);
    assert Counted(b.receipts, order) == map[];
    assert Live(after, order) == 0;
    forall o | o in b.orders && o != order
      ensures after.orders[o].orderBalance == Live(after, o)
    {
      assert after.orders[o] == b.orders[o];
    }
  }

  lemma NewTargetTotal(b: Book, pool: InvoiceId, order: OrderId, orderNo: string, aliasNos: set<string>)
    requires order !in b.orders
    ensures TotalBalance(AfterNewTarget(b, pool, order, orderNo, aliasNos)) == TotalBalance(b)
  {
    BalancesInsert(b.orders, order, Order(pool, orderNo, 0, 0, false));
    SumSet(Balances(b.orders), order, 0);
  }

  lemma BalancesInsert(orders: map<OrderId, Order>, o: OrderId, row: Order)
    ensures Balances(orders[o := row]) == Balances(orders)[o := row.orderBalance]
  {
  }

  lemma NewTargetRefs(b: Book, pool: InvoiceId, order: OrderId, orderNo: string, aliasNos: set<string>)
    requires Refs(b) && order !in b.orders
    ensures Refs(AfterNewTarget(b, pool, order, orderNo, aliasNos))
  {
    var after := AfterNewTarget(b, pool, order, orderNo, aliasNos);
    assert b.orders.Keys <= after.orders.Keys && after.receipts == b.receipts && after.transfers == b.transfers;
  }

  lemma NewTargetSound(b: Book, pool: InvoiceId, order: OrderId, orderNo: string, aliasNos: set<string>)
    requires Sound(b) && order !in b.orders
    ensures var after := AfterNewTarget(b, pool, order, orderNo, aliasNos);
            Sound(after) && TotalBalance(after) == TotalBalance(b)
  {
    NewTargetCoherent(b, pool, order, orderNo, aliasNos);
    NewTargetTotal(b, pool, order, orderNo, aliasNos);
    NewTargetRefs(b, pool, order, orderNo, aliasNos);
    LinkedFrame(b, AfterNewTarget(b, pool, order, orderNo, aliasNos));
  }

  lemma CleanupTotal(b: Book, o: OrderId)
    requires Coherent(b)
    ensures TotalBalance(AfterCleanup(b, o)) == TotalBalance(b)
  {
    if EmptyPoolOrder(b, o) {
      SumRemove(Balances(b.orders), o);
      assert Balances(AfterCleanup(b, o).orders) == Balances(b.orders) - {o};
    }
  }

  lemma CleanupCoherent(b: Book, o: OrderId)
    requires Coherent(b)
    ensures Coherent(AfterCleanup(b, o))
  {
    var after := AfterCleanup(b, o);
    forall p | p in after.orders
      ensures after.orders[p].orderBalance == Live(after, p)
    {
      assert Live(after, p) == Live(b, p);
    }
  }

  lemma CleanupRefs(b: Book, o: OrderId)
    requires Refs(b)
    ensures Refs(AfterCleanup(b, o))
    ensures AfterCleanup(b, o).receipts == b.receipts && AfterCleanup(b, o).transfers == b.transfers
  {
  }

  lemma CleanupSound(b: Book, o: OrderId)
    requires Sound(b)
    ensures Sound(AfterCleanup(b, o)) && TotalBalance(AfterCleanup(b, o)) == TotalBalance(b)
  {
    CleanupTotal(b, o);
    CleanupCoherent(b, o);
    CleanupRefs(b, o);
    LinkedFrame(b, AfterCleanup(b, o));
  }

  /** Every step keeps the cached balances right and the sum of all balances. */
  lemma StepSound(b: Book, op: Op)
    requires Sound(b)
    ensures Sound(Step(b, op)) && TotalBalance(Step(b, op)) == TotalBalance(b)
  {
    match op
    case Transfer(from, to, amount, r, t) =>
      if Step(b, op) != b {
        TransferSound(b, from, to, amount, r, t);
        TransferEffect(b, from, to, amount, r, t);
        MovedKeepsTotal(b, Step(b, op), from, amount, from, to, amount);
      }
    case TransferToNew(from, pool, order, orderNo, aliasNos, amount, r, t) =>
      if Step(b, op) != b {
        var c := AfterNewTarget(b, pool, order, orderNo, aliasNos);
        NewTargetSound(b, pool, order, orderNo, aliasNos);
        TransferSound(c, from, order, amount, r, t);
        TransferEffect(c, from, order, amount, r, t);
        MovedKeepsTotal(c, Step(b, op), from, amount, from, order, amount);
      }
    case Reverse(t, expected, actor) =>
      if ReversalRefusal(b, t, expected, actor).None? {
        var row := b.transfers[t];
        ReversalEffect(b, t);
        ReversalSound(b, t);
        MovedKeepsTotal(b, AfterReversal(b, t), row.fromOrderId, -row.amount, row.toOrderId,
                        row.fromOrderId, row.amount);
        CleanupSound(AfterReversal(b, t), row.fromOrderId);
      }
  }
}
