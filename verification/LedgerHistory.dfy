/**
 Runs of transfers and reversals in any interleaving, and receipt edits that
 undo a transfer: how the ledger at the end relates to the one at the start.
 */
module LedgerHistory {
  import opened Basics
  import opened Sums
  import opened Ledger
  import opened LedgerRuns

  // ---------- what a run cannot change ----------

  ghost function Generated(b: Book): set<ReceiptId> {
    set t | t in b.transfers && b.transfers[t].generatedReceiptId.Some? :: b.transfers[t].generatedReceiptId.value
  }

  /** The receipts no transfer generated. */
  ghost function Core(b: Book): map<ReceiptId, Receipt> {
    b.receipts - Generated(b)
  }

  ghost function InvoicedOrZero(b: Book, o: OrderId): int {
    if o in b.orders then Invoiced(b, o) else 0
  }

  ghost function AmountOrZero(b: Book, o: OrderId): int {
    if o in b.orders then b.orders[o].amount else 0
  }

  ghost function BalanceOrZero(b: Book, o: OrderId): int {
    if o in b.orders then b.orders[o].orderBalance else 0
  }

  /** Same invoiced amounts, same receipts of its own: `b` came from `base`
      by transfers and reversals.  An order that is gone counts as empty. */
  ghost predicate Descends(base: Book, b: Book) {
    && Core(b) == Core(base)
    && forall o: OrderId :: InvoicedOrZero(b, o) == InvoicedOrZero(base, o)
  }

  lemma OutgoingInsert(b: Book, c: Book, t: TransferId, row: BalanceTransfer, o: OrderId)
    requires t !in b.transfers && c.transfers == b.transfers[t := row]
    ensures Sum(Outgoing(c, o)) == Sum(Outgoing(b, o)) + if row.fromOrderId == o then row.amount else 0
  {
    SumSet(Outgoing(b, o), t, row.amount);
    if row.fromOrderId == o {
      assert Outgoing(c, o) == Outgoing(b, o)[t := row.amount];
    } else {
      assert Outgoing(c, o) == Outgoing(b, o);
    }
  }

  lemma GeneratedInsert(b: Book, c: Book, t: TransferId, row: BalanceTransfer, r: ReceiptId)
    requires t !in b.transfers && row.generatedReceiptId == Some(r) && c.transfers == b.transfers[t := row]
    ensures Generated(c) == Generated(b) + {r}
  {
    assert c.transfers[t] == row;
    forall u | u in b.transfers
      ensures u in c.transfers && c.transfers[u] == b.transfers[u]
    {
    }
  }

  lemma TransferCore(b: Book, from: OrderId, to: OrderId, amount: int, r: ReceiptId, t: TransferId)
    requires from in b.orders && to in b.orders && r !in b.receipts && t !in b.transfers
    ensures Core(AfterTransfer(b, from, to, amount, r, t)) == Core(b)
  {
    TransferTables(b, from, to, amount, r, t);
    GeneratedInsert(b, AfterTransfer(b, from, to, amount, r, t), t, BalanceTransfer(from, to, Some(r), amount), r);
  }

  /** A transfer keeps what no run can change. */
  lemma TransferDescends(b: Book, from: OrderId, to: OrderId, amount: int, r: ReceiptId, t: TransferId)
    requires Coherent(b) && from in b.orders && to in b.orders && r !in b.receipts && t !in b.transfers
    ensures Descends(b, AfterTransfer(b, from, to, amount, r, t))
  {
    var after := AfterTransfer(b, from, to, amount, r, t);
    TransferCore(b, from, to, amount, r, t);
    TransferTables(b, from, to, amount, r, t);
    TransferEffect(b, from, to, amount, r, t);
    forall o: OrderId
      ensures InvoicedOrZero(after, o) == InvoicedOrZero(b, o)
    {
      OutgoingInsert(b, after, t, BalanceTransfer(from, to, Some(r), amount), o);
    }
  }

  lemma ReversalCore(b: Book, after: Book, t: TransferId)
    requires GeneratedUnique(b) && t in b.transfers && GeneratedOk(b, t)
    requires after.transfers == b.transfers - {t} &&
             after.receipts == b.receipts - {b.transfers[t].generatedReceiptId.value}
    ensures Core(after) == Core(b)
  {
    var row := b.transfers[t];
    assert b.transfers == after.transfers[t := row];
    GeneratedInsert(after, b, t, row, row.generatedReceiptId.value);
    assert row.generatedReceiptId.value !in Generated(after);
  }

  lemma ReversalDescends(b: Book, t: TransferId)
    requires Coherent(b) && Linked(b) && GeneratedUnique(b) && t in b.transfers
    requires b.transfers[t].fromOrderId in b.orders && b.transfers[t].toOrderId in b.orders
    ensures GeneratedOk(b, t) && Descends(b, AfterReversal(b, t))
  {
    ReversalEffect(b, t);
    ReversalTables(b, t);
    TakenBackDescends(b, AfterReversal(b, t), t);
  }

  lemma TakenBackDescends(b: Book, after: Book, t: TransferId)
    requires GeneratedUnique(b) && t in b.transfers && GeneratedOk(b, t) && b.transfers[t].fromOrderId in b.orders
    requires after.transfers == b.transfers - {t} &&
             after.receipts == b.receipts - {b.transfers[t].generatedReceiptId.value}
    requires Moved(b, after, b.transfers[t].fromOrderId, -b.transfers[t].amount, b.transfers[t].toOrderId,
                   b.transfers[t].fromOrderId, b.transfers[t].amount)
    ensures Descends(b, after)
  {
    ReversalCore(b, after, t);
    assert b.transfers == after.transfers[t := b.transfers[t]];
    ReversalInvoiced(b, after, t, b.transfers[t]);
  }

  lemma ReversalInvoiced(b: Book, after: Book, t: TransferId, row: BalanceTransfer)
    requires t !in after.transfers && b.transfers == after.transfers[t := row]
    requires Moved(b, after, row.fromOrderId, -row.amount, row.toOrderId, row.fromOrderId, row.amount) &&
             row.fromOrderId in b.orders
    ensures forall o: OrderId :: InvoicedOrZero(after, o) == InvoicedOrZero(b, o)
  {
    forall o: OrderId
      ensures InvoicedOrZero(after, o) == InvoicedOrZero(b, o)
    {
      OutgoingInsert(after, b, t, row, o);
    }
  }

  lemma NewTargetDescends(b: Book, pool: InvoiceId, order: OrderId, orderNo: string, aliasNos: set<string>)
    requires TransferRefs(b) && order !in b.orders
    ensures Descends(b, AfterNewTarget(b, pool, order, orderNo, aliasNos))
  {
    var after := AfterNewTarget(b, pool, order, orderNo, aliasNos);
    assert Outgoing(after, order) == map[];
    forall o: OrderId
      ensures InvoicedOrZero(after, o) == InvoicedOrZero(b, o)
    {
      assert Outgoing(after, o) == Outgoing(b, o);
    }
  }

  lemma CleanupDescends(b: Book, o: OrderId)
    ensures Descends(b, AfterCleanup(b, o))
  {
    var after := AfterCleanup(b, o);
    if EmptyPoolOrder(b, o) {
      assert Outgoing(b, o) == map[];
      forall p: OrderId
        ensures InvoicedOrZero(after, p) == InvoicedOrZero(b, p)
      {
        assert Outgoing(after, p) == Outgoing(b, p);
      }
    }
  }

  lemma DescendsTrans(a: Book, b: Book, c: Book)
    requires Descends(a, b) && Descends(b, c)
    ensures Descends(a, c)
  {
  }

  lemma StepDescends(b: Book, op: Op)
    requires Sound(b)
    ensures Descends(b, Step(b, op))
  {
    match op
    case Transfer(from, to, amount, r, t) =>
      if Step(b, op) != b {
        TransferDescends(b, from, to, amount, r, t);
      }
    case TransferToNew(from, pool, order, orderNo, aliasNos, amount, r, t) =>
      if Step(b, op) != b {
        var c := AfterNewTarget(b, pool, order, orderNo, aliasNos);
        NewTargetSound(b, pool, order, orderNo, aliasNos);
        NewTargetDescends(b, pool, order, orderNo, aliasNos);
        TransferDescends(c, from, order, amount, r, t);
        DescendsTrans(b, c, Step(b, op));
      }
    case Reverse(t, expected, actor) =>
      if ReversalRefusal(b, t, expected, actor).None? {
        ReversalDescends(b, t);
        CleanupDescends(AfterReversal(b, t), b.transfers[t].fromOrderId);
        DescendsTrans(b, AfterReversal(b, t), Step(b, op));
      }
  }

  // ---------- runs ----------

  ghost function Run(b: Book, ops: seq<Op>): Book
    requires Sound(b)
    decreases |ops|
  {
    if ops == [] then b
    else
      StepSound(b, ops[0]);
      Run(Step(b, ops[0]), ops[1..])
  }

  /** Any interleaving of transfers and reversals keeps every cached balance
      right, the sum of all balances, and each order's invoiced amount. */
  lemma {:induction false} RunKeeps(b: Book, ops: seq<Op>)
    requires Sound(b)
    ensures Sound(Run(b, ops))
    ensures TotalBalance(Run(b, ops)) == TotalBalance(b)
    ensures Descends(b, Run(b, ops))
    decreases |ops|
  {
    if ops != [] {
      StepSound(b, ops[0]);
      StepDescends(b, ops[0]);
      RunKeeps(Step(b, ops[0]), ops[1..]);
      DescendsTrans(b, Step(b, ops[0]), Run(b, ops));
    }
  }

  /** Amounts never go negative, and an order always holds enough to take back
      each of its live transfers: the negative-amount refusal cannot happen. */
  lemma NeverNegative(base: Book, ops: seq<Op>, o: OrderId)
    requires Sound(base) && forall p | p in base.orders :: 0 <= Invoiced(base, p)
    requires o in Run(base, ops).orders
    ensures 0 <= Run(base, ops).orders[o].amount
    ensures forall t | t in Run(base, ops).transfers && Run(base, ops).transfers[t].fromOrderId == o ::
              Run(base, ops).transfers[t].amount <= Run(base, ops).orders[o].amount
  {
    RunKeeps(base, ops);
    CoversTransfers(base, Run(base, ops), o);
  }

  lemma CoversTransfers(base: Book, b: Book, o: OrderId)
    requires Linked(b) && Descends(base, b) && forall p | p in base.orders :: 0 <= Invoiced(base, p)
    requires o in b.orders
    ensures 0 <= b.orders[o].amount
    ensures forall t | t in b.transfers && b.transfers[t].fromOrderId == o ::
              b.transfers[t].amount <= b.orders[o].amount
  {
    assert 0 <= InvoicedOrZero(base, o) == InvoicedOrZero(b, o);
    SumNonNegative(Outgoing(b, o));
    forall t | t in b.transfers && b.transfers[t].fromOrderId == o
      ensures b.transfers[t].amount <= b.orders[o].amount
    {
      SumRemove(Outgoing(b, o), t);
      SumNonNegative(Outgoing(b, o) - {t});
    }
  }

  // ---------- restoring ----------

  lemma SameCounted(base: Book, b: Book, o: OrderId)
    requires Linked(base) && Linked(b) && Core(b) == Core(base) && b.transfers == base.transfers
    ensures Counted(b.receipts, o) == Counted(base.receipts, o)
  {
    CountedWithin(base, b, o);
    CountedWithin(b, base, o);
  }

  lemma CountedWithin(base: Book, b: Book, o: OrderId)
    requires Linked(base) && Linked(b) && Core(b) == Core(base) && b.transfers == base.transfers
    ensures forall r | r in Counted(b.receipts, o) ::
              r in Counted(base.receipts, o) && Counted(base.receipts, o)[r] == Counted(b.receipts, o)[r]
  {
    forall r | r in Counted(b.receipts, o)
      ensures r in Counted(base.receipts, o) && Counted(base.receipts, o)[r] == Counted(b.receipts, o)[r]
    {
      if r in Generated(b) {
        var t :| t in b.transfers && b.transfers[t].generatedReceiptId == Some(r);
        assert GeneratedOk(b, t) && GeneratedOk(base, t);
      } else {
        assert Core(b)[r] == Core(base)[r];
      }
    }
  }

  lemma SameTransfersSameAmount(base: Book, b: Book, o: OrderId)
    requires TransferRefs(base) && TransferRefs(b) && Descends(base, b) && b.transfers == base.transfers
    ensures AmountOrZero(b, o) == AmountOrZero(base, o)
  {
    assert InvoicedOrZero(b, o) == InvoicedOrZero(base, o);
    assert Outgoing(b, o) == Outgoing(base, o);
    assert o !in b.orders || o !in base.orders ==> Outgoing(b, o) == map[];
  }

  /** Once the live transfers are again those of the start, every amount and
      every balance is again what it was; an order removed meanwhile was empty. */
  lemma SameTransfersSameLedger(base: Book, b: Book, o: OrderId)
    requires Sound(base) && Sound(b) && Descends(base, b) && b.transfers == base.transfers
    ensures AmountOrZero(b, o) == AmountOrZero(base, o)
    ensures BalanceOrZero(b, o) == BalanceOrZero(base, o)
  {
    SameTransfersSameAmount(base, b, o);
    SameCounted(base, b, o);
    BalanceIs(base, o);
    BalanceIs(b, o);
  }

  /** In a sound book the balance is amount less receipts, also of a missing order. */
  lemma BalanceIs(b: Book, o: OrderId)
    requires Coherent(b) && ReceiptRefs(b)
    ensures BalanceOrZero(b, o) == AmountOrZero(b, o) - Sum(Counted(b.receipts, o))
  {
    if o !in b.orders {
      assert Counted(b.receipts, o) == map[];
    }
  }

  /** No live transfer is left and all money is where it was in `base`. */
  ghost predicate Restored(base: Book, end: Book) {
    && end.transfers == map[]
    && end.receipts == base.receipts
    && forall o: OrderId ::
         AmountOrZero(end, o) == AmountOrZero(base, o) && BalanceOrZero(end, o) == BalanceOrZero(base, o)
  }

  /** The administrator's reversal of a live transfer. */
  function ReversalOf(transfers: map<TransferId, BalanceTransfer>, t: TransferId): Op {
    var known := t in transfers && transfers[t].generatedReceiptId.Some?;
    Reverse(t, if known then transfers[t].generatedReceiptId.value else 0, ADMIN)
  }

  function Reversals(transfers: map<TransferId, BalanceTransfer>, order: seq<TransferId>): (ops: seq<Op>)
    ensures |ops| == |order|
  {
    if order == [] then [] else [ReversalOf(transfers, order[0])] + Reversals(transfers, order[1..])
  }

  lemma {:induction false} ReversalsOfRest(transfers: map<TransferId, BalanceTransfer>, gone: TransferId,
                                           order: seq<TransferId>)
    requires gone !in order
    ensures Reversals(transfers - {gone}, order) == Reversals(transfers, order)
  {
    if order != [] {
      ReversalsOfRest(transfers, gone, order[1..]);
      assert order[0] != gone;
    }
  }

  /** Lists each live transfer exactly once. */
  ghost predicate Lists(order: seq<TransferId>, b: Book) {
    && (forall i, j | 0 <= i < j < |order| :: order[i] != order[j])
    && (forall t :: t in order <==> t in b.transfers)
  }

  ghost predicate Unreferenced(b: Book) {
    forall r | r in Generated(b) && r in b.receipts :: !b.receipts[r].referenced
  }

  /** An administrator's reversal of a live transfer goes through. */
  lemma ReverseGoesThrough(base: Book, b: Book, t: TransferId)
    requires Sound(b) && Descends(base, b) && forall p | p in base.orders :: 0 <= Invoiced(base, p)
    requires t in b.transfers && Unreferenced(b)
    ensures GeneratedOk(b, t)
    ensures var op := Reverse(t, b.transfers[t].generatedReceiptId.value, ADMIN);
            var after := Step(b, op);
            && after.transfers == b.transfers - {t}
            && after.receipts == b.receipts - {b.transfers[t].generatedReceiptId.value}
  {
    CoversTransfers(base, b, b.transfers[t].fromOrderId);
    UnreferencedNotRefused(b, t);
    StepOfReversal(b, t);
  }

  lemma UnreferencedNotRefused(b: Book, t: TransferId)
    requires TransferRefs(b) && Linked(b) && t in b.transfers && Unreferenced(b)
    requires b.transfers[t].amount <= b.orders[b.transfers[t].fromOrderId].amount
    ensures GeneratedOk(b, t) && ReversalRefusal(b, t, b.transfers[t].generatedReceiptId.value, ADMIN).None?
  {
    assert GeneratedOk(b, t);
    assert b.transfers[t].generatedReceiptId.value in Generated(b);
  }

  lemma StepOfReversal(b: Book, t: TransferId)
    requires TransferRefs(b) && t in b.transfers && GeneratedOk(b, t)
    requires ReversalRefusal(b, t, b.transfers[t].generatedReceiptId.value, ADMIN).None?
    ensures var after := Step(b, Reverse(t, b.transfers[t].generatedReceiptId.value, ADMIN));
            && after.transfers == b.transfers - {t}
            && after.receipts == b.receipts - {b.transfers[t].generatedReceiptId.value}
  {
    ReversalTables(b, t);
  }

  lemma ListsTail(b: Book, after: Book, order: seq<TransferId>)
    requires Lists(order, b) && order != [] && after.transfers == b.transfers - {order[0]}
    ensures Lists(order[1..], after)
  {
    forall t
      ensures t in order[1..] <==> t in after.transfers
    {
      assert t in order <==> t == order[0] || t in order[1..];
    }
  }

  /** Reversing all live transfers, in whatever order, brings back the ledger
      the run of transfers started from: receipts, amounts and balances. */
  lemma {:induction false} ReverseAllRestores(base: Book, b: Book, order: seq<TransferId>)
    requires Sound(base) && base.transfers == map[] && forall p | p in base.orders :: 0 <= Invoiced(base, p)
    requires Sound(b) && Descends(base, b) && Unreferenced(b)
    requires Lists(order, b)
    ensures Restored(base, Run(b, Reversals(b.transfers, order)))
    decreases |order|
  {
    if order == [] {
      NothingLive(base, b);
    } else {
      var after := Step(b, ReversalOf(b.transfers, order[0]));
      ReverseFirst(base, b, order);
      ReverseAllRestores(base, after, order[1..]);
      RunOfRest(b, after, order);
    }
  }

  lemma RunOfRest(b: Book, after: Book, order: seq<TransferId>)
    requires Sound(b) && Sound(after) && order != [] && order[0] !in order[1..] &&
             after.transfers == b.transfers - {order[0]}
    requires after == Step(b, ReversalOf(b.transfers, order[0]))
    ensures Run(b, Reversals(b.transfers, order)) == Run(after, Reversals(after.transfers, order[1..]))
  {
    ReversalsOfRest(b.transfers, order[0], order[1..]);
    RunTail(b, Reversals(b.transfers, order));
  }

  lemma RunTail(b: Book, ops: seq<Op>)
    requires Sound(b) && ops != []
    ensures Sound(Step(b, ops[0])) && Run(b, ops) == Run(Step(b, ops[0]), ops[1..])
  {
    StepSound(b, ops[0]);
  }

  lemma NothingLive(base: Book, b: Book)
    requires Sound(base) && base.transfers == map[] && Sound(b) && Descends(base, b) && b.transfers.Keys == {}
    ensures Restored(base, b)
  {
    assert Generated(b) == {} && Generated(base) == {};
    assert Core(b) == b.receipts && Core(base) == base.receipts;
    forall o: OrderId {
      SameTransfersSameLedger(base, b, o);
    }
  }

  lemma ReverseFirst(base: Book, b: Book, order: seq<TransferId>)
    requires Sound(base) && forall p | p in base.orders :: 0 <= Invoiced(base, p)
    requires Sound(b) && Descends(base, b) && Unreferenced(b) && Lists(order, b) && order != []
    ensures var after := Step(b, ReversalOf(b.transfers, order[0]));
            && Sound(after) && Descends(base, after) && Unreferenced(after) && Lists(order[1..], after)
            && after.transfers == b.transfers - {order[0]}
  {
    var op := ReversalOf(b.transfers, order[0]);
    ReverseGoesThrough(base, b, order[0]);
    StepSound(b, op);
    StepDescends(b, op);
    DescendsTrans(base, b, Step(b, op));
    ListsTail(b, Step(b, op), order);
    StillUnreferenced(b, Step(b, op), order[0]);
  }

  lemma StillUnreferenced(b: Book, after: Book, t: TransferId)
    requires Unreferenced(b) && t in b.transfers && b.transfers[t].generatedReceiptId.Some?
    requires after.transfers == b.transfers - {t}
    requires after.receipts == b.receipts - {b.transfers[t].generatedReceiptId.value}
    ensures Unreferenced(after)
  {
    assert Generated(after) <= Generated(b);
  }
}
