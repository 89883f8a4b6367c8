/**
 Receipt edits: they keep every cached balance right, and re-binding a receipt
 whose money had already been transferred equals re-binding it in the first place.
 */
module LedgerEdits {
  import opened Basics
  import opened Sums
  import opened Ledger
  import opened LedgerRuns
  import opened LedgerHistory

  // ---------- re-binding one receipt ----------

  lemma ReboundOthers(b: Book, r: ReceiptId, next: Option<OrderId>, o: OrderId)
    requires r in b.receipts && b.receipts[r].orderId != Some(o) && next != Some(o)
    ensures Counted(b.receipts[r := EditedReceipt(b.receipts[r], next)], o) == Counted(b.receipts, o)
  {
  }

  /** Both orders a receipt leaves and enters get their balance refreshed. */
  lemma ReboundCoherent(b: Book, r: ReceiptId, next: Option<OrderId>)
    requires Coherent(b) && r in b.receipts
    ensures Coherent(Rebound(b, r, next))
  {
    var current := b.receipts[r].orderId;
    var moved := b.(receipts := b.receipts[r := EditedReceipt(b.receipts[r], next)]);
    if current == next {
      forall o | o in b.orders
        ensures Live(moved, o) == Live(b, o)
      {
        assert Counted(moved.receipts, o) == Counted(b.receipts, o);
      }
    } else {
      var stale := (if current.Some? then {current.value} else {}) + (if next.Some? then {next.value} else {});
      forall o | o in b.orders && o !in stale
        ensures moved.orders[o].orderBalance == Live(moved, o)
      {
        ReboundOthers(b, r, next, o);
      }
      if current.Some? {
        RefreshCoherent(moved, stale, current.value);
      }
      var first := if current.Some? then Refresh(moved, current.value) else moved;
      if next.Some? {
        RefreshCoherent(first, if current.Some? then stale - {current.value} else stale, next.value);
      }
    }
  }

  lemma ReboundTables(b: Book, r: ReceiptId, next: Option<OrderId>)
    requires r in b.receipts
    ensures var after := Rebound(b, r, next);
            && after.transfers == b.transfers && after.invoices == b.invoices && after.aliases == b.aliases
            && after.receipts == b.receipts[r := EditedReceipt(b.receipts[r], next)]
            && after.orders.Keys == b.orders.Keys
            && forall o | o in b.orders :: after.orders[o].amount == b.orders[o].amount
  {
    var current := b.receipts[r].orderId;
    var moved := b.(receipts := b.receipts[r := EditedReceipt(b.receipts[r], next)]);
    if current != next {
      var first := if current.Some? then Refresh(moved, current.value) else moved;
      if current.Some? {
        RefreshKeeps(moved, current.value);
      }
      if next.Some? {
        RefreshKeeps(first, next.value);
      }
    }
  }

  /** A reversal leaves the caches right even when other transfers are not in order. */
  lemma ReversalCoherent(b: Book, t: TransferId)
    requires Coherent(b) && t in b.transfers && GeneratedOk(b, t)
    requires b.transfers[t].fromOrderId in b.orders
    ensures Coherent(AfterReversal(b, t))
  {
    var row, undone := b.transfers[t], Undone(b, t);
    forall o | o in undone.orders && o !in {row.fromOrderId, row.toOrderId}
      ensures undone.orders[o].orderBalance == Live(undone, o)
    {
      CountedRemove(b.receipts, row.generatedReceiptId.value, o);
    }
    RefreshBoth(undone, row.fromOrderId, row.toOrderId);
  }

  /** How an edit that goes through changes the book: it re-binds the receipt, and
      before that it may undo one transfer. */
  ghost predicate EditedAs(b: Book, after: Book, r: ReceiptId, next: Option<OrderId>, undo: Option<TransferId>) {
    && r in b.receipts
    && match undo
       case None => after == Rebound(b, r, next)
       case Some(t) =>
         && t in b.transfers && b.transfers[t].fromOrderId in b.orders && GeneratedOk(b, t)
         && b.transfers[t].generatedReceiptId != Some(r) && r in AfterReversal(b, t).receipts
         && after == AfterCleanup(Rebound(AfterReversal(b, t), r, next), b.transfers[t].fromOrderId)
  }

  lemma EditShape(b: Book, r: ReceiptId, next: Option<OrderId>, expected: Option<TransferId>, actor: Actor)
    requires TransferRefs(b) && Edited(b, r, next, expected, actor).Ok?
    ensures EditedAs(b, Edited(b, r, next, expected, actor).value, r, next, expected)
  {
    match Impact(b, r, next)
    case Ok(None) =>
    case Ok(Some(t)) =>
      ReversalTables(b, t);
  }

  /** After any receipt edit that goes through, every cached balance is right. */
  lemma EditCoherent(b: Book, r: ReceiptId, next: Option<OrderId>, expected: Option<TransferId>, actor: Actor)
    requires Coherent(b) && TransferRefs(b)
    requires Edited(b, r, next, expected, actor).Ok?
    ensures Coherent(Edited(b, r, next, expected, actor).value)
  {
    EditShape(b, r, next, expected, actor);
    match expected
    case None =>
      ReboundCoherent(b, r, next);
    case Some(t) =>
      var undone := AfterReversal(b, t);
      ReversalCoherent(b, t);
      ReboundCoherent(undone, r, next);
      CleanupCoherent(Rebound(undone, r, next), b.transfers[t].fromOrderId);
  }

  // ---------- when an edit goes through, and what it does ----------

  /** A transfer of just this amount between just these orders. */
  predicate MovesSame(row: BalanceTransfer, from: OrderId, to: OrderId, amount: int) {
    row.fromOrderId == from && row.toOrderId == to && row.amount == amount
  }

  /** Where a receipt moves from one order to another: without a confirmed transfer
      there is none that moved the receipt's amount the same way; with one it is
      the only such transfer, and not the one that generated the receipt. */
  lemma EditConfirms(b: Book, r: ReceiptId, from: OrderId, to: OrderId, expected: Option<TransferId>, actor: Actor)
    requires TransferRefs(b) && r in b.receipts && b.receipts[r].orderId == Some(from) && from != to
    requires Edited(b, r, Some(to), expected, actor).Ok?
    ensures forall t | t in b.transfers ::
              MovesSame(b.transfers[t], from, to, b.receipts[r].usd) <==> expected == Some(t)
    ensures expected.Some? ==>
              expected.value in b.transfers && b.transfers[expected.value].generatedReceiptId != Some(r)
  {
    var same := SameTransfers(b, from, to, b.receipts[r].usd);
    forall t | t in b.transfers
      ensures MovesSame(b.transfers[t], from, to, b.receipts[r].usd) <==> t in same
    {
    }
    if expected.Some? {
      Singleton(same, expected.value);
    } else {
      assert same == {};
    }
  }

  /** Without a move between two orders no transfer is undone, and none may be named. */
  lemma StayingUndoesNothing(b: Book, r: ReceiptId, next: Option<OrderId>, expected: Option<TransferId>, actor: Actor)
    requires TransferRefs(b) && r in b.receipts && b.receipts[r].status != BankTransfer
    requires b.receipts[r].orderId.None? || next.None? || b.receipts[r].orderId == next
    ensures Edited(b, r, next, expected, actor).Ok? <==> expected == None
    ensures expected.Some? ==> Edited(b, r, next, expected, actor) == Err(Conflict)
  {
  }

  /** Several equal transfers are a conflict, whatever is confirmed. */
  lemma EqualTransfersConflict(b: Book, r: ReceiptId, from: OrderId, to: OrderId, expected: Option<TransferId>,
                               actor: Actor, t: TransferId, u: TransferId)
    requires TransferRefs(b) && r in b.receipts && b.receipts[r].orderId == Some(from) && from != to
    requires b.receipts[r].status != BankTransfer && t != u && t in b.transfers && u in b.transfers
    requires MovesSame(b.transfers[t], from, to, b.receipts[r].usd)
    requires MovesSame(b.transfers[u], from, to, b.receipts[r].usd)
    ensures Edited(b, r, Some(to), expected, actor) == Err(Conflict)
  {
    var same := SameTransfers(b, from, to, b.receipts[r].usd);
    assert t in same && u in same;
    if |same| == 1 {
      Singleton(same, t);
    }
  }

  /** The rows besides orders and aliases after an edit: the receipt is on its new
      order and has a history; only the undone transfer and its receipt are gone. */
  ghost predicate ReceiptsEdited(b: Book, after: Book, r: ReceiptId, next: Option<OrderId>, undo: Option<TransferId>) {
    && r in b.receipts && r in after.receipts
    && after.receipts[r] == b.receipts[r].(orderId := next, referenced := true)
    && (forall x | x in after.receipts && x != r :: x in b.receipts && after.receipts[x] == b.receipts[x])
    && match undo
       case None => after.transfers == b.transfers && after.receipts.Keys == b.receipts.Keys
       case Some(t) =>
         && t in b.transfers && b.transfers[t].generatedReceiptId.Some?
         && after.transfers == b.transfers - {t}
         && after.receipts.Keys == b.receipts.Keys - {b.transfers[t].generatedReceiptId.value}
  }

  lemma EditedRows(b: Book, after: Book, r: ReceiptId, next: Option<OrderId>, undo: Option<TransferId>)
    requires EditedAs(b, after, r, next, undo)
    ensures ReceiptsEdited(b, after, r, next, undo)
  {
    match undo
    case None =>
      ReboundTables(b, r, next);
    case Some(t) =>
      ReversalTables(b, t);
      ReboundTables(AfterReversal(b, t), r, next);
  }

  /** What an edit that goes through leaves. */
  lemma EditEffect(b: Book, r: ReceiptId, next: Option<OrderId>, expected: Option<TransferId>, actor: Actor)
    requires TransferRefs(b) && Edited(b, r, next, expected, actor).Ok?
    ensures ReceiptsEdited(b, Edited(b, r, next, expected, actor).value, r, next, expected)
    ensures b.receipts[r].status != BankTransfer
  {
    EditShape(b, r, next, expected, actor);
    EditedRows(b, Edited(b, r, next, expected, actor).value, r, next, expected);
  }

  /** A receipt that a transfer has just generated cannot be edited. */
  lemma GeneratedNotEditable(b: Book, from: OrderId, to: OrderId, amount: int, g: ReceiptId, t: TransferId,
                             next: Option<OrderId>, expected: Option<TransferId>, actor: Actor)
    requires TransferRefs(b) && from in b.orders && to in b.orders && g !in b.receipts && t !in b.transfers
    ensures var after := AfterTransfer(b, from, to, amount, g, t);
            TransferRefs(after) && Edited(after, g, next, expected, actor) == Err(BadRequest)
  {
    PostedRefsOnly(b, from, to, amount, g, t);
    TransferTables(b, from, to, amount, g, t);
  }

  lemma PostedRefsOnly(b: Book, from: OrderId, to: OrderId, amount: int, g: ReceiptId, t: TransferId)
    requires TransferRefs(b) && from in b.orders && to in b.orders
    ensures TransferRefs(AfterTransfer(b, from, to, amount, g, t))
  {
    TransferTables(b, from, to, amount, g, t);
    RefreshKeeps(Posted(b, from, to, amount, g, t), from);
    RefreshKeeps(Refresh(Posted(b, from, to, amount, g, t), from), to);
  }

  /** A reversal goes through exactly for an administrator who sees both orders, on
      a live transfer whose generated receipt is the expected one, is still bound
      to the target with the transfer's amount under a transfer number, is used by
      nothing else, and whose source holds the amount. */
  lemma ReversalSucceedsExactly(b: Book, t: TransferId, expected: ReceiptId, actor: Actor, deferCleanup: bool)
    requires TransferRefs(b)
    ensures Reversed(b, t, expected, actor, deferCleanup).Ok? <==>
              && actor.admin && t in b.transfers
              && actor.sees(b.transfers[t].fromOrderId) && actor.sees(b.transfers[t].toOrderId)
              && b.transfers[t].generatedReceiptId == Some(expected) && expected in b.receipts
              && b.receipts[expected].transferNo && b.receipts[expected].orderId == Some(b.transfers[t].toOrderId)
              && b.receipts[expected].usd == b.transfers[t].amount && !b.receipts[expected].referenced
              && b.transfers[t].amount <= b.orders[b.transfers[t].fromOrderId].amount
  {
  }

  // ---------- undoing a transfer by an edit ----------

  lemma OneCandidate(b: Book, mid: Book, from: OrderId, to: OrderId, amount: int, row: BalanceTransfer, t: TransferId)
    requires SameTransfers(b, from, to, amount) == {} && t !in b.transfers
    requires row.fromOrderId == from && row.toOrderId == to && row.amount == amount
    requires mid.transfers == b.transfers[t := row]
    ensures SameTransfers(mid, from, to, amount) == {t}
  {
    forall u | u in mid.transfers && u != t
      ensures u !in SameTransfers(mid, from, to, amount)
    {
      assert u !in SameTransfers(b, from, to, amount);
    }
  }

  /** The edit finds exactly the transfer to undo. */
  lemma ImpactIsTransfer(b: Book, from: OrderId, to: OrderId, r: ReceiptId, g: ReceiptId, t: TransferId)
    requires from in b.orders && to in b.orders && from != to
    requires r in b.receipts && b.receipts[r].orderId == Some(from)
    requires g !in b.receipts && t !in b.transfers
    requires SameTransfers(b, from, to, b.receipts[r].usd) == {}
    ensures var mid := AfterTransfer(b, from, to, b.receipts[r].usd, g, t);
            r in mid.receipts && Impact(mid, r, Some(to)) == Ok(Some(t))
  {
    var usd := b.receipts[r].usd;
    var mid := AfterTransfer(b, from, to, usd, g, t);
    TransferTables(b, from, to, usd, g, t);
    OneCandidate(b, mid, from, to, usd, BalanceTransfer(from, to, Some(g), usd), t);
    assert GeneratedOk(mid, t);
  }

  /** Re-binding a receipt whose amount was transferred has to be confirmed: without
      naming the transfer it is refused, and so it is when another one is named. */
  lemma UnconfirmedIsRefused(b: Book, from: OrderId, to: OrderId, r: ReceiptId, g: ReceiptId, t: TransferId,
                             expected: Option<TransferId>, actor: Actor)
    requires TransferRefs(b) && from in b.orders && to in b.orders && from != to
    requires r in b.receipts && b.receipts[r].orderId == Some(from) && b.receipts[r].status != BankTransfer
    requires g !in b.receipts && t !in b.transfers
    requires forall u | u in b.transfers :: !MovesSame(b.transfers[u], from, to, b.receipts[r].usd)
    requires expected != Some(t)
    ensures var mid := AfterTransfer(b, from, to, b.receipts[r].usd, g, t);
            && TransferRefs(mid)
            && Edited(mid, r, Some(to), expected, actor) == Err(if expected.None? then ReversalRequired else Conflict)
  {
    PostedRefsOnly(b, from, to, b.receipts[r].usd, g, t);
    TransferTables(b, from, to, b.receipts[r].usd, g, t);
    assert SameTransfers(b, from, to, b.receipts[r].usd) == {};
    ImpactIsTransfer(b, from, to, r, g, t);
  }

  /** The reversal inside the edit is accepted exactly when the source's own
      amount is not negative, and then gives back the book before the transfer. */
  lemma ReversedAfterTransfer(b: Book, from: OrderId, to: OrderId, amount: int, g: ReceiptId, t: TransferId)
    requires Coherent(b) && Linked(b) && GeneratedUnique(b) && 0 < amount
    requires from in b.orders && to in b.orders && g !in b.receipts && t !in b.transfers
    ensures var mid := AfterTransfer(b, from, to, amount, g, t);
            && from in mid.orders && t in mid.transfers && mid.transfers[t].fromOrderId == from
            && Reversed(mid, t, g, ADMIN, true) == if 0 <= b.orders[from].amount then Ok(b) else Err(Conflict)
  {
    TransferTables(b, from, to, amount, g, t);
    TransferEffect(b, from, to, amount, g, t);
    TransferLinked(b, from, to, amount, g, t);
    ReversalUndoesTransfer(b, from, to, amount, g, t);
  }

  /** Transferring a receipt's money and then re-binding the receipt with the
      reversal confirmed ends where re-binding it directly ends, except that an
      emptied system-pool source may be gone.  It is refused only when the
      source's amount was negative before the transfer. */
  lemma EditUndoesTransfer(b: Book, from: OrderId, to: OrderId, r: ReceiptId, g: ReceiptId, t: TransferId)
    requires Sound(b)
    requires from in b.orders && to in b.orders && from != to
    requires r in b.receipts && b.receipts[r].orderId == Some(from) && b.receipts[r].status != BankTransfer
    requires 0 < b.receipts[r].usd && g !in b.receipts && t !in b.transfers
    requires SameTransfers(b, from, to, b.receipts[r].usd) == {}
    ensures var mid := AfterTransfer(b, from, to, b.receipts[r].usd, g, t);
            var direct := Rebound(b, r, Some(to));
            && TransferRefs(mid)
            && Edited(b, r, Some(to), None, ADMIN) == Ok(direct)
            && Edited(mid, r, Some(to), Some(t), ADMIN) ==
                 if 0 <= b.orders[from].amount then Ok(AfterCleanup(direct, from)) else Err(Conflict)
  {
    var usd := b.receipts[r].usd;
    TransferSound(b, from, to, usd, g, t);
    TransferTables(b, from, to, usd, g, t);
    ImpactIsTransfer(b, from, to, r, g, t);
    ReversedAfterTransfer(b, from, to, usd, g, t);
  }

  /** Moving its last receipt away empties an order without an amount. */
  lemma LastReceiptLeaves(b: Book, from: OrderId, r: ReceiptId, next: Option<OrderId>)
    requires Coherent(b) && from in b.orders && b.orders[from].amount == 0
    requires r in b.receipts && b.receipts[r].orderId == Some(from) && next != Some(from)
    requires forall q | q in b.receipts && q != r :: b.receipts[q].orderId != Some(from)
    ensures Rebound(b, r, next).orders[from].orderBalance == 0
  {
    var direct := Rebound(b, r, next);
    ReboundCoherent(b, r, next);
    ReboundTables(b, r, next);
    assert Counted(direct.receipts, from) == map[];
    assert direct.orders[from].orderBalance == Live(direct, from);
  }

  lemma ReboundPool(b: Book, r: ReceiptId, next: Option<OrderId>, o: OrderId)
    requires r in b.receipts && o in b.orders
    ensures var after := Rebound(b, r, next);
            o in after.orders && (InPool(after, o) <==> InPool(b, o)) && after.orders[o].tracked == b.orders[o].tracked
  {
    ReboundTables(b, r, next);
  }

  /** When such an edit also removes the order the receipt leaves: when it is a pool
      order without an amount of its own, and nothing but this receipt refers to it. */
  lemma EmptiedExactly(b: Book, from: OrderId, r: ReceiptId, next: Option<OrderId>)
    requires Coherent(b) && from in b.orders && r in b.receipts && b.receipts[r].orderId == Some(from)
    requires next != Some(from)
    ensures var after := AfterCleanup(Rebound(b, r, next), from);
            && (from !in after.orders <==>
                  && InPool(b, from) && b.orders[from].amount == 0 && !b.orders[from].tracked
                  && (forall q | q in b.receipts && q != r :: b.receipts[q].orderId != Some(from))
                  && forall t | t in b.transfers :: !b.transfers[t].Touches(from))
            && after.orders.Keys + {from} == b.orders.Keys
            && after.receipts == Rebound(b, r, next).receipts && after.transfers == b.transfers
  {
    var direct := Rebound(b, r, next);
    ReboundTables(b, r, next);
    ReboundPool(b, r, next, from);
    assert forall q | q in b.receipts && q != r :: direct.receipts[q] == b.receipts[q];
    assert direct.receipts[r].orderId == next;
    if b.orders[from].amount == 0 && forall q | q in b.receipts && q != r :: b.receipts[q].orderId != Some(from) {
      LastReceiptLeaves(b, from, r, next);
    }
  }

  // ---------- when an edit ends that a transfer can be reversed ----------

  /** An administrator who sees everything could reverse the transfer. */
  ghost predicate Reversible(b: Book, t: TransferId) {
    && t in b.transfers && b.transfers[t].fromOrderId in b.orders && b.transfers[t].generatedReceiptId.Some?
    && ReversalRefusal(b, t, b.transfers[t].generatedReceiptId.value, ADMIN).None?
  }

  /** The source of the transfer holds enough to take it back. */
  ghost predicate Covered(b: Book, t: TransferId) {
    && t in b.transfers && b.transfers[t].fromOrderId in b.orders
    && b.transfers[t].amount <= b.orders[b.transfers[t].fromOrderId].amount
  }

  ghost predicate PositiveTransfers(b: Book) {
    forall t | t in b.transfers :: 0 < b.transfers[t].amount
  }

  /** What is left of an amount without the transfers it put elsewhere. */
  ghost predicate NonNegativelyInvoiced(b: Book) {
    forall o | o in b.orders :: 0 <= Invoiced(b, o)
  }

  lemma RefreshTwiceAmounts(b: Book, p: OrderId, q: OrderId)
    ensures var after := Refresh(Refresh(b, p), q);
            && after.orders.Keys == b.orders.Keys
            && forall o | o in b.orders :: after.orders[o].amount == b.orders[o].amount
  {
    RefreshKeeps(b, p);
    RefreshKeeps(Refresh(b, p), q);
  }

  /** What another transfer can see of a reversal. */
  lemma ReversalSeen(b: Book, t: TransferId)
    requires t in b.transfers && GeneratedOk(b, t) && b.transfers[t].fromOrderId in b.orders
    ensures var row, after := b.transfers[t], AfterReversal(b, t);
            && after.transfers == b.transfers - {t}
            && after.receipts == b.receipts - {row.generatedReceiptId.value}
            && after.orders.Keys == b.orders.Keys
            && forall o | o in b.orders ::
                 after.orders[o].amount == b.orders[o].amount - if o == row.fromOrderId then row.amount else 0
  {
    ReversalTables(b, t);
    RefreshTwiceAmounts(Undone(b, t), b.transfers[t].fromOrderId, b.transfers[t].toOrderId);
  }

  /** Re-binding a receipt, for a transfer that did not generate it. */
  lemma ReboundReversible(b: Book, r: ReceiptId, next: Option<OrderId>, u: TransferId)
    requires r in b.receipts && u in b.transfers && b.transfers[u].fromOrderId in b.orders
    ensures Reversible(Rebound(b, r, next), u) <==> Reversible(b, u) && b.transfers[u].generatedReceiptId != Some(r)
    ensures Covered(Rebound(b, r, next), u) <==> Covered(b, u)
  {
    ReboundTables(b, r, next);
  }

  /** Reversing one transfer, for another one: only the source's amount matters. */
  lemma ReversedReversible(b: Book, t: TransferId, u: TransferId)
    requires TransferRefs(b) && GeneratedUnique(b) && PositiveTransfers(b)
    requires t in b.transfers && GeneratedOk(b, t) && u in b.transfers && u != t
    ensures u in AfterReversal(b, t).transfers
    ensures Reversible(AfterReversal(b, t), u) <==> Reversible(b, u) && Covered(AfterReversal(b, t), u)
  {
    ReversalSeen(b, t);
  }

  lemma CleanupReversible(b: Book, o: OrderId, u: TransferId)
    requires u in b.transfers
    ensures u in AfterCleanup(b, o).transfers
    ensures Reversible(AfterCleanup(b, o), u) <==> Reversible(b, u)
    ensures Covered(AfterCleanup(b, o), u) <==> Covered(b, u)
  {
  }

  lemma UndoingEditReversible(b: Book, r: ReceiptId, next: Option<OrderId>, t: TransferId, u: TransferId)
    requires TransferRefs(b) && GeneratedUnique(b) && PositiveTransfers(b)
    requires t in b.transfers && GeneratedOk(b, t) && u in b.transfers && u != t
    requires r in AfterReversal(b, t).receipts
    ensures var after := AfterCleanup(Rebound(AfterReversal(b, t), r, next), b.transfers[t].fromOrderId);
            Reversible(after, u) <==>
              Reversible(b, u) && b.transfers[u].generatedReceiptId != Some(r) && Covered(after, u)
  {
    var undone := AfterReversal(b, t);
    ReversalSeen(b, t);
    ReversedReversible(b, t, u);
    ReboundReversible(undone, r, next, u);
    ReboundTables(undone, r, next);
    CleanupReversible(Rebound(undone, r, next), b.transfers[t].fromOrderId, u);
  }

  /** The transfers an edit leaves. */
  lemma EditTransfers(b: Book, after: Book, r: ReceiptId, next: Option<OrderId>, undo: Option<TransferId>)
    requires EditedAs(b, after, r, next, undo)
    ensures after.transfers == if undo.Some? then b.transfers - {undo.value} else b.transfers
  {
    match undo
    case None =>
      ReboundTables(b, r, next);
    case Some(t) =>
      ReversalTables(b, t);
      ReboundTables(AfterReversal(b, t), r, next);
  }

  lemma EditedReversible(b: Book, after: Book, r: ReceiptId, next: Option<OrderId>, undo: Option<TransferId>,
                         u: TransferId)
    requires TransferRefs(b) && GeneratedUnique(b) && PositiveTransfers(b)
    requires EditedAs(b, after, r, next, undo) && u in after.transfers
    ensures u in b.transfers
    ensures Reversible(after, u) <==>
              Reversible(b, u) && b.transfers[u].generatedReceiptId != Some(r) && Covered(after, u)
  {
    EditTransfers(b, after, r, next, undo);
    match undo
    case None =>
      ReboundReversible(b, r, next, u);
    case Some(t) =>
      UndoingEditReversible(b, r, next, t, u);
  }

  /** After an edit a transfer can be reversed exactly when it could be before,
      the edited receipt is not the one it generated, and its source still holds
      enough after the transfer the edit itself took back. */
  lemma EditReversible(b: Book, r: ReceiptId, next: Option<OrderId>, expected: Option<TransferId>, actor: Actor,
                       u: TransferId)
    requires TransferRefs(b) && GeneratedUnique(b) && PositiveTransfers(b)
    requires Edited(b, r, next, expected, actor).Ok? && u in Edited(b, r, next, expected, actor).value.transfers
    ensures u in b.transfers
    ensures var after := Edited(b, r, next, expected, actor).value;
            Reversible(after, u) <==>
              Reversible(b, u) && b.transfers[u].generatedReceiptId != Some(r) && Covered(after, u)
  {
    EditShape(b, r, next, expected, actor);
    EditedReversible(b, Edited(b, r, next, expected, actor).value, r, next, expected, u);
  }

  /** What the sources hold beyond one transfer covers the others. */
  lemma OthersCovered(b: Book, t: TransferId, u: TransferId)
    requires TransferRefs(b) && PositiveTransfers(b) && t in b.transfers && GeneratedOk(b, t)
    requires u in b.transfers && u != t && 0 <= Invoiced(b, b.transfers[u].fromOrderId)
    ensures Covered(AfterReversal(b, t), u)
  {
    var out := Outgoing(b, b.transfers[u].fromOrderId);
    ReversalSeen(b, t);
    SumRemove(out, u);
    if t in out {
      SumRemove(out - {u}, t);
      SumNonNegative(out - {u} - {t});
    } else {
      SumNonNegative(out - {u});
    }
  }

  /** Re-binding and cleaning up take nothing from a source. */
  lemma CoveredOn(b: Book, r: ReceiptId, next: Option<OrderId>, o: OrderId, u: TransferId)
    requires r in b.receipts && Covered(b, u)
    ensures Covered(Rebound(b, r, next), u) && Covered(AfterCleanup(Rebound(b, r, next), o), u)
  {
    ReboundTables(b, r, next);
  }

  lemma EditCovers(b: Book, after: Book, r: ReceiptId, next: Option<OrderId>, undo: Option<TransferId>, u: TransferId)
    requires TransferRefs(b) && PositiveTransfers(b) && NonNegativelyInvoiced(b)
    requires EditedAs(b, after, r, next, undo) && u in after.transfers && Covered(b, u)
    ensures Covered(after, u)
  {
    EditTransfers(b, after, r, next, undo);
    match undo
    case None =>
      CoveredOn(b, r, next, 0, u);
    case Some(t) =>
      OthersCovered(b, t, u);
      CoveredOn(AfterReversal(b, t), r, next, b.transfers[t].fromOrderId, u);
  }

  lemma StaysReversible(b: Book, after: Book, r: ReceiptId, next: Option<OrderId>, undo: Option<TransferId>,
                        t: TransferId)
    requires TransferRefs(b) && GeneratedUnique(b) && PositiveTransfers(b) && NonNegativelyInvoiced(b)
    requires EditedAs(b, after, r, next, undo) && t in after.transfers && r !in Generated(b)
    requires Reversible(b, t)
    ensures Reversible(after, t)
  {
    EditedReversible(b, after, r, next, undo, t);
    EditCovers(b, after, r, next, undo, t);
    assert b.transfers[t].generatedReceiptId != Some(r);
  }

  lemma GeneratorStaysBehind(b: Book, after: Book, r: ReceiptId, next: Option<OrderId>, undo: Option<TransferId>)
    requires TransferRefs(b) && GeneratedUnique(b) && PositiveTransfers(b)
    requires EditedAs(b, after, r, next, undo) && r in Generated(b)
    ensures exists u | u in after.transfers :: !Reversible(after, u)
  {
    var u :| u in b.transfers && b.transfers[u].generatedReceiptId == Some(r);
    EditTransfers(b, after, r, next, undo);
    EditedReversible(b, after, r, next, undo, u);
  }

  ghost predicate AllReversible(b: Book) {
    forall t | t in b.transfers :: Reversible(b, t)
  }

  /** An edit leaves every remaining transfer reversible exactly when the edited
      receipt is not one a transfer generated, even if it stays where it is: an
      edit writes a row of history, and that protects the receipt. */
  lemma EditKeepsReversible(b: Book, r: ReceiptId, next: Option<OrderId>, expected: Option<TransferId>, actor: Actor)
    requires TransferRefs(b) && GeneratedUnique(b) && PositiveTransfers(b) && NonNegativelyInvoiced(b)
    requires AllReversible(b) && Edited(b, r, next, expected, actor).Ok?
    ensures AllReversible(Edited(b, r, next, expected, actor).value) <==> r !in Generated(b)
  {
    var after := Edited(b, r, next, expected, actor).value;
    EditShape(b, r, next, expected, actor);
    if r in Generated(b) {
      GeneratorStaysBehind(b, after, r, next, expected);
    } else {
      EditTransfers(b, after, r, next, expected);
      forall t | t in after.transfers
        ensures Reversible(after, t)
      {
        StaysReversible(b, after, r, next, expected, t);
      }
    }
  }

  // ---------- the overpayment guard ----------

  lemma TransferBound(b: Book, from: OrderId, to: OrderId, amount: int, r: ReceiptId, t: TransferId)
    requires from in b.orders && to in b.orders && r !in b.receipts
    ensures var own, receipts := (if to == from then amount else 0), AfterTransfer(b, from, to, amount, r, t).receipts;
            && Sum(Bound(receipts, from)) == Sum(Bound(b.receipts, from)) + own
            && Sum(Counted(receipts, from)) == Sum(Counted(b.receipts, from)) + own
  {
    TransferTables(b, from, to, amount, r, t);
    CountedInsert(b.receipts, r, Receipt(amount, BankTransfer, Some(to), true, false), from);
    BoundInsert(b.receipts, r, Receipt(amount, BankTransfer, Some(to), true, false), from);
  }

  lemma BoundInsert(receipts: map<ReceiptId, Receipt>, r: ReceiptId, row: Receipt, o: OrderId)
    requires r !in receipts
    ensures Sum(Bound(receipts[r := row], o)) == Sum(Bound(receipts, o)) + if row.orderId == Some(o) then row.usd else 0
  {
    SumSet(Bound(receipts, o), r, row.usd);
    if row.orderId == Some(o) {
      assert Bound(receipts[r := row], o) == Bound(receipts, o)[r := row.usd];
    } else {
      assert Bound(receipts[r := row], o) == Bound(receipts, o);
    }
  }

  /** The receipts of an order that still wait for their signature. */
  ghost function Pending(receipts: map<ReceiptId, Receipt>, o: OrderId): map<ReceiptId, int> {
    map r | r in receipts && receipts[r].orderId == Some(o) && receipts[r].status == SigningPending :: receipts[r].usd
  }

  /** A transfer is allowed exactly for a positive amount of at most what the source
      is overpaid by, its pending receipts counted in. */
  lemma TransferAllowedExactly(b: Book, from: OrderId, amount: int)
    requires Coherent(b) && from in b.orders
    ensures CanTransfer(b, from, amount) <==>
              0 < amount <= Sum(Pending(b.receipts, from)) - b.orders[from].orderBalance
  {
    var bound, counted := Bound(b.receipts, from), Counted(b.receipts, from);
    SumSplit(bound, counted);
    assert bound - counted.Keys == Pending(b.receipts, from);
    assert b.orders[from].orderBalance == Live(b, from);
  }

  /** The guard of a transfer counts pending receipts too: afterwards the
      source's amount stays within all its receipts, and its balance is at most
      what is still waiting for a signature.  A transfer of an order to itself is
      accepted and leaves the balance as it was. */
  lemma TransferStaysWithinReceipts(b: Book, from: OrderId, to: OrderId, amount: int, r: ReceiptId, t: TransferId)
    requires Coherent(b) && CanTransfer(b, from, amount)
    requires to in b.orders && r !in b.receipts
    ensures var after := AfterTransfer(b, from, to, amount, r, t);
            && from in after.orders
            && after.orders[from].amount <= Sum(Bound(after.receipts, from))
            && after.orders[from].orderBalance <= Sum(Bound(after.receipts, from)) - Sum(Counted(after.receipts, from))
            && (if to == from then after.orders[from].orderBalance == b.orders[from].orderBalance
                else after.orders[from].orderBalance <= 0 <==> amount <= -b.orders[from].orderBalance)
  {
    TransferBound(b, from, to, amount, r, t);
    TransferEffect(b, from, to, amount, r, t);
  }

  /** An order without amount whose one receipt still waits for its signature. */
  const PENDING_BOOK := Book(
    map[0 := "INV"],
    map[0 := Order(0, "A", 0, 0, false), 1 := Order(0, "B", 0, 0, false)],
    map[0 := Receipt(100, SigningPending, Some(0), false, false)], map[], map[])

  lemma PendingBookIsSound()
    ensures Sound(PENDING_BOOK)
  {
    assert Counted(PENDING_BOOK.receipts, 0) == map[] && Counted(PENDING_BOOK.receipts, 1) == map[];
  }

  /** So a transfer can leave its source owing money: one pending receipt is enough. */
  lemma PendingReceiptCanLeaveDebt()
    ensures Sound(PENDING_BOOK) && CanTransfer(PENDING_BOOK, 0, 100)
    ensures PENDING_BOOK.orders[0].orderBalance == 0
    ensures var after := AfterTransfer(PENDING_BOOK, 0, 1, 100, 1, 0);
            0 in after.orders && after.orders[0].orderBalance == 100
  {
    PendingBookIsSound();
    var none: map<ReceiptId, int> := map[];
    assert Bound(PENDING_BOOK.receipts, 0) == none[0 := 100];
    SumSet(none, 0, 100);
    TransferEffect(PENDING_BOOK, 0, 1, 100, 1, 0);
  }
}
