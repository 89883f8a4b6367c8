/**
 The order ledger: orders, receipts, balance transfers and the cached order
 balance.  Money is in integer cents.  `Book` is the value of the tables;
 `LedgerDb` is the database the services update row by row, one method a
 transaction.
 */
module Ledger {
  import opened Basics
  import opened Sums

  datatype Result<+T> = Ok(value: T) | Err(error: LedgerError)
  datatype LedgerError =
    | BadRequest | NotFound | Forbidden | Conflict | ReversalRequired | ForeignKey | UniqueViolation

  type InvoiceId = nat
  type OrderId = nat
  type ReceiptId = nat
  type TransferId = nat

  const UN_ASSOCIATED := "Un_Associated"
  const DEPOSIT_POOL := "DEPOSIT_POOL"

  predicate IsSystemPool(invNo: string) {
    invNo == UN_ASSOCIATED || invNo == DEPOSIT_POOL
  }

  datatype ReceiptStatus = SigningPending | SrReceived | WaitingSwift | BankTransfer | Received

  /** `tracked`: an order tracker or a merged receipt points at the order. */
  datatype Order = Order(invoiceId: InvoiceId, orderNo: string, amount: int, orderBalance: int, tracked: bool)

  /** `transferNo`: the receipt number starts with TRANSFER-.  `referenced`: a
      merge, detail item, history, edit request or generator session uses it. */
  datatype Receipt = Receipt(usd: int, status: ReceiptStatus, orderId: Option<OrderId>,
                             transferNo: bool, referenced: bool)
  {
    predicate CountedIn(o: OrderId) {
      orderId == Some(o) && status != SigningPending
    }
  }

  datatype BalanceTransfer = BalanceTransfer(fromOrderId: OrderId, toOrderId: OrderId,
                                             generatedReceiptId: Option<ReceiptId>, amount: int)
  {
    predicate Touches(o: OrderId) {
      fromOrderId == o || toOrderId == o
    }
  }

  /** Who asks: an administrator or not, and the orders this user may see. */
  datatype Actor = Actor(admin: bool, sees: OrderId -> bool)

  /** An administrator who sees every order. */
  const ADMIN := Actor(true, (o: OrderId) => true)

  predicate SeesBoth(actor: Actor, row: BalanceTransfer) {
    actor.sees(row.fromOrderId) && actor.sees(row.toOrderId)
  }

  datatype Book = Book(
    invoices: map<InvoiceId, string>,
    orders: map<OrderId, Order>,
    receipts: map<ReceiptId, Receipt>,
    transfers: map<TransferId, BalanceTransfer>,
    aliases: map<string, OrderId>)

  // ---------- balances ----------

  /** The receipts that count towards the balance of an order. */
  ghost function Counted(receipts: map<ReceiptId, Receipt>, o: OrderId): map<ReceiptId, int> {
    map r | r in receipts && receipts[r].CountedIn(o) :: receipts[r].usd
  }

  /** All receipts of an order, pending signature or not. */
  ghost function Bound(receipts: map<ReceiptId, Receipt>, o: OrderId): map<ReceiptId, int> {
    map r | r in receipts && receipts[r].orderId == Some(o) :: receipts[r].usd
  }

  ghost function Live(b: Book, o: OrderId): int
    requires o in b.orders
  {
    b.orders[o].amount - Sum(Counted(b.receipts, o))
  }

  /** The cached balances of all orders. */
  ghost function Balances(orders: map<OrderId, Order>): map<OrderId, int> {
    map o | o in orders :: orders[o].orderBalance
  }

  /** Every cached balance equals the live one. */
  ghost predicate Coherent(b: Book) {
    forall o | o in b.orders :: b.orders[o].orderBalance == Live(b, o)
  }

  // ---------- what the schema guarantees ----------

  ghost predicate OrderRefs(b: Book) {
    forall o | o in b.orders :: b.orders[o].invoiceId in b.invoices
  }

  ghost predicate ReceiptRefs(b: Book) {
    forall r | r in b.receipts :: b.receipts[r].orderId.Some? ==> b.receipts[r].orderId.value in b.orders
  }

  ghost predicate TransferRefs(b: Book) {
    forall t | t in b.transfers :: b.transfers[t].fromOrderId in b.orders && b.transfers[t].toOrderId in b.orders
  }

  ghost predicate AliasRefs(b: Book) {
    forall a | a in b.aliases :: b.aliases[a] in b.orders
  }

  /** No two transfers share a generated receipt. */
  ghost predicate GeneratedUnique(b: Book) {
    forall t, u | t in b.transfers && u in b.transfers && t != u ::
      b.transfers[t].generatedReceiptId.Some? ==>
        b.transfers[t].generatedReceiptId != b.transfers[u].generatedReceiptId
  }

  predicate InPool(b: Book, o: OrderId)
    requires o in b.orders
  {
    b.orders[o].invoiceId in b.invoices && IsSystemPool(b.invoices[b.orders[o].invoiceId])
  }

  // ---------- specifications of the transactions ----------

  /** The cached balance of `o` is brought up to date, nothing else changes. */
  ghost function Refresh(b: Book, o: OrderId): Book {
    if o in b.orders
    then b.(orders := b.orders[o := b.orders[o].(orderBalance := Live(b, o))])
    else b
  }

  ghost predicate CanTransfer(b: Book, from: OrderId, amount: int) {
    && 0 < amount
    && from in b.orders
    && b.orders[from].amount + amount <= Sum(Bound(b.receipts, from))
  }

  /** A new order without amount in the Un_Associated pool, as target of a transfer. */
  function AfterNewTarget(b: Book, pool: InvoiceId, o: OrderId, orderNo: string, aliasNos: set<string>): Book {
    b.(invoices := if pool in b.invoices then b.invoices else b.invoices[pool := UN_ASSOCIATED],
       orders := b.orders[o := Order(pool, orderNo, 0, 0, false)],
       aliases := SyncedAliases(b.aliases, o, aliasNos))
  }

  /** The invoice that is, or becomes, the Un_Associated pool. */
  ghost predicate PoolFor(invoices: map<InvoiceId, string>, pool: InvoiceId, newId: InvoiceId) {
    if pool in invoices then invoices[pool] == UN_ASSOCIATED
    else pool == newId && forall i | i in invoices :: invoices[i] != UN_ASSOCIATED
  }

  /** Old aliases of the order go; a new alias is skipped when another order holds it. */
  function SyncedAliases(aliases: map<string, OrderId>, o: OrderId, aliasNos: set<string>): map<string, OrderId> {
    var others := map a | a in aliases && aliases[a] != o :: aliases[a];
    (map a | a in aliasNos :: o) + others
  }

  /** The rows a transfer writes, before the cached balances follow. */
  function Posted(b: Book, from: OrderId, to: OrderId, amount: int, r: ReceiptId, t: TransferId): Book
    requires from in b.orders
  {
    b.(orders := b.orders[from := b.orders[from].(amount := b.orders[from].amount + amount)],
       receipts := b.receipts[r := Receipt(amount, BankTransfer, Some(to), true, false)],
       transfers := b.transfers[t := BalanceTransfer(from, to, Some(r), amount)])
  }

  ghost function AfterTransfer(b: Book, from: OrderId, to: OrderId, amount: int, r: ReceiptId, t: TransferId): Book
    requires from in b.orders
  {
    Refresh(Refresh(Posted(b, from, to, amount, r, t), from), to)
  }

  /** The generated receipt belongs to its transfer. */
  predicate GeneratedOk(b: Book, t: TransferId)
    requires t in b.transfers
  {
    var row := b.transfers[t];
    && row.generatedReceiptId.Some?
    && row.generatedReceiptId.value in b.receipts
    && b.receipts[row.generatedReceiptId.value].transferNo
    && b.receipts[row.generatedReceiptId.value].orderId == Some(row.toOrderId)
    && b.receipts[row.generatedReceiptId.value].usd == row.amount
  }

  /** Why a reversal is refused, if it is. */
  function ReversalRefusal(b: Book, t: TransferId, expected: ReceiptId, actor: Actor): Option<LedgerError>
    requires t in b.transfers ==> b.transfers[t].fromOrderId in b.orders
  {
    if !actor.admin then Some(Forbidden)
    else if t !in b.transfers then Some(NotFound)
    else if !SeesBoth(actor, b.transfers[t]) then Some(Forbidden)
    else if !GeneratedOk(b, t) then Some(Conflict)
    else if b.transfers[t].generatedReceiptId != Some(expected) then Some(Conflict)
    else if b.receipts[expected].referenced then Some(Conflict)
    else if b.orders[b.transfers[t].fromOrderId].amount < b.transfers[t].amount then Some(Conflict)
    else None
  }

  /** The rows a reversal takes back, before the cached balances follow. */
  function Undone(b: Book, t: TransferId): Book
    requires t in b.transfers && b.transfers[t].generatedReceiptId.Some?
    requires b.transfers[t].fromOrderId in b.orders
  {
    var row := b.transfers[t];
    b.(transfers := b.transfers - {t},
       receipts := b.receipts - {row.generatedReceiptId.value},
       orders := b.orders[row.fromOrderId :=
         b.orders[row.fromOrderId].(amount := b.orders[row.fromOrderId].amount - row.amount)])
  }

  ghost function AfterReversal(b: Book, t: TransferId): Book
    requires t in b.transfers && b.transfers[t].generatedReceiptId.Some?
    requires b.transfers[t].fromOrderId in b.orders
  {
    Refresh(Refresh(Undone(b, t), b.transfers[t].fromOrderId), b.transfers[t].toOrderId)
  }

  /** An order of a system pool that nothing refers to and that carries no money. */
  ghost predicate EmptyPoolOrder(b: Book, o: OrderId) {
    && o in b.orders
    && InPool(b, o)
    && b.orders[o].amount == 0
    && b.orders[o].orderBalance == 0
    && !b.orders[o].tracked
    && (forall r | r in b.receipts :: b.receipts[r].orderId != Some(o))
    && (forall t | t in b.transfers :: !b.transfers[t].Touches(o))
  }

  /** Deleting an order takes its aliases with it. */
  function WithoutOrder(b: Book, o: OrderId): Book {
    b.(orders := b.orders - {o},
       aliases := map a | a in b.aliases && b.aliases[a] != o :: b.aliases[a])
  }

  ghost function AfterCleanup(b: Book, o: OrderId): Book {
    if EmptyPoolOrder(b, o) then WithoutOrder(b, o) else b
  }

  ghost function Reversed(b: Book, t: TransferId, expected: ReceiptId, actor: Actor, deferCleanup: bool)
    : Result<Book>
    requires t in b.transfers ==> b.transfers[t].fromOrderId in b.orders
  {
    match ReversalRefusal(b, t, expected, actor)
    case Some(e) => Err(e)
    case None =>
      var undone := AfterReversal(b, t);
      Ok(if deferCleanup then undone else AfterCleanup(undone, b.transfers[t].fromOrderId))
  }

  // ---------- receipt edit ----------

  function SameTransfers(b: Book, from: OrderId, to: OrderId, amount: int): set<TransferId> {
    set t | t in b.transfers && b.transfers[t].fromOrderId == from &&
            b.transfers[t].toOrderId == to && b.transfers[t].amount == amount
  }

  /** The transfer that re-binding receipt `r` to `next` would have to undo. */
  ghost function Impact(b: Book, r: ReceiptId, next: Option<OrderId>): Result<Option<TransferId>>
    requires r in b.receipts
  {
    var current := b.receipts[r].orderId;
    if current.None? || next.None? || current == next then Ok(None)
    else
      var candidates := SameTransfers(b, current.value, next.value, b.receipts[r].usd);
      if candidates == {} then Ok(None)
      else if |candidates| != 1 then Err(Conflict)
      else
        var t :| t in candidates;
        if !GeneratedOk(b, t) || b.transfers[t].generatedReceiptId == Some(r) then Err(Conflict)
        else Ok(Some(t))
  }

  /** The receipt as an edit leaves it: each edit adds a row to its history. */
  function EditedReceipt(row: Receipt, next: Option<OrderId>): Receipt {
    row.(orderId := next, referenced := true)
  }

  /** The receipt is bound to `next`; both orders are refreshed when the order changes. */
  ghost function Rebound(b: Book, r: ReceiptId, next: Option<OrderId>): Book
    requires r in b.receipts
  {
    var current := b.receipts[r].orderId;
    var moved := b.(receipts := b.receipts[r := EditedReceipt(b.receipts[r], next)]);
    if current == next then moved
    else
      var first := if current.Some? then Refresh(moved, current.value) else moved;
      if next.Some? then Refresh(first, next.value) else first
  }

  /** An edit that undoes a transfer has to name it, and no other edit may name one. */
  function Confirmed(impact: Result<Option<TransferId>>, expected: Option<TransferId>): Result<Option<TransferId>> {
    match impact
    case Err(e) => Err(e)
    case Ok(None) => if expected.Some? then Err(Conflict) else impact
    case Ok(Some(t)) =>
      if expected.None? then Err(ReversalRequired)
      else if expected != Some(t) then Err(Conflict)
      else impact
  }

  /** The transfer is undone before the receipt moves; an emptied pool order goes last. */
  ghost function UndoneAndRebound(b: Book, r: ReceiptId, next: Option<OrderId>, t: TransferId, actor: Actor)
    : Result<Book>
    requires r in b.receipts && t in b.transfers && b.transfers[t].fromOrderId in b.orders
    requires b.transfers[t].generatedReceiptId.Some? && b.transfers[t].generatedReceiptId != Some(r)
  {
    match Reversed(b, t, b.transfers[t].generatedReceiptId.value, actor, true)
    case Err(e) => Err(e)
    case Ok(undone) => Ok(AfterCleanup(Rebound(undone, r, next), b.transfers[t].fromOrderId))
  }

  ghost function Edited(b: Book, r: ReceiptId, next: Option<OrderId>,
                        expected: Option<TransferId>, actor: Actor): Result<Book>
    requires forall t | t in b.transfers :: b.transfers[t].fromOrderId in b.orders
  {
    if r !in b.receipts then Err(NotFound)
    else if b.receipts[r].status == BankTransfer then Err(BadRequest)
    else
      match Confirmed(Impact(b, r, next), expected)
      case Err(e) => Err(e)
      case Ok(None) => Ok(Rebound(b, r, next))
      case Ok(Some(t)) => UndoneAndRebound(b, r, next, t, actor)
  }

  // ---------- the database ----------

  class LedgerDb {
    var invoices: map<InvoiceId, string>
    var orders: map<OrderId, Order>
    var receipts: map<ReceiptId, Receipt>
    var transfers: map<TransferId, BalanceTransfer>
    var aliases: map<string, OrderId>

    function Tables(): Book
      reads this
    {
      Book(invoices, orders, receipts, transfers, aliases)
    }

    constructor (b: Book)
      ensures Tables() == b
    {
      invoices, orders, receipts, transfers, aliases := b.invoices, b.orders, b.receipts, b.transfers, b.aliases;
    }

    /** Adds up the receipts of an order, all of them or only those that count. */
    method TotalReceipts(orderId: OrderId, countedOnly: bool) returns (total: int)
      ensures total == Sum(if countedOnly then Counted(receipts, orderId) else Bound(receipts, orderId))
    {
      ghost var rows := if countedOnly then Counted(receipts, orderId) else Bound(receipts, orderId);
      var todo := set r | r in receipts && receipts[r].orderId == Some(orderId) &&
                          (countedOnly ==> receipts[r].status != SigningPending);
      total := 0;
      ghost var left := rows;
      while todo != {}
        invariant todo == left.Keys
        invariant todo <= receipts.Keys
        invariant forall r | r in left :: left[r] == receipts[r].usd
        invariant total + Sum(left) == Sum(rows)
        decreases |todo|
      {
        var r :| r in todo;
        SumRemove(left, r);
        total := total + receipts[r].usd;
        todo := todo - {r};
        left := left - {r};
      }
    }

    method CalculateLiveOrderBalance(orderId: OrderId) returns (balance: int)
      ensures balance == if orderId in orders then Live(Tables(), orderId) else 0
    {
      if orderId !in orders {
        return 0;
      }
      var total := TotalReceipts(orderId, true);
      balance := orders[orderId].amount - total;
    }

    /** Writes the cached balance only when it differs from the live one. */
    method UpdateOrderBalance(orderId: OrderId) returns (repaired: bool, computed: int)
      modifies this`orders
      ensures Tables() == Refresh(old(Tables()), orderId)
      ensures orderId in old(orders) ==>
                computed == Live(old(Tables()), orderId) &&
                (repaired <==> old(orders)[orderId].orderBalance != computed)
      ensures orderId !in old(orders) ==> !repaired && computed == 0
    {
      computed := CalculateLiveOrderBalance(orderId);
      repaired := false;
      if orderId in orders {
        var row := orders[orderId];
        if row.orderBalance != computed {
          orders := orders[orderId := row.(orderBalance := computed)];
          repaired := true;
        } else {
          assert orders[orderId := row.(orderBalance := computed)] == orders;
        }
      }
    }

    /** The rows a transfer writes once source and target are known. */
    method PostTransfer(fromOrderId: OrderId, toOrderId: OrderId, amount: int,
                        newReceiptId: ReceiptId, newTransferId: TransferId)
      requires fromOrderId in orders && toOrderId in orders
      modifies this`orders, this`receipts, this`transfers
      ensures Tables() == AfterTransfer(old(Tables()), fromOrderId, toOrderId, amount, newReceiptId, newTransferId)
    {
      receipts := receipts[newReceiptId := Receipt(amount, BankTransfer, Some(toOrderId), true, false)];
      transfers := transfers[newTransferId := BalanceTransfer(fromOrderId, toOrderId, Some(newReceiptId), amount)];
      orders := orders[fromOrderId := orders[fromOrderId].(amount := orders[fromOrderId].amount + amount)];
      assert Tables() == Posted(old(Tables()), fromOrderId, toOrderId, amount, newReceiptId, newTransferId);
      var _, _ := UpdateOrderBalance(fromOrderId);
      var _, _ := UpdateOrderBalance(toOrderId);
    }

    /** Finds or creates the Un_Associated pool and puts a new order into it. */
    method CreatePoolOrder(toOrderNo: string, aliasNos: set<string>, newInvoiceId: InvoiceId, newOrderId: OrderId)
      returns (pool: InvoiceId)
      requires newInvoiceId !in invoices && newOrderId !in orders
      modifies this`invoices, this`orders, this`aliases
      ensures Tables() == AfterNewTarget(old(Tables()), pool, newOrderId, toOrderNo, aliasNos)
      ensures PoolFor(old(invoices), pool, newInvoiceId)
    {
      pool := newInvoiceId;
      if i :| i in invoices && invoices[i] == UN_ASSOCIATED {
        pool := i;
      } else {
        invoices := invoices[newInvoiceId := UN_ASSOCIATED];
      }
      orders := orders[newOrderId := Order(pool, toOrderNo, 0, 0, false)];
      aliases := SyncedAliases(aliases, newOrderId, aliasNos);
    }

    /** Moves `amount` of an overpaid order to `target`, or to a new order of the
        Un_Associated pool when no target was found.  Fresh row ids are parameters. */
    method TransferTo(fromOrderId: OrderId, toOrderNo: string, aliasNos: set<string>,
                      target: Option<OrderId>, amount: int, actor: Actor,
                      newInvoiceId: InvoiceId, newOrderId: OrderId,
                      newReceiptId: ReceiptId, newTransferId: TransferId)
      returns (r: Result<OrderId>)
      requires newInvoiceId !in invoices && newOrderId !in orders
      requires newReceiptId !in receipts && newTransferId !in transfers
      modifies this
      ensures r.Ok? <==> actor.sees(fromOrderId) && CanTransfer(old(Tables()), fromOrderId, amount)
      ensures r.Err? ==>
                && Tables() == old(Tables())
                && (r.error == NotFound <==> 0 < amount && !(fromOrderId in orders && actor.sees(fromOrderId)))
                && (r.error == BadRequest <==> r.error != NotFound)
      ensures r.Ok? && target.Some? && target.value in old(orders) ==>
                && r.value == target.value
                && Tables() ==
                     AfterTransfer(old(Tables()), fromOrderId, target.value, amount, newReceiptId, newTransferId)
      ensures r.Ok? && !(target.Some? && target.value in old(orders)) ==>
                && r.value == newOrderId
                && exists pool: InvoiceId ::
                  && PoolFor(old(invoices), pool, newInvoiceId)
                  && Tables() == AfterTransfer(AfterNewTarget(old(Tables()), pool, newOrderId, toOrderNo, aliasNos),
                                               fromOrderId, newOrderId, amount, newReceiptId, newTransferId)
    {
      if amount <= 0 {
        return Err(BadRequest);
      }
      if fromOrderId !in orders || !actor.sees(fromOrderId) {
        return Err(NotFound);
      }
      var fromReceived := TotalReceipts(fromOrderId, false);
      var fromBalance := orders[fromOrderId].amount - fromReceived;
      if fromBalance >= 0 {
        return Err(BadRequest);
      }
      if amount > -fromBalance {
        return Err(BadRequest);
      }
      if target.Some? && target.value in orders {
        PostTransfer(fromOrderId, target.value, amount, newReceiptId, newTransferId);
        return Ok(target.value);
      }
      var pool := CreatePoolOrder(toOrderNo, aliasNos, newInvoiceId, newOrderId);
      PostTransfer(fromOrderId, newOrderId, amount, newReceiptId, newTransferId);
      r := Ok(newOrderId);
    }

    method CleanupSafeSystemPoolSourceOrder(orderId: OrderId) returns (deleted: bool)
      requires OrderRefs(Tables())
      modifies this`orders, this`aliases
      ensures deleted <==> EmptyPoolOrder(old(Tables()), orderId)
      ensures Tables() == AfterCleanup(old(Tables()), orderId)
    {
      if orderId !in orders || !IsSystemPool(invoices[orders[orderId].invoiceId]) {
        return false;
      }
      var row := orders[orderId];
      deleted := row.amount == 0 && row.orderBalance == 0 && !row.tracked
        && (forall r | r in receipts :: receipts[r].orderId != Some(orderId))
        && (forall t | t in transfers :: !transfers[t].Touches(orderId));
      if deleted {
        orders := orders - {orderId};
        aliases := map a | a in aliases && aliases[a] != orderId :: aliases[a];
      }
    }

    /** The rows a reversal undoes once its checks have passed. */
    method UndoTransfer(transferId: TransferId)
      requires transferId in transfers && transfers[transferId].generatedReceiptId.Some?
      requires transfers[transferId].fromOrderId in orders
      modifies this`orders, this`receipts, this`transfers
      ensures Tables() == AfterReversal(old(Tables()), transferId)
      ensures receipts == old(receipts) - {old(transfers)[transferId].generatedReceiptId.value}
      ensures OrderRefs(old(Tables())) ==> OrderRefs(Tables())
    {
      var row := transfers[transferId];
      transfers := transfers - {transferId};
      receipts := receipts - {row.generatedReceiptId.value};
      orders := orders[row.fromOrderId :=
        orders[row.fromOrderId].(amount := orders[row.fromOrderId].amount - row.amount)];
      assert Tables() == Undone(old(Tables()), transferId);
      var _, _ := UpdateOrderBalance(row.fromOrderId);
      var _, _ := UpdateOrderBalance(row.toOrderId);
    }

    /** Tells whether the generated receipt is the transfer's own. */
    method CheckGeneratedReceipt(row: BalanceTransfer, ghost transferId: TransferId) returns (ok: bool)
      requires transferId in transfers && transfers[transferId] == row
      ensures ok <==> GeneratedOk(Tables(), transferId)
    {
      ok := row.generatedReceiptId.Some? && row.generatedReceiptId.value in receipts
        && receipts[row.generatedReceiptId.value].transferNo
        && receipts[row.generatedReceiptId.value].orderId == Some(row.toOrderId)
        && receipts[row.generatedReceiptId.value].usd == row.amount;
    }

    method ReverseBalanceTransfer(transferId: TransferId, expectedReceiptId: ReceiptId,
                                  actor: Actor, deferSourceCleanup: bool)
      returns (r: Result<bool>)
      requires OrderRefs(Tables()) && TransferRefs(Tables())
      modifies this`orders, this`receipts, this`transfers, this`aliases
      ensures match Reversed(old(Tables()), transferId, expectedReceiptId, actor, deferSourceCleanup)
              case Err(e) => r == Err(e) && Tables() == old(Tables())
              case Ok(after) => r.Ok? && Tables() == after
      ensures r.Ok? ==> receipts == old(receipts) - {expectedReceiptId}
      ensures OrderRefs(Tables())
    {
      if !actor.admin {
        return Err(Forbidden);
      }
      if transferId !in transfers {
        return Err(NotFound);
      }
      var row := transfers[transferId];
      if !SeesBoth(actor, row) {
        return Err(Forbidden);
      }
      var ok := CheckGeneratedReceipt(row, transferId);
      if !ok {
        return Err(Conflict);
      }
      if row.generatedReceiptId.value != expectedReceiptId || receipts[expectedReceiptId].referenced {
        return Err(Conflict);
      }
      if orders[row.fromOrderId].amount < row.amount {
        return Err(Conflict);
      }
      UndoTransfer(transferId);
      var sourceOrderDeleted := false;
      if !deferSourceCleanup && IsSystemPool(invoices[orders[row.fromOrderId].invoiceId]) {
        sourceOrderDeleted := CleanupSafeSystemPoolSourceOrder(row.fromOrderId);
      }
      r := Ok(sourceOrderDeleted);
    }

    method InspectReceiptEditTransferImpact(receiptId: ReceiptId, nextOrderId: Option<OrderId>)
      returns (r: Result<Option<TransferId>>)
      requires receiptId in receipts
      ensures r == Impact(Tables(), receiptId, nextOrderId)
    {
      var current := receipts[receiptId].orderId;
      if current.None? || nextOrderId.None? || current == nextOrderId {
        return Ok(None);
      }
      var amount := receipts[receiptId].usd;
      var candidates := set t | t in transfers && transfers[t].fromOrderId == current.value &&
                                transfers[t].toOrderId == nextOrderId.value && transfers[t].amount == amount;
      assert candidates == SameTransfers(Tables(), current.value, nextOrderId.value, amount);
      if candidates == {} {
        return Ok(None);
      }
      if |candidates| != 1 {
        return Err(Conflict);
      }
      var t :| t in candidates;
      Singleton(candidates, t);
      var row := transfers[t];
      var ok := CheckGeneratedReceipt(row, t);
      if !ok {
        return Err(Conflict);
      }
      if row.generatedReceiptId.value == receiptId {
        return Err(Conflict);
      }
      r := Ok(Some(t));
    }

    /** Binds the receipt to `nextOrderId` and refreshes both orders when it moves. */
    method RebindReceipt(receiptId: ReceiptId, nextOrderId: Option<OrderId>)
      requires receiptId in receipts
      modifies this`orders, this`receipts
      ensures Tables() == Rebound(old(Tables()), receiptId, nextOrderId)
      ensures OrderRefs(old(Tables())) ==> OrderRefs(Tables())
    {
      var current := receipts[receiptId].orderId;
      receipts := receipts[receiptId := EditedReceipt(receipts[receiptId], nextOrderId)];
      if current != nextOrderId {
        if current.Some? {
          var _, _ := UpdateOrderBalance(current.value);
        }
        if nextOrderId.Some? {
          var _, _ := UpdateOrderBalance(nextOrderId.value);
        }
      }
    }

    /** The transfer the edit has to undo, if it is the one that was confirmed. */
    method ConfirmImpact(receiptId: ReceiptId, nextOrderId: Option<OrderId>, expected: Option<TransferId>)
      returns (r: Result<Option<TransferId>>)
      requires receiptId in receipts
      ensures r == Confirmed(Impact(Tables(), receiptId, nextOrderId), expected)
    {
      r := InspectReceiptEditTransferImpact(receiptId, nextOrderId);
      if r.Err? {
        return;
      }
      if r.value.Some? && expected.None? {
        return Err(ReversalRequired);
      }
      if r.value.Some? && r.value != expected {
        return Err(Conflict);
      }
      if r.value.None? && expected.Some? {
        return Err(Conflict);
      }
    }

    method UndoAndRebind(receiptId: ReceiptId, nextOrderId: Option<OrderId>, transferId: TransferId, actor: Actor)
      returns (r: Result<bool>)
      requires OrderRefs(Tables()) && TransferRefs(Tables()) && receiptId in receipts && transferId in transfers
      requires transfers[transferId].generatedReceiptId.Some?
      requires transfers[transferId].generatedReceiptId != Some(receiptId)
      modifies this`orders, this`receipts, this`transfers, this`aliases
      ensures match UndoneAndRebound(old(Tables()), receiptId, nextOrderId, transferId, actor)
              case Err(e) => r == Err(e) && Tables() == old(Tables())
              case Ok(after) => r.Ok? && Tables() == after
    {
      var row := transfers[transferId];
      r := ReverseBalanceTransfer(transferId, row.generatedReceiptId.value, actor, true);
      if r.Err? {
        return;
      }
      RebindReceipt(receiptId, nextOrderId);
      var cleaned := CleanupSafeSystemPoolSourceOrder(row.fromOrderId);
      r := Ok(cleaned);
    }

    /** `nextOrderId` is the order the edited number resolved to, or none. */
    method ApplyReceiptEdit(receiptId: ReceiptId, nextOrderId: Option<OrderId>,
                            expectedBalanceTransferId: Option<TransferId>, actor: Actor)
      returns (r: Result<Option<TransferId>>)
      requires OrderRefs(Tables()) && TransferRefs(Tables())
      modifies this`orders, this`receipts, this`transfers, this`aliases
      ensures match Edited(old(Tables()), receiptId, nextOrderId, expectedBalanceTransferId, actor)
              case Err(e) => r == Err(e) && Tables() == old(Tables())
              case Ok(after) => r == Ok(expectedBalanceTransferId) && Tables() == after
    {
      if receiptId !in receipts {
        return Err(NotFound);
      }
      if receipts[receiptId].status == BankTransfer {
        return Err(BadRequest);
      }
      r := ConfirmImpact(receiptId, nextOrderId, expectedBalanceTransferId);
      if r.Err? {
        return;
      }
      if r.value.None? {
        RebindReceipt(receiptId, nextOrderId);
        return;
      }
      var undone := UndoAndRebind(receiptId, nextOrderId, r.value.value, actor);
      if undone.Err? {
        return Err(undone.error);
      }
    }
  }

  lemma Singleton<T>(s: set<T>, x: T)
    requires |s| == 1 && x in s
    ensures s == {x}
  {
    assert |s - {x}| == 0;
  }
}
