/**
 Saving rows to an invoice: each row raises an order of the invoice, takes an
 order over from a system pool, raises the order elsewhere, or creates one.
 */
module InvoiceSave {
  import opened Basics
  import opened Sums
  import opened Ledger
  import opened LedgerRuns
  import opened LedgerMerges
  import opened OrderAlias
  import opened Consolidation

  // ---------- the staged lookup ----------

  /** A number that is already canonical. */
  ghost predicate IsCanonical(no: string, locale: Locale) {
    Trim(no) == no && no != [] && Canonical(no, locale) == no
  }

  lemma CanonicalIsCanonical(raw: string, locale: Locale)
    requires TotalPreorder(locale) && Canonical(raw, locale) != []
    ensures IsCanonical(Canonical(raw, locale), locale)
  {
    CanonicalTrimmed(raw, locale);
    CanonicalIdempotent(raw, locale);
  }

  /** A pool order that has the number. */
  predicate PoolMatch(b: Book, o: OrderId, no: string, locale: Locale) {
    o in b.orders && InPool(b, o) && Matches(b, o, no, locale)
  }

  /** Some transfer points at the order, so the database does not delete it. */
  ghost predicate Touched(b: Book, o: OrderId) {
    exists t | t in b.transfers :: b.transfers[t].Touches(o)
  }

  /** No transfer points at an order of a system pool. */
  ghost predicate PoolsUntouched(b: Book) {
    forall o | o in b.orders && InPool(b, o) :: !Touched(b, o)
  }

  // ---------- the writes of one row ----------

  function Renamed(row: Order, no: string, locale: Locale): string {
    if Normalize(row.orderNo, locale) != Normalize(no, locale) then no else row.orderNo
  }

  function RaisedRow(row: Order, amount: int, no: string, locale: Locale): Order {
    row.(orderNo := Renamed(row, no, locale), amount := row.amount + amount, orderBalance := row.orderBalance + amount)
  }

  function WithAliases(b: Book, o: OrderId, no: string, locale: Locale): Book {
    b.(aliases := SyncedAliases(b.aliases, o, AliasNos(no, locale)))
  }

  /** An order's amount and cached balance go up by the row's amount. */
  function Raised(b: Book, o: OrderId, amount: int, no: string, locale: Locale): Book
    requires o in b.orders
  {
    WithAliases(WithRow(b, o, RaisedRow(b.orders[o], amount, no, locale)), o, no, locale)
  }

  function Created(b: Book, o: OrderId, invoice: InvoiceId, amount: int, no: string, locale: Locale): Book {
    WithAliases(WithRow(b, o, Order(invoice, no, amount, amount, false)), o, no, locale)
  }

  /** The pool order's receipts go to an order of the invoice. */
  ghost function PoolMerged(b: Book, source: OrderId, target: OrderId, no: string, locale: Locale): Book {
    Refresh(WithAliases(Absorbed(b, source, target), target, no, locale), target)
  }

  function AdoptedRow(row: Order, invoice: InvoiceId, amount: int, no: string): Order {
    row.(invoiceId := invoice, orderNo := no, amount := amount)
  }

  /** The pool order itself becomes the order of the invoice. */
  ghost function PoolAdopted(b: Book, source: OrderId, invoice: InvoiceId, amount: int, no: string, locale: Locale)
    : Book
    requires source in b.orders
  {
    Refresh(WithAliases(WithRow(b, source, AdoptedRow(b.orders[source], invoice, amount, no)), source, no, locale),
            source)
  }

  ghost function PoolMoved(b: Book, source: OrderId, invoice: InvoiceId, amount: int, target: Option<OrderId>,
                           no: string, locale: Locale): Book
    requires source in b.orders
  {
    match target
    case Some(o) => PoolMerged(b, source, o, no, locale)
    case None => PoolAdopted(b, source, invoice, amount, no, locale)
  }

  /** `o` has come out of the pool order `source`: it is the target that took it
      over, or the pool order itself. */
  ghost predicate MigratedFrom(b: Book, after: Book, source: OrderId, o: OrderId, invoice: InvoiceId, amount: int,
                               target: Option<OrderId>, no: string, locale: Locale) {
    && Found(b, source, no, InPools, locale) && (target.Some? ==> !Touched(b, source))
    && o == (if target.Some? then target.value else source)
    && after == PoolMoved(b, source, invoice, amount, target, no, locale)
  }

  ghost predicate InSomePool(b: Book, no: string, locale: Locale) {
    exists p :: PoolMatch(b, p, no, locale)
  }

  /** `o` has come out of some pool order with the number. */
  ghost predicate Migrated(b: Book, after: Book, o: OrderId, invoice: InvoiceId, amount: int, target: Option<OrderId>,
                           no: string, locale: Locale) {
    exists p :: MigratedFrom(b, after, p, o, invoice, amount, target, no, locale)
  }

  /** The book after one row of a formal invoice, whichever way the row went. */
  ghost predicate RowSaved(b: Book, after: Book, invoice: InvoiceId, no: string, amount: int, newId: OrderId,
                           o: OrderId, locale: Locale) {
    if Findable(b, no, InInvoice(invoice), locale) then
      && Found(b, o, no, InInvoice(invoice), locale)
      && var raised := Raised(b, o, amount, no, locale);
         if InSomePool(b, no, locale)
         then Migrated(raised, after, o, invoice, amount, Some(o), no, locale)
         else after == raised
    else if InSomePool(b, no, locale) then
      Migrated(b, after, o, invoice, amount, None, no, locale)
    else if Findable(b, no, Anywhere, locale) then
      Found(b, o, no, Anywhere, locale) && after == Raised(b, o, amount, no, locale)
    else
      o == newId && after == Created(b, newId, invoice, amount, no, locale)
  }

  /** The book after one row of a pool invoice: pool orders stay where they are. */
  ghost predicate PoolRowSaved(b: Book, after: Book, invoice: InvoiceId, no: string, amount: int, newId: OrderId,
                               o: OrderId, locale: Locale) {
    if Findable(b, no, InInvoice(invoice), locale) then
      Found(b, o, no, InInvoice(invoice), locale) && after == Raised(b, o, amount, no, locale)
    else if Findable(b, no, Anywhere, locale) then
      Found(b, o, no, Anywhere, locale) && after == Raised(b, o, amount, no, locale)
    else
      o == newId && after == Created(b, newId, invoice, amount, no, locale)
  }

  /** The row with this number and amount is booked on the order `o`. */
  ghost predicate RowBooked(b: Book, after: Book, invoice: InvoiceId, no: string, amount: int, newId: OrderId,
                            o: OrderId, locale: Locale) {
    if invoice in b.invoices && IsSystemPool(b.invoices[invoice])
    then PoolRowSaved(b, after, invoice, no, amount, newId, o, locale)
    else RowSaved(b, after, invoice, no, amount, newId, o, locale)
  }

  // ---------- what each write keeps ----------

  ghost predicate NumbersUnique(b: Book) {
    forall o, p | o in b.orders && p in b.orders && o != p && b.orders[o].invoiceId == b.orders[p].invoiceId ::
      b.orders[o].orderNo != b.orders[p].orderNo
  }

  ghost predicate Consistent(b: Book) {
    Coherent(b) && OrderRefs(b) && ReceiptRefs(b) && TransferRefs(b) && AliasRefs(b) && NumbersUnique(b)
  }

  /** The formal orders gained `amount`; no receipt is lost, and receipts of
      formal orders stay where they are. */
  ghost predicate Gained(b: Book, after: Book, amount: int) {
    && Consistent(after)
    && FormalTotal(after) == FormalTotal(b) + amount
    && ReceiptsKept(b, after)
    && after.invoices == b.invoices && after.transfers == b.transfers
    && forall o | o in b.orders && !InPool(b, o) :: o in after.orders && !InPool(after, o)
  }

  /** No order came into a system pool. */
  ghost predicate NoNewPool(b: Book, after: Book) {
    forall o | o in after.orders && InPool(after, o) :: o in b.orders && InPool(b, o)
  }

  lemma GainedTrans(a: Book, b: Book, c: Book, x: int, y: int)
    requires Gained(a, b, x) && Gained(b, c, y)
    ensures Gained(a, c, x + y)
  {
    KeptTrans(a, b, c);
  }

  /** No other order of the invoice has the number. */
  ghost predicate NumberFree(b: Book, invoice: InvoiceId, no: string, except: OrderId) {
    forall o | o in b.orders && o != except && b.orders[o].invoiceId == invoice :: b.orders[o].orderNo != no
  }

  lemma WithRowRefs(b: Book, o: OrderId, row: Order)
    requires OrderRefs(b) && ReceiptRefs(b) && TransferRefs(b) && row.invoiceId in b.invoices
    ensures var after := WithRow(b, o, row);
            OrderRefs(after) && ReceiptRefs(after) && TransferRefs(after) && ReceiptsKept(b, after)
  {
  }

  lemma WithRowUnique(b: Book, o: OrderId, row: Order)
    requires NumbersUnique(b) && NumberFree(b, row.invoiceId, row.orderNo, o)
    ensures NumbersUnique(WithRow(b, o, row))
  {
  }

  lemma WithRowCoherent(b: Book, o: OrderId, row: Order)
    requires Coherent(b) && row.orderBalance == row.amount - Sum(Counted(b.receipts, o))
    ensures Coherent(WithRow(b, o, row))
  {
  }

  /** What a row holds for the formal total. */
  function FormalPart(b: Book, invoice: InvoiceId, amount: int): int
    requires invoice in b.invoices
  {
    if IsSystemPool(b.invoices[invoice]) then 0 else amount
  }

  /** Writing a right row adds exactly what it holds beyond its predecessor. */
  lemma WithRowGains(b: Book, o: OrderId, row: Order)
    requires Consistent(b) && NumberFree(b, row.invoiceId, row.orderNo, o)
    requires row.invoiceId in b.invoices
    requires o in b.orders && !InPool(b, o) ==> !IsSystemPool(b.invoices[row.invoiceId])
    requires row.orderBalance == row.amount - Sum(Counted(b.receipts, o))
    ensures Gained(b, WithRow(b, o, row), FormalPart(b, row.invoiceId, row.amount) - At(FormalAmounts(b), o))
  {
    WithRowRefs(b, o, row);
    WithRowUnique(b, o, row);
    WithRowCoherent(b, o, row);
    WithRowFormal(b, o, row);
  }

  lemma SyncedConsistent(b: Book, o: OrderId, aliasNos: set<string>)
    requires Consistent(b) && o in b.orders
    ensures Consistent(b.(aliases := SyncedAliases(b.aliases, o, aliasNos)))
  {
    var synced := b.(aliases := SyncedAliases(b.aliases, o, aliasNos));
    assert forall p | p in synced.orders :: Live(synced, p) == Live(b, p);
  }

  /** Aliases carry no money. */
  lemma AliasesGain(b: Book, after: Book, amount: int, o: OrderId, no: string, locale: Locale)
    requires Gained(b, after, amount) && o in after.orders
    ensures Gained(b, WithAliases(after, o, no, locale), amount)
  {
    var synced := WithAliases(after, o, no, locale);
    SyncedConsistent(after, o, AliasNos(no, locale));
    SumSame(FormalAmounts(synced), FormalAmounts(after));
  }

  lemma RaisedGains(b: Book, o: OrderId, amount: int, no: string, locale: Locale)
    requires Consistent(b) && o in b.orders
    requires b.orders[o].orderNo == no || NumberFree(b, b.orders[o].invoiceId, no, o)
    ensures Gained(b, Raised(b, o, amount, no, locale), FormalPart(b, b.orders[o].invoiceId, amount))
  {
    var row := RaisedRow(b.orders[o], amount, no, locale);
    assert NumberFree(b, row.invoiceId, row.orderNo, o);
    assert Live(b, o) == b.orders[o].orderBalance;
    WithRowGains(b, o, row);
    AliasesGain(b, WithRow(b, o, row), FormalPart(b, row.invoiceId, amount), o, no, locale);
  }

  lemma CreatedGains(b: Book, o: OrderId, invoice: InvoiceId, amount: int, no: string, locale: Locale)
    requires Consistent(b) && o !in b.orders && invoice in b.invoices && NumberFree(b, invoice, no, o)
    ensures Gained(b, Created(b, o, invoice, amount, no, locale), FormalPart(b, invoice, amount))
  {
    var row := Order(invoice, no, amount, amount, false);
    assert Counted(b.receipts, o) == map[];
    WithRowGains(b, o, row);
    AliasesGain(b, WithRow(b, o, row), FormalPart(b, invoice, amount), o, no, locale);
  }

  /** The adopted row with the balance its receipts leave. */
  ghost function RightRow(b: Book, source: OrderId, invoice: InvoiceId, amount: int, no: string): Order
    requires source in b.orders
  {
    Balanced(b, source, AdoptedRow(b.orders[source], invoice, amount, no))
  }

  ghost function Balanced(b: Book, o: OrderId, row: Order): Order {
    row.(orderBalance := row.amount - Sum(Counted(b.receipts, o)))
  }

  /** The pool order carries its receipts with it, so its balance is refreshed. */
  lemma PoolAdoptedGains(b: Book, source: OrderId, invoice: InvoiceId, amount: int, no: string, locale: Locale)
    requires Consistent(b) && source in b.orders && InPool(b, source)
    requires invoice in b.invoices && !IsSystemPool(b.invoices[invoice]) && NumberFree(b, invoice, no, source)
    ensures Gained(b, PoolAdopted(b, source, invoice, amount, no, locale), amount)
  {
    AdoptedShape(b, source, invoice, amount, no, locale);
    RightRowGains(b, source, RightRow(b, source, invoice, amount, no), no, locale);
  }

  lemma RightRowGains(b: Book, source: OrderId, row: Order, no: string, locale: Locale)
    requires Consistent(b) && source in b.orders && InPool(b, source)
    requires row.invoiceId in b.invoices && !IsSystemPool(b.invoices[row.invoiceId])
    requires NumberFree(b, row.invoiceId, row.orderNo, source)
    requires row.orderBalance == row.amount - Sum(Counted(b.receipts, source))
    ensures Gained(b, WithAliases(WithRow(b, source, row), source, no, locale), row.amount)
  {
    WithRowGains(b, source, row);
    AliasesGain(b, WithRow(b, source, row), row.amount, source, no, locale);
  }

  lemma AdoptedShape(b: Book, source: OrderId, invoice: InvoiceId, amount: int, no: string, locale: Locale)
    requires source in b.orders
    ensures PoolAdopted(b, source, invoice, amount, no, locale) ==
            WithAliases(WithRow(b, source, RightRow(b, source, invoice, amount, no)), source, no, locale)
  {
    RefreshedAliases(b, source, AdoptedRow(b.orders[source], invoice, amount, no), no, locale);
  }

  lemma RefreshedAliases(b: Book, o: OrderId, row: Order, no: string, locale: Locale)
    ensures Refresh(WithAliases(WithRow(b, o, row), o, no, locale), o) ==
            WithAliases(WithRow(b, o, Balanced(b, o, row)), o, no, locale)
  {
    RefreshThenAliases(WithRow(b, o, row), o, no, locale);
    RefreshOfRow(b, o, row);
  }

  lemma RefreshOfRow(b: Book, o: OrderId, row: Order)
    ensures Refresh(WithRow(b, o, row), o) ==
            WithRow(b, o, Balanced(b, o, row))
  {
  }

  lemma AbsorbedUnique(b: Book, source: OrderId, target: OrderId)
    requires NumbersUnique(b)
    ensures NumbersUnique(Absorbed(b, source, target))
  {
  }

  lemma RefreshFormal(p: Book, o: OrderId)
    ensures FormalTotal(Refresh(p, o)) == FormalTotal(p)
    ensures forall q | q in p.orders :: q in Refresh(p, o).orders && (InPool(Refresh(p, o), q) <==> InPool(p, q))
  {
    RefreshKeeps(p, o);
    SumSame(FormalAmounts(Refresh(p, o)), FormalAmounts(p));
  }

  lemma RefreshConsistent(p: Book, o: OrderId)
    requires OrderRefs(p) && ReceiptRefs(p) && TransferRefs(p) && AliasRefs(p) && NumbersUnique(p)
    requires CoherentExcept(p, {o})
    ensures Consistent(Refresh(p, o))
  {
    RefreshCoherent(p, {o}, o);
    RefreshKeeps(p, o);
  }

  lemma RefreshGains(b: Book, p: Book, o: OrderId)
    requires OrderRefs(p) && ReceiptRefs(p) && TransferRefs(p) && AliasRefs(p) && NumbersUnique(p)
    requires CoherentExcept(p, {o})
    requires ReceiptsKept(b, p) && p.invoices == b.invoices && p.transfers == b.transfers
    requires forall q | q in b.orders && !InPool(b, q) :: q in p.orders && !InPool(p, q)
    ensures Gained(b, Refresh(p, o), FormalTotal(p) - FormalTotal(b))
  {
    RefreshConsistent(p, o);
    RefreshFormal(p, o);
    RefreshKeeps(p, o);
  }

  /** Receipts of the pool order go to the formal order; no formal amount moves. */
  lemma PoolMergedGains(b: Book, source: OrderId, target: OrderId, no: string, locale: Locale)
    requires Consistent(b) && source in b.orders && InPool(b, source) && target in b.orders && !InPool(b, target)
    requires forall t | t in b.transfers :: !b.transfers[t].Touches(source)
    ensures Gained(b, PoolMerged(b, source, target, no, locale), 0)
  {
    var absorbed := Absorbed(b, source, target);
    AbsorbedRefs(b, source, target);
    AbsorbedUnique(b, source, target);
    AbsorbedFormal(b, source, target);
    AbsorbedCoherent(b, source, target, {target});
    RefreshGains(b, absorbed, target);
    AliasesGain(b, Refresh(absorbed, target), 0, target, no, locale);
    RefreshThenAliases(absorbed, target, no, locale);
  }

  lemma RefreshThenAliases(b: Book, o: OrderId, no: string, locale: Locale)
    ensures WithAliases(Refresh(b, o), o, no, locale) == Refresh(WithAliases(b, o, no, locale), o)
  {
    RefreshKeeps(b, o);
    RefreshIgnoresAliases(b, o, SyncedAliases(b.aliases, o, AliasNos(no, locale)));
  }

  lemma RefreshIgnoresAliases(b: Book, o: OrderId, aliases: map<string, OrderId>)
    ensures Refresh(b.(aliases := aliases), o) == Refresh(b, o).(aliases := aliases)
  {
  }

  // ---------- saving one row ----------

  method RaiseOrder(db: LedgerDb, o: OrderId, amount: int, no: string, locale: Locale)
    requires o in db.orders
    modifies db`orders, db`aliases
    ensures db.Tables() == Raised(old(db.Tables()), o, amount, no, locale)
  {
    db.orders := db.orders[o := RaisedRow(db.orders[o], amount, no, locale)];
    db.aliases := SyncedAliases(db.aliases, o, AliasNos(no, locale));
  }

  method CreateOrder(db: LedgerDb, newId: OrderId, invoice: InvoiceId, amount: int, no: string, locale: Locale)
    modifies db`orders, db`aliases
    ensures db.Tables() == Created(old(db.Tables()), newId, invoice, amount, no, locale)
  {
    db.orders := db.orders[newId := Order(invoice, no, amount, amount, false)];
    db.aliases := SyncedAliases(db.aliases, newId, AliasNos(no, locale));
  }

  /** Moves a pool order: into `target` when there is one, else into the invoice itself. */
  method ApplyVerifiedSystemPoolMove(db: LedgerDb, source: OrderId, invoice: InvoiceId, amount: int,
                                     target: Option<OrderId>, no: string, locale: Locale)
    returns (moved: bool)
    requires source in db.orders
    modifies db
    ensures moved ==> db.Tables() == PoolMoved(old(db.Tables()), source, invoice, amount, target, no, locale)
    ensures moved <==> target.None? || !Touched(old(db.Tables()), source)
  {
    var o := source;
    if target.Some? {
      moved := AbsorbOrder(db, source, target.value);
      if !moved {
        return;
      }
      o := target.value;
    } else {
      db.orders := db.orders[source := AdoptedRow(db.orders[source], invoice, amount, no)];
    }
    db.aliases := SyncedAliases(db.aliases, o, AliasNos(no, locale));
    var _, _ := db.UpdateOrderBalance(o);
    moved := true;
  }

  /** A scoped lookup that finds another spelling shows that the number is free. */
  lemma FoundOtherSpelling(b: Book, o: OrderId, scope: Scope, no: string, locale: Locale)
    requires IsCanonical(no, locale) && o in b.orders && InScope(b, o, scope)
    requires scope == Anywhere || scope == InInvoice(b.orders[o].invoiceId)
    requires FindableByNumber(b, no, scope, locale) ==> MatchesNumber(b, o, no, locale)
    ensures b.orders[o].orderNo == no || NumberFree(b, b.orders[o].invoiceId, no, o)
  {
    forall p | p in b.orders && p != o && b.orders[p].invoiceId == b.orders[o].invoiceId
      ensures b.orders[o].orderNo == no || b.orders[p].orderNo != no
    {
      assert InScope(b, p, scope);
    }
  }

  /** Nothing found in the invoice: the number is free there. */
  lemma NothingFound(b: Book, invoice: InvoiceId, no: string, except: OrderId, locale: Locale)
    requires IsCanonical(no, locale)
    requires !Findable(b, no, InInvoice(invoice), locale)
    ensures NumberFree(b, invoice, no, except)
  {
    forall o | o in b.orders && b.orders[o].invoiceId == invoice
      ensures b.orders[o].orderNo != no
    {
      assert !Matches(b, o, no, locale);
    }
  }

  lemma PoolMatchIsFindable(b: Book, no: string, locale: Locale)
    requires IsCanonical(no, locale)
    ensures Findable(b, no, InPools, locale) <==> InSomePool(b, no, locale)
  {
    forall o | PoolMatch(b, o, no, locale)
      ensures InScope(b, o, InPools)
    {
    }
    if Findable(b, no, InPools, locale) {
      var o :| o in b.orders && InScope(b, o, InPools) && Matches(b, o, no, locale);
      assert PoolMatch(b, o, no, locale);
    }
  }

  lemma AdoptedRowIs(b: Book, source: OrderId, invoice: InvoiceId, amount: int, no: string, locale: Locale)
    requires source in b.orders && invoice in b.invoices && !IsSystemPool(b.invoices[invoice])
    ensures var after := PoolAdopted(b, source, invoice, amount, no, locale);
            && source in after.orders && !InPool(after, source) && after.orders.Keys == b.orders.Keys
            && NoNewPool(b, after)
  {
    AdoptedShape(b, source, invoice, amount, no, locale);
  }

  lemma MergedRowIs(b: Book, source: OrderId, target: OrderId, no: string, locale: Locale)
    requires target in b.orders && target != source && !InPool(b, target)
    ensures var after := PoolMerged(b, source, target, no, locale);
            && target in after.orders && !InPool(after, target) && after.orders.Keys <= b.orders.Keys
            && NoNewPool(b, after)
  {
    RefreshKeeps(WithAliases(Absorbed(b, source, target), target, no, locale), target);
  }

  /** Moves a pool order that was found; the formal orders gain the row's amount
      when the order comes over, and nothing when the target had it already. */
  method TakeOver(db: LedgerDb, source: OrderId, invoice: InvoiceId, no: string, amount: int,
                  target: Option<OrderId>, locale: Locale)
    returns (moved: bool)
    requires Consistent(db.Tables()) && source in db.orders && InPool(db.Tables(), source)
    requires invoice in db.invoices && !IsSystemPool(db.invoices[invoice])
    requires if target.Some? then target.value in db.orders && !InPool(db.Tables(), target.value)
             else NumberFree(db.Tables(), invoice, no, source)
    modifies db
    ensures moved <==> target.None? || !Touched(old(db.Tables()), source)
    ensures moved ==> db.Tables() == PoolMoved(old(db.Tables()), source, invoice, amount, target, no, locale)
    ensures moved ==> Gained(old(db.Tables()), db.Tables(), if target.Some? then 0 else amount)
    ensures moved ==> var o := if target.Some? then target.value else source;
                      o in db.orders && !InPool(db.Tables(), o)
    ensures moved ==> NoNewPool(old(db.Tables()), db.Tables()) && forall o | o in db.orders :: o in old(db.orders)
  {
    ghost var b := db.Tables();
    moved := ApplyVerifiedSystemPoolMove(db, source, invoice, amount, target, no, locale);
    if target.None? {
      PoolAdoptedGains(b, source, invoice, amount, no, locale);
      AdoptedRowIs(b, source, invoice, amount, no, locale);
    } else if moved {
      PoolMergedGains(b, source, target.value, no, locale);
      MergedRowIs(b, source, target.value, no, locale);
    }
  }

  /** Takes a pool order with the number over, if there is one. */
  method MigrateSystemPoolOrder(db: LedgerDb, invoice: InvoiceId, no: string, amount: int,
                                target: Option<OrderId>, locale: Locale)
    returns (r: Result<Option<OrderId>>)
    requires Consistent(db.Tables()) && IsCanonical(no, locale)
    requires invoice in db.invoices && !IsSystemPool(db.invoices[invoice])
    requires target.Some? ==> target.value in db.orders && !InPool(db.Tables(), target.value)
    requires target.None? ==> !Findable(db.Tables(), no, InInvoice(invoice), locale)
    modifies db
    ensures r.Ok? && r.value.Some? ==>
              && Gained(old(db.Tables()), db.Tables(), if target.Some? then 0 else amount)
              && r.value.value in db.orders && !InPool(db.Tables(), r.value.value)
    ensures r.Ok? ==> (r.value.Some? <==> InSomePool(old(db.Tables()), no, locale))
    ensures r.Ok? && r.value.None? ==> db.Tables() == old(db.Tables())
    ensures r.Ok? && r.value.Some? ==>
              Migrated(old(db.Tables()), db.Tables(), r.value.value, invoice, amount, target, no, locale)
    ensures r.Err? ==>
              && r.error == ForeignKey && target.Some?
              && exists o :: PoolMatch(old(db.Tables()), o, no, locale) && Touched(old(db.Tables()), o)
    ensures r.Ok? ==> NoNewPool(old(db.Tables()), db.Tables())
    ensures r.Ok? ==> forall o | o in db.orders :: o in old(db.orders)
  {
    ghost var b := db.Tables();
    var pool := FindOrderId(db, no, InPools, locale);
    PoolMatchIsFindable(b, no, locale);
    if pool.None? {
      return Ok(None);
    }
    assert PoolMatch(b, pool.value, no, locale);
    if target.None? {
      NothingFound(b, invoice, no, pool.value, locale);
    }
    var moved := TakeOver(db, pool.value, invoice, no, amount, target, locale);
    if !moved {
      return Err(ForeignKey);
    }
    r := Ok(if target.Some? then target else pool);
    assert MigratedFrom(b, db.Tables(), pool.value, r.value.value, invoice, amount, target, no, locale);
  }

  /** Raises the order that has the number in another invoice, or creates one.
      Neither the invoice nor a pool has the number, so the wide search does not
      lead to a pool order either: each of its stages is one of the narrow searches. */
  method SaveElsewhere(db: LedgerDb, invoice: InvoiceId, no: string, amount: int, newId: OrderId, locale: Locale)
    returns (o: OrderId)
    requires Consistent(db.Tables()) && IsCanonical(no, locale) && newId !in db.orders
    requires invoice in db.invoices && !IsSystemPool(db.invoices[invoice])
    requires !Findable(db.Tables(), no, InInvoice(invoice), locale) && !InSomePool(db.Tables(), no, locale)
    modifies db`orders, db`aliases
    ensures Gained(old(db.Tables()), db.Tables(), amount) && NoNewPool(old(db.Tables()), db.Tables())
    ensures if Findable(old(db.Tables()), no, Anywhere, locale)
            then && Found(old(db.Tables()), o, no, Anywhere, locale) && !InPool(old(db.Tables()), o)
                 && db.Tables() == Raised(old(db.Tables()), o, amount, no, locale)
            else o == newId && db.Tables() == Created(old(db.Tables()), newId, invoice, amount, no, locale)
    ensures o in db.orders && !InPool(db.Tables(), o)
  {
    ghost var b := db.Tables();
    var global := FindOrderId(db, no, Anywhere, locale);
    if global.Some? {
      assert !PoolMatch(b, global.value, no, locale);
      FoundOtherSpelling(b, global.value, Anywhere, no, locale);
      RaisedGains(b, global.value, amount, no, locale);
      RaiseOrder(db, global.value, amount, no, locale);
      return global.value;
    }
    NothingFound(b, invoice, no, newId, locale);
    CreatedGains(b, newId, invoice, amount, no, locale);
    CreateOrder(db, newId, invoice, amount, no, locale);
    o := newId;
  }

  lemma SyncedOthers(b: Book, e: OrderId, aliasNos: set<string>, o: OrderId, no: string, locale: Locale)
    requires o != e
    ensures var after := b.(aliases := SyncedAliases(b.aliases, e, aliasNos));
            MatchesAlias(after, o, no, locale) <==> MatchesAlias(b, o, no, locale)
  {
    var synced := SyncedAliases(b.aliases, e, aliasNos);
    assert forall a :: a in synced && synced[a] == o <==> a in b.aliases && b.aliases[a] == o;
  }

  /** Raising a formal order does not change which pool orders have a number. */
  lemma RaisedPoolMatch(b: Book, e: OrderId, amount: int, no: string, locale: Locale, o: OrderId)
    requires e in b.orders && !InPool(b, e)
    ensures var after := Raised(b, e, amount, no, locale);
            PoolMatch(after, o, no, locale) <==> PoolMatch(b, o, no, locale)
  {
    if o != e {
      var row := WithRow(b, e, RaisedRow(b.orders[e], amount, no, locale));
      SyncedOthers(row, e, AliasNos(no, locale), o, no, locale);
      assert MatchesAlias(row, o, no, locale) <==> MatchesAlias(b, o, no, locale);
    }
  }

  /** A row is refused when the invoice has the number and a transfer points at
      the pool order to merge. */
  ghost predicate RowRefused(b: Book, invoice: InvoiceId, no: string, locale: Locale) {
    && Findable(b, no, InInvoice(invoice), locale)
    && exists o :: PoolMatch(b, o, no, locale) && Touched(b, o)
  }

  /** A row is accepted when the invoice does not have the number, no pool has it,
      or no transfer points at a pool order that has it. */
  ghost predicate RowAccepted(b: Book, invoice: InvoiceId, no: string, locale: Locale) {
    || !Findable(b, no, InInvoice(invoice), locale)
    || !InSomePool(b, no, locale)
    || exists o :: PoolMatch(b, o, no, locale) && !Touched(b, o)
  }

  lemma RaisedRefusal(b: Book, e: OrderId, amount: int, no: string, locale: Locale)
    requires e in b.orders && !InPool(b, e)
    ensures var after := Raised(b, e, amount, no, locale);
            && (forall o :: PoolMatch(after, o, no, locale) <==> PoolMatch(b, o, no, locale))
            && (forall o :: Touched(after, o) <==> Touched(b, o))
            && NoNewPool(b, after)
  {
    forall o {
      RaisedPoolMatch(b, e, amount, no, locale, o);
    }
  }

  lemma MigratedUntouched(b: Book, after: Book, o: OrderId, invoice: InvoiceId, amount: int, target: Option<OrderId>,
                          no: string, locale: Locale)
    requires Migrated(b, after, o, invoice, amount, target, no, locale) && target.Some?
    ensures exists p :: PoolMatch(b, p, no, locale) && !Touched(b, p)
  {
    var p :| MigratedFrom(b, after, p, o, invoice, amount, target, no, locale);
    assert PoolMatch(b, p, no, locale);
  }

  /** The row raised an order of its invoice, which then took a pool order over if
      some pool had the number. */
  lemma SavedInInvoice(b: Book, raised: Book, after: Book, invoice: InvoiceId, no: string, amount: int,
                       newId: OrderId, o: OrderId, locale: Locale)
    requires Findable(b, no, InInvoice(invoice), locale) && Found(b, o, no, InInvoice(invoice), locale)
    requires raised == Raised(b, o, amount, no, locale)
    requires forall p :: PoolMatch(raised, p, no, locale) <==> PoolMatch(b, p, no, locale)
    requires if InSomePool(raised, no, locale) then Migrated(raised, after, o, invoice, amount, Some(o), no, locale)
             else after == raised
    ensures RowSaved(b, after, invoice, no, amount, newId, o, locale)
    ensures RowAccepted(b, invoice, no, locale)
  {
    if InSomePool(raised, no, locale) {
      MigratedUntouched(raised, after, o, invoice, amount, Some(o), no, locale);
      var p :| PoolMatch(raised, p, no, locale) && !Touched(raised, p);
      assert !Touched(b, p);
    }
  }

  lemma MigratedToTarget(b: Book, after: Book, o: OrderId, invoice: InvoiceId, amount: int, e: OrderId,
                         no: string, locale: Locale)
    requires Migrated(b, after, o, invoice, amount, Some(e), no, locale)
    ensures o == e
  {
  }

  lemma RefusedBefore(b: Book, raised: Book, invoice: InvoiceId, no: string, locale: Locale)
    requires Findable(b, no, InInvoice(invoice), locale) && raised.transfers == b.transfers
    requires forall p :: PoolMatch(raised, p, no, locale) <==> PoolMatch(b, p, no, locale)
    requires exists o :: PoolMatch(raised, o, no, locale) && Touched(raised, o)
    ensures RowRefused(b, invoice, no, locale)
  {
    var o :| PoolMatch(raised, o, no, locale) && Touched(raised, o);
    assert PoolMatch(b, o, no, locale) && Touched(b, o);
  }

  /** Raising a formal order moved its amount in, and no pool order. */
  ghost predicate RaisedWell(b: Book, after: Book, o: OrderId, amount: int, no: string, locale: Locale) {
    && Gained(b, after, amount) && NoNewPool(b, after) && after.orders.Keys == b.orders.Keys
    && o in after.orders && !InPool(after, o)
  }

  lemma RaisedIsWell(b: Book, o: OrderId, amount: int, no: string, locale: Locale)
    requires Consistent(b) && o in b.orders && !InPool(b, o)
    requires b.orders[o].orderNo == no || NumberFree(b, b.orders[o].invoiceId, no, o)
    ensures RaisedWell(b, Raised(b, o, amount, no, locale), o, amount, no, locale)
  {
    RaisedGains(b, o, amount, no, locale);
  }

  /** Raises the order of the invoice that has the number, if there is one. */
  method RaiseExisting(db: LedgerDb, invoice: InvoiceId, no: string, amount: int, locale: Locale)
    returns (existing: Option<OrderId>)
    requires Consistent(db.Tables()) && IsCanonical(no, locale)
    requires invoice in db.invoices && !IsSystemPool(db.invoices[invoice])
    modifies db`orders, db`aliases
    ensures existing.Some? <==> Findable(old(db.Tables()), no, InInvoice(invoice), locale)
    ensures existing.None? ==> db.Tables() == old(db.Tables())
    ensures existing.Some? ==>
              && Found(old(db.Tables()), existing.value, no, InInvoice(invoice), locale)
              && db.Tables() == Raised(old(db.Tables()), existing.value, amount, no, locale)
              && RaisedWell(old(db.Tables()), db.Tables(), existing.value, amount, no, locale)
    ensures forall o :: PoolMatch(db.Tables(), o, no, locale) <==> PoolMatch(old(db.Tables()), o, no, locale)
  {
    ghost var b := db.Tables();
    existing := FindOrderId(db, no, InInvoice(invoice), locale);
    if existing.Some? {
      FoundOtherSpelling(b, existing.value, InInvoice(invoice), no, locale);
      RaisedIsWell(b, existing.value, amount, no, locale);
      RaisedRefusal(b, existing.value, amount, no, locale);
      RaiseOrder(db, existing.value, amount, no, locale);
    }
  }

  /** One row of a formal invoice: whichever way it goes, the formal orders gain
      exactly its amount.  Only a pool order that a transfer points at, and that
      would have to be merged, makes the row fail. */
  method SaveRow(db: LedgerDb, invoice: InvoiceId, no: string, amount: int, newId: OrderId, locale: Locale)
    returns (r: Result<OrderId>)
    requires Consistent(db.Tables()) && IsCanonical(no, locale) && newId !in db.orders
    requires invoice in db.invoices && !IsSystemPool(db.invoices[invoice])
    modifies db
    ensures r.Ok? ==> Gained(old(db.Tables()), db.Tables(), amount) && NoNewPool(old(db.Tables()), db.Tables())
    ensures r.Ok? ==> RowSaved(old(db.Tables()), db.Tables(), invoice, no, amount, newId, r.value, locale)
    ensures r.Ok? ==> RowAccepted(old(db.Tables()), invoice, no, locale)
    ensures r.Err? ==> r.error == ForeignKey && RowRefused(old(db.Tables()), invoice, no, locale)
    ensures r.Ok? ==> r.value in db.orders && !InPool(db.Tables(), r.value)
    ensures r.Ok? ==> forall o | o in db.orders :: o in old(db.orders) || o == newId
  {
    ghost var b := db.Tables();
    var existing := RaiseExisting(db, invoice, no, amount, locale);
    ghost var mid := db.Tables();
    var migrated := MigrateSystemPoolOrder(db, invoice, no, amount, existing, locale);
    if migrated.Err? {
      RefusedBefore(b, mid, invoice, no, locale);
      return Err(migrated.error);
    }
    if existing.Some? {
      if migrated.value.Some? {
        GainedTrans(b, mid, db.Tables(), amount, 0);
        MigratedToTarget(mid, db.Tables(), migrated.value.value, invoice, amount, existing.value, no, locale);
      }
      SavedInInvoice(b, mid, db.Tables(), invoice, no, amount, newId, existing.value, locale);
      return Ok(existing.value);
    }
    if migrated.value.Some? {
      return Ok(migrated.value.value);
    }
    var o := SaveElsewhere(db, invoice, no, amount, newId, locale);
    r := Ok(o);
  }

  /** One row of a pool invoice: pool orders are left where they are, so the
      formal orders gain the amount or nothing. */
  method SavePoolRow(db: LedgerDb, invoice: InvoiceId, no: string, amount: int, newId: OrderId, locale: Locale)
    returns (o: OrderId, ghost gain: int)
    requires Consistent(db.Tables()) && IsCanonical(no, locale) && newId !in db.orders
    requires invoice in db.invoices && IsSystemPool(db.invoices[invoice])
    modifies db`orders, db`aliases
    ensures Gained(old(db.Tables()), db.Tables(), gain) && (gain == 0 || gain == amount)
    ensures o in db.orders && (gain == 0 <==> InPool(db.Tables(), o) || amount == 0)
    ensures PoolRowSaved(old(db.Tables()), db.Tables(), invoice, no, amount, newId, o, locale)
    ensures forall o | o in db.orders :: o in old(db.orders) || o == newId
  {
    ghost var b := db.Tables();
    var existing := FindOrderId(db, no, InInvoice(invoice), locale);
    if existing.Some? {
      FoundOtherSpelling(b, existing.value, InInvoice(invoice), no, locale);
      RaisedGains(b, existing.value, amount, no, locale);
      RaiseOrder(db, existing.value, amount, no, locale);
      return existing.value, FormalPart(b, b.orders[existing.value].invoiceId, amount);
    }
    var global := FindOrderId(db, no, Anywhere, locale);
    if global.Some? {
      FoundOtherSpelling(b, global.value, Anywhere, no, locale);
      RaisedGains(b, global.value, amount, no, locale);
      RaiseOrder(db, global.value, amount, no, locale);
      return global.value, FormalPart(b, b.orders[global.value].invoiceId, amount);
    }
    NothingFound(b, invoice, no, newId, locale);
    CreatedGains(b, newId, invoice, amount, no, locale);
    CreateOrder(db, newId, invoice, amount, no, locale);
    o, gain := newId, 0;
  }

  // ---------- saving an invoice ----------

  datatype Row = Row(orderNo: string, amount: int, hasMark: bool)

  function RowNumber(row: Row, locale: Locale): string {
    Canonical(Trim(row.orderNo), locale)
  }

  predicate RowComplete(row: Row, locale: Locale) {
    RowNumber(row, locale) != [] && 0 < row.amount && row.hasMark
  }

  function RowsTotal(rows: seq<Row>): int {
    if rows == [] then 0 else RowsTotal(rows[..|rows| - 1]) + rows[|rows| - 1].amount
  }

  ghost predicate BookedAt(b: Book, after: Book, invoice: InvoiceId, row: Row, newId: OrderId, o: OrderId,
                           locale: Locale) {
    RowBooked(b, after, invoice, RowNumber(row, locale), row.amount, newId, o, locale)
  }

  /** The first `n` rows were booked one after the other, from one book to the next,
      each with its own number and amount. */
  ghost predicate RowsBooked(books: seq<Book>, orders: seq<OrderId>, invoice: InvoiceId, rows: seq<Row>,
                             newIds: seq<OrderId>, n: nat, locale: Locale)
    requires n <= |rows| == |newIds|
  {
    && |books| == n + 1 && |orders| == n
    && forall i | 0 <= i < n :: BookedAt(books[i], books[i + 1], invoice, rows[i], newIds[i], orders[i], locale)
  }

  lemma OneMoreBooked(books: seq<Book>, orders: seq<OrderId>, invoice: InvoiceId, rows: seq<Row>,
                      newIds: seq<OrderId>, n: nat, after: Book, o: OrderId, locale: Locale)
    requires n < |rows| == |newIds| && RowsBooked(books, orders, invoice, rows, newIds, n, locale)
    requires BookedAt(books[n], after, invoice, rows[n], newIds[n], o, locale)
    ensures RowsBooked(books + [after], orders + [o], invoice, rows, newIds, n + 1, locale)
  {
    var longer, targets := books + [after], orders + [o];
    forall i | 0 <= i < n + 1
      ensures BookedAt(longer[i], longer[i + 1], invoice, rows[i], newIds[i], targets[i], locale)
    {
      assert longer[i] == books[i];
      if i < n {
        assert longer[i + 1] == books[i + 1] && targets[i] == orders[i];
      } else {
        assert longer[i + 1] == after && targets[i] == o;
      }
    }
  }

  /** The saved rows went in: the formal total grew by their sum when the invoice is formal. */
  ghost predicate Saved(b: Book, after: Book, invNo: string, total: int) {
    && Consistent(after) && ReceiptsKept(b, after) && after.transfers == b.transfers
    && (exists i | i in after.invoices :: after.invoices[i] == invNo)
    && (forall i | i in b.invoices :: i in after.invoices && after.invoices[i] == b.invoices[i])
    && (!IsSystemPool(invNo) ==> FormalTotal(after) == FormalTotal(b) + total)
  }

  /** The invoice with the number is there, found or new; nothing else changed. */
  ghost predicate InvoiceEnsured(b: Book, after: Book, invoice: InvoiceId, invNo: string, newId: InvoiceId) {
    && invoice in after.invoices && after.invoices[invoice] == invNo
    && (if exists i | i in b.invoices :: b.invoices[i] == invNo then after == b
        else invoice == newId && after == b.(invoices := b.invoices[newId := invNo]))
  }

  /** Finds or creates the invoice. */
  method EnsureInvoice(db: LedgerDb, invNo: string, newInvoiceId: InvoiceId) returns (invoice: InvoiceId)
    requires Consistent(db.Tables()) && newInvoiceId !in db.invoices
    modifies db`invoices
    ensures Saved(old(db.Tables()), db.Tables(), invNo, 0)
    ensures !IsSystemPool(invNo) ==> NoNewPool(old(db.Tables()), db.Tables())
    ensures InvoiceEnsured(old(db.Tables()), db.Tables(), invoice, invNo, newInvoiceId)
  {
    ghost var b := db.Tables();
    if i :| i in db.invoices && db.invoices[i] == invNo {
      return i;
    }
    NewInvoiceKeeps(b, invNo, newInvoiceId);
    db.invoices := db.invoices[newInvoiceId := invNo];
    invoice := newInvoiceId;
    assert db.Tables().invoices[invoice] == invNo;
  }

  lemma NewInvoiceKeeps(b: Book, invNo: string, newId: InvoiceId)
    requires Consistent(b) && newId !in b.invoices
    ensures var after := b.(invoices := b.invoices[newId := invNo]);
            Consistent(after) && FormalTotal(after) == FormalTotal(b)
  {
    var after := b.(invoices := b.invoices[newId := invNo]);
    assert forall o | o in after.orders :: Live(after, o) == Live(b, o);
    SumSame(FormalAmounts(after), FormalAmounts(b));
  }

  /** One complete row, in a formal or a pool invoice. */
  method SaveCompleteRow(db: LedgerDb, invoice: InvoiceId, row: Row, newId: OrderId, locale: Locale)
    returns (done: bool, ghost o: OrderId, ghost gain: int)
    requires Consistent(db.Tables()) && TotalPreorder(locale) && RowComplete(row, locale) && newId !in db.orders
    requires invoice in db.invoices
    modifies db
    ensures done ==> Gained(old(db.Tables()), db.Tables(), gain)
    ensures done ==> BookedAt(old(db.Tables()), db.Tables(), invoice, row, newId, o, locale)
    ensures done && !IsSystemPool(old(db.invoices)[invoice]) ==>
              gain == row.amount && NoNewPool(old(db.Tables()), db.Tables())
    ensures !done ==>
              && !IsSystemPool(old(db.invoices)[invoice])
              && RowRefused(old(db.Tables()), invoice, RowNumber(row, locale), locale)
    ensures done ==> forall o | o in db.orders :: o in old(db.orders) || o == newId
  {
    CanonicalIsCanonical(Trim(row.orderNo), locale);
    if IsSystemPool(db.invoices[invoice]) {
      var p, g := SavePoolRow(db, invoice, RowNumber(row, locale), row.amount, newId, locale);
      return true, p, g;
    }
    var saved := SaveRow(db, invoice, RowNumber(row, locale), row.amount, newId, locale);
    done, gain := saved.Ok?, row.amount;
    o := if saved.Ok? then saved.value else newId;
  }

  lemma RefusedIsTouched(start: Book, b: Book, invoice: InvoiceId, no: string, locale: Locale)
    requires NoNewPool(start, b) && b.transfers == start.transfers && RowRefused(b, invoice, no, locale)
    ensures !PoolsUntouched(start)
  {
    var o :| PoolMatch(b, o, no, locale) && Touched(b, o);
    assert Touched(start, o);
  }

  /** How far the rows are: `b` is the book after the first `i`. */
  ghost predicate Saving(start: Book, b: Book, invoice: InvoiceId, invNo: string, rows: seq<Row>,
                         newIds: seq<OrderId>, i: nat)
    requires i <= |rows| == |newIds|
  {
    && invoice in b.invoices && b.invoices[invoice] == invNo
    && Saved(start, b, invNo, RowsTotal(rows[..i]))
    && (IsSystemPool(invNo) || NoNewPool(start, b))
    && forall j | i <= j < |rows| :: newIds[j] !in b.orders
  }

  lemma SavingOn(start: Book, b: Book, after: Book, invoice: InvoiceId, invNo: string, rows: seq<Row>,
                 newIds: seq<OrderId>, i: nat, gain: int)
    requires i < |rows| == |newIds| && Distinctly(newIds) && Saving(start, b, invoice, invNo, rows, newIds, i)
    requires Gained(b, after, gain)
    requires IsSystemPool(invNo) || (gain == rows[i].amount && NoNewPool(b, after))
    requires forall o | o in after.orders :: o in b.orders || o == newIds[i]
    ensures Saving(start, after, invoice, invNo, rows, newIds, i + 1)
  {
    assert rows[..i + 1][..i] == rows[..i];
    SavedThen(start, b, after, invNo, RowsTotal(rows[..i]), gain, RowsTotal(rows[..i + 1]));
  }

  /** Saves rows one after the other until one is refused. */
  method SaveRows(db: LedgerDb, invoice: InvoiceId, rows: seq<Row>, newIds: seq<OrderId>, locale: Locale)
    returns (done: bool, ghost books: seq<Book>, ghost orders: seq<OrderId>)
    requires Consistent(db.Tables()) && TotalPreorder(locale) && invoice in db.invoices
    requires forall i | 0 <= i < |rows| :: RowComplete(rows[i], locale)
    requires |newIds| == |rows| && Distinctly(newIds) && forall i | 0 <= i < |newIds| :: newIds[i] !in db.orders
    modifies db
    ensures done ==> Saved(old(db.Tables()), db.Tables(), old(db.invoices)[invoice], RowsTotal(rows))
    ensures done ==>
              && RowsBooked(books, orders, invoice, rows, newIds, |rows|, locale)
              && books[0] == old(db.Tables()) && books[|rows|] == db.Tables()
    ensures !done ==> !IsSystemPool(old(db.invoices)[invoice]) && !PoolsUntouched(old(db.Tables()))
  {
    ghost var start, invNo := db.Tables(), db.invoices[invoice];
    books, orders := [start], [];
    for i := 0 to |rows|
      invariant Saving(start, db.Tables(), invoice, invNo, rows, newIds, i)
      invariant RowsBooked(books, orders, invoice, rows, newIds, i, locale)
      invariant books[0] == start && books[i] == db.Tables()
    {
      ghost var before := db.Tables();
      ghost var o, gain;
      done, o, gain := SaveCompleteRow(db, invoice, rows[i], newIds[i], locale);
      if !done {
        RefusedIsTouched(start, before, invoice, RowNumber(rows[i], locale), locale);
        return;
      }
      OneMoreBooked(books, orders, invoice, rows, newIds, i, db.Tables(), o, locale);
      SavingOn(start, before, db.Tables(), invoice, invNo, rows, newIds, i, gain);
      books, orders := books + [db.Tables()], orders + [o];
    }
    assert rows[..|rows|] == rows;
    done := true;
  }

  lemma SavedTwice(a: Book, b: Book, c: Book, invNo: string, total: int)
    requires Saved(a, b, invNo, 0) && Saved(b, c, invNo, total)
    ensures Saved(a, c, invNo, total)
  {
    KeptTrans(a, b, c);
  }

  /** Saving to a formal invoice raises the formal total by exactly the sum of
      the rows and orphans no receipt, or changes nothing.  Complete rows are
      always saved as long as no transfer points at a pool order, each with its own
      number and amount. */
  method SaveInvoiceWithOrders(db: LedgerDb, invNo: string, rows: seq<Row>, newInvoiceId: InvoiceId,
                               newIds: seq<OrderId>, locale: Locale)
    returns (r: Result<InvoiceId>, ghost books: seq<Book>, ghost orders: seq<OrderId>)
    requires Consistent(db.Tables()) && TotalPreorder(locale)
    requires newInvoiceId !in db.invoices && |newIds| == |rows|
    requires Distinctly(newIds) && forall i | 0 <= i < |newIds| :: newIds[i] !in db.orders
    modifies db
    ensures r.Ok? ==> Saved(old(db.Tables()), db.Tables(), Trim(invNo), RowsTotal(rows))
    ensures r.Ok? ==>
              && RowsBooked(books, orders, r.value, rows, newIds, |rows|, locale)
              && InvoiceEnsured(old(db.Tables()), books[0], r.value, Trim(invNo), newInvoiceId)
              && books[|rows|] == db.Tables()
    ensures r.Err? ==> db.Tables() == old(db.Tables()) && (r.error == BadRequest || r.error == ForeignKey)
    ensures r == Err(BadRequest) <==>
              Trim(invNo) == [] || rows == [] || exists i | 0 <= i < |rows| :: !RowComplete(rows[i], locale)
    ensures r == Err(ForeignKey) ==> !IsSystemPool(Trim(invNo)) && !PoolsUntouched(old(db.Tables()))
  {
    books, orders := [], [];
    if Trim(invNo) == [] || rows == [] {
      r := Err(BadRequest);
      return;
    }
    if i :| 0 <= i < |rows| && !RowComplete(rows[i], locale) {
      r := Err(BadRequest);
      return;
    }
    var saved := db.Tables();
    var invoice := EnsureInvoice(db, Trim(invNo), newInvoiceId);
    ghost var mid := db.Tables();
    var done;
    done, books, orders := SaveRows(db, invoice, rows, newIds, locale);
    if !done {
      Rollback(db, saved);
      r := Err(ForeignKey);
      return;
    }
    SavedTwice(saved, mid, db.Tables(), Trim(invNo), RowsTotal(rows));
    r := Ok(invoice);
  }

  lemma SavedThen(a: Book, b: Book, c: Book, invNo: string, total: int, gain: int, newTotal: int)
    requires Saved(a, b, invNo, total) && Gained(b, c, gain)
    requires IsSystemPool(invNo) || newTotal == total + gain
    ensures Saved(a, c, invNo, newTotal)
  {
    KeptTrans(a, b, c);
  }
}
