/**
 Consolidation of the orders of one invoice whose numbers belong to one group,
 and the manual merge of conflicting orders.
 */
module Consolidation {
  import opened Sorting
  import opened Basics
  import opened Sums
  import opened Ledger
  import opened LedgerRuns
  import opened LedgerMerges
  import opened OrderAlias

  // ---------- what one merge leaves ----------

  function Others(rows: seq<OrderId>, target: OrderId): (r: seq<OrderId>)
    ensures forall o :: o in r <==> o in rows && o != target
    ensures |r| <= |rows|
  {
    if rows == [] then []
    else (if rows[0] == target then [] else [rows[0]]) + Others(rows[1..], target)
  }

  lemma {:induction false} OthersDistinct(rows: seq<OrderId>, target: OrderId)
    requires Distinctly(rows)
    ensures Distinctly(Others(rows, target))
    ensures target !in rows ==> Others(rows, target) == rows
  {
    if rows != [] {
      OthersDistinct(rows[1..], target);
      assert rows[0] !in rows[1..];
    }
  }

  lemma {:induction false} OthersAmounts(b: Book, rows: seq<OrderId>, target: OrderId)
    requires Distinctly(rows) && target in rows && forall o | o in rows :: o in b.orders
    ensures AmountsOf(b, rows) == AmountsOf(b, Others(rows, target)) + b.orders[target].amount
  {
    assert rows[0] !in rows[1..];
    if rows[0] == target {
      OthersDistinct(rows[1..], target);
      assert Others(rows, target) == Others(rows[1..], target);
    } else {
      OthersAmounts(b, rows[1..], target);
    }
  }

  /** The row of the target before the sources are absorbed: it already has the whole amount. */
  function TargetRow(b: Book, rows: seq<OrderId>, target: OrderId, invoice: InvoiceId, orderNo: string): Order
    requires forall o | o in rows :: o in b.orders
  {
    if target in b.orders then b.orders[target].(orderNo := orderNo, amount := AmountsOf(b, rows))
    else Order(invoice, orderNo, AmountsOf(b, rows), 0, false)
  }

  function Prepared(b: Book, rows: seq<OrderId>, target: OrderId, invoice: InvoiceId, orderNo: string): Book
    requires forall o | o in rows :: o in b.orders
  {
    WithRow(b, target, TargetRow(b, rows, target, invoice, orderNo))
  }

  /** The book after the sources are absorbed, before aliases and cache follow. */
  ghost function Gathered(b: Book, rows: seq<OrderId>, target: OrderId, invoice: InvoiceId, orderNo: string): Book
    requires forall o | o in rows :: o in b.orders
  {
    AbsorbAll(Prepared(b, rows, target, invoice, orderNo), Others(rows, target), target)
  }

  ghost function Merged(b: Book, rows: seq<OrderId>, target: OrderId, invoice: InvoiceId, orderNo: string,
                        aliasNos: set<string>): Book
    requires forall o | o in rows :: o in b.orders
  {
    var gathered := Gathered(b, rows, target, invoice, orderNo);
    Refresh(gathered.(aliases := SyncedAliases(gathered.aliases, target, aliasNos)), target)
  }

  /** A bucket of orders of one invoice, and the row that will hold them all. */
  ghost predicate Bucket(b: Book, rows: seq<OrderId>, target: OrderId, invoice: InvoiceId) {
    && OrderRefs(b) && ReceiptRefs(b) && TransferRefs(b) && invoice in b.invoices
    && Distinctly(rows) && Untouched(b, Others(rows, target))
    && (forall o | o in rows :: o in b.orders && b.orders[o].invoiceId == invoice)
    && (target in rows || target !in b.orders)
  }

  lemma PreparedMergeable(b: Book, rows: seq<OrderId>, target: OrderId, invoice: InvoiceId, orderNo: string)
    requires Bucket(b, rows, target, invoice)
    ensures Mergeable(Prepared(b, rows, target, invoice, orderNo), Others(rows, target), target)
  {
    OthersDistinct(rows, target);
  }

  lemma {:induction false} PreparedAmounts(b: Book, p: Book, rows: seq<OrderId>, target: OrderId)
    requires forall o | o in rows :: o in b.orders && o in p.orders && p.orders[o].amount == b.orders[o].amount
    ensures AmountsOf(p, rows) == AmountsOf(b, rows)
  {
    if rows != [] {
      PreparedAmounts(b, p, rows[1..], target);
    }
  }

  /** Preparing adds to live balances and invoice total what absorbing takes out. */
  lemma PreparedSums(b: Book, rows: seq<OrderId>, target: OrderId, invoice: InvoiceId, orderNo: string)
    requires Bucket(b, rows, target, invoice)
    ensures var p := Prepared(b, rows, target, invoice, orderNo);
            var extra := AmountsOf(b, Others(rows, target));
            && Sum(Lives(p)) == Sum(Lives(b)) + extra
            && forall i :: InvoiceTotal(p, i) == InvoiceTotal(b, i) + if i == invoice then extra else 0
  {
    var row := TargetRow(b, rows, target, invoice, orderNo);
    if target in rows {
      OthersAmounts(b, rows, target);
    } else {
      OthersDistinct(rows, target);
      assert Counted(b.receipts, target) == map[];
    }
    WithRowLives(b, target, row);
    forall i {
      WithRowInvoice(b, target, row, i);
    }
  }

  lemma PreparedExtra(b: Book, rows: seq<OrderId>, target: OrderId, invoice: InvoiceId, orderNo: string)
    requires Bucket(b, rows, target, invoice)
    ensures AmountsOf(Prepared(b, rows, target, invoice, orderNo), Others(rows, target)) ==
            AmountsOf(b, Others(rows, target))
  {
    PreparedAmounts(b, Prepared(b, rows, target, invoice, orderNo), Others(rows, target), target);
  }

  // ---------- what a merge keeps ----------

  /** Refreshing one cached balance and syncing aliases moves no amount. */
  lemma FinishKeeps(b: Book, target: OrderId, aliasNos: set<string>)
    requires OrderRefs(b) && ReceiptRefs(b) && TransferRefs(b) && CoherentExcept(b, {target})
    ensures var after := Refresh(b.(aliases := SyncedAliases(b.aliases, target, aliasNos)), target);
            && Coherent(after) && OrderRefs(after) && ReceiptRefs(after) && TransferRefs(after)
            && Sum(Lives(after)) == Sum(Lives(b))
            && (forall i :: InvoiceTotal(after, i) == InvoiceTotal(b, i))
            && FormalTotal(after) == FormalTotal(b)
            && after.orders.Keys == b.orders.Keys && after.receipts == b.receipts && after.transfers == b.transfers
  {
    var synced := b.(aliases := SyncedAliases(b.aliases, target, aliasNos));
    assert CoherentExcept(synced, {target});
    RefreshCoherent(synced, {target}, target);
    RefreshKeeps(synced, target);
    SameAmounts(b, Refresh(synced, target));
  }

  lemma PreparedCoherent(b: Book, rows: seq<OrderId>, target: OrderId, invoice: InvoiceId, orderNo: string)
    requires Coherent(b) && forall o | o in rows :: o in b.orders
    ensures CoherentExcept(Prepared(b, rows, target, invoice, orderNo), {target})
  {
  }

  lemma GatheredSums(b: Book, rows: seq<OrderId>, target: OrderId, invoice: InvoiceId, orderNo: string)
    requires Bucket(b, rows, target, invoice)
    ensures var g := Gathered(b, rows, target, invoice, orderNo);
            Sum(Lives(g)) == Sum(Lives(b)) && forall i :: InvoiceTotal(g, i) == InvoiceTotal(b, i)
  {
    PreparedMergeable(b, rows, target, invoice, orderNo);
    PreparedSums(b, rows, target, invoice, orderNo);
    PreparedExtra(b, rows, target, invoice, orderNo);
    AbsorbAllLives(Prepared(b, rows, target, invoice, orderNo), Others(rows, target), target);
    AbsorbAllInvoice(Prepared(b, rows, target, invoice, orderNo), Others(rows, target), target, invoice);
  }

  lemma GatheredRows(b: Book, rows: seq<OrderId>, target: OrderId, invoice: InvoiceId, orderNo: string)
    requires Bucket(b, rows, target, invoice)
    ensures var g := Gathered(b, rows, target, invoice, orderNo);
            && OrderRefs(g) && ReceiptRefs(g) && TransferRefs(g) && ReceiptsKept(b, g)
            && g.orders == Prepared(b, rows, target, invoice, orderNo).orders - RowSet(Others(rows, target))
            && g.transfers == b.transfers && g.invoices == b.invoices
  {
    PreparedMergeable(b, rows, target, invoice, orderNo);
    AbsorbAllRows(Prepared(b, rows, target, invoice, orderNo), Others(rows, target), target);
  }

  lemma GatheredCoherent(b: Book, rows: seq<OrderId>, target: OrderId, invoice: InvoiceId, orderNo: string)
    requires Coherent(b) && Bucket(b, rows, target, invoice)
    ensures CoherentExcept(Gathered(b, rows, target, invoice, orderNo), {target})
  {
    PreparedMergeable(b, rows, target, invoice, orderNo);
    PreparedCoherent(b, rows, target, invoice, orderNo);
    AbsorbAllCoherent(Prepared(b, rows, target, invoice, orderNo), Others(rows, target), target);
  }

  /** A merge keeps every invoice's total amount and the total balance, and
      leaves every cached balance right. */
  lemma MergeConserves(b: Book, rows: seq<OrderId>, target: OrderId, invoice: InvoiceId, orderNo: string,
                       aliasNos: set<string>)
    requires Coherent(b) && Bucket(b, rows, target, invoice)
    ensures var after := Merged(b, rows, target, invoice, orderNo, aliasNos);
            && Coherent(after)
            && TotalBalance(after) == TotalBalance(b)
            && forall i :: InvoiceTotal(after, i) == InvoiceTotal(b, i)
  {
    GatheredSums(b, rows, target, invoice, orderNo);
    GatheredRows(b, rows, target, invoice, orderNo);
    GatheredCoherent(b, rows, target, invoice, orderNo);
    FinishKeeps(Gathered(b, rows, target, invoice, orderNo), target, aliasNos);
    CoherentTotal(b);
    CoherentTotal(Merged(b, rows, target, invoice, orderNo, aliasNos));
  }

  /** The rows of a merged bucket become one row that has their whole amount. */
  lemma MergeRows(b: Book, rows: seq<OrderId>, target: OrderId, invoice: InvoiceId, orderNo: string,
                  aliasNos: set<string>)
    requires Bucket(b, rows, target, invoice)
    ensures var after := Merged(b, rows, target, invoice, orderNo, aliasNos);
            && after.orders.Keys == b.orders.Keys - RowSet(rows) + {target}
            && (forall o | o in after.orders && o != target :: after.orders[o] == b.orders[o])
            && after.orders[target].amount == AmountsOf(b, rows)
            && after.orders[target].invoiceId == invoice && after.orders[target].orderNo == orderNo
  {
    var g := Gathered(b, rows, target, invoice, orderNo);
    GatheredOrders(b, rows, target, invoice, orderNo);
    RefreshKeeps(g.(aliases := SyncedAliases(g.aliases, target, aliasNos)), target);
  }

  lemma GatheredOrders(b: Book, rows: seq<OrderId>, target: OrderId, invoice: InvoiceId, orderNo: string)
    requires Bucket(b, rows, target, invoice)
    ensures var g := Gathered(b, rows, target, invoice, orderNo);
            && g.orders.Keys == b.orders.Keys - RowSet(rows) + {target}
            && (forall o | o in g.orders && o != target :: g.orders[o] == b.orders[o])
            && g.orders[target] == TargetRow(b, rows, target, invoice, orderNo)
  {
    GatheredRows(b, rows, target, invoice, orderNo);
    assert RowSet(Others(rows, target)) == RowSet(rows) - {target};
  }

  lemma MergeTables(b: Book, rows: seq<OrderId>, target: OrderId, invoice: InvoiceId, orderNo: string,
                    aliasNos: set<string>)
    requires Coherent(b) && Bucket(b, rows, target, invoice)
    ensures var after := Merged(b, rows, target, invoice, orderNo, aliasNos);
            && OrderRefs(after) && ReceiptRefs(after) && TransferRefs(after) && ReceiptsKept(b, after)
            && after.transfers == b.transfers && after.invoices == b.invoices
  {
    GatheredRows(b, rows, target, invoice, orderNo);
    GatheredCoherent(b, rows, target, invoice, orderNo);
    FinishKeeps(Gathered(b, rows, target, invoice, orderNo), target, aliasNos);
  }

  /** Every receipt of a merged row is on the target, all others stay. */
  lemma MergeReceipts(b: Book, rows: seq<OrderId>, target: OrderId, invoice: InvoiceId, orderNo: string,
                      aliasNos: set<string>, r: ReceiptId)
    requires forall o | o in rows :: o in b.orders
    requires r in b.receipts
    ensures var after := Merged(b, rows, target, invoice, orderNo, aliasNos);
            && r in after.receipts
            && after.receipts[r].orderId ==
                 if b.receipts[r].orderId.Some? && b.receipts[r].orderId.value in rows then Some(target)
                 else b.receipts[r].orderId
  {
    AbsorbAllReceipts(Prepared(b, rows, target, invoice, orderNo), Others(rows, target), target, r);
  }

  /** Receipts do not leave their invoice, so its balance stays too. */
  lemma MergeKeepsInvoices(b: Book, after: Book, rows: seq<OrderId>, target: OrderId, invoice: InvoiceId,
                           orderNo: string, aliasNos: set<string>)
    requires Coherent(b) && Bucket(b, rows, target, invoice)
    requires after == Merged(b, rows, target, invoice, orderNo, aliasNos)
    ensures InvoicesKept(b, after)
    ensures forall i :: InvoiceBalance(after, i) == InvoiceBalance(b, i)
  {
    MergeConserves(b, rows, target, invoice, orderNo, aliasNos);
    MergeTables(b, rows, target, invoice, orderNo, aliasNos);
    MergeRows(b, rows, target, invoice, orderNo, aliasNos);
    forall r | r in b.receipts
      ensures r in after.receipts && InvoiceOf(after, r) == InvoiceOf(b, r)
    {
      MergeReceipts(b, rows, target, invoice, orderNo, aliasNos, r);
    }
    SameInvoiceBalances(b, after);
  }

  /** The aliases after a merge: the target has the given ones, except those that an
      order outside the group holds; all other aliases outside are what they were. */
  ghost predicate AliasesMerged(b: Book, after: Book, rows: seq<OrderId>, target: OrderId, aliasNos: set<string>) {
    forall a ::
      var outside := a in b.aliases && b.aliases[a] !in rows && b.aliases[a] != target;
      && (a in after.aliases <==> outside || a in aliasNos)
      && (a in after.aliases ==> after.aliases[a] == if outside then b.aliases[a] else target)
  }

  lemma {:induction false} AbsorbAllAliases(b: Book, sources: seq<OrderId>, target: OrderId, a: string)
    ensures var after := AbsorbAll(b, sources, target);
            && (a in after.aliases <==> a in b.aliases && b.aliases[a] !in sources)
            && (a in after.aliases ==> after.aliases[a] == b.aliases[a])
    decreases |sources|
  {
    if sources != [] {
      AbsorbAllAliases(Absorbed(b, sources[0], target), sources[1..], target, a);
    }
  }

  lemma MergeAliases(b: Book, after: Book, rows: seq<OrderId>, target: OrderId, invoice: InvoiceId, orderNo: string,
                     aliasNos: set<string>)
    requires forall o | o in rows :: o in b.orders
    requires after == Merged(b, rows, target, invoice, orderNo, aliasNos)
    ensures AliasesMerged(b, after, rows, target, aliasNos)
  {
    var g := Gathered(b, rows, target, invoice, orderNo);
    RefreshKeeps(g.(aliases := SyncedAliases(g.aliases, target, aliasNos)), target);
    assert after.aliases == SyncedAliases(g.aliases, target, aliasNos);
    forall a {
      AbsorbAllAliases(Prepared(b, rows, target, invoice, orderNo), Others(rows, target), target, a);
    }
  }

  // ---------- the merge transaction ----------

  predicate IsComposite(orderNo: string) {
    |SplitComposite(orderNo)| > 1
  }

  /** The first row whose number is composite already. */
  function ExistingComposite(b: Book, rows: seq<OrderId>): (r: Option<OrderId>)
    requires forall o | o in rows :: o in b.orders
    ensures r.Some? ==>
              exists i | 0 <= i < |rows| ::
                && rows[i] == r.value && IsComposite(b.orders[rows[i]].orderNo)
                && forall j | 0 <= j < i :: !IsComposite(b.orders[rows[j]].orderNo)
    ensures r.None? ==> forall o | o in rows :: !IsComposite(b.orders[o].orderNo)
  {
    if rows == [] then None
    else if IsComposite(b.orders[rows[0]].orderNo) then Some(rows[0])
    else ExistingComposite(b, rows[1..])
  }

  function FoldAll(parts: seq<string>, locale: Locale): seq<string> {
    if parts == [] then [] else [Normalize(parts[0], locale)] + FoldAll(parts[1..], locale)
  }

  /** The folded numbers of the rows, composite ones by segment. */
  function AllParts(b: Book, rows: seq<OrderId>, locale: Locale): seq<string>
    requires forall o | o in rows :: o in b.orders
  {
    if rows == [] then []
    else
      var no := b.orders[rows[0]].orderNo;
      (if IsComposite(no) then FoldAll(SplitComposite(no), locale) else [Normalize(no, locale)]) +
      AllParts(b, rows[1..], locale)
  }

  function DistinctValues(parts: seq<string>, seen: set<string>): seq<Segment> {
    if parts == [] then []
    else if parts[0] == [] || parts[0] in seen then DistinctValues(parts[1..], seen)
    else [Segment(parts[0], parts[0])] + DistinctValues(parts[1..], seen + {parts[0]})
  }

  /** The number a merged bucket gets: its distinct folded parts, sorted and joined. */
  function GroupNumber(b: Book, rows: seq<OrderId>, locale: Locale): string
    requires forall o | o in rows :: o in b.orders
  {
    Join(Texts(Sort(DistinctValues(AllParts(b, rows, locale), {}), ByKey(locale))), '/')
  }

  function FoldedNumbers(b: Book, rows: seq<OrderId>, locale: Locale): set<string>
    requires forall o | o in rows :: o in b.orders
  {
    if rows == [] then {}
    else {Normalize(b.orders[rows[0]].orderNo, locale)} + FoldedNumbers(b, rows[1..], locale)
  }

  /** Another order of the invoice already has the number. */
  predicate NumberTaken(b: Book, invoice: InvoiceId, orderNo: string, except: OrderId) {
    exists o | o in b.orders :: o != except && b.orders[o].invoiceId == invoice && b.orders[o].orderNo == orderNo
  }

  /** The folded parts of a number, a composite one by segment. */
  function NumberParts(orderNo: string, locale: Locale): set<string> {
    if IsComposite(orderNo) then Folded(SplitComposite(orderNo), locale) else {Normalize(orderNo, locale)} - {[]}
  }

  /** The aliases that lead to an order. */
  function AliasesOf(b: Book, o: OrderId): set<string> {
    set a | a in b.aliases && b.aliases[a] == o
  }

  /** What each row hands on: its aliases, or its folded parts if it has none. */
  function Inherited(b: Book, rows: seq<OrderId>, locale: Locale): set<string>
    requires forall o | o in rows :: o in b.orders
  {
    if rows == [] then {}
    else
      var own := AliasesOf(b, rows[0]);
      (if own != {} then own else NumberParts(b.orders[rows[0]].orderNo, locale)) + Inherited(b, rows[1..], locale)
  }

  lemma {:induction false} InheritedExactly(b: Book, rows: seq<OrderId>, locale: Locale, x: string)
    requires forall o | o in rows :: o in b.orders
    ensures x in Inherited(b, rows, locale) <==>
              || (x in b.aliases && b.aliases[x] in rows)
              || exists o | o in rows :: AliasesOf(b, o) == {} && x in NumberParts(b.orders[o].orderNo, locale)
  {
    if rows != [] {
      InheritedExactly(b, rows[1..], locale, x);
      assert rows == [rows[0]] + rows[1..];
      assert x in AliasesOf(b, rows[0]) <==> x in b.aliases && b.aliases[x] == rows[0];
    }
  }

  /** Hands the receipts of `source` over and deletes it; the database refuses
      the deletion while a balance transfer points at the order. */
  method AbsorbOrder(db: LedgerDb, source: OrderId, target: OrderId) returns (deleted: bool)
    modifies db
    ensures deleted <==> forall t | t in old(db.transfers) :: !old(db.transfers)[t].Touches(source)
    ensures deleted ==> db.Tables() == Absorbed(old(db.Tables()), source, target)
  {
    db.receipts := map r | r in db.receipts :: Handed(db.receipts[r], source, target);
    if t :| t in db.transfers && db.transfers[t].Touches(source) {
      return false;
    }
    db.orders := db.orders - {source};
    db.aliases := map a | a in db.aliases && db.aliases[a] != source :: db.aliases[a];
    deleted := true;
  }

  method AbsorbOrders(db: LedgerDb, sources: seq<OrderId>, target: OrderId) returns (deleted: bool)
    modifies db
    ensures deleted ==> Untouched(old(db.Tables()), sources)
    ensures deleted ==> db.Tables() == AbsorbAll(old(db.Tables()), sources, target)
    ensures !deleted ==> !Untouched(old(db.Tables()), sources)
  {
    deleted := true;
    for i := 0 to |sources|
      invariant AbsorbAll(db.Tables(), sources[i..], target) == AbsorbAll(old(db.Tables()), sources, target)
      invariant db.transfers == old(db.transfers)
      invariant forall t, j | t in db.transfers && 0 <= j < i :: !db.transfers[t].Touches(sources[j])
    {
      assert sources[i..][0] == sources[i] && sources[i..][1..] == sources[i + 1..];
      deleted := AbsorbOrder(db, sources[i], target);
      if !deleted {
        assert sources[i] in sources;
        return;
      }
    }
    assert sources[|sources|..] == [];
  }

  /** Puts back the tables a failed transaction started from. */
  method Rollback(db: LedgerDb, saved: Book)
    modifies db
    ensures db.Tables() == saved
  {
    db.invoices, db.orders, db.receipts, db.transfers, db.aliases :=
      saved.invoices, saved.orders, saved.receipts, saved.transfers, saved.aliases;
  }

  /** The target a bucket merges into. */
  function MergeTarget(b: Book, rows: seq<OrderId>, newId: OrderId): OrderId
    requires forall o | o in rows :: o in b.orders
  {
    if ExistingComposite(b, rows).Some? then ExistingComposite(b, rows).value else newId
  }

  /** An existing composite keeps its spelling when the folded number is the same. */
  function TargetNumber(b: Book, rows: seq<OrderId>, locale: Locale): string
    requires forall o | o in rows :: o in b.orders
  {
    var no := GroupNumber(b, rows, locale);
    match ExistingComposite(b, rows)
    case Some(c) => if Normalize(b.orders[c].orderNo, locale) != Normalize(no, locale) then no else b.orders[c].orderNo
    case None => no
  }

  predicate Skipped(b: Book, rows: seq<OrderId>, locale: Locale)
    requires forall o | o in rows :: o in b.orders
  {
    |FoldedNumbers(b, rows, locale)| <= 1 || |DistinctValues(AllParts(b, rows, locale), {})| <= 1
  }

  /** Writes the target with the whole amount of the rows: an existing composite
      is renamed and then raised by the other rows, a new one is created. */
  method WriteTarget(db: LedgerDb, rows: seq<OrderId>, target: OrderId, invoice: InvoiceId, orderNo: string)
    requires Distinctly(rows) && forall o | o in rows :: o in db.orders
    requires target in rows || target !in db.orders
    modifies db`orders
    ensures db.Tables() == Prepared(old(db.Tables()), rows, target, invoice, orderNo)
  {
    var b := db.Tables();
    if target in rows {
      OthersAmounts(b, rows, target);
      db.orders := db.orders[target := db.orders[target].(orderNo := orderNo)];
      db.orders := db.orders[target :=
        db.orders[target].(amount := db.orders[target].amount + AmountsOf(b, Others(rows, target)))];
    } else {
      db.orders := db.orders[target := Order(invoice, orderNo, AmountsOf(b, rows), 0, false)];
    }
  }

  /** Why a bucket cannot be merged: the number is taken in the invoice, or a
      transfer still points at one of the rows that would go. */
  ghost predicate Refused(b: Book, rows: seq<OrderId>, invoice: InvoiceId, newId: OrderId, locale: Locale)
    requires forall o | o in rows :: o in b.orders
  {
    || NumberTaken(b, invoice, TargetNumber(b, rows, locale), MergeTarget(b, rows, newId))
    || !Untouched(b, Others(rows, MergeTarget(b, rows, newId)))
  }

  /** The writes of the merge transaction. */
  method MergeInto(db: LedgerDb, rows: seq<OrderId>, target: OrderId, invoice: InvoiceId, orderNo: string,
                   aliasNos: set<string>)
    returns (deleted: bool)
    requires Distinctly(rows) && forall o | o in rows :: o in db.orders
    requires target in rows || target !in db.orders
    modifies db
    ensures deleted <==> Untouched(old(db.Tables()), Others(rows, target))
    ensures deleted ==> db.Tables() == Merged(old(db.Tables()), rows, target, invoice, orderNo, aliasNos)
  {
    WriteTarget(db, rows, target, invoice, orderNo);
    deleted := AbsorbOrders(db, Others(rows, target), target);
    if deleted {
      db.aliases := SyncedAliases(db.aliases, target, aliasNos);
      var _, _ := db.UpdateOrderBalance(target);
    }
  }

  /** Merges one bucket in one transaction, or leaves everything as it was. */
  method MergeBucket(db: LedgerDb, rows: seq<OrderId>, invoice: InvoiceId, newId: OrderId, locale: Locale)
    returns (r: Result<bool>)
    requires Distinctly(rows) && newId !in db.orders
    requires forall o | o in rows :: o in db.orders
    modifies db
    ensures r.Err? || !r.value ==> db.Tables() == old(db.Tables())
    ensures r.Ok? ==> (r.value <==> !Skipped(old(db.Tables()), rows, locale))
    ensures r.Err? <==>
              !Skipped(old(db.Tables()), rows, locale) && Refused(old(db.Tables()), rows, invoice, newId, locale)
    ensures r.Err? ==>
              var b := old(db.Tables());
              r.error == if NumberTaken(b, invoice, TargetNumber(b, rows, locale), MergeTarget(b, rows, newId))
                         then UniqueViolation else ForeignKey
    ensures r.Ok? && r.value ==>
              var b := old(db.Tables());
              db.Tables() == Merged(b, rows, MergeTarget(b, rows, newId), invoice, TargetNumber(b, rows, locale),
                                    Inherited(b, rows, locale))
  {
    var b := db.Tables();
    if Skipped(b, rows, locale) {
      return Ok(false);
    }
    var target := MergeTarget(b, rows, newId);
    var orderNo := TargetNumber(b, rows, locale);
    if NumberTaken(b, invoice, orderNo, target) {
      return Err(UniqueViolation);
    }
    var deleted := MergeInto(db, rows, target, invoice, orderNo, Inherited(b, rows, locale));
    if !deleted {
      Rollback(db, b);
      return Err(ForeignKey);
    }
    r := Ok(true);
  }
}
