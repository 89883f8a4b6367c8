/**
 A whole consolidation pass over the orders of some invoices: what it keeps, and
 what it makes of every group.
 */
module ConsolidationPass {
  import opened Basics
  import opened Sums
  import opened Ledger
  import opened LedgerRuns
  import opened LedgerMerges
  import opened OrderAlias
  import opened Consolidation
  import opened GroupKeys
  import opened NumberFolding
  import opened MergedNumbers

  // ---------- what any number of merges keeps ----------

  ghost predicate AllIn(b: Book, rows: seq<OrderId>) {
    forall o | o in rows :: o in b.orders
  }

  /** Per invoice the amounts, the receipts and the balances are what they were. */
  ghost predicate Conserved(b: Book, after: Book) {
    && Ready(after)
    && TotalBalance(after) == TotalBalance(b)
    && (forall i :: InvoiceTotal(after, i) == InvoiceTotal(b, i))
    && (forall i :: InvoiceBalance(after, i) == InvoiceBalance(b, i))
    && ReceiptsKept(b, after) && InvoicesKept(b, after)
    && after.invoices == b.invoices && after.transfers == b.transfers
  }

  ghost predicate Ready(b: Book) {
    Coherent(b) && OrderRefs(b) && ReceiptRefs(b) && TransferRefs(b) && AliasRefs(b)
  }

  lemma ConservedTrans(a: Book, b: Book, c: Book)
    requires Conserved(a, b) && Conserved(b, c)
    ensures Conserved(a, c)
  {
    KeptTrans(a, b, c);
    forall r | r in a.receipts
      ensures r in c.receipts && InvoiceOf(c, r) == InvoiceOf(a, r)
    {
      assert InvoiceOf(b, r) == InvoiceOf(a, r);
    }
  }

  lemma MergeKeepsAliasRefs(b: Book, after: Book, rows: seq<OrderId>, target: OrderId, invoice: InvoiceId,
                            orderNo: string, aliasNos: set<string>)
    requires Bucket(b, rows, target, invoice) && AliasRefs(b)
    requires after == Merged(b, rows, target, invoice, orderNo, aliasNos)
    ensures AliasRefs(after)
  {
    MergeAliases(b, after, rows, target, invoice, orderNo, aliasNos);
    MergeRows(b, rows, target, invoice, orderNo, aliasNos);
  }

  /** One merged bucket keeps everything of value. */
  lemma MergeIsConserved(b: Book, after: Book, rows: seq<OrderId>, target: OrderId, invoice: InvoiceId,
                         orderNo: string, aliasNos: set<string>)
    requires Coherent(b) && Bucket(b, rows, target, invoice) && AliasRefs(b)
    requires after == Merged(b, rows, target, invoice, orderNo, aliasNos)
    ensures Conserved(b, after)
  {
    MergeConserves(b, rows, target, invoice, orderNo, aliasNos);
    MergeTables(b, rows, target, invoice, orderNo, aliasNos);
    MergeKeepsInvoices(b, after, rows, target, invoice, orderNo, aliasNos);
    MergeKeepsAliasRefs(b, after, rows, target, invoice, orderNo, aliasNos);
  }

  // ---------- how many orders are left ----------

  lemma {:induction false} DistinctCount(rows: seq<OrderId>)
    requires Distinctly(rows)
    ensures |RowSet(rows)| == |rows|
  {
    if rows != [] {
      DistinctCount(rows[1..]);
      assert RowSet(rows) == {rows[0]} + RowSet(rows[1..]);
      assert rows[0] !in rows[1..];
    }
  }

  lemma {:induction false} FoldedNumbersCount(b: Book, rows: seq<OrderId>, locale: Locale)
    requires forall o | o in rows :: o in b.orders
    ensures |FoldedNumbers(b, rows, locale)| <= |rows|
  {
    if rows != [] {
      FoldedNumbersCount(b, rows[1..], locale);
      var rest, one := FoldedNumbers(b, rows[1..], locale), {Normalize(b.orders[rows[0]].orderNo, locale)};
      assert FoldedNumbers(b, rows, locale) == one + rest;
      assert |one + rest| <= |one| + |rest|;
    }
  }

  /** The number of orders falls by all rows of the bucket but one. */
  lemma MergeCount(keys: set<OrderId>, after: set<OrderId>, rows: seq<OrderId>, target: OrderId)
    requires Distinctly(rows) && forall o | o in rows :: o in keys
    requires target in rows || target !in keys
    requires after == keys - RowSet(rows) + {target}
    ensures |after| + |rows| == |keys| + 1
  {
    var merged := RowSet(rows);
    DistinctCount(rows);
    assert keys * merged == merged;
    assert |keys - merged| == |keys| - |merged|;
    assert target !in keys - merged;
    assert |after| == |keys - merged| + 1;
  }

  // ---------- what becomes of a group ----------

  /** The order, its aliases and its receipts are what they were. */
  ghost predicate OrderKept(b: Book, after: Book, o: OrderId) {
    && o in b.orders && o in after.orders && after.orders[o] == b.orders[o]
    && AliasesOf(after, o) == AliasesOf(b, o)
    && forall r | r in b.receipts && b.receipts[r].orderId == Some(o) ::
         r in after.receipts && after.receipts[r].orderId == Some(o)
  }

  ghost predicate RowsKept(b: Book, after: Book, rows: seq<OrderId>) {
    forall o | o in rows :: OrderKept(b, after, o)
  }

  /** No row without an alias lost one of its parts: each leads to some order. */
  ghost predicate PartsAliased(b: Book, after: Book, rows: seq<OrderId>, locale: Locale)
    requires AllIn(b, rows)
  {
    forall o, a | o in rows && AliasesOf(b, o) == {} && a in NumberParts(b.orders[o].orderNo, locale) ::
      a in after.aliases
  }

  /** The target goes by all the names of the group: its number names exactly their
      segments, and every alias of a row leads to it. */
  ghost predicate NamesGathered(b: Book, after: Book, rows: seq<OrderId>, target: OrderId, locale: Locale)
    requires AllIn(b, rows) && target in after.orders
  {
    && (FoldsByChar(locale) ==>
          Segments(after.orders[target].orderNo, locale) == GroupSegments(b, rows, locale))
    && (forall o, a | o in rows && a in AliasesOf(b, o) :: a in AliasesOf(after, target))
    && PartsAliased(b, after, rows, locale)
  }

  /** One row has the names and the whole amount of the group and all its
      receipts; the other rows are gone. */
  ghost predicate GroupMerged(b: Book, after: Book, rows: seq<OrderId>, invoice: InvoiceId, target: OrderId,
                              locale: Locale)
    requires AllIn(b, rows)
  {
    && target in after.orders && after.orders[target].invoiceId == invoice
    && after.orders[target].orderNo == TargetNumber(b, rows, locale)
    && after.orders[target].amount == AmountsOf(b, rows)
    && NamesGathered(b, after, rows, target, locale)
    && (forall o | o in rows && o != target :: o !in after.orders)
    && (forall r | r in b.receipts && b.receipts[r].orderId.Some? && b.receipts[r].orderId.value in rows ::
          r in after.receipts && after.receipts[r].orderId == Some(target))
  }

  ghost predicate GroupDone(b: Book, after: Book, rows: seq<OrderId>, invoice: InvoiceId, newId: OrderId,
                            locale: Locale)
    requires AllIn(b, rows)
  {
    if Skipped(b, rows, locale) then RowsKept(b, after, rows)
    else GroupMerged(b, after, rows, invoice, MergeTarget(b, rows, newId), locale)
  }

  /** The id of the row the group creates, if it creates one. */
  ghost function NewRows(b: Book, rows: seq<OrderId>, newId: OrderId, locale: Locale): set<OrderId>
    requires AllIn(b, rows)
  {
    if !Skipped(b, rows, locale) && ExistingComposite(b, rows).None? then {newId} else {}
  }

  /** Nothing outside the group has changed, and no alias is lost. */
  ghost predicate OthersKept(b: Book, after: Book, rows: seq<OrderId>, created: set<OrderId>) {
    && (forall o | o in b.orders && o !in rows :: OrderKept(b, after, o))
    && after.orders.Keys <= b.orders.Keys + created
    && b.aliases.Keys <= after.aliases.Keys
  }

  /** All that is asked about the rows of a group depends only on these rows. */
  lemma {:induction false} SameRows(b: Book, c: Book, rows: seq<OrderId>, locale: Locale)
    requires forall o | o in rows :: o in b.orders && o in c.orders && c.orders[o] == b.orders[o]
    ensures FoldedNumbers(c, rows, locale) == FoldedNumbers(b, rows, locale)
    ensures AllParts(c, rows, locale) == AllParts(b, rows, locale)
    ensures ExistingComposite(c, rows) == ExistingComposite(b, rows)
    ensures AmountsOf(c, rows) == AmountsOf(b, rows)
    ensures GroupSegments(c, rows, locale) == GroupSegments(b, rows, locale)
  {
    if rows != [] {
      SameRows(b, c, rows[1..], locale);
    }
  }

  /** Where the receipts are after a merge. */
  ghost predicate ReceiptsGathered(b: Book, after: Book, rows: seq<OrderId>, target: OrderId) {
    forall r | r in b.receipts ::
      && r in after.receipts
      && after.receipts[r].orderId ==
           if b.receipts[r].orderId.Some? && b.receipts[r].orderId.value in rows then Some(target)
           else b.receipts[r].orderId
  }

  lemma MergeGathers(b: Book, after: Book, rows: seq<OrderId>, target: OrderId, invoice: InvoiceId, orderNo: string,
                     aliasNos: set<string>)
    requires AllIn(b, rows)
    requires after == Merged(b, rows, target, invoice, orderNo, aliasNos)
    ensures ReceiptsGathered(b, after, rows, target)
  {
    forall r | r in b.receipts
      ensures r in after.receipts
      ensures after.receipts[r].orderId ==
              if b.receipts[r].orderId.Some? && b.receipts[r].orderId.value in rows then Some(target)
              else b.receipts[r].orderId
    {
      MergeReceipts(b, rows, target, invoice, orderNo, aliasNos, r);
    }
  }

  lemma GatheredOthersKept(b: Book, after: Book, rows: seq<OrderId>, target: OrderId, created: set<OrderId>)
    requires ReceiptsGathered(b, after, rows, target) && after.orders.Keys <= b.orders.Keys + created
    requires forall o | o in b.orders && o !in rows :: o in after.orders && after.orders[o] == b.orders[o]
    requires forall o | o in b.orders && o !in rows :: AliasesOf(after, o) == AliasesOf(b, o)
    requires b.aliases.Keys <= after.aliases.Keys
    ensures OthersKept(b, after, rows, created)
  {
  }

  // ---------- the names of a merged group ----------

  /** No alias is lost and none outside the group changes hands. */
  lemma AliasesKept(b: Book, after: Book, rows: seq<OrderId>, target: OrderId, locale: Locale)
    requires AllIn(b, rows) && AliasRefs(b) && (target in rows || target !in b.orders)
    requires AliasesMerged(b, after, rows, target, Inherited(b, rows, locale))
    ensures b.aliases.Keys <= after.aliases.Keys
    ensures forall o | o in b.orders && o !in rows :: AliasesOf(after, o) == AliasesOf(b, o)
  {
    forall a | a in b.aliases
      ensures a in after.aliases
    {
      InheritedExactly(b, rows, locale, a);
    }
  }

  lemma AliasesGathered(b: Book, after: Book, rows: seq<OrderId>, target: OrderId, locale: Locale)
    requires AllIn(b, rows)
    requires AliasesMerged(b, after, rows, target, Inherited(b, rows, locale))
    ensures forall o, a | o in rows && a in AliasesOf(b, o) :: a in AliasesOf(after, target)
    ensures PartsAliased(b, after, rows, locale)
  {
    forall o, a | o in rows && a in AliasesOf(b, o)
      ensures a in AliasesOf(after, target)
    {
      InheritedExactly(b, rows, locale, a);
    }
    forall o, a | o in rows && AliasesOf(b, o) == {} && a in NumberParts(b.orders[o].orderNo, locale)
      ensures a in after.aliases
    {
      InheritedExactly(b, rows, locale, a);
    }
  }

  lemma MergeGathersNames(b: Book, after: Book, rows: seq<OrderId>, target: OrderId, locale: Locale)
    requires AllIn(b, rows) && target in after.orders
    requires after.orders[target].orderNo == TargetNumber(b, rows, locale)
    requires AliasesMerged(b, after, rows, target, Inherited(b, rows, locale))
    ensures NamesGathered(b, after, rows, target, locale)
  {
    AliasesGathered(b, after, rows, target, locale);
    if FoldsByChar(locale) {
      MergedNumberSegments(b, rows, locale);
    }
  }

  /** The order rows after a merge. */
  ghost predicate OneRowLeft(b: Book, after: Book, rows: seq<OrderId>, target: OrderId, invoice: InvoiceId,
                             orderNo: string)
    requires AllIn(b, rows)
  {
    && after.orders.Keys == b.orders.Keys - RowSet(rows) + {target}
    && (forall o | o in after.orders && o != target :: after.orders[o] == b.orders[o])
    && after.orders[target].amount == AmountsOf(b, rows)
    && after.orders[target].invoiceId == invoice && after.orders[target].orderNo == orderNo
  }

  lemma MergeLeavesOne(b: Book, after: Book, rows: seq<OrderId>, target: OrderId, invoice: InvoiceId, orderNo: string,
                       aliasNos: set<string>)
    requires Bucket(b, rows, target, invoice) && after == Merged(b, rows, target, invoice, orderNo, aliasNos)
    ensures OneRowLeft(b, after, rows, target, invoice, orderNo)
  {
    MergeRows(b, rows, target, invoice, orderNo, aliasNos);
  }

  lemma MergedGroup(b: Book, after: Book, rows: seq<OrderId>, target: OrderId, invoice: InvoiceId, locale: Locale)
    requires AllIn(b, rows) && OneRowLeft(b, after, rows, target, invoice, TargetNumber(b, rows, locale))
    requires ReceiptsGathered(b, after, rows, target)
    requires AliasesMerged(b, after, rows, target, Inherited(b, rows, locale))
    ensures GroupMerged(b, after, rows, invoice, target, locale)
  {
    MergeGathersNames(b, after, rows, target, locale);
  }

  lemma MergedOthers(b: Book, after: Book, rows: seq<OrderId>, target: OrderId, invoice: InvoiceId, locale: Locale)
    requires Distinctly(rows) && AllIn(b, rows) && AliasRefs(b)
    requires target in rows || target !in b.orders
    requires OneRowLeft(b, after, rows, target, invoice, TargetNumber(b, rows, locale))
    requires ReceiptsGathered(b, after, rows, target)
    requires AliasesMerged(b, after, rows, target, Inherited(b, rows, locale))
    ensures OthersKept(b, after, rows, if target in rows then {} else {target})
    ensures |after.orders| + |rows| == |b.orders| + 1
  {
    MergeCount(b.orders.Keys, after.orders.Keys, rows, target);
    AliasesKept(b, after, rows, target, locale);
    GatheredOthersKept(b, after, rows, target, if target in rows then {} else {target});
  }

  /** A merged bucket: everything of value is kept, its rows became one that goes
      by all their names, nothing else changed, and orders got fewer. */
  lemma BucketMerged(b: Book, after: Book, rows: seq<OrderId>, target: OrderId, invoice: InvoiceId, locale: Locale)
    requires Coherent(b) && Bucket(b, rows, target, invoice) && AliasRefs(b)
    requires after == Merged(b, rows, target, invoice, TargetNumber(b, rows, locale), Inherited(b, rows, locale))
    ensures Conserved(b, after)
    ensures GroupMerged(b, after, rows, invoice, target, locale)
    ensures OthersKept(b, after, rows, if target in rows then {} else {target})
    ensures |after.orders| + |rows| == |b.orders| + 1
  {
    var orderNo, aliasNos := TargetNumber(b, rows, locale), Inherited(b, rows, locale);
    MergeIsConserved(b, after, rows, target, invoice, orderNo, aliasNos);
    MergeLeavesOne(b, after, rows, target, invoice, orderNo, aliasNos);
    MergeGathers(b, after, rows, target, invoice, orderNo, aliasNos);
    MergeAliases(b, after, rows, target, invoice, orderNo, aliasNos);
    MergedGroup(b, after, rows, target, invoice, locale);
    MergedOthers(b, after, rows, target, invoice, locale);
  }

  // ---------- one bucket ----------

  /** The rows of a bucket as they are when its turn comes. */
  ghost predicate Waiting(start: Book, b: Book, rows: seq<OrderId>, key: Key) {
    forall o | o in rows :: o in start.orders && OrderKept(start, b, o) && KeyOf(start, o) == key
  }

  /** What a turn does to the book it finds. */
  ghost predicate Turn(b: Book, after: Book, rows: seq<OrderId>, invoice: InvoiceId, newId: OrderId, locale: Locale)
    requires AllIn(b, rows)
  {
    && Conserved(b, after)
    && GroupDone(b, after, rows, invoice, newId, locale)
    && OthersKept(b, after, rows, NewRows(b, rows, newId, locale))
  }

  lemma NotSkipped(b: Book, rows: seq<OrderId>, locale: Locale)
    requires AllIn(b, rows)
    requires !Skipped(b, rows, locale)
    ensures |rows| > 1
  {
    FoldedNumbersCount(b, rows, locale);
  }

  lemma WaitingIsBucket(start: Book, b: Book, rows: seq<OrderId>, key: Key, target: OrderId)
    requires Distinctly(rows) && Ready(b) && Waiting(start, b, rows, key)
    requires rows != [] && (target in rows || target !in b.orders) && Untouched(b, Others(rows, target))
    ensures Bucket(b, rows, target, key.0)
  {
    assert rows[0] in rows;
  }

  lemma AsTurn(b: Book, after: Book, rows: seq<OrderId>, invoice: InvoiceId, newId: OrderId, locale: Locale,
               target: OrderId)
    requires AllIn(b, rows)
    requires !Skipped(b, rows, locale) && target == MergeTarget(b, rows, newId) && newId !in b.orders
    requires Conserved(b, after) && GroupMerged(b, after, rows, invoice, target, locale)
    requires OthersKept(b, after, rows, if target in rows then {} else {target})
    ensures Turn(b, after, rows, invoice, newId, locale)
  {
  }

  lemma MergedTurn(start: Book, b: Book, after: Book, rows: seq<OrderId>, key: Key, newId: OrderId, locale: Locale,
                   target: OrderId)
    requires Distinctly(rows) && Ready(b) && AllIn(b, rows) && Waiting(start, b, rows, key) && newId !in b.orders
    requires !Skipped(b, rows, locale) && Untouched(b, Others(rows, target))
    requires target == MergeTarget(b, rows, newId)
    requires after == Merged(b, rows, target, key.0, TargetNumber(b, rows, locale), Inherited(b, rows, locale))
    ensures Turn(b, after, rows, key.0, newId, locale) && |after.orders| + 1 <= |b.orders|
  {
    NotSkipped(b, rows, locale);
    WaitingIsBucket(start, b, rows, key, target);
    BucketMerged(b, after, rows, target, key.0, locale);
    AsTurn(b, after, rows, key.0, newId, locale, target);
  }

  lemma NothingTurned(b: Book, rows: seq<OrderId>, invoice: InvoiceId, newId: OrderId, locale: Locale)
    requires Ready(b) && forall o | o in rows :: o in b.orders
    requires Skipped(b, rows, locale)
    ensures Turn(b, b, rows, invoice, newId, locale)
  {
  }

  /** Merges a bucket that is waiting, skips it, or refuses it without a change. */
  method MergeWaiting(db: LedgerDb, ghost start: Book, rows: seq<OrderId>, key: Key, newId: OrderId, locale: Locale)
    returns (r: Result<bool>)
    requires Distinctly(rows) && newId !in db.orders
    requires Ready(db.Tables()) && AllIn(db.Tables(), rows) && Waiting(start, db.Tables(), rows, key)
    modifies db
    ensures r.Ok? ==> Turn(old(db.Tables()), db.Tables(), rows, key.0, newId, locale)
    ensures r.Ok? ==> (r.value <==> !Skipped(old(db.Tables()), rows, locale))
    ensures r.Ok? && r.value ==> |db.orders| + 1 <= |old(db.orders)|
    ensures r.Err? || !r.value ==> db.Tables() == old(db.Tables())
    ensures r.Err? <==>
              !Skipped(old(db.Tables()), rows, locale) && Refused(old(db.Tables()), rows, key.0, newId, locale)
  {
    ghost var b := db.Tables();
    r := MergeBucket(db, rows, key.0, newId, locale);
    if r.Ok? && r.value {
      MergedTurn(start, b, db.Tables(), rows, key, newId, locale, MergeTarget(b, rows, newId));
    } else if r.Ok? {
      NothingTurned(b, rows, key.0, newId, locale);
    }
  }

  // ---------- the groups so far ----------

  /** The keys of the listed orders, each once; orders without a key have none. */
  ghost predicate KeysOf(b: Book, listed: seq<OrderId>, keys: seq<Key>)
    requires AllIn(b, listed)
  {
    && (forall i, j | 0 <= i < j < |keys| :: keys[i] != keys[j])
    && (forall o | o in listed && GroupKey(b.orders[o].orderNo) != [] :: KeyOf(b, o) in keys)
    && (forall k | k in keys :: k.1 != [])
    && |keys| <= |listed|
  }

  /** The group of a key calls for no merge. */
  ghost predicate Idle(b: Book, listed: seq<OrderId>, key: Key, locale: Locale)
    requires AllIn(b, listed)
  {
    Skipped(b, RowsWith(b, listed, key), locale)
  }

  ghost predicate KeyDone(b: Book, after: Book, listed: seq<OrderId>, key: Key, newId: OrderId, locale: Locale)
    requires AllIn(b, listed)
  {
    GroupDone(b, after, RowsWith(b, listed, key), key.0, newId, locale)
  }

  ghost predicate RestKept(b: Book, after: Book, listed: seq<OrderId>, done: seq<Key>)
    requires AllIn(b, listed)
  {
    forall o | o in b.orders && (o in listed ==> KeyOf(b, o) !in done) :: OrderKept(b, after, o)
  }

  ghost predicate CreatedBy(b: Book, o: OrderId, listed: seq<OrderId>, key: Key, newId: OrderId, locale: Locale)
    requires AllIn(b, listed)
  {
    o in NewRows(b, RowsWith(b, listed, key), newId, locale)
  }

  ghost predicate OnlyNew(b: Book, after: Book, listed: seq<OrderId>, keys: seq<Key>, n: nat, newIds: seq<OrderId>,
                          locale: Locale)
    requires AllIn(b, listed) && n <= |keys| <= |newIds|
  {
    forall o | o in after.orders ::
      o in b.orders || exists i | 0 <= i < n :: CreatedBy(b, o, listed, keys[i], newIds[i], locale)
  }

  ghost predicate KeysDone(b: Book, after: Book, listed: seq<OrderId>, keys: seq<Key>, n: nat, newIds: seq<OrderId>,
                           locale: Locale)
    requires AllIn(b, listed) && n <= |keys| <= |newIds|
  {
    forall i | 0 <= i < n :: KeyDone(b, after, listed, keys[i], newIds[i], locale)
  }

  /** The first `n` groups are done, and everything else is what it was. */
  ghost predicate PassedTo(b: Book, after: Book, listed: seq<OrderId>, keys: seq<Key>, n: nat, newIds: seq<OrderId>,
                           locale: Locale)
    requires AllIn(b, listed) && n <= |keys| <= |newIds|
  {
    && KeysDone(b, after, listed, keys, n, newIds, locale)
    && RestKept(b, after, listed, keys[..n])
    && OnlyNew(b, after, listed, keys, n, newIds, locale)
  }

  /** Which keys call for no merge. */
  ghost function Marks(b: Book, listed: seq<OrderId>, keys: seq<Key>, locale: Locale): (marks: seq<bool>)
    requires AllIn(b, listed)
    ensures |marks| == |keys| && forall i | 0 <= i < |keys| :: marks[i] <==> Idle(b, listed, keys[i], locale)
  {
    seq(|keys|, i requires 0 <= i < |keys| => Idle(b, listed, keys[i], locale))
  }

  function Unmarked(marks: seq<bool>, n: nat): nat
    requires n <= |marks|
  {
    if n == 0 then 0 else Unmarked(marks, n - 1) + if marks[n - 1] then 0 else 1
  }

  /** How many of the first `n` groups are merged. */
  ghost function MergedCount(b: Book, listed: seq<OrderId>, keys: seq<Key>, n: nat, locale: Locale): nat
    requires AllIn(b, listed) && n <= |keys|
  {
    Unmarked(Marks(b, listed, keys, locale), n)
  }

  /** No group of the listed orders calls for a merge. */
  ghost predicate NothingToMerge(b: Book, listed: seq<OrderId>, locale: Locale)
    requires AllIn(b, listed)
  {
    forall key: Key | key.1 != [] :: Idle(b, listed, key, locale)
  }

  lemma {:induction false} AllMarked(marks: seq<bool>, n: nat)
    requires n <= |marks|
    ensures Unmarked(marks, n) == 0 <==> forall i | 0 <= i < n :: marks[i]
  {
    if n > 0 {
      AllMarked(marks, n - 1);
    }
  }

  lemma NoOrdersIdle(b: Book, listed: seq<OrderId>, keys: seq<Key>, key: Key, locale: Locale)
    requires AllIn(b, listed) && KeysOf(b, listed, keys) && key.1 != [] && key !in keys
    ensures Idle(b, listed, key, locale)
  {
    RowsWithNone(b, listed, key);
  }

  /** A pass merges no group exactly when there is nothing to merge. */
  lemma CountIsZeroExactly(b: Book, listed: seq<OrderId>, keys: seq<Key>, locale: Locale)
    requires AllIn(b, listed) && KeysOf(b, listed, keys)
    ensures MergedCount(b, listed, keys, |keys|, locale) == 0 <==> NothingToMerge(b, listed, locale)
  {
    AllMarked(Marks(b, listed, keys, locale), |keys|);
    forall key: Key | key.1 != [] && key !in keys {
      NoOrdersIdle(b, listed, keys, key, locale);
    }
    forall i | 0 <= i < |keys|
      ensures keys[i].1 != []
    {
      assert keys[i] in keys;
    }
  }

  /** The next group is as it was at the start. */
  lemma NextIsWaiting(start: Book, b: Book, listed: seq<OrderId>, keys: seq<Key>, n: nat, newIds: seq<OrderId>,
                      locale: Locale)
    requires AllIn(start, listed) && KeysOf(start, listed, keys) && n < |keys| <= |newIds|
    requires PassedTo(start, b, listed, keys, n, newIds, locale)
    ensures AllIn(b, RowsWith(start, listed, keys[n]))
    ensures Waiting(start, b, RowsWith(start, listed, keys[n]), keys[n])
    ensures Skipped(b, RowsWith(start, listed, keys[n]), locale) <==> Idle(start, listed, keys[n], locale)
  {
    var rows := RowsWith(start, listed, keys[n]);
    forall o | o in rows
      ensures OrderKept(start, b, o)
    {
      assert KeyOf(start, o) == keys[n] && keys[n] !in keys[..n];
    }
    SameRows(start, b, rows, locale);
  }

  /** A group that is done stays done while another group has its turn. */
  lemma StaysDone(start: Book, b: Book, after: Book, rows: seq<OrderId>, invoice: InvoiceId, newId: OrderId,
                  others: seq<OrderId>, created: set<OrderId>, locale: Locale)
    requires forall o | o in rows :: o in start.orders && o !in others && o !in created
    requires newId !in others && newId !in created
    requires GroupDone(start, b, rows, invoice, newId, locale) && OthersKept(b, after, others, created)
    ensures GroupDone(start, after, rows, invoice, newId, locale)
  {
    if Skipped(start, rows, locale) {
      forall o | o in rows
        ensures OrderKept(start, after, o)
      {
        KeptOn(start, b, after, o, others, created);
      }
    } else {
      var target := MergeTarget(start, rows, newId);
      assert OrderKept(b, after, target);
    }
  }

  lemma KeptOn(start: Book, b: Book, after: Book, o: OrderId, others: seq<OrderId>, created: set<OrderId>)
    requires OrderKept(start, b, o) && o !in others && OthersKept(b, after, others, created)
    ensures OrderKept(start, after, o)
  {
    assert OrderKept(b, after, o);
  }

  lemma KeptTwice(start: Book, b: Book, after: Book, rows: seq<OrderId>)
    requires RowsKept(start, b, rows) && RowsKept(b, after, rows)
    ensures RowsKept(start, after, rows)
  {
    forall o | o in rows
      ensures OrderKept(start, after, o)
    {
      assert OrderKept(start, b, o) && OrderKept(b, after, o);
    }
  }

  lemma NamesFromStart(start: Book, b: Book, after: Book, rows: seq<OrderId>, target: OrderId, locale: Locale)
    requires AllIn(start, rows) && AllIn(b, rows) && RowsKept(start, b, rows) && target in after.orders
    requires NamesGathered(b, after, rows, target, locale)
    ensures NamesGathered(start, after, rows, target, locale)
  {
    SameRows(start, b, rows, locale);
    forall o | o in rows
      ensures AliasesOf(start, o) == AliasesOf(b, o) && start.orders[o] == b.orders[o]
    {
      assert OrderKept(start, b, o);
    }
  }

  lemma MergedFromStart(start: Book, b: Book, after: Book, rows: seq<OrderId>, invoice: InvoiceId, target: OrderId,
                        locale: Locale)
    requires AllIn(start, rows) && AllIn(b, rows) && RowsKept(start, b, rows)
    requires GroupMerged(b, after, rows, invoice, target, locale)
    ensures GroupMerged(start, after, rows, invoice, target, locale)
  {
    SameRows(start, b, rows, locale);
    NamesFromStart(start, b, after, rows, target, locale);
    forall r | r in start.receipts && start.receipts[r].orderId.Some? && start.receipts[r].orderId.value in rows
      ensures r in b.receipts && b.receipts[r].orderId == start.receipts[r].orderId
    {
      assert OrderKept(start, b, start.receipts[r].orderId.value);
    }
  }

  /** The turn of a waiting group, told from the start. */
  lemma TurnFromStart(start: Book, b: Book, after: Book, rows: seq<OrderId>, key: Key, newId: OrderId, locale: Locale)
    requires AllIn(b, rows) && Waiting(start, b, rows, key) && Turn(b, after, rows, key.0, newId, locale)
    ensures GroupDone(start, after, rows, key.0, newId, locale)
    ensures OthersKept(b, after, rows, NewRows(start, rows, newId, locale))
  {
    assert RowsKept(start, b, rows);
    SameRows(start, b, rows, locale);
    if Skipped(start, rows, locale) {
      KeptTwice(start, b, after, rows);
    } else {
      MergedFromStart(start, b, after, rows, key.0, MergeTarget(start, rows, newId), locale);
    }
  }

  lemma KeyStaysDone(start: Book, b: Book, after: Book, listed: seq<OrderId>, keys: seq<Key>, i: nat, n: nat,
                     newIds: seq<OrderId>, locale: Locale)
    requires AllIn(start, listed) && KeysOf(start, listed, keys) && i < n < |keys| <= |newIds|
    requires Distinctly(newIds) && forall o | o in newIds :: o !in start.orders
    requires KeyDone(start, b, listed, keys[i], newIds[i], locale)
    requires OthersKept(b, after, RowsWith(start, listed, keys[n]),
                        NewRows(start, RowsWith(start, listed, keys[n]), newIds[n], locale))
    ensures KeyDone(start, after, listed, keys[i], newIds[i], locale)
  {
    assert newIds[i] in newIds && newIds[n] in newIds;
    StaysDone(start, b, after, RowsWith(start, listed, keys[i]), keys[i].0, newIds[i], RowsWith(start, listed, keys[n]),
              NewRows(start, RowsWith(start, listed, keys[n]), newIds[n], locale), locale);
  }

  lemma KeysStayDone(start: Book, b: Book, after: Book, listed: seq<OrderId>, keys: seq<Key>, n: nat,
                     newIds: seq<OrderId>, locale: Locale)
    requires AllIn(start, listed) && KeysOf(start, listed, keys) && n < |keys| <= |newIds|
    requires Distinctly(newIds) && forall o | o in newIds :: o !in start.orders
    requires KeysDone(start, b, listed, keys, n, newIds, locale)
    requires OthersKept(b, after, RowsWith(start, listed, keys[n]),
                        NewRows(start, RowsWith(start, listed, keys[n]), newIds[n], locale))
    ensures KeysDone(start, after, listed, keys, n, newIds, locale)
  {
    forall i | 0 <= i < n
      ensures KeyDone(start, after, listed, keys[i], newIds[i], locale)
    {
      assert KeyDone(start, b, listed, keys[i], newIds[i], locale);
      KeyStaysDone(start, b, after, listed, keys, i, n, newIds, locale);
    }
  }

  lemma OneMoreKey(start: Book, after: Book, listed: seq<OrderId>, keys: seq<Key>, n: nat, newIds: seq<OrderId>,
                   locale: Locale)
    requires AllIn(start, listed) && n < |keys| <= |newIds|
    requires KeysDone(start, after, listed, keys, n, newIds, locale)
    requires KeyDone(start, after, listed, keys[n], newIds[n], locale)
    ensures KeysDone(start, after, listed, keys, n + 1, newIds, locale)
  {
  }

  /** One turn takes the pass one group further. */
  lemma PassesOn(start: Book, b: Book, after: Book, listed: seq<OrderId>, keys: seq<Key>, n: nat,
                 newIds: seq<OrderId>, locale: Locale)
    requires AllIn(start, listed) && KeysOf(start, listed, keys) && n < |keys| <= |newIds|
    requires Distinctly(newIds) && forall o | o in newIds :: o !in start.orders
    requires PassedTo(start, b, listed, keys, n, newIds, locale)
    requires AllIn(b, RowsWith(start, listed, keys[n]))
    requires Waiting(start, b, RowsWith(start, listed, keys[n]), keys[n])
    requires Turn(b, after, RowsWith(start, listed, keys[n]), keys[n].0, newIds[n], locale)
    ensures PassedTo(start, after, listed, keys, n + 1, newIds, locale)
  {
    TurnFromStart(start, b, after, RowsWith(start, listed, keys[n]), keys[n], newIds[n], locale);
    KeysStayDone(start, b, after, listed, keys, n, newIds, locale);
    OneMoreKey(start, after, listed, keys, n, newIds, locale);
    RestPassesOn(start, b, after, listed, keys, n, NewRows(start, RowsWith(start, listed, keys[n]), newIds[n], locale));
    NewPassesOn(start, b, after, listed, keys, n, newIds, locale);
  }

  lemma RestPassesOn(start: Book, b: Book, after: Book, listed: seq<OrderId>, keys: seq<Key>, n: nat,
                     created: set<OrderId>)
    requires AllIn(start, listed) && n < |keys|
    requires OthersKept(b, after, RowsWith(start, listed, keys[n]), created)
    requires RestKept(start, b, listed, keys[..n])
    ensures RestKept(start, after, listed, keys[..n + 1])
  {
    assert keys[..n + 1] == keys[..n] + [keys[n]];
    forall o | o in start.orders && (o in listed ==> KeyOf(start, o) !in keys[..n + 1])
      ensures OrderKept(start, after, o)
    {
      KeptOn(start, b, after, o, RowsWith(start, listed, keys[n]), created);
    }
  }

  lemma NewPassesOn(start: Book, b: Book, after: Book, listed: seq<OrderId>, keys: seq<Key>, n: nat,
                    newIds: seq<OrderId>, locale: Locale)
    requires AllIn(start, listed) && n < |keys| <= |newIds|
    requires OthersKept(b, after, RowsWith(start, listed, keys[n]),
                        NewRows(start, RowsWith(start, listed, keys[n]), newIds[n], locale))
    requires OnlyNew(start, b, listed, keys, n, newIds, locale)
    ensures OnlyNew(start, after, listed, keys, n + 1, newIds, locale)
  {
    forall o | o in after.orders && o !in start.orders
      ensures exists i | 0 <= i < n + 1 :: CreatedBy(start, o, listed, keys[i], newIds[i], locale)
    {
      if o in b.orders {
        var i :| 0 <= i < n && CreatedBy(start, o, listed, keys[i], newIds[i], locale);
      } else {
        assert CreatedBy(start, o, listed, keys[n], newIds[n], locale);
      }
    }
  }

  /** What holds of the book after the first `n` groups, of which `merged` were merged. */
  ghost predicate Passing(start: Book, b: Book, listed: seq<OrderId>, keys: seq<Key>, n: nat, newIds: seq<OrderId>,
                          locale: Locale, merged: nat)
    requires AllIn(start, listed) && n <= |keys| <= |newIds|
  {
    && Conserved(start, b)
    && PassedTo(start, b, listed, keys, n, newIds, locale)
    && merged == MergedCount(start, listed, keys, n, locale)
    && |b.orders| + merged <= |start.orders|
    && (merged == 0 ==> b == start)
  }

  lemma NothingPassed(b: Book, listed: seq<OrderId>, keys: seq<Key>, newIds: seq<OrderId>, locale: Locale)
    requires Ready(b) && AllIn(b, listed) && |keys| <= |newIds|
    ensures Passing(b, b, listed, keys, 0, newIds, locale, 0)
  {
  }

  /** Before its turn: the group is waiting and its id is not in use. */
  lemma ReadyForTurn(start: Book, b: Book, listed: seq<OrderId>, keys: seq<Key>, n: nat, newIds: seq<OrderId>,
                     locale: Locale)
    requires AllIn(start, listed) && Distinctly(listed) && KeysOf(start, listed, keys) && n < |keys| <= |newIds|
    requires Distinctly(newIds) && forall o | o in newIds :: o !in start.orders
    requires PassedTo(start, b, listed, keys, n, newIds, locale)
    ensures var rows := RowsWith(start, listed, keys[n]);
            && Distinctly(rows) && AllIn(b, rows) && Waiting(start, b, rows, keys[n]) && newIds[n] !in b.orders
            && (Skipped(b, rows, locale) <==> Idle(start, listed, keys[n], locale))
  {
    RowsWithDistinct(start, listed, keys[n]);
    NextIsWaiting(start, b, listed, keys, n, newIds, locale);
    assert newIds[n] in newIds;
  }

  lemma AfterTurn(start: Book, b: Book, after: Book, listed: seq<OrderId>, keys: seq<Key>, n: nat,
                  newIds: seq<OrderId>, locale: Locale, merged: nat)
    requires AllIn(start, listed) && KeysOf(start, listed, keys) && n < |keys| <= |newIds|
    requires Distinctly(newIds) && forall o | o in newIds :: o !in start.orders
    requires Passing(start, b, listed, keys, n, newIds, locale, merged)
    requires AllIn(b, RowsWith(start, listed, keys[n]))
    requires Waiting(start, b, RowsWith(start, listed, keys[n]), keys[n])
    requires Turn(b, after, RowsWith(start, listed, keys[n]), keys[n].0, newIds[n], locale)
    requires if Idle(start, listed, keys[n], locale) then after == b else |after.orders| + 1 <= |b.orders|
    ensures Passing(start, after, listed, keys, n + 1, newIds, locale,
                    merged + if Idle(start, listed, keys[n], locale) then 0 else 1)
  {
    PassesOn(start, b, after, listed, keys, n, newIds, locale);
    ConservedTrans(start, b, after);
  }

  // ---------- the pass ----------

  /** `listed` are the orders in scope, `newIds` ids for the rows a pass may create.
      Every group that calls for it becomes one row, in the order of `keys`; a
      refused merge ends the pass, and the merges before it stay. */
  method ConsolidateGroupedOrders(db: LedgerDb, listed: seq<OrderId>, newIds: seq<OrderId>, locale: Locale)
    returns (r: Result<bool>, mergedGroups: nat, ghost keys: seq<Key>, ghost done: nat)
    requires Ready(db.Tables()) && AllIn(db.Tables(), listed) && Distinctly(listed)
    requires Distinctly(newIds) && forall o | o in newIds :: o !in db.orders
    requires |listed| <= |newIds|
    modifies db
    ensures KeysOf(old(db.Tables()), listed, keys) && done <= |keys|
    ensures PassedTo(old(db.Tables()), db.Tables(), listed, keys, done, newIds, locale)
    ensures mergedGroups == MergedCount(old(db.Tables()), listed, keys, done, locale)
    ensures r.Ok? ==> done == |keys| && (mergedGroups == 0 <==> NothingToMerge(old(db.Tables()), listed, locale))
    ensures r.Err? ==>
              && done < |keys|
              && var rows := RowsWith(old(db.Tables()), listed, keys[done]);
                 && AllIn(db.Tables(), rows) && Waiting(old(db.Tables()), db.Tables(), rows, keys[done])
                 && !Skipped(db.Tables(), rows, locale)
                 && Refused(db.Tables(), rows, keys[done].0, newIds[done], locale)
    ensures Conserved(old(db.Tables()), db.Tables())
    ensures |db.orders| + mergedGroups <= |old(db.orders)|
    ensures mergedGroups == 0 ==> db.Tables() == old(db.Tables())
  {
    ghost var start := db.Tables();
    var groups, bucket := GroupOrders(db.Tables(), listed);
    keys, done := groups, 0;
    mergedGroups := 0;
    NothingPassed(start, listed, keys, newIds, locale);
    for i := 0 to |groups|
      invariant done == i && Passing(start, db.Tables(), listed, keys, i, newIds, locale, mergedGroups)
    {
      ghost var before := db.Tables();
      assert groups[i] in groups;
      ReadyForTurn(start, before, listed, keys, i, newIds, locale);
      r := MergeWaiting(db, start, bucket[groups[i]], groups[i], newIds[i], locale);
      if r.Err? {
        return;
      }
      AfterTurn(start, before, db.Tables(), listed, keys, i, newIds, locale, mergedGroups);
      if r.value {
        mergedGroups := mergedGroups + 1;
      }
      done := i + 1;
    }
    CountIsZeroExactly(start, listed, keys, locale);
    r := Ok(true);
  }
}
