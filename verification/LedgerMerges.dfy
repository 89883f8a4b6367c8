/**
 Order rows that are found, merged and moved: the staged lookup of an order
 number, receipts handed from one order to another, and what merging keeps.
 */
module LedgerMerges {
  import opened Basics
  import opened Sums
  import opened Ledger
  import opened LedgerRuns
  import opened OrderAlias

  // ---------- looking an order number up ----------

  datatype Scope = Anywhere | InInvoice(id: InvoiceId) | InPools | Visible(actor: Actor)

  predicate InScope(b: Book, o: OrderId, scope: Scope)
    requires o in b.orders
  {
    match scope
    case Anywhere => true
    case InInvoice(id) => b.orders[o].invoiceId == id
    case InPools => InPool(b, o)
    case Visible(actor) => actor.sees(o)
  }

  predicate Contains(s: string, part: string) {
    exists i: nat | i <= |s| :: part <= s[i..]
  }

  /** The whole number, as typed or canonical. */
  predicate MatchesNumber(b: Book, o: OrderId, no: string, locale: Locale)
    requires o in b.orders
  {
    b.orders[o].orderNo == Trim(no) || b.orders[o].orderNo == Canonical(Trim(no), locale)
  }

  predicate MatchesAlias(b: Book, o: OrderId, no: string, locale: Locale) {
    exists a | a in b.aliases :: b.aliases[a] == o && a in FoldedCandidates(no, locale)
  }

  /** The text of the order number contains a candidate, and one of its segments is one. */
  predicate HasSegment(orderNo: string, no: string, locale: Locale) {
    var segments := SplitComposite(orderNo);
    && (exists i | 0 <= i < |ExactCandidates(no, locale)| :: Contains(orderNo, ExactCandidates(no, locale)[i]))
    && exists i | 0 <= i < |segments| :: Normalize(segments[i], locale) in FoldedCandidates(no, locale)
  }

  predicate MatchesSegment(b: Book, o: OrderId, no: string, locale: Locale)
    requires o in b.orders
  {
    HasSegment(b.orders[o].orderNo, no, locale)
  }

  predicate Matches(b: Book, o: OrderId, no: string, locale: Locale)
    requires o in b.orders
  {
    MatchesNumber(b, o, no, locale) || MatchesAlias(b, o, no, locale) || MatchesSegment(b, o, no, locale)
  }

  /** Some order in scope matches the number. */
  predicate Findable(b: Book, no: string, scope: Scope, locale: Locale) {
    Trim(no) != [] && exists o | o in b.orders && InScope(b, o, scope) :: Matches(b, o, no, locale)
  }

  predicate FindableByNumber(b: Book, no: string, scope: Scope, locale: Locale) {
    exists o | o in b.orders && InScope(b, o, scope) :: MatchesNumber(b, o, no, locale)
  }

  predicate FindableByAlias(b: Book, no: string, scope: Scope, locale: Locale) {
    exists o | o in b.orders && InScope(b, o, scope) :: MatchesAlias(b, o, no, locale)
  }

  /** A match a lookup may return: one by alias only where no number matches, one by
      segment only where no alias matches either. */
  predicate Found(b: Book, o: OrderId, no: string, scope: Scope, locale: Locale) {
    && o in b.orders && InScope(b, o, scope) && Matches(b, o, no, locale)
    && (FindableByNumber(b, no, scope, locale) ==> MatchesNumber(b, o, no, locale))
    && (!FindableByNumber(b, no, scope, locale) && FindableByAlias(b, no, scope, locale) ==>
          MatchesAlias(b, o, no, locale))
  }

  /** A match of one stage is found when the stages before it found nothing. */
  lemma StageFinds(b: Book, o: OrderId, no: string, scope: Scope, locale: Locale)
    requires Trim(no) != [] && o in b.orders && InScope(b, o, scope)
    requires || MatchesNumber(b, o, no, locale)
             || (!FindableByNumber(b, no, scope, locale) && MatchesAlias(b, o, no, locale))
             || (!FindableByNumber(b, no, scope, locale) && !FindableByAlias(b, no, scope, locale) &&
                   MatchesSegment(b, o, no, locale))
    ensures Found(b, o, no, scope, locale) && Findable(b, no, scope, locale)
  {
    assert Matches(b, o, no, locale);
  }

  /** Finds a match just when there is one; whole numbers are tried before aliases,
      aliases before single segments.  Which of several rows a stage returns is
      left to the database. */
  method FindOrderId(db: LedgerDb, no: string, scope: Scope, locale: Locale) returns (r: Option<OrderId>)
    ensures r.Some? <==> Findable(db.Tables(), no, scope, locale)
    ensures r.Some? ==> Found(db.Tables(), r.value, no, scope, locale)
  {
    var b := db.Tables();
    if Trim(no) == [] {
      return None;
    }
    if o :| o in b.orders && InScope(b, o, scope) && MatchesNumber(b, o, no, locale) {
      StageFinds(b, o, no, scope, locale);
      return Some(o);
    }
    assert !FindableByNumber(b, no, scope, locale);
    if a :| a in b.aliases && a in FoldedCandidates(no, locale) &&
            b.aliases[a] in b.orders && InScope(b, b.aliases[a], scope) {
      assert MatchesAlias(b, b.aliases[a], no, locale);
      StageFinds(b, b.aliases[a], no, scope, locale);
      return Some(b.aliases[a]);
    }
    assert !FindableByAlias(b, no, scope, locale);
    if o :| o in b.orders && InScope(b, o, scope) && MatchesSegment(b, o, no, locale) {
      StageFinds(b, o, no, scope, locale);
      return Some(o);
    }
    r := None;
  }

  /** Syncing leaves every alias of the number in the table: with the order, unless
      another order had it, which keeps it.  Other aliases of the order are gone. */
  lemma SyncKeepsAliases(aliases: map<string, OrderId>, o: OrderId, aliasNos: set<string>)
    ensures var synced := SyncedAliases(aliases, o, aliasNos);
            && (forall a :: a in synced <==> a in aliasNos || (a in aliases && aliases[a] != o))
            && (forall a | a in synced ::
                  synced[a] == if a in aliases && aliases[a] != o then aliases[a] else o)
            && (forall a | a in synced && synced[a] == o :: a in aliasNos)
  {
  }

  /** After the aliases of an order are synced, a search for any segment of its
      composite number finds an order: the segment's alias is held by this order
      or by another one. */
  lemma SegmentSearchFinds(b: Book, o: OrderId, orderNo: string, i: nat, locale: Locale)
    requires o in b.orders && AliasRefs(b)
    requires |SplitComposite(Canonical(orderNo, locale))| > 1 && i < |SplitComposite(Canonical(orderNo, locale))|
    requires Normalize(SplitComposite(Canonical(orderNo, locale))[i], locale) != []
    ensures var synced := b.(aliases := SyncedAliases(b.aliases, o, AliasNos(orderNo, locale)));
            Findable(synced, SplitComposite(Canonical(orderNo, locale))[i], Anywhere, locale)
  {
    var synced := b.(aliases := SyncedAliases(b.aliases, o, AliasNos(orderNo, locale)));
    var segment := SplitComposite(Canonical(orderNo, locale))[i];
    SegmentIsCandidate(orderNo, i, locale);
    SegmentsAreWhole(Canonical(orderNo, locale));
    SyncKeepsAliases(b.aliases, o, AliasNos(orderNo, locale));
    var a := Normalize(segment, locale);
    assert MatchesAlias(synced, synced.aliases[a], segment, locale);
    assert Matches(synced, synced.aliases[a], segment, locale);
  }

  /** What a search for a single folded word finds: the order with just this number or
      alias, or one whose number has it as a segment, spelled the same way somewhere. */
  lemma WordMatchesExactly(b: Book, o: OrderId, word: string, locale: Locale)
    requires o in b.orders && SplitComposite(word) == [word] && Trim(word) == word && word != []
    requires Normalize(word, locale) == word
    ensures Matches(b, o, word, locale) <==>
              || b.orders[o].orderNo == word
              || (word in b.aliases && b.aliases[word] == o)
              || (word in Folded(SplitComposite(b.orders[o].orderNo), locale) && Contains(b.orders[o].orderNo, word))
  {
    WordCandidates(word, locale);
    assert ExactCandidates(word, locale)[0] == word;
  }

  // ---------- transferring to an order number ----------

  /** The request as it is made: the target is looked up among the orders the user
      sees; a number that none of them has gets a new pool order. */
  method TransferInvoiceBalance(db: LedgerDb, actor: Actor, fromOrderId: OrderId, toOrderNo: string, amount: int,
                                locale: Locale, newInvoiceId: InvoiceId, newOrderId: OrderId,
                                newReceiptId: ReceiptId, newTransferId: TransferId)
    returns (r: Result<OrderId>)
    requires newInvoiceId !in db.invoices && newOrderId !in db.orders
    requires newReceiptId !in db.receipts && newTransferId !in db.transfers
    modifies db
    ensures r.Ok? <==>
              && Canonical(toOrderNo, locale) != [] && actor.sees(fromOrderId)
              && CanTransfer(old(db.Tables()), fromOrderId, amount)
    ensures r.Err? ==>
              && db.Tables() == old(db.Tables()) && (r.error == NotFound || r.error == BadRequest)
              && (r.error == NotFound <==>
                    && Canonical(toOrderNo, locale) != [] && 0 < amount
                    && !(fromOrderId in db.orders && actor.sees(fromOrderId)))
    ensures r.Ok? && Findable(old(db.Tables()), Canonical(toOrderNo, locale), Visible(actor), locale) ==>
              && Found(old(db.Tables()), r.value, Canonical(toOrderNo, locale), Visible(actor), locale)
              && db.Tables() ==
                   AfterTransfer(old(db.Tables()), fromOrderId, r.value, amount, newReceiptId, newTransferId)
    ensures r.Ok? && !Findable(old(db.Tables()), Canonical(toOrderNo, locale), Visible(actor), locale) ==>
              && r.value == newOrderId
              && exists pool: InvoiceId ::
                && PoolFor(old(db.invoices), pool, newInvoiceId)
                && db.Tables() ==
                     AfterTransfer(AfterNewTarget(old(db.Tables()), pool, newOrderId, Canonical(toOrderNo, locale),
                                                  AliasNos(Canonical(toOrderNo, locale), locale)),
                                   fromOrderId, newOrderId, amount, newReceiptId, newTransferId)
  {
    var canonical := Canonical(toOrderNo, locale);
    if canonical == [] {
      return Err(BadRequest);
    }
    var target := FindOrderId(db, canonical, Visible(actor), locale);
    r := db.TransferTo(fromOrderId, canonical, AliasNos(canonical, locale), target, amount, actor,
                       newInvoiceId, newOrderId, newReceiptId, newTransferId);
  }

  lemma NewTargetRow(b: Book, pool: InvoiceId, o: OrderId, no: string, aliasNos: set<string>, from: OrderId,
                     amount: int, r: ReceiptId, t: TransferId)
    requires from in b.orders && o !in b.orders
    ensures var after := AfterTransfer(AfterNewTarget(b, pool, o, no, aliasNos), from, o, amount, r, t);
            && after.orders.Keys == b.orders.Keys + {o}
            && after.orders[o].orderNo == no && after.orders[o].invoiceId == pool && after.orders[o].amount == 0
            && after.orders[from].amount == b.orders[from].amount + amount
            && after.invoices == AfterNewTarget(b, pool, o, no, aliasNos).invoices
            && after.aliases == SyncedAliases(b.aliases, o, aliasNos)
  {
    var posted := Posted(AfterNewTarget(b, pool, o, no, aliasNos), from, o, amount, r, t);
    RefreshKeeps(posted, from);
    RefreshKeeps(Refresh(posted, from), o);
  }

  /** Any search that sees an order with just this number finds one that has it. */
  lemma NamedIsFound(b: Book, o: OrderId, no: string, scope: Scope, locale: Locale)
    requires o in b.orders && b.orders[o].orderNo == no && no != [] && Trim(no) == no && InScope(b, o, scope)
    ensures Findable(b, no, scope, locale)
    ensures forall q | Found(b, q, no, scope, locale) :: MatchesNumber(b, q, no, locale)
  {
    assert MatchesNumber(b, o, no, locale) && Matches(b, o, no, locale);
    assert FindableByNumber(b, no, scope, locale);
  }

  /** The order a transfer creates for an unknown number is an order of the
      Un_Associated pool without an amount: whoever sees it finds it by exactly this
      number, and every alias of the number is in use. */
  lemma NewTargetIsFound(b: Book, pool: InvoiceId, newInvoiceId: InvoiceId, o: OrderId, toOrderNo: string,
                         from: OrderId, amount: int, r: ReceiptId, t: TransferId, scope: Scope, locale: Locale,
                         no: string, after: Book)
    requires from in b.orders && o !in b.orders && PoolFor(b.invoices, pool, newInvoiceId)
    requires no == Canonical(toOrderNo, locale) != []
    requires after == AfterTransfer(AfterNewTarget(b, pool, o, no, AliasNos(no, locale)), from, o, amount, r, t)
    ensures o in after.orders && after.orders[o].invoiceId == pool && after.orders[o].amount == 0
    ensures pool in after.invoices && after.invoices[pool] == UN_ASSOCIATED
    ensures InScope(after, o, scope) ==>
              && Findable(after, no, scope, locale)
              && forall q | Found(after, q, no, scope, locale) :: MatchesNumber(after, q, no, locale)
    ensures AliasNos(no, locale) <= after.aliases.Keys
  {
    NewTargetRow(b, pool, o, no, AliasNos(no, locale), from, amount, r, t);
    CanonicalTrimmed(toOrderNo, locale);
    if InScope(after, o, scope) {
      NamedIsFound(after, o, no, scope, locale);
    }
  }

  // ---------- totals ----------

  ghost function InvoiceAmounts(b: Book, invoice: InvoiceId): map<OrderId, int> {
    map o | o in b.orders && b.orders[o].invoiceId == invoice :: b.orders[o].amount
  }

  ghost function InvoiceTotal(b: Book, invoice: InvoiceId): int {
    Sum(InvoiceAmounts(b, invoice))
  }

  /** The amounts of the orders outside the system pools. */
  ghost function FormalAmounts(b: Book): map<OrderId, int> {
    map o | o in b.orders && !InPool(b, o) :: b.orders[o].amount
  }

  ghost function FormalTotal(b: Book): int {
    Sum(FormalAmounts(b))
  }

  ghost function Lives(b: Book): map<OrderId, int> {
    map o | o in b.orders :: Live(b, o)
  }

  lemma CoherentTotal(b: Book)
    requires Coherent(b)
    ensures TotalBalance(b) == Sum(Lives(b))
  {
    SumSame(Balances(b.orders), Lives(b));
  }

  // ---------- the balance of an invoice ----------

  ghost function InvoiceBalances(b: Book, invoice: InvoiceId): map<OrderId, int> {
    map o | o in b.orders && b.orders[o].invoiceId == invoice :: b.orders[o].orderBalance
  }

  ghost function InvoiceBalance(b: Book, invoice: InvoiceId): int {
    Sum(InvoiceBalances(b, invoice))
  }

  /** The invoice a receipt belongs to through its order. */
  ghost function InvoiceOf(b: Book, r: ReceiptId): Option<InvoiceId>
    requires r in b.receipts
  {
    var o := b.receipts[r].orderId;
    if o.Some? && o.value in b.orders then Some(b.orders[o.value].invoiceId) else None
  }

  /** Every receipt still belongs to its invoice. */
  ghost predicate InvoicesKept(b: Book, after: Book) {
    forall r | r in b.receipts :: r in after.receipts && InvoiceOf(after, r) == InvoiceOf(b, r)
  }

  /** The receipts that count for any of the orders. */
  ghost function CountedFor(b: Book, orders: set<OrderId>): map<ReceiptId, int> {
    map r | r in b.receipts && b.receipts[r].orderId.Some? && b.receipts[r].CountedIn(b.receipts[r].orderId.value) &&
            b.receipts[r].orderId.value in orders :: b.receipts[r].usd
  }

  ghost function OrdersOf(b: Book, invoice: InvoiceId): set<OrderId> {
    set o | o in b.orders && b.orders[o].invoiceId == invoice
  }

  lemma CountedForOneMore(b: Book, orders: set<OrderId>, o: OrderId)
    requires o in orders
    ensures Sum(CountedFor(b, orders)) == Sum(CountedFor(b, orders - {o})) + Sum(Counted(b.receipts, o))
  {
    var all, own := CountedFor(b, orders), Counted(b.receipts, o);
    SumSplit(all, own);
    assert all - own.Keys == CountedFor(b, orders - {o});
  }

  ghost function BalancesIn(b: Book, orders: set<OrderId>): map<OrderId, int> {
    map o | o in orders && o in b.orders :: b.orders[o].orderBalance
  }

  ghost function AmountsIn(b: Book, orders: set<OrderId>): map<OrderId, int> {
    map o | o in orders && o in b.orders :: b.orders[o].amount
  }

  lemma InOneLess(b: Book, orders: set<OrderId>, o: OrderId)
    requires o in orders && o in b.orders
    ensures Sum(BalancesIn(b, orders)) == b.orders[o].orderBalance + Sum(BalancesIn(b, orders - {o}))
    ensures Sum(AmountsIn(b, orders)) == b.orders[o].amount + Sum(AmountsIn(b, orders - {o}))
  {
    SumRemove(BalancesIn(b, orders), o);
    SumRemove(AmountsIn(b, orders), o);
    assert BalancesIn(b, orders) - {o} == BalancesIn(b, orders - {o});
    assert AmountsIn(b, orders) - {o} == AmountsIn(b, orders - {o});
  }

  /** The balances of some orders are their amounts less the receipts that count for them. */
  lemma {:induction false} BalancesOfSome(b: Book, orders: set<OrderId>)
    requires Coherent(b) && orders <= b.orders.Keys
    ensures Sum(BalancesIn(b, orders)) == Sum(AmountsIn(b, orders)) - Sum(CountedFor(b, orders))
    decreases |orders|
  {
    if orders == {} {
      assert CountedFor(b, orders) == map[] && BalancesIn(b, orders) == map[] && AmountsIn(b, orders) == map[];
    } else {
      var o :| o in orders;
      BalancesOfSome(b, orders - {o});
      InOneLess(b, orders, o);
      CountedForOneMore(b, orders, o);
    }
  }

  lemma InvoiceBalanceIs(b: Book, invoice: InvoiceId)
    requires Coherent(b)
    ensures InvoiceBalance(b, invoice) == InvoiceTotal(b, invoice) - Sum(CountedFor(b, OrdersOf(b, invoice)))
  {
    BalancesOfSome(b, OrdersOf(b, invoice));
    assert InvoiceBalances(b, invoice) == BalancesIn(b, OrdersOf(b, invoice));
    assert InvoiceAmounts(b, invoice) == AmountsIn(b, OrdersOf(b, invoice));
  }

  // ---------- handing receipts over ----------

  function Handed(row: Receipt, source: OrderId, target: OrderId): Receipt {
    if row.orderId == Some(source) then row.(orderId := Some(target)) else row
  }

  /** All receipts of `source` go to `target`, then `source` is deleted. */
  function Absorbed(b: Book, source: OrderId, target: OrderId): Book {
    WithoutOrder(b.(receipts := map r | r in b.receipts :: Handed(b.receipts[r], source, target)), source)
  }

  /** No receipt is lost or changed, and a bound one stays bound. */
  ghost predicate ReceiptsKept(b: Book, after: Book) {
    && after.receipts.Keys == b.receipts.Keys
    && forall r | r in b.receipts ::
         && after.receipts[r] == b.receipts[r].(orderId := after.receipts[r].orderId)
         && (b.receipts[r].orderId.Some? <==> after.receipts[r].orderId.Some?)
  }

  lemma KeptTrans(a: Book, b: Book, c: Book)
    requires ReceiptsKept(a, b) && ReceiptsKept(b, c)
    ensures ReceiptsKept(a, c)
  {
  }

  /** Invoices that keep their amounts and their receipts keep their balances. */
  lemma SameInvoiceBalances(b: Book, after: Book)
    requires Coherent(b) && Coherent(after) && ReceiptsKept(b, after) && InvoicesKept(b, after)
    requires forall i :: InvoiceTotal(after, i) == InvoiceTotal(b, i)
    ensures forall i :: InvoiceBalance(after, i) == InvoiceBalance(b, i)
  {
    forall i: InvoiceId
      ensures InvoiceBalance(after, i) == InvoiceBalance(b, i)
    {
      InvoiceBalanceIs(b, i);
      InvoiceBalanceIs(after, i);
      SameCountedFor(b, after, i);
    }
  }

  lemma SameCountedFor(b: Book, after: Book, invoice: InvoiceId)
    requires ReceiptsKept(b, after) && InvoicesKept(b, after)
    ensures CountedFor(after, OrdersOf(after, invoice)) == CountedFor(b, OrdersOf(b, invoice))
  {
    forall r
      ensures r in CountedFor(after, OrdersOf(after, invoice)) <==> r in CountedFor(b, OrdersOf(b, invoice))
    {
      if r in b.receipts {
        assert InvoiceOf(after, r) == InvoiceOf(b, r);
      }
    }
  }

  lemma AbsorbedCounted(b: Book, source: OrderId, target: OrderId, o: OrderId)
    requires source != target && o != source
    ensures Sum(Counted(Absorbed(b, source, target).receipts, o)) ==
            Sum(Counted(b.receipts, o)) + if o == target then Sum(Counted(b.receipts, source)) else 0
  {
    if o == target {
      AbsorbedCountedOfTarget(b, source, target);
    } else {
      assert Counted(Absorbed(b, source, target).receipts, o) == Counted(b.receipts, o);
    }
  }

  lemma AbsorbedCountedOfTarget(b: Book, source: OrderId, target: OrderId)
    requires source != target
    ensures Sum(Counted(Absorbed(b, source, target).receipts, target)) ==
            Sum(Counted(b.receipts, target)) + Sum(Counted(b.receipts, source))
  {
    var after := Counted(Absorbed(b, source, target).receipts, target);
    CountedJoin(b.receipts, Absorbed(b, source, target).receipts, source, target);
    SumSplit(after, Counted(b.receipts, target));
  }

  /** What counts for the target afterwards is what counted for either before. */
  lemma CountedJoin(before: map<ReceiptId, Receipt>, after: map<ReceiptId, Receipt>, source: OrderId, target: OrderId)
    requires source != target && after.Keys == before.Keys
    requires forall r | r in before :: after[r] == Handed(before[r], source, target)
    ensures Counted(before, target).Keys <= Counted(after, target).Keys
    ensures forall r | r in Counted(before, target) :: Counted(before, target)[r] == Counted(after, target)[r]
    ensures Counted(after, target) - Counted(before, target).Keys == Counted(before, source)
  {
    forall r | r in before
      ensures after[r].CountedIn(target) <==> before[r].CountedIn(target) || before[r].CountedIn(source)
      ensures after[r].usd == before[r].usd
    {
    }
  }

  lemma AbsorbedLive(b: Book, source: OrderId, target: OrderId, o: OrderId)
    requires source != target && o != source && o in b.orders
    ensures o in Absorbed(b, source, target).orders
    ensures Live(Absorbed(b, source, target), o) ==
              Live(b, o) - if o == target then Sum(Counted(b.receipts, source)) else 0
  {
    AbsorbedCounted(b, source, target, o);
  }

  /** One balance is gone and the target's has changed; the others are what they were. */
  ghost predicate LivesAbsorbed(before: map<OrderId, int>, after: map<OrderId, int>, source: OrderId, target: OrderId,
                                taken: int) {
    && after.Keys == before.Keys - {source} && target in after
    && forall o | o in after :: after[o] == before[o] - if o == target then taken else 0
  }

  lemma AbsorbedLivesAre(b: Book, source: OrderId, target: OrderId)
    requires source != target && source in b.orders && target in b.orders
    ensures LivesAbsorbed(Lives(b), Lives(Absorbed(b, source, target)), source, target,
                          Sum(Counted(b.receipts, source)))
  {
    forall o | o in b.orders && o != source {
      AbsorbedLive(b, source, target, o);
    }
  }

  lemma LivesAbsorbedSum(before: map<OrderId, int>, after: map<OrderId, int>, source: OrderId, target: OrderId,
                         taken: int)
    requires source in before && LivesAbsorbed(before, after, source, target, taken)
    ensures Sum(after) == Sum(before) - before[source] - taken
  {
    SumWithout(before, source);
    SumExcept(before - {source}, after, target);
  }

  /** The live balances after absorbing: the target takes the source's receipts. */
  lemma AbsorbedLives(b: Book, source: OrderId, target: OrderId)
    requires source != target && source in b.orders && target in b.orders
    ensures Sum(Lives(Absorbed(b, source, target))) == Sum(Lives(b)) - b.orders[source].amount
  {
    AbsorbedLivesAre(b, source, target);
    LivesAbsorbedSum(Lives(b), Lives(Absorbed(b, source, target)), source, target, Sum(Counted(b.receipts, source)));
  }

  lemma AbsorbedInvoice(b: Book, source: OrderId, target: OrderId, invoice: InvoiceId)
    requires source in b.orders
    ensures InvoiceTotal(Absorbed(b, source, target), invoice) ==
            InvoiceTotal(b, invoice) - if b.orders[source].invoiceId == invoice then b.orders[source].amount else 0
  {
    SumExcept(InvoiceAmounts(b, invoice), InvoiceAmounts(Absorbed(b, source, target), invoice), source);
  }

  lemma AbsorbedFormal(b: Book, source: OrderId, target: OrderId)
    requires source in b.orders && InPool(b, source)
    ensures FormalTotal(Absorbed(b, source, target)) == FormalTotal(b)
  {
    SumSame(FormalAmounts(Absorbed(b, source, target)), FormalAmounts(b));
  }

  lemma AbsorbedRefs(b: Book, source: OrderId, target: OrderId)
    requires OrderRefs(b) && ReceiptRefs(b) && TransferRefs(b)
    requires source != target && target in b.orders
    requires forall t | t in b.transfers :: !b.transfers[t].Touches(source)
    ensures var after := Absorbed(b, source, target);
            OrderRefs(after) && ReceiptRefs(after) && TransferRefs(after) && ReceiptsKept(b, after)
  {
  }

  /** Only the target's cached balance goes stale. */
  lemma AbsorbedCoherent(b: Book, source: OrderId, target: OrderId, stale: set<OrderId>)
    requires CoherentExcept(b, stale) && source != target && target in stale
    ensures CoherentExcept(Absorbed(b, source, target), stale)
  {
    var after := Absorbed(b, source, target);
    forall o | o in after.orders && o !in stale
      ensures after.orders[o].orderBalance == Live(after, o)
    {
      AbsorbedCounted(b, source, target, o);
    }
  }

  // ---------- several sources ----------

  ghost function AbsorbAll(b: Book, sources: seq<OrderId>, target: OrderId): Book
    decreases |sources|
  {
    if sources == [] then b else AbsorbAll(Absorbed(b, sources[0], target), sources[1..], target)
  }

  function AmountsOf(b: Book, rows: seq<OrderId>): int
    requires forall o | o in rows :: o in b.orders
  {
    if rows == [] then 0 else b.orders[rows[0]].amount + AmountsOf(b, rows[1..])
  }

  ghost predicate Untouched(b: Book, rows: seq<OrderId>) {
    forall t, o | t in b.transfers && o in rows :: !b.transfers[t].Touches(o)
  }

  function RowSet(rows: seq<OrderId>): set<OrderId> {
    set o | o in rows
  }

  ghost predicate Distinctly(rows: seq<OrderId>) {
    forall i, j | 0 <= i < j < |rows| :: rows[i] != rows[j]
  }

  /** Distinct sources that can be merged into `target`. */
  ghost predicate Mergeable(b: Book, sources: seq<OrderId>, target: OrderId) {
    && OrderRefs(b) && ReceiptRefs(b) && TransferRefs(b)
    && Untouched(b, sources) && Distinctly(sources)
    && target in b.orders && target !in sources
    && forall o | o in sources :: o in b.orders
  }

  lemma {:induction false} AmountsAfterAbsorb(b: Book, source: OrderId, target: OrderId, rows: seq<OrderId>)
    requires source !in rows && forall o | o in rows :: o in b.orders
    ensures forall o | o in rows :: o in Absorbed(b, source, target).orders
    ensures AmountsOf(Absorbed(b, source, target), rows) == AmountsOf(b, rows)
  {
    if rows != [] {
      AmountsAfterAbsorb(b, source, target, rows[1..]);
    }
  }

  lemma AbsorbMergeable(b: Book, sources: seq<OrderId>, target: OrderId)
    requires Mergeable(b, sources, target) && sources != []
    ensures Mergeable(Absorbed(b, sources[0], target), sources[1..], target)
    ensures sources[0] !in sources[1..]
    ensures ReceiptsKept(b, Absorbed(b, sources[0], target))
  {
    assert sources[0] in sources;
    assert forall o | o in sources[1..] :: o in sources && o != sources[0];
    AbsorbedRefs(b, sources[0], target);
  }

  /** Absorbing sources takes exactly their amounts out of the live balances. */
  lemma {:induction false} AbsorbAllLives(b: Book, sources: seq<OrderId>, target: OrderId)
    requires Mergeable(b, sources, target)
    ensures Sum(Lives(AbsorbAll(b, sources, target))) == Sum(Lives(b)) - AmountsOf(b, sources)
    decreases |sources|
  {
    if sources != [] {
      AbsorbMergeable(b, sources, target);
      AbsorbAllLives(Absorbed(b, sources[0], target), sources[1..], target);
      AmountsAfterAbsorb(b, sources[0], target, sources[1..]);
      AbsorbedLives(b, sources[0], target);
    }
  }

  /** And out of the total of the invoice they are in. */
  lemma {:induction false} AbsorbAllInvoice(b: Book, sources: seq<OrderId>, target: OrderId, invoice: InvoiceId)
    requires Mergeable(b, sources, target) && forall o | o in sources :: b.orders[o].invoiceId == invoice
    ensures forall i :: InvoiceTotal(AbsorbAll(b, sources, target), i) ==
              InvoiceTotal(b, i) - if i == invoice then AmountsOf(b, sources) else 0
    decreases |sources|
  {
    if sources != [] {
      AbsorbMergeable(b, sources, target);
      AbsorbAllInvoice(Absorbed(b, sources[0], target), sources[1..], target, invoice);
      AmountsAfterAbsorb(b, sources[0], target, sources[1..]);
      forall i {
        AbsorbedInvoice(b, sources[0], target, i);
      }
    }
  }

  lemma {:induction false} AbsorbAllRows(b: Book, sources: seq<OrderId>, target: OrderId)
    requires Mergeable(b, sources, target)
    ensures var after := AbsorbAll(b, sources, target);
            && OrderRefs(after) && ReceiptRefs(after) && TransferRefs(after) && ReceiptsKept(b, after)
            && after.orders == b.orders - RowSet(sources)
            && after.transfers == b.transfers && after.invoices == b.invoices
    decreases |sources|
  {
    if sources != [] {
      AbsorbMergeable(b, sources, target);
      var next := Absorbed(b, sources[0], target);
      AbsorbAllRows(next, sources[1..], target);
      KeptTrans(b, next, AbsorbAll(b, sources, target));
      assert RowSet(sources) == {sources[0]} + RowSet(sources[1..]);
    }
  }

  lemma {:induction false} AbsorbAllCoherent(b: Book, sources: seq<OrderId>, target: OrderId)
    requires Mergeable(b, sources, target) && CoherentExcept(b, {target})
    ensures CoherentExcept(AbsorbAll(b, sources, target), {target})
    decreases |sources|
  {
    if sources != [] {
      AbsorbMergeable(b, sources, target);
      AbsorbedCoherent(b, sources[0], target, {target});
      AbsorbAllCoherent(Absorbed(b, sources[0], target), sources[1..], target);
    }
  }

  /** Every receipt of a source ends on the target, all others stay. */
  lemma {:induction false} AbsorbAllReceipts(b: Book, sources: seq<OrderId>, target: OrderId, r: ReceiptId)
    requires r in b.receipts && target !in sources
    ensures r in AbsorbAll(b, sources, target).receipts
    ensures AbsorbAll(b, sources, target).receipts[r].orderId ==
            if b.receipts[r].orderId.Some? && b.receipts[r].orderId.value in sources then Some(target)
            else b.receipts[r].orderId
    decreases |sources|
  {
    if sources != [] {
      AbsorbAllReceipts(Absorbed(b, sources[0], target), sources[1..], target, r);
    }
  }

  // ---------- writing one order row ----------

  function WithRow(b: Book, o: OrderId, row: Order): Book {
    b.(orders := b.orders[o := row])
  }

  ghost function LiveOrZero(b: Book, o: OrderId): int {
    if o in b.orders then Live(b, o) else 0
  }

  /** Writing a row changes the total of live balances by what the row's own changes. */
  lemma WithRowLives(b: Book, o: OrderId, row: Order)
    ensures Sum(Lives(WithRow(b, o, row))) ==
            Sum(Lives(b)) - LiveOrZero(b, o) + row.amount - Sum(Counted(b.receipts, o))
  {
    SumExcept(Lives(b), Lives(WithRow(b, o, row)), o);
  }

  lemma WithRowInvoice(b: Book, o: OrderId, row: Order, i: InvoiceId)
    ensures InvoiceTotal(WithRow(b, o, row), i) ==
            InvoiceTotal(b, i) - At(InvoiceAmounts(b, i), o) + if row.invoiceId == i then row.amount else 0
  {
    SumExcept(InvoiceAmounts(b, i), InvoiceAmounts(WithRow(b, o, row), i), o);
  }

  lemma WithRowFormal(b: Book, o: OrderId, row: Order)
    ensures FormalTotal(WithRow(b, o, row)) ==
            FormalTotal(b) - At(FormalAmounts(b), o) +
            if InPool(WithRow(b, o, row), o) then 0 else row.amount
  {
    SumExcept(FormalAmounts(b), FormalAmounts(WithRow(b, o, row)), o);
  }

  /** Amounts only depend on the money columns of the orders. */
  lemma SameAmounts(b: Book, c: Book)
    requires c.orders.Keys == b.orders.Keys && c.receipts == b.receipts && c.invoices == b.invoices
    requires forall o | o in b.orders ::
               c.orders[o].amount == b.orders[o].amount && c.orders[o].invoiceId == b.orders[o].invoiceId
    ensures Sum(Lives(c)) == Sum(Lives(b))
    ensures forall i :: InvoiceTotal(c, i) == InvoiceTotal(b, i)
    ensures FormalTotal(c) == FormalTotal(b)
  {
    SumSame(Lives(c), Lives(b));
    forall i {
      SumSame(InvoiceAmounts(c, i), InvoiceAmounts(b, i));
    }
    SumSame(FormalAmounts(c), FormalAmounts(b));
  }
}
