/**
 The payment capacity ranking: what each customer paid in each completed month.
 Quality counters, display fields and the final sorting are not part of it.
 */
module CapacityRanking {
  import opened Basics
  import opened PaymentTimeline
  import opened CompletedMonths
  import opened CustomerOrders

  datatype Entry = Entry(customer: CustomerId, order: OrderId, receipt: Receipt, month: Month)

  datatype Bucket = Bucket(total: int, receipts: seq<Entry>)

  datatype Accumulator = Accumulator(total: int, months: map<Month, Bucket>)

  // ---------- which receipts count ----------

  function Entered(customer: CustomerId, order: OrderId, sightings: seq<Receipt>, asOf: Instant, period: Period)
    : seq<Entry> {
    if sightings == [] then []
    else
      var rest := Entered(customer, order, sightings[1..], asOf, period);
      if sightings[0].Usable(asOf) && period.Contains(sightings[0].EffectiveDate())
      then [Entry(customer, order, sightings[0], MonthKey(sightings[0].EffectiveDate()))] + rest else rest
  }

  /** The orders of known customers. */
  predicate Known(o: Order, customers: seq<CustomerId>) {
    o.customer.Some? && o.customer.value in customers
  }

  /** All counted receipts, in the order they are met. */
  function Entries(orders: seq<Order>, customers: seq<CustomerId>, seen: set<ReceiptId>, asOf: Instant,
                   period: Period): seq<Entry> {
    if orders == [] then []
    else if !Known(orders[0], customers) then Entries(orders[1..], customers, seen, asOf, period)
    else
      Entered(orders[0].customer.value, orders[0].id, FirstSightings(orders[0].receipts, seen), asOf, period) +
      Entries(orders[1..], customers, seen + Sighted(orders[0].receipts), asOf, period)
  }

  // ---------- totals ----------

  function TotalOf(entries: seq<Entry>, c: CustomerId): int {
    if entries == [] then 0
    else
      var e := entries[|entries| - 1];
      TotalOf(entries[..|entries| - 1], c) + if e.customer == c then e.receipt.usd else 0
  }

  function InBucket(entries: seq<Entry>, c: CustomerId, m: Month): seq<Entry> {
    if entries == [] then []
    else
      var e := entries[|entries| - 1];
      InBucket(entries[..|entries| - 1], c, m) + if e.customer == c && e.month == m then [e] else []
  }

  function Amounts(entries: seq<Entry>): int {
    if entries == [] then 0 else Amounts(entries[..|entries| - 1]) + entries[|entries| - 1].receipt.usd
  }

  lemma AmountsPush(entries: seq<Entry>, e: Entry)
    ensures Amounts(entries + [e]) == Amounts(entries) + e.receipt.usd
  {
    assert (entries + [e])[..|entries|] == entries;
  }

  lemma Pushed(done: seq<Entry>, e: Entry, c: CustomerId, m: Month)
    ensures TotalOf(done + [e], c) == TotalOf(done, c) + if e.customer == c then e.receipt.usd else 0
    ensures InBucket(done + [e], c, m) == InBucket(done, c, m) + if e.customer == c && e.month == m then [e] else []
  {
    assert (done + [e])[..|done|] == done;
  }

  /** The accumulator of `c` holds exactly what the entries say. */
  ghost predicate Shows(a: Accumulator, c: CustomerId, first: Month, count: nat, done: seq<Entry>) {
    && a.total == TotalOf(done, c)
    && (forall m :: m in a.months <==> first <= m < first + count)
    && forall m | m in a.months ::
         a.months[m].receipts == InBucket(done, c, m) && a.months[m].total == Amounts(a.months[m].receipts)
  }

  ghost predicate Reflects(accumulators: map<CustomerId, Accumulator>, customers: seq<CustomerId>, first: Month,
                           count: nat, done: seq<Entry>) {
    && (forall c :: c in accumulators <==> c in customers)
    && forall c | c in accumulators :: Shows(accumulators[c], c, first, count, done)
  }

  function WithEntry(a: Accumulator, m: Month, e: Entry): Accumulator
    requires m in a.months
  {
    Accumulator(
      a.total + e.receipt.usd,
      a.months[m := Bucket(a.months[m].total + e.receipt.usd, a.months[m].receipts + [e])])
  }

  /** `next` is `done` with one entry more, as customer `c` sees it. */
  ghost predicate Extends(done: seq<Entry>, next: seq<Entry>, e: Entry, c: CustomerId) {
    && TotalOf(next, c) == TotalOf(done, c) + (if e.customer == c then e.receipt.usd else 0)
    && forall m :: InBucket(next, c, m) ==
         if e.customer == c && e.month == m then InBucket(done, c, m) + [e] else InBucket(done, c, m)
  }

  lemma PushExtends(done: seq<Entry>, e: Entry, c: CustomerId)
    ensures Extends(done, done + [e], e, c)
  {
    Pushed(done, e, c, e.month);
    forall m
      ensures InBucket(done + [e], c, m) ==
              if e.customer == c && e.month == m then InBucket(done, c, m) + [e] else InBucket(done, c, m)
    {
      Pushed(done, e, c, m);
      assert InBucket(done, c, m) + [] == InBucket(done, c, m);
    }
  }

  lemma ShowsEntry(a: Accumulator, c: CustomerId, first: Month, count: nat, done: seq<Entry>, next: seq<Entry>,
                   e: Entry)
    requires Shows(a, c, first, count, done) && Extends(done, next, e, c)
    requires e.customer == c && e.month in a.months
    ensures Shows(WithEntry(a, e.month, e), c, first, count, next)
  {
    var after := WithEntry(a, e.month, e);
    AmountsPush(a.months[e.month].receipts, e);
    forall m | m in after.months
      ensures after.months[m].receipts == InBucket(next, c, m)
      ensures after.months[m].total == Amounts(after.months[m].receipts)
    {
      assert InBucket(next, c, m) == if e.month == m then InBucket(done, c, m) + [e] else InBucket(done, c, m);
    }
  }

  lemma ShowsOther(a: Accumulator, c: CustomerId, first: Month, count: nat, done: seq<Entry>, next: seq<Entry>,
                   e: Entry)
    requires Shows(a, c, first, count, done) && Extends(done, next, e, c) && e.customer != c
    ensures Shows(a, c, first, count, next)
  {
  }

  lemma EntryShows(a: Accumulator, c: CustomerId, first: Month, count: nat, done: seq<Entry>, e: Entry)
    requires Shows(a, c, first, count, done) && (e.customer == c ==> e.month in a.months)
    ensures Shows(if e.customer == c then WithEntry(a, e.month, e) else a, c, first, count, done + [e])
  {
    PushExtends(done, e, c);
    if e.customer == c {
      ShowsEntry(a, c, first, count, done, done + [e], e);
    } else {
      ShowsOther(a, c, first, count, done, done + [e], e);
    }
  }

  lemma ReflectsEntry(accumulators: map<CustomerId, Accumulator>, customers: seq<CustomerId>, first: Month, count: nat,
                      done: seq<Entry>, e: Entry)
    requires Reflects(accumulators, customers, first, count, done)
    requires e.customer in accumulators && e.month in accumulators[e.customer].months
    ensures Reflects(accumulators[e.customer := WithEntry(accumulators[e.customer], e.month, e)],
                     customers, first, count, done + [e])
  {
    var after := accumulators[e.customer := WithEntry(accumulators[e.customer], e.month, e)];
    forall c | c in after
      ensures Shows(after[c], c, first, count, done + [e])
    {
      EntryShows(accumulators[c], c, first, count, done, e);
    }
  }

  // ---------- the ranking ----------

  function EmptyMonths(keys: seq<Month>): map<Month, Bucket> {
    map m | m in keys :: Bucket(0, [])
  }

  lemma EmptyShows(keys: seq<Month>, c: CustomerId, first: Month, count: nat)
    requires |keys| == count && forall i | 0 <= i < count :: keys[i] == first + i
    ensures Shows(Accumulator(0, EmptyMonths(keys)), c, first, count, [])
  {
    forall m | first <= m < first + count
      ensures m in keys
    {
      assert keys[m - first] == m;
    }
  }

  method StartAccumulators(customers: seq<CustomerId>, keys: seq<Month>, ghost first: Month)
    returns (accumulators: map<CustomerId, Accumulator>)
    requires forall i | 0 <= i < |keys| :: keys[i] == first + i
    ensures Reflects(accumulators, customers, first, |keys|, [])
  {
    accumulators := map[];
    for i := 0 to |customers|
      invariant forall c :: c in accumulators <==> c in customers[..i]
      invariant forall c | c in accumulators :: accumulators[c] == Accumulator(0, EmptyMonths(keys))
    {
      accumulators := accumulators[customers[i] := Accumulator(0, EmptyMonths(keys))];
    }
    forall c | c in accumulators
      ensures Shows(accumulators[c], c, first, |keys|, [])
    {
      EmptyShows(keys, c, first, |keys|);
    }
  }

  lemma EnteredStep(c: CustomerId, o: OrderId, receipts: seq<Receipt>, seen: set<ReceiptId>, asOf: Instant,
                    period: Period)
    requires receipts != []
    ensures Entered(c, o, FirstSightings(receipts, seen), asOf, period) ==
            (if receipts[0].id in seen then [] else Entered(c, o, [receipts[0]], asOf, period)) +
            Entered(c, o, FirstSightings(receipts[1..], seen + {receipts[0].id}), asOf, period)
  {
    var rest := FirstSightings(receipts[1..], seen + {receipts[0].id});
    assert ([receipts[0]] + rest)[1..] == rest;
    assert [receipts[0]][1..] == [];
    assert Entered(c, o, [], asOf, period) == [];
  }

  /** The loop's invariant moves on by one receipt. */
  lemma Advance(c: CustomerId, o: OrderId, now: seq<Entry>, receipts: seq<Receipt>, seen: set<ReceiptId>,
                asOf: Instant, period: Period,
                all: seq<Entry>)
    requires receipts != [] && now + Entered(c, o, FirstSightings(receipts, seen), asOf, period) == all
    ensures var seen' := seen + {receipts[0].id};
            && seen' + Sighted(receipts[1..]) == seen + Sighted(receipts)
            && (receipts[0].id in seen ==> seen' == seen)
            && now + (if receipts[0].id in seen then [] else Entered(c, o, [receipts[0]], asOf, period)) +
               Entered(c, o, FirstSightings(receipts[1..], seen'), asOf, period) == all
  {
    EnteredStep(c, o, receipts, seen, asOf, period);
    var r, seen' := receipts[0], seen + {receipts[0].id};
    Regroup(now, if r.id in seen then [] else Entered(c, o, [r], asOf, period),
            Entered(c, o, FirstSightings(receipts[1..], seen'), asOf, period));
  }

  lemma Regroup(a: seq<Entry>, b: seq<Entry>, c: seq<Entry>)
    ensures a + (b + c) == a + b + c
  {
  }

  lemma EnteredOne(c: CustomerId, o: OrderId, receipt: Receipt, asOf: Instant, period: Period)
    ensures Entered(c, o, [receipt], asOf, period) ==
            if receipt.Usable(asOf) && period.Contains(receipt.EffectiveDate())
            then [Entry(c, o, receipt, MonthKey(receipt.EffectiveDate()))] else []
  {
    assert [receipt][1..] == [];
    assert Entered(c, o, [], asOf, period) == [];
  }

  /** A receipt seen for the first time is counted, or not, as its state says. */
  method AddReceipt(order: Order, receipt: Receipt, customers: seq<CustomerId>,
                    accumulators0: map<CustomerId, Accumulator>,
                    asOf: Instant, period: Period, ghost first: Month, ghost count: nat, ghost done: seq<Entry>)
    returns (accumulators: map<CustomerId, Accumulator>)
    requires Known(order, customers) && period == Period(StartOf(first), StartOf(first + count))
    requires Reflects(accumulators0, customers, first, count, done)
    ensures Reflects(accumulators, customers, first, count,
                     done + Entered(order.customer.value, order.id, [receipt], asOf, period))
  {
    var c := order.customer.value;
    accumulators := accumulators0;
    EnteredOne(c, order.id, receipt, asOf, period);
    assert done + [] == done;
    if receipt.pending || receipt.usd <= 0 || receipt.EffectiveDate() > asOf {
      return;
    }
    if !period.Contains(receipt.EffectiveDate()) {
      return;
    }
    var month := MonthKey(receipt.EffectiveDate());
    WindowIsItsMonths(first, count, receipt.EffectiveDate());
    if month !in accumulators[c].months {
      assert false;
      return;
    }
    var e := Entry(c, order.id, receipt, month);
    ReflectsEntry(accumulators, customers, first, count, done, e);
    accumulators := accumulators[c := WithEntry(accumulators[c], month, e)];
  }

  /** One order's receipts: each id is looked at once over the whole ranking. */
  method AddReceipts(order: Order, customers: seq<CustomerId>, seen0: set<ReceiptId>,
                     accumulators0: map<CustomerId, Accumulator>,
                     asOf: Instant, period: Period, ghost first: Month, ghost count: nat, ghost done: seq<Entry>)
    returns (seen: set<ReceiptId>, accumulators: map<CustomerId, Accumulator>)
    requires Known(order, customers) && period == Period(StartOf(first), StartOf(first + count))
    requires Reflects(accumulators0, customers, first, count, done)
    ensures seen == seen0 + Sighted(order.receipts)
    ensures Reflects(accumulators, customers, first, count,
                     done + Entered(order.customer.value, order.id, FirstSightings(order.receipts, seen0), asOf,
                                    period))
  {
    ghost var c := order.customer.value;
    seen, accumulators := seen0, accumulators0;
    ghost var now, todo := done, order.receipts;
    ghost var all := done + Entered(c, order.id, FirstSightings(order.receipts, seen0), asOf, period);
    for i := 0 to |order.receipts|
      invariant todo == order.receipts[i..]
      invariant seen + Sighted(todo) == seen0 + Sighted(order.receipts)
      invariant now + Entered(c, order.id, FirstSightings(todo, seen), asOf, period) == all
      invariant Reflects(accumulators, customers, first, count, now)
    {
      var receipt := order.receipts[i];
      ghost var entered := if receipt.id in seen then [] else Entered(c, order.id, [receipt], asOf, period);
      Advance(c, order.id, now, todo, seen, asOf, period, all);
      if receipt.id !in seen {
        accumulators := AddReceipt(order, receipt, customers, accumulators, asOf, period, first, count, now);
        seen := seen + {receipt.id};
      } else {
        assert now + entered == now;
      }
      now, todo := now + entered, todo[1..];
    }
    assert now == all;
  }

  /** The ranking's loop moves on by one order. */
  lemma NextOrder(done: seq<Entry>, todo: seq<Order>, customers: seq<CustomerId>, seen: set<ReceiptId>, asOf: Instant,
                  period: Period, all: seq<Entry>)
    requires todo != [] && done + Entries(todo, customers, seen, asOf, period) == all
    ensures var o := todo[0];
            if Known(o, customers)
            then done + Entered(o.customer.value, o.id, FirstSightings(o.receipts, seen), asOf, period) +
                 Entries(todo[1..], customers, seen + Sighted(o.receipts), asOf, period) == all
            else done + Entries(todo[1..], customers, seen, asOf, period) == all
  {
    var o := todo[0];
    if Known(o, customers) {
      Regroup(done, Entered(o.customer.value, o.id, FirstSightings(o.receipts, seen), asOf, period),
              Entries(todo[1..], customers, seen + Sighted(o.receipts), asOf, period));
    }
  }

  method CalculatePaymentCapacityRanking(customers: seq<CustomerId>, orders: seq<Order>, asOf: Instant,
                                         lookbackMonths: int)
    returns (r: Result<map<CustomerId, Accumulator>>, ghost first: Month, ghost entries: seq<Entry>)
    ensures r.Ok? <==> lookbackMonths >= 1
    ensures first == MonthKey(asOf) - lookbackMonths
    ensures entries == Entries(orders, customers, {}, asOf, Period(StartOf(first), StartOf(MonthKey(asOf))))
    ensures r.Ok? ==> Reflects(r.value, customers, first, lookbackMonths, entries)
  {
    first := MonthKey(asOf) - lookbackMonths;
    ghost var window := Period(StartOf(first), StartOf(MonthKey(asOf)));
    entries := Entries(orders, customers, {}, asOf, window);
    var period := GetCompletedMonthWindow(asOf, lookbackMonths);
    if period.InvalidLookback? {
      return InvalidLookback, first, entries;
    }
    var keys := BuildMonthKeys(period.value, lookbackMonths, first);
    var accumulators := StartAccumulators(customers, keys, first);
    var seen := {};
    ghost var done, todo := [], orders;
    for i := 0 to |orders|
      invariant todo == orders[i..]
      invariant done + Entries(todo, customers, seen, asOf, window) == entries
      invariant Reflects(accumulators, customers, first, lookbackMonths, done)
    {
      NextOrder(done, todo, customers, seen, asOf, window, entries);
      var order := orders[i];
      if Known(order, customers) {
        ghost var more := Entered(order.customer.value, order.id, FirstSightings(order.receipts, seen), asOf, window);
        seen, accumulators :=
          AddReceipts(order, customers, seen, accumulators, asOf, period.value, first, lookbackMonths, done);
        done := done + more;
      }
      todo := todo[1..];
    }
    assert done == entries;
    r := Ok(accumulators);
  }

  // ---------- what the totals mean ----------

  function BucketTotals(entries: seq<Entry>, c: CustomerId): Month -> int {
    m => Amounts(InBucket(entries, c, m))
  }

  /** The totals of the months `first`, `first + 1`, … */
  function SumOfMonths(totals: Month -> int, first: Month, count: nat): int {
    if count == 0 then 0 else SumOfMonths(totals, first, count - 1) + totals(first + count - 1)
  }

  lemma {:induction false} SumOfMonthsGains(before: Month -> int, after: Month -> int, first: Month, count: nat,
                                            m: Month, gain: int)
    requires forall k :: after(k) == before(k) + if k == m then gain else 0
    ensures SumOfMonths(after, first, count) ==
            SumOfMonths(before, first, count) + if first <= m < first + count then gain else 0
  {
    if count > 0 {
      SumOfMonthsGains(before, after, first, count - 1, m, gain);
    }
  }

  lemma {:induction false} NoMonths(totals: Month -> int, first: Month, count: nat)
    requires forall k :: totals(k) == 0
    ensures SumOfMonths(totals, first, count) == 0
  {
    if count > 0 {
      NoMonths(totals, first, count - 1);
    }
  }

  lemma BucketTotalPush(done: seq<Entry>, e: Entry, c: CustomerId, m: Month)
    ensures BucketTotals(done + [e], c)(m) ==
            BucketTotals(done, c)(m) + if e.customer == c && e.month == m then e.receipt.usd else 0
  {
    var bucket := InBucket(done, c, m);
    Pushed(done, e, c, m);
    AmountsPush(bucket, e);
    assert bucket + [] == bucket;
  }

  /** A customer's total is the sum of the customer's months. */
  lemma {:induction false} TotalIsSumOfMonths(entries: seq<Entry>, c: CustomerId, first: Month, count: nat)
    requires forall i | 0 <= i < |entries| :: first <= entries[i].month < first + count
    ensures TotalOf(entries, c) == SumOfMonths(BucketTotals(entries, c), first, count)
  {
    if entries == [] {
      NoMonths(BucketTotals(entries, c), first, count);
    } else {
      var front, e := entries[..|entries| - 1], entries[|entries| - 1];
      assert entries == front + [e];
      TotalIsSumOfMonths(front, c, first, count);
      MonthsGain(front, e, c, first, count);
    }
  }

  lemma MonthsGain(front: seq<Entry>, e: Entry, c: CustomerId, first: Month, count: nat)
    requires first <= e.month < first + count
    ensures SumOfMonths(BucketTotals(front + [e], c), first, count) ==
            SumOfMonths(BucketTotals(front, c), first, count) + if e.customer == c then e.receipt.usd else 0
  {
    forall k {
      BucketTotalPush(front, e, c, k);
    }
    var gain := if e.customer == c then e.receipt.usd else 0;
    SumOfMonthsGains(BucketTotals(front, c), BucketTotals(front + [e], c), first, count, e.month, gain);
  }

  lemma {:induction false} EnteredFrom(c: CustomerId, o: OrderId, sightings: seq<Receipt>, asOf: Instant,
                                       period: Period)
    ensures forall e :: e in Entered(c, o, sightings, asOf, period) <==>
      && e.customer == c && e.order == o && e.receipt in sightings && e.month == MonthKey(e.receipt.EffectiveDate())
      && e.receipt.Usable(asOf) && period.Contains(e.receipt.EffectiveDate())
  {
    if sightings != [] {
      EnteredFrom(c, o, sightings[1..], asOf, period);
      assert sightings == [sightings[0]] + sightings[1..];
    }
  }

  /** Every counted receipt lies in one of the months of the window. */
  lemma {:induction false} EntriesInWindow(orders: seq<Order>, customers: seq<CustomerId>, seen: set<ReceiptId>,
                                           asOf: Instant,
                                           first: Month, count: nat)
    ensures forall e :: e in Entries(orders, customers, seen, asOf, Period(StartOf(first), StartOf(first + count))) ==>
      first <= e.month < first + count && e.receipt.Usable(asOf) && e.receipt.id !in seen
  {
    if orders != [] {
      var o, period := orders[0], Period(StartOf(first), StartOf(first + count));
      EntriesInWindow(orders[1..], customers, seen, asOf, first, count);
      if Known(o, customers) {
        EntriesInWindow(orders[1..], customers, seen + Sighted(o.receipts), asOf, first, count);
        var entered := Entered(o.customer.value, o.id, FirstSightings(o.receipts, seen), asOf, period);
        EnteredFrom(o.customer.value, o.id, FirstSightings(o.receipts, seen), asOf, period);
        forall e | e in entered
          ensures first <= e.month < first + count && e.receipt.Usable(asOf) && e.receipt.id !in seen
        {
          WindowIsItsMonths(first, count, e.receipt.EffectiveDate());
        }
      }
    }
  }

  ghost predicate OncePerReceipt(entries: seq<Entry>) {
    forall i, j | 0 <= i < j < |entries| :: entries[i].receipt.id != entries[j].receipt.id
  }

  lemma {:induction false} EnteredOnce(c: CustomerId, o: OrderId, sightings: seq<Receipt>, asOf: Instant,
                                       period: Period)
    requires forall i, j | 0 <= i < j < |sightings| :: sightings[i].id != sightings[j].id
    ensures OncePerReceipt(Entered(c, o, sightings, asOf, period))
  {
    if sightings != [] {
      EnteredOnce(c, o, sightings[1..], asOf, period);
      EnteredFrom(c, o, sightings[1..], asOf, period);
      var rest := Entered(c, o, sightings[1..], asOf, period);
      forall j | 0 <= j < |rest|
        ensures rest[j].receipt.id != sightings[0].id
      {
        assert rest[j] in rest;
        var k :| 0 <= k < |sightings[1..]| && sightings[1..][k] == rest[j].receipt;
        assert sightings[k + 1] == rest[j].receipt;
      }
    }
  }

  /** No receipt is counted twice, whatever orders and customers share it. */
  lemma {:induction false} ReceiptsCountOnce(orders: seq<Order>, customers: seq<CustomerId>, seen: set<ReceiptId>,
                                             asOf: Instant,
                                             first: Month, count: nat)
    ensures OncePerReceipt(Entries(orders, customers, seen, asOf, Period(StartOf(first), StartOf(first + count))))
  {
    if orders != [] {
      var o, period := orders[0], Period(StartOf(first), StartOf(first + count));
      ReceiptsCountOnce(orders[1..], customers, seen, asOf, first, count);
      if Known(o, customers) {
        var seen' := seen + Sighted(o.receipts);
        ReceiptsCountOnce(orders[1..], customers, seen', asOf, first, count);
        EntriesInWindow(orders[1..], customers, seen', asOf, first, count);
        var sightings := FirstSightings(o.receipts, seen);
        EnteredOnce(o.customer.value, o.id, sightings, asOf, period);
        EnteredFrom(o.customer.value, o.id, sightings, asOf, period);
        SightingsSighted(o.receipts, seen);
        var entered := Entered(o.customer.value, o.id, sightings, asOf, period);
        var rest := Entries(orders[1..], customers, seen', asOf, period);
        forall i, j | 0 <= i < |entered| && 0 <= j < |rest|
          ensures entered[i].receipt.id != rest[j].receipt.id
        {
          assert entered[i] in entered && rest[j] in rest;
        }
      }
    }
  }

  // ---------- exactly the distinct receipts in the window ----------

  /** The order at `k` is the first known customer's order that has the receipt. */
  ghost predicate FirstSeenAt(orders: seq<Order>, customers: seq<CustomerId>, seen: set<ReceiptId>, k: nat,
                              id: ReceiptId) {
    && k < |orders| && Known(orders[k], customers) && id !in seen
    && forall j | 0 <= j < k && Known(orders[j], customers) :: id !in Sighted(orders[j].receipts)
  }

  /** A receipt counts for a customer just when the first order that shows its id
      is the customer's and it is usable and inside the window. */
  ghost predicate CountsFor(orders: seq<Order>, customers: seq<CustomerId>, seen: set<ReceiptId>, asOf: Instant,
                            period: Period, k: nat, e: Entry) {
    && FirstSeenAt(orders, customers, seen, k, e.receipt.id)
    && e.customer == orders[k].customer.value && e.order == orders[k].id
    && e.month == MonthKey(e.receipt.EffectiveDate())
    && (exists i: nat :: FirstAt(orders[k].receipts, {}, i) && orders[k].receipts[i] == e.receipt)
    && e.receipt.Usable(asOf) && period.Contains(e.receipt.EffectiveDate())
  }

  lemma FirstAtSeen(receipts: seq<Receipt>, seen: set<ReceiptId>, i: nat)
    ensures FirstAt(receipts, seen, i) <==> FirstAt(receipts, {}, i) && receipts[i].id !in seen
  {
  }

  lemma HeadCounts(orders: seq<Order>, customers: seq<CustomerId>, seen: set<ReceiptId>, asOf: Instant,
                   period: Period, e: Entry)
    requires orders != [] && Known(orders[0], customers)
    ensures e in Entered(orders[0].customer.value, orders[0].id, FirstSightings(orders[0].receipts, seen), asOf, period)
       <==> CountsFor(orders, customers, seen, asOf, period, 0, e)
  {
    var o := orders[0];
    EnteredFrom(o.customer.value, o.id, FirstSightings(o.receipts, seen), asOf, period);
    SightedWhenFirst(o.receipts, seen, e.receipt);
    if i: nat :| FirstAt(o.receipts, seen, i) && o.receipts[i] == e.receipt {
      FirstAtSeen(o.receipts, seen, i);
    }
    if i: nat :| FirstAt(o.receipts, {}, i) && o.receipts[i] == e.receipt {
      FirstAtSeen(o.receipts, seen, i);
    }
  }

  lemma {:induction false} EntriesExactly(orders: seq<Order>, customers: seq<CustomerId>, seen: set<ReceiptId>,
                                          asOf: Instant, period: Period, e: Entry)
    ensures e in Entries(orders, customers, seen, asOf, period)
       <==> exists k: nat :: CountsFor(orders, customers, seen, asOf, period, k, e)
  {
    if orders != [] {
      var rest := orders[1..];
      var known := Known(orders[0], customers);
      var seen' := if known then seen + Sighted(orders[0].receipts) else seen;
      EntriesExactly(rest, customers, seen', asOf, period, e);
      if known {
        HeadCounts(orders, customers, seen, asOf, period, e);
      }
      if k: nat :| CountsFor(rest, customers, seen', asOf, period, k, e) {
        assert forall j | 0 < j < k + 1 :: orders[j] == rest[j - 1];
        assert CountsFor(orders, customers, seen, asOf, period, k + 1, e);
      }
      if k: nat :| k > 0 && CountsFor(orders, customers, seen, asOf, period, k, e) {
        assert forall j | 0 <= j < k - 1 :: rest[j] == orders[j + 1];
        assert CountsFor(rest, customers, seen', asOf, period, k - 1, e);
      }
    }
  }
}
