/**
 The payment cycle ranking: how many days, weighted by money, each customer
 takes to pay. Averages are kept as a pair of dollar-days and dollars and
 compared crosswise, so that the six digits the division keeps play no part.
 Quality counters, risk bands and the final sorting are not part of it.
 */
module CycleRanking {
  import opened Sorting
  import opened Basics
  import opened PaymentTimeline
  import opened CompletedMonths
  import opened CustomerOrders

  datatype Line = Line(order: OrderId, amount: int, paid: int, outstanding: int, dollarDays: int)

  datatype Verdict = Listed | WithinTerms | Dropped

  datatype Visit = Visit(customer: CustomerId, line: Line, verdict: Verdict, payments: seq<Payment>)

  datatype Accumulator = Accumulator(
    amount: int,
    dollarDays: int,
    paid: int,
    overdue: int,
    withinTerms: int,
    orders: seq<Line>)

  // ---------- the payments of an order ----------

  /** The usable ones among an order's receipts, as payments. */
  function Accepted(sightings: seq<Receipt>, asOf: Instant): (payments: seq<Payment>)
    ensures forall i | 0 <= i < |payments| :: 0 < payments[i].amount && payments[i].date <= asOf
  {
    if sightings == [] then []
    else
      var r := sightings[0];
      (if r.Usable(asOf) then [Payment(r.id, r.usd, r.EffectiveDate())] else []) + Accepted(sightings[1..], asOf)
  }

  /** The normalizing loop moves on by one receipt. */
  lemma Advance(payments: seq<Payment>, receipts: seq<Receipt>, seen: set<ReceiptId>, asOf: Instant, all: seq<Payment>)
    requires receipts != [] && payments + Accepted(FirstSightings(receipts, seen), asOf) == all
    ensures var r, seen' := receipts[0], seen + {receipts[0].id};
            && seen' + Sighted(receipts[1..]) == seen + Sighted(receipts)
            && (r.id in seen ==> seen' == seen)
            && (if r.id !in seen && r.Usable(asOf) then
                   payments + [Payment(r.id, r.usd, r.EffectiveDate())] else payments) +
               Accepted(FirstSightings(receipts[1..], seen'), asOf) == all
  {
    var rest := FirstSightings(receipts[1..], seen + {receipts[0].id});
    assert ([receipts[0]] + rest)[1..] == rest;
  }

  lemma SortedIsNormalized(payments: seq<Payment>, asOf: Instant)
    requires forall i | 0 <= i < |payments| :: 0 < payments[i].amount && payments[i].date <= asOf
    ensures Normalized(Sort(payments, ByDate), asOf)
  {
    SortSorted(payments, ByDate);
    forall i | 0 <= i < |Sort(payments, ByDate)|
      ensures 0 < Sort(payments, ByDate)[i].amount && Sort(payments, ByDate)[i].date <= asOf
    {
      assert Sort(payments, ByDate)[i] in multiset(payments);
    }
  }

  /** The receipts that count, in the order they are read. */
  method AcceptReceipts(receipts: seq<Receipt>, asOf: Instant, seen0: set<ReceiptId>)
    returns (payments: seq<Payment>, seen: set<ReceiptId>)
    ensures payments == Accepted(FirstSightings(receipts, seen0), asOf)
    ensures seen == seen0 + Sighted(receipts)
  {
    payments, seen := [], seen0;
    ghost var todo, accepted := receipts, Accepted(FirstSightings(receipts, seen0), asOf);
    for i := 0 to |receipts|
      invariant todo == receipts[i..]
      invariant seen + Sighted(todo) == seen0 + Sighted(receipts)
      invariant payments + Accepted(FirstSightings(todo, seen), asOf) == accepted
    {
      var receipt := receipts[i];
      Advance(payments, todo, seen, asOf, accepted);
      if receipt.id !in seen {
        seen := seen + {receipt.id};
        if !receipt.pending && receipt.usd > 0 && receipt.EffectiveDate() <= asOf {
          payments := payments + [Payment(receipt.id, receipt.usd, receipt.EffectiveDate())];
        }
      }
      todo := todo[1..];
    }
    assert payments == accepted;
  }

  /** Normalizing looks at each receipt id once over all orders, and leaves the
      payments the waterfall wants. */
  method NormalizeCyclePayments(receipts: seq<Receipt>, asOf: Instant, seen0: set<ReceiptId>)
    returns (payments: seq<Payment>, seen: set<ReceiptId>)
    ensures payments == Sort(Accepted(FirstSightings(receipts, seen0), asOf), ByDate) && Normalized(payments, asOf)
    ensures seen == seen0 + Sighted(receipts)
  {
    payments, seen := AcceptReceipts(receipts, asOf, seen0);
    SortedIsNormalized(payments, asOf);
    payments := Sort(payments, ByDate);
  }

  lemma {:induction false} TotalPaidInsert(x: Payment, sorted: seq<Payment>)
    ensures TotalPaid(Insert(x, sorted, ByDate)) == TotalPaid(sorted) + x.amount
  {
    if sorted == [] || x.NotAfter(sorted[0]) {
      assert ([x] + sorted)[1..] == sorted;
    } else {
      TotalPaidInsert(x, sorted[1..]);
      assert ([sorted[0]] + Insert(x, sorted[1..], ByDate))[1..] == Insert(x, sorted[1..], ByDate);
    }
  }

  lemma {:induction false} TotalPaidSort(payments: seq<Payment>)
    ensures TotalPaid(Sort(payments, ByDate)) == TotalPaid(payments)
  {
    if payments != [] {
      TotalPaidSort(payments[1..]);
      TotalPaidInsert(payments[0], Sort(payments[1..], ByDate));
    }
  }

  /** The area does not depend on the order in which payments are listed. */
  lemma AreaSort(amount: int, release: Instant, payments: seq<Payment>, days: nat)
    ensures Area(amount, release, Sort(payments, ByDate), days) == Area(amount, release, payments, days)
  {
    forall d: nat
      ensures PaidBy(Sort(payments, ByDate), release, d) == PaidBy(payments, release, d)
    {
      PaidBySort(payments, release, d);
    }
    MorePaidLessArea(amount, release, payments, Sort(payments, ByDate), days);
    MorePaidLessArea(amount, release, Sort(payments, ByDate), payments, days);
  }

  // ---------- what becomes of an order ----------

  /** Orders that take part at all: of a known customer, on a real invoice, with
      an amount, and released by `asOf`. */
  predicate Reached(o: Order, customers: seq<CustomerId>, asOf: Instant) {
    && o.normal && o.customer.Some? && o.customer.value in customers
    && 0 < o.amount && o.releaseDate.Some? && DaysBetween(o.releaseDate.value, asOf) >= 0
  }

  function LineOf(o: Order, payments: seq<Payment>, asOf: Instant): Line
    requires o.releaseDate.Some?
  {
    var outstanding := Max(0, o.amount - TotalPaid(payments));
    var release := o.releaseDate.value;
    Line(o.id, o.amount, o.amount - outstanding, outstanding, Area(o.amount, release, payments, Age(release, asOf)))
  }

  lemma LineSort(o: Order, payments: seq<Payment>, asOf: Instant)
    requires o.releaseDate.Some?
    ensures LineOf(o, Sort(payments, ByDate), asOf) == LineOf(o, payments, asOf)
  {
    AreaSort(o.amount, o.releaseDate.value, payments, Age(o.releaseDate.value, asOf));
    TotalPaidSort(payments);
  }

  /** An open order is listed once it is overdue, a paid one if it was released
      in the window. */
  function VerdictOf(o: Order, outstanding: int, asOf: Instant, period: Period, normalDays: int): Verdict
    requires o.releaseDate.Some?
  {
    if outstanding > 0 then (if DaysBetween(o.releaseDate.value, asOf) > normalDays then Listed else WithinTerms)
    else if period.Contains(o.releaseDate.value) then Listed else Dropped
  }

  function VisitOf(o: Order, seen: set<ReceiptId>, asOf: Instant, period: Period, normalDays: int): Visit
    requires o.customer.Some? && o.releaseDate.Some?
  {
    var payments := Accepted(FirstSightings(o.receipts, seen), asOf);
    var line := LineOf(o, payments, asOf);
    Visit(o.customer.value, line, VerdictOf(o, line.outstanding, asOf, period, normalDays), payments)
  }

  function Visits(orders: seq<Order>, customers: seq<CustomerId>, seen: set<ReceiptId>, asOf: Instant, period: Period,
                  normalDays: int): seq<Visit> {
    if orders == [] then []
    else if !Reached(orders[0], customers, asOf) then Visits(orders[1..], customers, seen, asOf, period, normalDays)
    else
      [VisitOf(orders[0], seen, asOf, period, normalDays)] +
      Visits(orders[1..], customers, seen + Sighted(orders[0].receipts), asOf, period, normalDays)
  }

  /** The verdict told by days: an order that is not paid up is within terms up to its
      `normalDays`-th day and listed from the next one on; one that is paid up is
      listed just when it was released in the window. */
  ghost predicate JudgedByDays(o: Order, v: Visit, asOf: Instant, period: Period, normalDays: int)
    requires o.releaseDate.Some?
  {
    var open, days := TotalPaid(v.payments) < o.amount, DaysBetween(o.releaseDate.value, asOf);
    && v.line.amount == o.amount && v.line.paid == Min(o.amount, TotalPaid(v.payments))
    && (v.verdict == WithinTerms <==> open && days <= normalDays)
    && (v.verdict == Listed <==> (open && normalDays + 1 <= days) || (!open && period.Contains(o.releaseDate.value)))
  }

  /** Every order that takes part is visited once, in order, and judged by its days. */
  lemma {:induction false} VisitsJudgeByDays(orders: seq<Order>, customers: seq<CustomerId>, seen: set<ReceiptId>,
                                             asOf: Instant, period: Period, normalDays: int)
    ensures var reached := Filter(orders, o => Reached(o, customers, asOf));
            var visits := Visits(orders, customers, seen, asOf, period, normalDays);
            && |visits| == |reached|
            && forall i | 0 <= i < |reached| ::
                 && reached[i].customer == Some(visits[i].customer) && visits[i].line.order == reached[i].id
                 && reached[i].releaseDate.Some? && JudgedByDays(reached[i], visits[i], asOf, period, normalDays)
  {
    if orders != [] {
      var o := orders[0];
      if Reached(o, customers, asOf) {
        VisitsJudgeByDays(orders[1..], customers, seen + Sighted(o.receipts), asOf, period, normalDays);
      } else {
        VisitsJudgeByDays(orders[1..], customers, seen, asOf, period, normalDays);
      }
    }
  }

  // ---------- totals ----------

  function ListedOf(visits: seq<Visit>, c: CustomerId): seq<Line> {
    if visits == [] then []
    else
      var v := visits[|visits| - 1];
      ListedOf(visits[..|visits| - 1], c) + if v.customer == c && v.verdict == Listed then [v.line] else []
  }

  function WithinTermsOf(visits: seq<Visit>, c: CustomerId): int {
    if visits == [] then 0
    else
      var v := visits[|visits| - 1];
      WithinTermsOf(visits[..|visits| - 1], c) +
      if v.customer == c && v.verdict == WithinTerms then v.line.outstanding else 0
  }

  function Amounts(lines: seq<Line>): int {
    if lines == [] then 0 else Amounts(lines[..|lines| - 1]) + lines[|lines| - 1].amount
  }

  function DollarDays(lines: seq<Line>): int {
    if lines == [] then 0 else DollarDays(lines[..|lines| - 1]) + lines[|lines| - 1].dollarDays
  }

  function Paid(lines: seq<Line>): int {
    if lines == [] then 0 else Paid(lines[..|lines| - 1]) + lines[|lines| - 1].paid
  }

  function Overdue(lines: seq<Line>): int {
    if lines == [] then 0 else Overdue(lines[..|lines| - 1]) + lines[|lines| - 1].outstanding
  }

  /** The sums an accumulator keeps are those of its lines. */
  ghost predicate Summed(a: Accumulator) {
    && a.amount == Amounts(a.orders) && a.dollarDays == DollarDays(a.orders)
    && a.paid == Paid(a.orders) && a.overdue == Overdue(a.orders)
  }

  ghost predicate Shows(a: Accumulator, c: CustomerId, visits: seq<Visit>) {
    a.orders == ListedOf(visits, c) && a.withinTerms == WithinTermsOf(visits, c) && Summed(a)
  }

  ghost predicate Visited(visits: seq<Visit>, c: CustomerId) {
    exists i :: 0 <= i < |visits| && visits[i].customer == c
  }

  ghost predicate Reflects(accumulators: map<CustomerId, Accumulator>, visits: seq<Visit>) {
    && (forall c :: c in accumulators <==> Visited(visits, c))
    && forall c | c in accumulators :: Shows(accumulators[c], c, visits)
  }

  const EMPTY := Accumulator(0, 0, 0, 0, 0, [])

  function WithVisit(a: Accumulator, v: Visit): Accumulator {
    match v.verdict
    case Dropped => a
    case WithinTerms => a.(withinTerms := a.withinTerms + v.line.outstanding)
    case Listed => Accumulator(
      a.amount + v.line.amount, a.dollarDays + v.line.dollarDays, a.paid + v.line.paid, a.overdue + v.line.outstanding,
      a.withinTerms, a.orders + [v.line])
  }

  lemma Pushed(visits: seq<Visit>, v: Visit, c: CustomerId)
    ensures ListedOf(visits + [v], c) ==
            ListedOf(visits, c) + if v.customer == c && v.verdict == Listed then [v.line] else []
    ensures WithinTermsOf(visits + [v], c) ==
            WithinTermsOf(visits, c) + if v.customer == c && v.verdict == WithinTerms then v.line.outstanding else 0
  {
    assert (visits + [v])[..|visits|] == visits;
  }

  lemma LinesPushed(lines: seq<Line>, line: Line)
    ensures Amounts(lines + [line]) == Amounts(lines) + line.amount
    ensures DollarDays(lines + [line]) == DollarDays(lines) + line.dollarDays
    ensures Paid(lines + [line]) == Paid(lines) + line.paid
    ensures Overdue(lines + [line]) == Overdue(lines) + line.outstanding
  {
    assert (lines + [line])[..|lines|] == lines;
  }

  lemma {:induction false} NeverVisited(visits: seq<Visit>, c: CustomerId)
    requires !Visited(visits, c)
    ensures Shows(EMPTY, c, visits)
  {
    if visits != [] {
      var front := visits[..|visits| - 1];
      assert forall i | 0 <= i < |front| :: front[i] == visits[i];
      assert visits[|visits| - 1].customer != c;
      NeverVisited(front, c);
    }
  }

  /** `next` is `visits` with one visit more, as customer `c` sees it. */
  ghost predicate Extends(visits: seq<Visit>, next: seq<Visit>, v: Visit, c: CustomerId) {
    && ListedOf(next, c) ==
       (if v.customer == c && v.verdict == Listed then ListedOf(visits, c) + [v.line] else ListedOf(visits, c))
    && WithinTermsOf(next, c) ==
       WithinTermsOf(visits, c) + if v.customer == c && v.verdict == WithinTerms then v.line.outstanding else 0
  }

  lemma PushExtends(visits: seq<Visit>, v: Visit, c: CustomerId)
    ensures Extends(visits, visits + [v], v, c)
  {
    Pushed(visits, v, c);
    assert ListedOf(visits, c) + [] == ListedOf(visits, c);
  }

  lemma SummedVisit(a: Accumulator, v: Visit)
    requires Summed(a)
    ensures Summed(WithVisit(a, v))
  {
    if v.verdict == Listed {
      LinesPushed(a.orders, v.line);
    }
  }

  lemma ShowsVisit(a: Accumulator, visits: seq<Visit>, next: seq<Visit>, v: Visit)
    requires Shows(a, v.customer, visits) && Extends(visits, next, v, v.customer)
    ensures Shows(WithVisit(a, v), v.customer, next)
  {
    SummedVisit(a, v);
  }

  /** The accumulator of a customer, a new one if there is none yet. */
  function Accumulated(accumulators: map<CustomerId, Accumulator>, c: CustomerId): Accumulator {
    if c in accumulators then accumulators[c] else EMPTY
  }

  lemma ReflectsVisit(accumulators: map<CustomerId, Accumulator>, visits: seq<Visit>, v: Visit)
    requires Reflects(accumulators, visits)
    ensures Reflects(accumulators[v.customer := WithVisit(Accumulated(accumulators, v.customer), v)], visits + [v])
  {
    var after := accumulators[v.customer := WithVisit(Accumulated(accumulators, v.customer), v)];
    forall c | c in after
      ensures Shows(after[c], c, visits + [v])
    {
      PushExtends(visits, v, c);
      if c == v.customer {
        AccumulatedShows(accumulators, visits, c);
        ShowsVisit(Accumulated(accumulators, c), visits, visits + [v], v);
      }
    }
    VisitedPush(visits, v);
  }

  lemma AccumulatedShows(accumulators: map<CustomerId, Accumulator>, visits: seq<Visit>, c: CustomerId)
    requires Reflects(accumulators, visits)
    ensures Shows(Accumulated(accumulators, c), c, visits)
  {
    if c !in accumulators {
      NeverVisited(visits, c);
    }
  }

  lemma VisitedPush(visits: seq<Visit>, v: Visit)
    ensures forall c :: Visited(visits + [v], c) <==> Visited(visits, c) || v.customer == c
  {
    forall c
      ensures Visited(visits + [v], c) <==> Visited(visits, c) || v.customer == c
    {
      if i :| 0 <= i < |visits| && visits[i].customer == c {
        assert (visits + [v])[i].customer == c;
      }
      assert (visits + [v])[|visits|] == v;
    }
  }

  // ---------- the ranking ----------

  /** A line made of the sorted payments is the line of the payments. */
  lemma LineIs(o: Order, payments: seq<Payment>, sorted: seq<Payment>, asOf: Instant, line: Line)
    requires o.releaseDate.Some? && line.order == o.id && line.amount == o.amount && sorted == Sort(payments, ByDate)
    requires line.outstanding == Max(0, o.amount - TotalPaid(sorted)) && line.paid + line.outstanding == line.amount
    requires line.dollarDays == Area(o.amount, o.releaseDate.value, sorted, Age(o.releaseDate.value, asOf))
    ensures line == LineOf(o, payments, asOf)
  {
    LineSort(o, payments, asOf);
    assert LineOf(o, sorted, asOf) == line;
  }

  method LineOfSorted(o: Order, payments: seq<Payment>, asOf: Instant) returns (line: Line)
    requires o.releaseDate.Some? && 0 < o.amount && Normalized(payments, asOf)
    ensures line.order == o.id && line.amount == o.amount
    ensures line.outstanding == Max(0, o.amount - TotalPaid(payments)) && line.paid + line.outstanding == line.amount
    ensures line.dollarDays == Area(o.amount, o.releaseDate.value, payments, Age(o.releaseDate.value, asOf))
  {
    var dollarDays, paid, outstanding := CalculateOrderPaymentTimeline(o.amount, o.releaseDate.value, asOf, payments);
    line := Line(o.id, o.amount, paid, outstanding, dollarDays);
  }

  method LineOfOrder(o: Order, seen0: set<ReceiptId>, asOf: Instant) returns (line: Line, seen: set<ReceiptId>)
    requires o.releaseDate.Some? && 0 < o.amount
    ensures line == LineOf(o, Accepted(FirstSightings(o.receipts, seen0), asOf), asOf)
    ensures seen == seen0 + Sighted(o.receipts)
  {
    var payments;
    payments, seen := NormalizeCyclePayments(o.receipts, asOf, seen0);
    line := LineOfSorted(o, payments, asOf);
    LineIs(o, Accepted(FirstSightings(o.receipts, seen0), asOf), payments, asOf, line);
  }

  /** The timeline of one order is the visit it is due. */
  method VisitOrder(o: Order, seen0: set<ReceiptId>, asOf: Instant, period: Period, normalDays: int)
    returns (v: Visit, seen: set<ReceiptId>)
    requires o.customer.Some? && o.releaseDate.Some? && 0 < o.amount
    ensures v == VisitOf(o, seen0, asOf, period, normalDays)
    ensures seen == seen0 + Sighted(o.receipts)
  {
    var line;
    line, seen := LineOfOrder(o, seen0, asOf);
    var complete := line.outstanding <= 0;
    var ageDays := DaysBetween(o.releaseDate.value, asOf);
    var verdict := if !complete && ageDays <= normalDays then WithinTerms
                   else if complete && !period.Contains(o.releaseDate.value) then Dropped
                   else Listed;
    v := Visit(o.customer.value, line, verdict, Accepted(FirstSightings(o.receipts, seen0), asOf));
  }

  lemma VisitNext(done: seq<Visit>, orders: seq<Order>, customers: seq<CustomerId>, seen: set<ReceiptId>, asOf: Instant,
                  period: Period, normalDays: int, all: seq<Visit>)
    requires orders != [] && done + Visits(orders, customers, seen, asOf, period, normalDays) == all
    ensures var o := orders[0];
            if Reached(o, customers, asOf) then
              done + [VisitOf(o, seen, asOf, period, normalDays)] +
                Visits(orders[1..], customers, seen + Sighted(o.receipts), asOf, period, normalDays) == all
            else done + Visits(orders[1..], customers, seen, asOf, period, normalDays) == all
  {
  }

  method AccumulateOrders(customers: seq<CustomerId>, orders: seq<Order>, asOf: Instant, period: Period,
                          normalDays: int)
    returns (accumulators: map<CustomerId, Accumulator>)
    ensures Reflects(accumulators, Visits(orders, customers, {}, asOf, period, normalDays))
  {
    accumulators := map[];
    var seen := {};
    ghost var done, todo, all := [], orders, Visits(orders, customers, {}, asOf, period, normalDays);
    for i := 0 to |orders|
      invariant todo == orders[i..]
      invariant done + Visits(todo, customers, seen, asOf, period, normalDays) == all
      invariant Reflects(accumulators, done)
    {
      VisitNext(done, todo, customers, seen, asOf, period, normalDays, all);
      if Reached(orders[i], customers, asOf) {
        var v;
        v, seen := VisitOrder(orders[i], seen, asOf, period, normalDays);
        ReflectsVisit(accumulators, done, v);
        accumulators := accumulators[v.customer := WithVisit(Accumulated(accumulators, v.customer), v)];
        done := done + [v];
      }
      todo := todo[1..];
    }
    assert done == all;
  }

  /** A customer is ranked just when an order is listed; the row's sums are the
      sums of its lines. */
  method CalculatePaymentCycleRanking(customers: seq<CustomerId>, orders: seq<Order>, asOf: Instant,
                                      lookbackMonths: int, normalDays: int)
    returns (r: Result<map<CustomerId, Accumulator>>, ghost visits: seq<Visit>)
    ensures r.Ok? <==> lookbackMonths >= 1
    ensures visits == Visits(orders, customers, {}, asOf,
                             Period(StartOf(MonthKey(asOf) - lookbackMonths), StartOf(MonthKey(asOf))), normalDays)
    ensures r.Ok? ==> forall c :: c in r.value <==> ListedOf(visits, c) != []
    ensures r.Ok? ==> forall c | c in r.value :: Shows(r.value[c], c, visits)
  {
    var window := GetCompletedMonthWindow(asOf, lookbackMonths);
    visits := Visits(orders, customers, {}, asOf,
                     Period(StartOf(MonthKey(asOf) - lookbackMonths), StartOf(MonthKey(asOf))), normalDays);
    if window.InvalidLookback? {
      return InvalidLookback, visits;
    }
    var accumulators := AccumulateOrders(customers, orders, asOf, window.value, normalDays);
    var items := map[];
    var left := accumulators.Keys;
    while left != {}
      invariant left <= accumulators.Keys
      invariant forall c :: c in items <==> c in accumulators.Keys - left && accumulators[c].amount > 0
      invariant forall c | c in items :: items[c] == accumulators[c]
    {
      var c :| c in left;
      if accumulators[c].amount > 0 {
        items := items[c := accumulators[c]];
      }
      left := left - {c};
    }
    forall c
      ensures c in items <==> ListedOf(visits, c) != []
    {
      VisitsCarryMoney(orders, customers, {}, asOf, window.value, normalDays);
      ListedCarryMoney(visits, c);
      AmountsPositive(ListedOf(visits, c));
      if c !in accumulators {
        NeverVisited(visits, c);
      }
    }
    r := Ok(items);
  }

  // ---------- what the averages mean ----------

  ghost predicate CarryMoney(lines: seq<Line>) {
    forall i | 0 <= i < |lines| :: 0 < lines[i].amount && lines[i].paid + lines[i].outstanding == lines[i].amount
  }

  ghost predicate Funded(visits: seq<Visit>) {
    forall i | 0 <= i < |visits| ::
      0 < visits[i].line.amount && visits[i].line.paid + visits[i].line.outstanding == visits[i].line.amount
  }

  lemma FundedPrepend(v: Visit, rest: seq<Visit>)
    requires Funded([v]) && Funded(rest)
    ensures Funded([v] + rest)
  {
    assert [v][0] == v;
  }

  lemma {:induction false} VisitsCarryMoney(orders: seq<Order>, customers: seq<CustomerId>, seen: set<ReceiptId>,
                                            asOf: Instant,
                                            period: Period, normalDays: int)
    ensures Funded(Visits(orders, customers, seen, asOf, period, normalDays))
  {
    if orders != [] {
      VisitsCarryMoney(orders[1..], customers, seen, asOf, period, normalDays);
      var o, seen' := orders[0], seen + Sighted(orders[0].receipts);
      VisitsCarryMoney(orders[1..], customers, seen', asOf, period, normalDays);
      if Reached(o, customers, asOf) {
        FundedPrepend(VisitOf(o, seen, asOf, period, normalDays),
                      Visits(orders[1..], customers, seen', asOf, period, normalDays));
      }
    }
  }

  lemma {:induction false} ListedCarryMoney(visits: seq<Visit>, c: CustomerId)
    requires Funded(visits)
    ensures CarryMoney(ListedOf(visits, c))
  {
    if visits != [] {
      ListedCarryMoney(visits[..|visits| - 1], c);
    }
  }

  lemma {:induction false} AmountsPositive(lines: seq<Line>)
    requires CarryMoney(lines)
    ensures Paid(lines) + Overdue(lines) == Amounts(lines) && 0 <= Amounts(lines) &&
            (lines != [] ==> 0 < Amounts(lines))
  {
    if lines != [] {
      AmountsPositive(lines[..|lines| - 1]);
    }
  }

  /** Crosswise comparison of a line's average with `days / amount`. */
  function Excess(line: Line, days: int, amount: int): int {
    line.dollarDays * amount - days * line.amount
  }

  function Excesses(lines: seq<Line>, days: int, amount: int): int {
    if lines == [] then 0 else Excesses(lines[..|lines| - 1], days, amount) + Excess(lines[|lines| - 1], days, amount)
  }

  lemma {:induction false} ExcessesBalance(lines: seq<Line>, days: int, amount: int)
    ensures Excesses(lines, days, amount) == DollarDays(lines) * amount - days * Amounts(lines)
  {
    if lines != [] {
      var front, last := lines[..|lines| - 1], lines[|lines| - 1];
      ExcessesBalance(front, days, amount);
      assert (DollarDays(front) + last.dollarDays) * amount == DollarDays(front) * amount + last.dollarDays * amount;
      assert days * (Amounts(front) + last.amount) == days * Amounts(front) + days * last.amount;
    }
  }

  lemma {:induction false} SomeNotAbove(lines: seq<Line>, days: int, amount: int)
    requires lines != [] && Excesses(lines, days, amount) <= 0
    ensures exists line | line in lines :: Excess(line, days, amount) <= 0
  {
    var k := |lines| - 1;
    assert lines[k] in lines;
    if Excess(lines[k], days, amount) > 0 {
      SomeNotAbove(lines[..k], days, amount);
    }
  }

  lemma {:induction false} SomeNotBelow(lines: seq<Line>, days: int, amount: int)
    requires lines != [] && Excesses(lines, days, amount) >= 0
    ensures exists line | line in lines :: Excess(line, days, amount) >= 0
  {
    var k := |lines| - 1;
    assert lines[k] in lines;
    if Excess(lines[k], days, amount) < 0 {
      SomeNotBelow(lines[..k], days, amount);
    }
  }

  /** A customer's average lies between the averages of two of the listed orders:
      one pays no later and one no earlier than the customer as a whole. */
  lemma AverageLiesBetween(a: Accumulator, c: CustomerId, visits: seq<Visit>)
    requires Shows(a, c, visits) && a.orders != []
    ensures exists low | low in a.orders :: low.dollarDays * a.amount <= a.dollarDays * low.amount
    ensures exists high | high in a.orders :: high.dollarDays * a.amount >= a.dollarDays * high.amount
  {
    ExcessesBalance(a.orders, a.dollarDays, a.amount);
    SomeNotAbove(a.orders, a.dollarDays, a.amount);
    SomeNotBelow(a.orders, a.dollarDays, a.amount);
    var low :| low in a.orders && Excess(low, a.dollarDays, a.amount) <= 0;
    var high :| high in a.orders && Excess(high, a.dollarDays, a.amount) >= 0;
  }

  /** What is listed is paid or overdue, over the whole customer. */
  lemma ListedIsPaidOrOverdue(orders: seq<Order>, customers: seq<CustomerId>, asOf: Instant, period: Period,
                              normalDays: int,
                              a: Accumulator, c: CustomerId)
    requires Shows(a, c, Visits(orders, customers, {}, asOf, period, normalDays))
    ensures a.paid + a.overdue == a.amount
  {
    var visits := Visits(orders, customers, {}, asOf, period, normalDays);
    VisitsCarryMoney(orders, customers, {}, asOf, period, normalDays);
    ListedCarryMoney(visits, c);
    AmountsPositive(a.orders);
  }

  // ---------- no receipt pays two orders ----------

  lemma {:induction false} AcceptedFrom(sightings: seq<Receipt>, asOf: Instant, ok: ReceiptId -> bool)
    requires forall i | 0 <= i < |sightings| :: ok(sightings[i].id)
    ensures forall i | 0 <= i < |Accepted(sightings, asOf)| :: ok(Accepted(sightings, asOf)[i].id)
  {
    if sightings != [] {
      AcceptedFrom(sightings[1..], asOf, ok);
      assert ok(sightings[0].id);
    }
  }

  /** The ids of a visit's payments are new when the visit is made. */
  ghost predicate Unseen(v: Visit, seen: set<ReceiptId>) {
    forall i | 0 <= i < |v.payments| :: v.payments[i].id !in seen
  }

  lemma {:induction false} VisitsUnseen(orders: seq<Order>, customers: seq<CustomerId>, seen: set<ReceiptId>,
                                        asOf: Instant,
                                        period: Period, normalDays: int, k: nat)
    requires k < |Visits(orders, customers, seen, asOf, period, normalDays)|
    ensures Unseen(Visits(orders, customers, seen, asOf, period, normalDays)[k], seen)
  {
    if !Reached(orders[0], customers, asOf) {
      VisitsUnseen(orders[1..], customers, seen, asOf, period, normalDays, k);
    } else if k == 0 {
      AcceptedFrom(FirstSightings(orders[0].receipts, seen), asOf, id => id !in seen);
    } else {
      VisitsUnseen(orders[1..], customers, seen + Sighted(orders[0].receipts), asOf, period, normalDays, k - 1);
    }
  }

  /** No receipt is allocated to two orders, even when both list it. */
  lemma {:induction false} PaymentsAreNotShared(orders: seq<Order>, customers: seq<CustomerId>, seen: set<ReceiptId>,
                                                asOf: Instant,
                                                period: Period, normalDays: int, i: nat, j: nat, p: nat, q: nat)
    requires var visits := Visits(orders, customers, seen, asOf, period, normalDays);
             i < j < |visits| && p < |visits[i].payments| && q < |visits[j].payments|
    ensures var visits := Visits(orders, customers, seen, asOf, period, normalDays);
            visits[i].payments[p].id != visits[j].payments[q].id
  {
    var o := orders[0];
    if !Reached(o, customers, asOf) {
      PaymentsAreNotShared(orders[1..], customers, seen, asOf, period, normalDays, i, j, p, q);
    } else {
      var seen' := seen + Sighted(o.receipts);
      if i > 0 {
        PaymentsAreNotShared(orders[1..], customers, seen', asOf, period, normalDays, i - 1, j - 1, p, q);
      } else {
        VisitsUnseen(orders[1..], customers, seen', asOf, period, normalDays, j - 1);
        SightingsSighted(o.receipts, seen);
        AcceptedFrom(FirstSightings(o.receipts, seen), asOf, id => id in seen');
      }
    }
  }
}
