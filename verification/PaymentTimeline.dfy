/**
 How long a customer's money was outstanding: payments are allocated to an order
 in order of date, and each allocated cent is weighted with the days it was late.
 Instants are in milliseconds, money in integer cents.
 */
module PaymentTimeline {
  import opened Sorting
  import opened Basics

  const DAY_MS := 86_400_000

  type Instant = int

  /** Calendar day of an instant; the business time zone has no offset. */
  function Day(t: Instant): int {
    t / DAY_MS
  }

  function DaysBetween(start: Instant, end: Instant): int {
    Day(end) - Day(start)
  }

  /** Ids stand for their place in the collation that breaks ties. */
  datatype Payment = Payment(id: nat, amount: int, date: Instant)
  {
    predicate NotAfter(other: Payment) {
      date < other.date || (date == other.date && id <= other.id)
    }
  }

  predicate ByDate(a: Payment, b: Payment) {
    a.NotAfter(b)
  }

  /** What normalization promises about an order's payments. */
  ghost predicate Normalized(payments: seq<Payment>, asOf: Instant) {
    && Sorted(payments, ByDate)
    && forall i | 0 <= i < |payments| :: 0 < payments[i].amount && payments[i].date <= asOf
  }

  // ---------- the area under the outstanding curve ----------

  /** Days after release on which a payment counts. */
  function Offset(release: Instant, p: Payment): nat {
    Max(0, DaysBetween(release, p.date))
  }

  function Age(release: Instant, asOf: Instant): nat {
    Max(0, DaysBetween(release, asOf))
  }

  /** All payments made by day `d` after release. */
  function PaidBy(payments: seq<Payment>, release: Instant, d: nat): int {
    if payments == [] then 0
    else (if Offset(release, payments[0]) <= d then payments[0].amount else 0) + PaidBy(payments[1..], release, d)
  }

  /** The outstanding balance added up over the first `days` days. */
  function Area(amount: int, release: Instant, payments: seq<Payment>, days: nat): int {
    if days == 0 then 0
    else Area(amount, release, payments, days - 1) + Max(0, amount - PaidBy(payments, release, days - 1))
  }

  function TotalPaid(payments: seq<Payment>): int {
    if payments == [] then 0 else payments[0].amount + TotalPaid(payments[1..])
  }

  lemma {:induction false} NonePaidBefore(payments: seq<Payment>, release: Instant, d: nat)
    requires forall i | 0 <= i < |payments| :: d < Offset(release, payments[i])
    ensures PaidBy(payments, release, d) == 0
  {
    if payments != [] {
      NonePaidBefore(payments[1..], release, d);
    }
  }

  lemma {:induction false} PaidByNonNegative(payments: seq<Payment>, release: Instant, d: nat)
    requires forall i | 0 <= i < |payments| :: 0 < payments[i].amount
    ensures 0 <= PaidBy(payments, release, d) <= TotalPaid(payments)
  {
    if payments != [] {
      PaidByNonNegative(payments[1..], release, d);
    }
  }

  lemma {:induction false} NothingOutstanding(amount: int, release: Instant, payments: seq<Payment>, days: nat)
    requires amount <= 0 && forall i | 0 <= i < |payments| :: 0 < payments[i].amount
    ensures Area(amount, release, payments, days) == 0
  {
    if days > 0 {
      NothingOutstanding(amount, release, payments, days - 1);
      PaidByNonNegative(payments, release, days - 1);
    }
  }

  lemma {:induction false} NothingPaid(amount: int, release: Instant, days: nat)
    requires 0 <= amount
    ensures Area(amount, release, [], days) == amount * days
  {
    if days > 0 {
      NothingPaid(amount, release, days - 1);
    }
  }

  /** Taking the first payment out of the picture: what it covers was outstanding
      until the day it came. */
  lemma {:induction false} AreaStep(amount: int, release: Instant, payments: seq<Payment>, days: nat)
    requires payments != [] && 0 < amount && 0 < payments[0].amount
    requires forall i | 0 <= i < |payments| ::
               0 < payments[i].amount && Offset(release, payments[0]) <= Offset(release, payments[i])
    ensures var covered := Min(payments[0].amount, amount);
            Area(amount, release, payments, days) ==
              covered * Min(days, Offset(release, payments[0])) +
              Area(amount - covered, release, payments[1..], days)
  {
    if days > 0 {
      AreaStep(amount, release, payments, days - 1);
      var d := days - 1;
      var covered := Min(payments[0].amount, amount);
      if d < Offset(release, payments[0]) {
        NonePaidBefore(payments, release, d);
        NonePaidBefore(payments[1..], release, d);
        assert covered * days == covered * d + covered;
      } else {
        PaidByNonNegative(payments[1..], release, d);
      }
    }
  }

  lemma SortedOffsets(payments: seq<Payment>, release: Instant)
    requires Sorted(payments, ByDate) && payments != []
    ensures forall i | 0 <= i < |payments| :: Offset(release, payments[0]) <= Offset(release, payments[i])
  {
  }

  /** The waterfall so far: what is accounted for and the area still to come make
      the whole area, and what remains leads to the same outstanding amount. */
  ghost predicate OnCurve(amount: int, release: Instant, payments: seq<Payment>, age: nat, todo: seq<Payment>,
                          remaining: int, dollarDays: int) {
    && 0 <= remaining
    && dollarDays + Area(remaining, release, todo, age) == Area(amount, release, payments, age)
    && Max(0, remaining - TotalPaid(todo)) == Max(0, amount - TotalPaid(payments))
  }

  lemma CurveStep(amount: int, release: Instant, payments: seq<Payment>, asOf: Instant, age: nat, todo: seq<Payment>,
                  remaining: int, dollarDays: int)
    requires OnCurve(amount, release, payments, age, todo, remaining, dollarDays)
    requires todo != [] && 0 < remaining && Normalized(todo, asOf) && age == Age(release, asOf)
    ensures var covered := Min(todo[0].amount, remaining);
            && OnCurve(amount, release, payments, age, todo[1..], remaining - covered,
                       dollarDays + covered * Offset(release, todo[0]))
            && Normalized(todo[1..], asOf)
  {
    assert Offset(release, todo[0]) <= age;
    SortedOffsets(todo, release);
    AreaStep(remaining, release, todo, age);
    PaidByNonNegative(todo[1..], release, 0);
  }

  lemma CurveEnd(amount: int, release: Instant, payments: seq<Payment>, asOf: Instant, age: nat, todo: seq<Payment>,
                 remaining: int, dollarDays: int)
    requires OnCurve(amount, release, payments, age, todo, remaining, dollarDays)
    requires todo == [] || remaining <= 0
    requires Normalized(todo, asOf)
    ensures dollarDays + remaining * age == Area(amount, release, payments, age)
    ensures remaining == Max(0, amount - TotalPaid(payments))
  {
    if remaining > 0 {
      NothingPaid(remaining, release, age);
    } else {
      NothingOutstanding(remaining, release, todo, age);
      PaidByNonNegative(todo, release, 0);
    }
  }

  /** The dollar-days of the loop are the area under the outstanding curve, and
      what is not paid is outstanding. */
  method CalculateOrderPaymentTimeline(amount: int, releaseDate: Instant, asOf: Instant, payments: seq<Payment>)
    returns (dollarDays: int, paidAmount: int, outstanding: int)
    requires 0 < amount && Normalized(payments, asOf)
    ensures dollarDays == Area(amount, releaseDate, payments, Age(releaseDate, asOf))
    ensures paidAmount + outstanding == amount
    ensures outstanding == Max(0, amount - TotalPaid(payments))
  {
    var remaining := amount;
    var i := 0;
    ghost var age, todo := Age(releaseDate, asOf), payments;
    dollarDays := 0;
    while i < |payments| && remaining > 0
      invariant i <= |payments| && todo == payments[i..] && Normalized(todo, asOf)
      invariant OnCurve(amount, releaseDate, payments, age, todo, remaining, dollarDays)
    {
      var payment := payments[i];
      var covered := if payment.amount > remaining then remaining else payment.amount;
      var days := if payment.date <= releaseDate then 0 else Max(0, DaysBetween(releaseDate, payment.date));
      assert days == Offset(releaseDate, payment) && payment == todo[0];
      CurveStep(amount, releaseDate, payments, asOf, age, todo, remaining, dollarDays);
      dollarDays := dollarDays + covered * days;
      remaining := remaining - covered;
      i, todo := i + 1, todo[1..];
    }
    CurveEnd(amount, releaseDate, payments, asOf, age, todo, remaining, dollarDays);
    if remaining > 0 {
      var ageDays := Max(0, DaysBetween(releaseDate, asOf));
      dollarDays := dollarDays + remaining * ageDays;
    }
    paidAmount, outstanding := amount - remaining, remaining;
  }

  // ---------- bounds and monotonicity ----------

  /** The average number of days lies between 0 and the age of the order. */
  lemma {:induction false} AverageWithinAge(amount: int, release: Instant, payments: seq<Payment>, days: nat)
    requires 0 < amount && forall i | 0 <= i < |payments| :: 0 < payments[i].amount
    ensures 0 <= Area(amount, release, payments, days) <= amount * days
  {
    if days > 0 {
      AverageWithinAge(amount, release, payments, days - 1);
      PaidByNonNegative(payments, release, days - 1);
      assert amount * days == amount * (days - 1) + amount;
    }
  }

  lemma {:induction false} MorePaidLessArea(amount: int, release: Instant, late: seq<Payment>, early: seq<Payment>,
                                            days: nat)
    requires forall d: nat :: PaidBy(late, release, d) <= PaidBy(early, release, d)
    ensures Area(amount, release, early, days) <= Area(amount, release, late, days)
  {
    if days > 0 {
      MorePaidLessArea(amount, release, late, early, days - 1);
    }
  }

  lemma {:induction false} PaidByInsert(x: Payment, sorted: seq<Payment>, release: Instant, d: nat)
    ensures PaidBy(Insert(x, sorted, ByDate), release, d) ==
            PaidBy(sorted, release, d) + if Offset(release, x) <= d then x.amount else 0
  {
    if sorted == [] || x.NotAfter(sorted[0]) {
      assert ([x] + sorted)[1..] == sorted;
    } else {
      PaidByInsert(x, sorted[1..], release, d);
      assert ([sorted[0]] + Insert(x, sorted[1..], ByDate))[1..] == Insert(x, sorted[1..], ByDate);
    }
  }

  lemma {:induction false} PaidBySort(payments: seq<Payment>, release: Instant, d: nat)
    ensures PaidBy(Sort(payments, ByDate), release, d) == PaidBy(payments, release, d)
  {
    if payments != [] {
      PaidBySort(payments[1..], release, d);
      PaidByInsert(payments[0], Sort(payments[1..], ByDate), release, d);
    }
  }

  lemma {:induction false} PaidByEarlier(payments: seq<Payment>, i: nat, date: Instant, release: Instant, d: nat)
    requires i < |payments| && date <= payments[i].date && 0 < payments[i].amount
    ensures PaidBy(payments, release, d) <= PaidBy(payments[i := payments[i].(date := date)], release, d)
  {
    var earlier := payments[i := payments[i].(date := date)];
    if i == 0 {
      assert earlier[1..] == payments[1..];
    } else {
      assert earlier[1..] == payments[1..][i - 1 := payments[i].(date := date)];
      PaidByEarlier(payments[1..], i - 1, date, release, d);
    }
  }

  /** Paying one receipt earlier never raises the dollar-days, even though the
      payments are sorted again and may be allocated in another order. */
  lemma PayingEarlierNeverRaises(amount: int, release: Instant, payments: seq<Payment>, i: nat, date: Instant,
                                 days: nat)
    requires i < |payments| && date <= payments[i].date && 0 < payments[i].amount
    ensures Area(amount, release, Sort(payments[i := payments[i].(date := date)], ByDate), days) <=
            Area(amount, release, Sort(payments, ByDate), days)
  {
    var earlier := payments[i := payments[i].(date := date)];
    forall d: nat
      ensures PaidBy(Sort(payments, ByDate), release, d) <= PaidBy(Sort(earlier, ByDate), release, d)
    {
      PaidBySort(payments, release, d);
      PaidBySort(earlier, release, d);
      PaidByEarlier(payments, i, date, release, d);
    }
    MorePaidLessArea(amount, release, Sort(payments, ByDate), Sort(earlier, ByDate), days);
  }
}
