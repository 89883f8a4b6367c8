/**
 The running balance shown next to each receipt: the order's amount less all
 receipts of the order up to and including this one, in order of creation.
 */
module ReceiptBalance {
  import opened Sorting
  import opened Basics
  import opened Sums
  import L = Ledger
  import R = LedgerRuns

  type OrderId = nat
  type ReceiptId = nat

  /** Ids stand for their place in the collation that breaks ties. */
  datatype Row = Row(id: ReceiptId, orderId: Option<OrderId>, usd: int, pending: bool, createdAt: int)
  {
    predicate CountsFor(o: OrderId) {
      orderId == Some(o) && !pending
    }

    predicate NotAfter(other: Row) {
      createdAt < other.createdAt || (createdAt == other.createdAt && id <= other.id)
    }
  }

  // ---------- the running balance, told without sorting ----------

  /** What `row` takes from order `o` by the time of `last`. */
  function Share(row: Row, o: OrderId, last: Row): int {
    if row.CountsFor(o) && row.NotAfter(last) then row.usd else 0
  }

  function PaidUpTo(rows: seq<Row>, o: OrderId, last: Row): int {
    if rows == [] then 0 else Share(rows[0], o, last) + PaidUpTo(rows[1..], o, last)
  }

  /** All receipts that count for the order. */
  function Paid(rows: seq<Row>, o: OrderId): int {
    if rows == [] then 0 else (if rows[0].CountsFor(o) then rows[0].usd else 0) + Paid(rows[1..], o)
  }

  /** The live balance of an order. */
  function ComputeOrderBalance(amount: int, rows: seq<Row>, o: OrderId): int {
    amount - Paid(rows, o)
  }

  function BalanceAfter(rows: seq<Row>, amounts: map<OrderId, int>, row: Row): Option<int> {
    if row.orderId.Some? && !row.pending && row.orderId.value in amounts
    then Some(amounts[row.orderId.value] - PaidUpTo(rows, row.orderId.value, row))
    else None
  }

  ghost predicate UniqueIds(rows: seq<Row>) {
    forall i, j | 0 <= i < j < |rows| :: rows[i].id != rows[j].id
  }

  // ---------- sorting ----------

  predicate ByCreation(a: Row, b: Row) {
    a.NotAfter(b)
  }

  // ---------- sums do not depend on the order of rows ----------

  lemma {:induction false} PaidUpToInsert(x: Row, rows: seq<Row>, o: OrderId, last: Row)
    ensures PaidUpTo(Insert(x, rows, ByCreation), o, last) == Share(x, o, last) + PaidUpTo(rows, o, last)
  {
    if rows == [] || x.NotAfter(rows[0]) {
      assert ([x] + rows)[1..] == rows;
    } else {
      PaidUpToInsert(x, rows[1..], o, last);
      assert ([rows[0]] + Insert(x, rows[1..], ByCreation))[1..] == Insert(x, rows[1..], ByCreation);
    }
  }

  lemma {:induction false} PaidUpToSort(rows: seq<Row>, o: OrderId, last: Row)
    ensures PaidUpTo(Sort(rows, ByCreation), o, last) == PaidUpTo(rows, o, last)
  {
    if rows != [] {
      PaidUpToSort(rows[1..], o, last);
      PaidUpToInsert(rows[0], Sort(rows[1..], ByCreation), o, last);
    }
  }

  /** The rows that count for one order, as they are grouped. */
  function RowsOf(rows: seq<Row>, o: OrderId): (r: seq<Row>)
    ensures forall x :: x in r <==> x in rows && x.CountsFor(o)
  {
    if rows == [] then []
    else (if rows[0].CountsFor(o) then [rows[0]] else []) + RowsOf(rows[1..], o)
  }

  lemma {:induction false} RowsOfSnoc(rows: seq<Row>, x: Row, o: OrderId)
    ensures RowsOf(rows + [x], o) == RowsOf(rows, o) + if x.CountsFor(o) then [x] else []
  {
    if rows != [] {
      assert (rows + [x])[1..] == rows[1..] + [x];
      RowsOfSnoc(rows[1..], x, o);
    }
  }

  lemma {:induction false} PaidUpToRowsOf(rows: seq<Row>, o: OrderId, last: Row)
    ensures PaidUpTo(RowsOf(rows, o), o, last) == PaidUpTo(rows, o, last)
  {
    if rows != [] {
      PaidUpToRowsOf(rows[1..], o, last);
      if rows[0].CountsFor(o) {
        assert RowsOf(rows, o)[1..] == RowsOf(rows[1..], o);
      } else {
        assert RowsOf(rows, o) == RowsOf(rows[1..], o);
      }
    }
  }

  lemma {:induction false} RowsOfUnique(rows: seq<Row>, o: OrderId)
    requires UniqueIds(rows)
    ensures UniqueIds(RowsOf(rows, o))
  {
    if rows != [] {
      RowsOfUnique(rows[1..], o);
      assert forall x | x in rows[1..] :: x.id != rows[0].id;
    }
  }

  function PrefixSum(rows: seq<Row>, n: nat): int
    requires n <= |rows|
  {
    if n == 0 then 0 else PrefixSum(rows, n - 1) + rows[n - 1].usd
  }

  /** In a sorted list of rows of one order, the rows up to the k-th are the first k + 1. */
  lemma PaidUpToIsPrefix(rows: seq<Row>, o: OrderId, k: nat)
    requires Sorted(rows, ByCreation) && UniqueIds(rows) && k < |rows|
    requires forall x | x in rows :: x.CountsFor(o)
    ensures PaidUpTo(rows, o, rows[k]) == PrefixSum(rows, k + 1)
  {
    assert rows[..k + 1] + rows[k + 1..] == rows;
    PaidUpToSplit(rows[..k + 1], rows[k + 1..], o, rows[k]);
    AllShared(rows[..k + 1], o, rows[k]);
    NoneShared(rows[k + 1..], o, rows[k]);
    PrefixSumOfPrefix(rows, k + 1);
  }

  lemma {:induction false} PaidUpToSplit(a: seq<Row>, b: seq<Row>, o: OrderId, last: Row)
    ensures PaidUpTo(a + b, o, last) == PaidUpTo(a, o, last) + PaidUpTo(b, o, last)
  {
    if a == [] {
      assert a + b == b;
    } else {
      assert (a + b)[1..] == a[1..] + b;
      PaidUpToSplit(a[1..], b, o, last);
    }
  }

  lemma {:induction false} AllShared(rows: seq<Row>, o: OrderId, last: Row)
    requires forall i | 0 <= i < |rows| :: rows[i].CountsFor(o) && rows[i].NotAfter(last)
    ensures PaidUpTo(rows, o, last) == PrefixSum(rows, |rows|)
    decreases |rows|
  {
    if rows != [] {
      var n := |rows| - 1;
      assert rows == rows[..n] + [rows[n]];
      AllShared(rows[..n], o, last);
      PaidUpToSplit(rows[..n], [rows[n]], o, last);
      PrefixSumOfPrefix(rows, n);
    }
  }

  lemma {:induction false} NoneShared(rows: seq<Row>, o: OrderId, last: Row)
    requires forall i | 0 <= i < |rows| :: !rows[i].NotAfter(last)
    ensures PaidUpTo(rows, o, last) == 0
  {
    if rows != [] {
      NoneShared(rows[1..], o, last);
    }
  }

  lemma {:induction false} PrefixSumOfPrefix(rows: seq<Row>, n: nat)
    requires n <= |rows|
    ensures PrefixSum(rows, n) == PrefixSum(rows[..n], n)
  {
    PrefixSumAgree(rows, rows[..n], n);
  }

  lemma {:induction false} PrefixSumAgree(a: seq<Row>, b: seq<Row>, n: nat)
    requires n <= |a| && n <= |b| && forall i | 0 <= i < n :: a[i] == b[i]
    ensures PrefixSum(a, n) == PrefixSum(b, n)
  {
    if n > 0 {
      PrefixSumAgree(a, b, n - 1);
    }
  }

  /** The k-th row of an order's sorted rows leaves the amount less the first k + 1. */
  lemma SortedRowBalance(rows: seq<Row>, o: OrderId, k: nat)
    requires UniqueIds(rows) && k < |Sort(RowsOf(rows, o), ByCreation)|
    ensures var sorted := Sort(RowsOf(rows, o), ByCreation);
            PaidUpTo(rows, o, sorted[k]) == PrefixSum(sorted, k + 1) && sorted[k] in rows && sorted[k].CountsFor(o)
  {
    var own := RowsOf(rows, o);
    var sorted := Sort(own, ByCreation);
    SortSorted(own, ByCreation);
    RowsOfUnique(rows, o);
    SortUnique(own);
    forall x | x in sorted
      ensures x in own
    {
      assert x in multiset(sorted);
    }
    assert sorted[k] in sorted;
    PaidUpToIsPrefix(sorted, o, k);
    PaidUpToSort(own, o, sorted[k]);
    PaidUpToRowsOf(rows, o, sorted[k]);
  }

  lemma {:induction false} InsertUnique(x: Row, rows: seq<Row>)
    requires UniqueIds(rows) && forall y | y in rows :: y.id != x.id
    ensures UniqueIds(Insert(x, rows, ByCreation))
  {
    if rows != [] && !x.NotAfter(rows[0]) {
      InsertUnique(x, rows[1..]);
      var rest := Insert(x, rows[1..], ByCreation);
      forall j | 0 <= j < |rest|
        ensures rest[j].id != rows[0].id
      {
        assert rest[j] in multiset(rest);
        assert rest[j] == x || rest[j] in rows[1..];
      }
    }
  }

  lemma {:induction false} SortUnique(rows: seq<Row>)
    requires UniqueIds(rows)
    ensures UniqueIds(Sort(rows, ByCreation))
  {
    if rows != [] {
      SortUnique(rows[1..]);
      forall y | y in Sort(rows[1..], ByCreation)
        ensures y.id != rows[0].id
      {
        assert y in multiset(Sort(rows[1..], ByCreation));
        assert y in rows[1..];
      }
      InsertUnique(rows[0], Sort(rows[1..], ByCreation));
    }
  }

  // ---------- the map of running balances ----------

  /** Groups the rows that count by order. */
  method GroupByOrder(receipts: seq<Row>) returns (byOrder: map<OrderId, seq<Row>>)
    ensures forall o | o in byOrder :: byOrder[o] == RowsOf(receipts, o)
    ensures forall o | o !in byOrder :: RowsOf(receipts, o) == []
  {
    byOrder := map[];
    for i := 0 to |receipts|
      invariant forall o | o in byOrder :: byOrder[o] == RowsOf(receipts[..i], o)
      invariant forall o | o !in byOrder :: RowsOf(receipts[..i], o) == []
    {
      var row := receipts[i];
      assert receipts[..i + 1] == receipts[..i] + [row];
      forall o: OrderId {
        RowsOfSnoc(receipts[..i], row, o);
      }
      if row.orderId.None? || row.pending {
        continue;
      }
      if row.orderId.value !in byOrder {
        byOrder := byOrder[row.orderId.value := []];
      }
      byOrder := byOrder[row.orderId.value := byOrder[row.orderId.value] + [row]];
    }
    assert receipts[..|receipts|] == receipts;
  }

  /** The entries made so far are the ones `balance` calls for. */
  ghost predicate RightSoFar(receipts: seq<Row>, balance: Row -> Option<int>, result: map<ReceiptId, Option<int>>) {
    forall x | x in receipts && x.id in result :: result[x.id] == balance(x)
  }

  ghost function Balances(receipts: seq<Row>, amounts: map<OrderId, int>): Row -> Option<int> {
    x => BalanceAfter(receipts, amounts, x)
  }

  lemma AddRight(receipts: seq<Row>, balance: Row -> Option<int>, result: map<ReceiptId, Option<int>>, x: Row)
    requires UniqueIds(receipts) && x in receipts && RightSoFar(receipts, balance, result)
    ensures RightSoFar(receipts, balance, result[x.id := balance(x)])
  {
    SameIdSameRow(receipts, x);
  }

  /** What the rows of one order are due, in the order they are sorted into. */
  ghost predicate DueInOrder(receipts: seq<Row>, balance: Row -> Option<int>, sorted: seq<Row>, amount: int) {
    forall k | 0 <= k < |sorted| ::
      sorted[k] in receipts && balance(sorted[k]) == Some(amount - PrefixSum(sorted, k + 1))
  }

  /** Each row of an order's sorted rows stands for the rows up to it. */
  ghost predicate StandsForPrefix(receipts: seq<Row>, o: OrderId, sorted: seq<Row>) {
    forall k | 0 <= k < |sorted| ::
      PaidUpTo(receipts, o, sorted[k]) == PrefixSum(sorted, k + 1) && sorted[k] in receipts && sorted[k].CountsFor(o)
  }

  lemma SortedStandsForPrefix(receipts: seq<Row>, o: OrderId)
    requires UniqueIds(receipts)
    ensures StandsForPrefix(receipts, o, Sort(RowsOf(receipts, o), ByCreation))
  {
    var sorted := Sort(RowsOf(receipts, o), ByCreation);
    forall k | 0 <= k < |sorted|
      ensures PaidUpTo(receipts, o, sorted[k]) == PrefixSum(sorted, k + 1) && sorted[k] in receipts &&
              sorted[k].CountsFor(o)
    {
      SortedRowBalance(receipts, o, k);
    }
  }

  lemma PrefixIsDue(receipts: seq<Row>, amounts: map<OrderId, int>, o: OrderId, sorted: seq<Row>)
    requires o in amounts && StandsForPrefix(receipts, o, sorted)
    ensures DueInOrder(receipts, Balances(receipts, amounts), sorted, amounts[o])
  {
    forall k | 0 <= k < |sorted|
      ensures BalanceAfter(receipts, amounts, sorted[k]) == Some(amounts[o] - PrefixSum(sorted, k + 1))
    {
      BalanceOf(receipts, amounts, o, sorted[k], PrefixSum(sorted, k + 1));
    }
  }

  lemma BalanceOf(receipts: seq<Row>, amounts: map<OrderId, int>, o: OrderId, row: Row, paid: int)
    requires o in amounts && row.CountsFor(o) && PaidUpTo(receipts, o, row) == paid
    ensures BalanceAfter(receipts, amounts, row) == Some(amounts[o] - paid)
  {
  }

  lemma UnknownIsDue(receipts: seq<Row>, amounts: map<OrderId, int>, o: OrderId)
    requires o !in amounts
    ensures forall x | x in RowsOf(receipts, o) :: x in receipts && Balances(receipts, amounts)(x) == None
  {
  }

  /** An order whose amount is not known: its receipts get no balance. */
  method AddUnknown(ghost receipts: seq<Row>, ghost balance: Row -> Option<int>, rows: seq<Row>,
                    result0: map<ReceiptId, Option<int>>)
    returns (result: map<ReceiptId, Option<int>>)
    requires UniqueIds(receipts) && forall x | x in rows :: x in receipts && balance(x) == None
    requires RightSoFar(receipts, balance, result0)
    ensures RightSoFar(receipts, balance, result) && result.Keys == result0.Keys + IdsOf(rows)
  {
    result := result0;
    for i := 0 to |rows|
      invariant RightSoFar(receipts, balance, result)
      invariant result.Keys == result0.Keys + IdsOf(rows[..i])
    {
      assert rows[i] in rows;
      AddRight(receipts, balance, result, rows[i]);
      IdsUpTo(rows, i);
      result := result[rows[i].id := None];
    }
    assert rows[..|rows|] == rows;
  }

  /** Adds the entries of one order's sorted rows to the result. */
  method AddSorted(ghost receipts: seq<Row>, ghost balance: Row -> Option<int>, amount: int, sorted: seq<Row>,
                   result0: map<ReceiptId, Option<int>>)
    returns (result: map<ReceiptId, Option<int>>)
    requires UniqueIds(receipts) && DueInOrder(receipts, balance, sorted, amount)
    requires RightSoFar(receipts, balance, result0)
    ensures RightSoFar(receipts, balance, result) && result.Keys == result0.Keys + IdsOf(sorted)
  {
    result := result0;
    var remaining := amount;
    for k := 0 to |sorted|
      invariant remaining == amount - PrefixSum(sorted, k)
      invariant RightSoFar(receipts, balance, result)
      invariant result.Keys == result0.Keys + IdsOf(sorted[..k])
    {
      AddRight(receipts, balance, result, sorted[k]);
      IdsUpTo(sorted, k);
      remaining := remaining - sorted[k].usd;
      result := result[sorted[k].id := Some(remaining)];
    }
    assert sorted[..|sorted|] == sorted;
  }

  /** Adds the entries of one order, whose rows are `rows`. */
  method AddOrder(ghost receipts: seq<Row>, amounts: map<OrderId, int>, o: OrderId, rows: seq<Row>,
                  result0: map<ReceiptId, Option<int>>)
    returns (result: map<ReceiptId, Option<int>>)
    requires UniqueIds(receipts) && rows == RowsOf(receipts, o)
    requires RightSoFar(receipts, Balances(receipts, amounts), result0)
    ensures RightSoFar(receipts, Balances(receipts, amounts), result) && result.Keys == result0.Keys + IdsOf(rows)
  {
    ghost var balance := Balances(receipts, amounts);
    if o in amounts {
      var sorted := Sort(rows, ByCreation);
      SortedStandsForPrefix(receipts, o);
      PrefixIsDue(receipts, amounts, o, sorted);
      IdsOfSort(rows);
      result := AddSorted(receipts, balance, amounts[o], sorted, result0);
    } else {
      UnknownIsDue(receipts, amounts, o);
      result := AddUnknown(receipts, balance, rows, result0);
    }
  }

  lemma IdsUpTo(rows: seq<Row>, k: nat)
    requires k < |rows|
    ensures IdsOf(rows[..k + 1]) == IdsOf(rows[..k]) + {rows[k].id}
  {
    assert rows[..k + 1] == rows[..k] + [rows[k]];
    IdsOfSnoc(rows[..k], rows[k]);
  }

  ghost function IdsOf(rows: seq<Row>): set<ReceiptId> {
    set i | 0 <= i < |rows| :: rows[i].id
  }

  lemma IdsOfSnoc(rows: seq<Row>, x: Row)
    ensures IdsOf(rows + [x]) == IdsOf(rows) + {x.id}
  {
    var all := rows + [x];
    assert all[|rows|] == x && forall i | 0 <= i < |rows| :: all[i] == rows[i];
    forall id | id in IdsOf(rows) + {x.id}
      ensures id in IdsOf(all)
    {
      if id == x.id {
        assert all[|rows|].id == id;
      } else {
        var i :| 0 <= i < |rows| && rows[i].id == id;
        assert all[i].id == id;
      }
    }
  }

  lemma IdsOfSort(rows: seq<Row>)
    ensures IdsOf(Sort(rows, ByCreation)) == IdsOf(rows)
  {
    IdsWithin(rows, Sort(rows, ByCreation));
    IdsWithin(Sort(rows, ByCreation), rows);
  }

  lemma IdsWithin(a: seq<Row>, b: seq<Row>)
    requires multiset(a) == multiset(b)
    ensures IdsOf(a) <= IdsOf(b)
  {
    forall id | id in IdsOf(a)
      ensures id in IdsOf(b)
    {
      var i :| 0 <= i < |a| && a[i].id == id;
      assert a[i] in multiset(b);
    }
  }

  lemma SameIdSameRow(rows: seq<Row>, x: Row)
    requires UniqueIds(rows) && x in rows
    ensures forall y | y in rows && y.id == x.id :: y == x
  {
  }

  /** Every counted row of a grouped order, except those of `todo`, has its entry. */
  ghost predicate EntriesOf(receipts: seq<Row>, orders: set<OrderId>, todo: set<OrderId>,
                            result: map<ReceiptId, Option<int>>) {
    forall o, x | o in orders && o !in todo && x in receipts && x.CountsFor(o) :: x.id in result
  }

  /** The entries of all orders that have counted receipts. */
  method AddOrders(receipts: seq<Row>, amounts: map<OrderId, int>, byOrder: map<OrderId, seq<Row>>)
    returns (result: map<ReceiptId, Option<int>>)
    requires UniqueIds(receipts) && forall o | o in byOrder :: byOrder[o] == RowsOf(receipts, o)
    ensures RightSoFar(receipts, Balances(receipts, amounts), result) && result.Keys <= IdsOf(receipts)
    ensures EntriesOf(receipts, byOrder.Keys, {}, result)
  {
    result := map[];
    var todo := byOrder.Keys;
    while todo != {}
      invariant todo <= byOrder.Keys
      invariant RightSoFar(receipts, Balances(receipts, amounts), result) && result.Keys <= IdsOf(receipts)
      invariant EntriesOf(receipts, byOrder.Keys, todo, result)
      decreases |todo|
    {
      var o :| o in todo;
      result := AddOrder(receipts, amounts, o, byOrder[o], result);
      RowsOfIds(receipts, o);
      todo := todo - {o};
    }
  }

  /** One entry a receipt: its running balance, or none when it does not count
      or its order's amount is not known. */
  method BuildReceiptBalanceAfterMap(receipts: seq<Row>, amounts: map<OrderId, int>)
    returns (result: map<ReceiptId, Option<int>>)
    requires UniqueIds(receipts)
    ensures forall x | x in receipts :: x.id in result && result[x.id] == BalanceAfter(receipts, amounts, x)
    ensures result.Keys == IdsOf(receipts)
  {
    var byOrder := GroupByOrder(receipts);
    ghost var balance := Balances(receipts, amounts);
    result := AddOrders(receipts, amounts, byOrder);
    for i := 0 to |receipts|
      invariant RightSoFar(receipts, balance, result) && result.Keys <= IdsOf(receipts)
      invariant EntriesOf(receipts, byOrder.Keys, {}, result)
      invariant forall j | 0 <= j < i :: receipts[j].id in result
    {
      if receipts[i].id !in result {
        NotGrouped(receipts, byOrder, receipts[i]);
        AddRight(receipts, balance, result, receipts[i]);
        result := result[receipts[i].id := None];
      }
    }
  }

  lemma RowsOfIds(receipts: seq<Row>, o: OrderId)
    ensures IdsOf(RowsOf(receipts, o)) <= IdsOf(receipts)
    ensures forall x | x in receipts && x.CountsFor(o) :: x.id in IdsOf(RowsOf(receipts, o))
  {
    var own := RowsOf(receipts, o);
    forall id | id in IdsOf(own)
      ensures id in IdsOf(receipts)
    {
      var i :| 0 <= i < |own| && own[i].id == id;
      assert own[i] in own;
    }
    forall x | x in receipts && x.CountsFor(o)
      ensures x.id in IdsOf(own)
    {
      assert x in own;
    }
  }

  lemma NotGrouped(receipts: seq<Row>, byOrder: map<OrderId, seq<Row>>, x: Row)
    requires x in receipts
    requires forall o | o !in byOrder :: RowsOf(receipts, o) == []
    requires forall o | o in byOrder :: !x.CountsFor(o)
    ensures x.orderId.None? || x.pending
  {
    assert x.orderId.Some? && !x.pending ==> x.CountsFor(x.orderId.value);
    assert x.orderId.Some? && x.CountsFor(x.orderId.value) ==> x in RowsOf(receipts, x.orderId.value);
  }

  // ---------- the last entry ----------

  /** The entry of an order's last receipt is the order's live balance. */
  lemma LastEntryIsLiveBalance(rows: seq<Row>, amounts: map<OrderId, int>, o: OrderId, last: Row)
    requires o in amounts && last in rows && last.CountsFor(o)
    requires forall x | x in rows && x.CountsFor(o) :: x.NotAfter(last)
    ensures BalanceAfter(rows, amounts, last) == Some(ComputeOrderBalance(amounts[o], rows, o))
  {
    EverythingPaid(rows, o, last);
  }

  lemma {:induction false} EverythingPaid(rows: seq<Row>, o: OrderId, last: Row)
    requires forall x | x in rows && x.CountsFor(o) :: x.NotAfter(last)
    ensures PaidUpTo(rows, o, last) == Paid(rows, o)
  {
    if rows != [] {
      assert rows[0] in rows;
      EverythingPaid(rows[1..], o, last);
    }
  }

  lemma WithoutOne(b: seq<Row>, i: nat)
    requires i < |b|
    ensures multiset(b[..i] + b[i + 1..]) == multiset(b) - multiset{b[i]}
  {
    assert b == b[..i] + [b[i]] + b[i + 1..];
  }

  /** The balances do not depend on the order in which the receipts are read. */
  lemma {:induction false} BalanceIgnoresReadingOrder(a: seq<Row>, b: seq<Row>, o: OrderId, last: Row)
    requires multiset(a) == multiset(b)
    ensures PaidUpTo(a, o, last) == PaidUpTo(b, o, last)
    decreases |a|
  {
    if a == [] {
      assert |multiset(b)| == 0;
      assert b == [];
    } else {
      assert a[0] in multiset(b);
      var i :| 0 <= i < |b| && b[i] == a[0];
      assert b == b[..i] + ([b[i]] + b[i + 1..]);
      assert a == [a[0]] + a[1..];
      assert multiset(a) == multiset{a[0]} + multiset(a[1..]);
      WithoutOne(b, i);
      BalanceIgnoresReadingOrder(a[1..], b[..i] + b[i + 1..], o, last);
      PaidUpToSplit(b[..i], [b[i]] + b[i + 1..], o, last);
      PaidUpToSplit([b[i]], b[i + 1..], o, last);
      PaidUpToSplit(b[..i], b[i + 1..], o, last);
    }
  }

  // ---------- the receipts of the ledger ----------

  /** The row shows the receipt. */
  predicate Shows(row: Row, receipt: L.Receipt) {
    && row.usd == receipt.usd && row.orderId == receipt.orderId
    && (row.pending <==> receipt.status == L.SigningPending)
  }

  /** The rows are the receipts of the ledger, each once, in whatever order. */
  ghost predicate Reads(rows: seq<Row>, receipts: map<ReceiptId, L.Receipt>) {
    && UniqueIds(rows) && IdsOf(rows) == receipts.Keys
    && forall row | row in rows :: row.id in receipts && Shows(row, receipts[row.id])
  }

  lemma ReadsTail(rows: seq<Row>, receipts: map<ReceiptId, L.Receipt>)
    requires rows != [] && Reads(rows, receipts)
    ensures rows[0].id in receipts && Reads(rows[1..], receipts - {rows[0].id})
  {
    var first := rows[0];
    assert rows == [first] + rows[1..];
    IdsOfCons(first, rows[1..]);
    forall row | row in rows[1..]
      ensures row.id != first.id
    {
      var i :| 0 <= i < |rows[1..]| && rows[1..][i] == row;
      assert rows[i + 1] == row;
    }
    assert first.id !in IdsOf(rows[1..]);
  }

  lemma IdsOfCons(x: Row, rows: seq<Row>)
    ensures IdsOf([x] + rows) == {x.id} + IdsOf(rows)
  {
    var all := [x] + rows;
    assert all[0] == x && forall i | 0 <= i < |rows| :: all[i + 1] == rows[i];
    forall id | id in {x.id} + IdsOf(rows)
      ensures id in IdsOf(all)
    {
      if id == x.id {
        assert all[0].id == id;
      } else {
        var i :| 0 <= i < |rows| && rows[i].id == id;
        assert all[i + 1].id == id;
      }
    }
  }

  /** Adding up the rows adds up the receipts that count in the ledger. */
  lemma {:induction false} PaidIsCounted(rows: seq<Row>, receipts: map<ReceiptId, L.Receipt>, o: OrderId)
    requires Reads(rows, receipts)
    ensures Paid(rows, o) == Sum(L.Counted(receipts, o))
    decreases rows
  {
    if rows == [] {
      assert IdsOf(rows) == {};
      assert L.Counted(receipts, o) == map[];
    } else {
      var r := rows[0].id;
      ReadsTail(rows, receipts);
      PaidIsCounted(rows[1..], receipts - {r}, o);
      R.CountedRemove(receipts, r, o);
      assert rows[0] in rows;
    }
  }

  ghost function AmountsIn(b: L.Book): map<OrderId, int> {
    map o | o in b.orders :: b.orders[o].amount
  }

  /** The fold over the rows is the ledger's live balance. */
  lemma FoldIsLive(rows: seq<Row>, b: L.Book, o: OrderId)
    requires Reads(rows, b.receipts) && o in b.orders
    ensures ComputeOrderBalance(b.orders[o].amount, rows, o) == L.Live(b, o)
  {
    PaidIsCounted(rows, b.receipts, o);
  }

  /** Where the caches are right, the entry of an order's last receipt is the
      cached balance of the order. */
  lemma LastEntryIsCachedBalance(rows: seq<Row>, b: L.Book, o: OrderId, last: Row)
    requires L.Coherent(b) && Reads(rows, b.receipts)
    requires o in b.orders && last in rows && last.CountsFor(o)
    requires forall x | x in rows && x.CountsFor(o) :: x.NotAfter(last)
    ensures BalanceAfter(rows, AmountsIn(b), last) == Some(b.orders[o].orderBalance)
  {
    FoldIsLive(rows, b, o);
    LastEntryIsLiveBalance(rows, AmountsIn(b), o, last);
  }
}
