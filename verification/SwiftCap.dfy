/**
 SWIFT transfers of a payment detail under concurrency. Every transaction finds
 the details it is about, locks them one by one in ascending order, reads them,
 checks, and writes rows computed from what it has read. Other transactions may
 take their steps in between. A detail's lock is an exclusive row lock, held
 until the transaction ends; writes become visible when it commits.
 Money is in integer cents.
 */
module SwiftCap {
  import opened Basics
  import opened Sums

  type DetailId = nat
  type ItemId = nat
  type SwiftId = nat
  type ReceiptId = nat
  type TxId = nat

  datatype SwiftStatus = BankTransfer | Received | Error

  datatype DetailStatus = WaitingSwift | Transferring | AllReceived | Faulty

  datatype Swift = Swift(amount: int, status: SwiftStatus, hasError: bool)
  {
    predicate Counts() {
      !hasError && status != Error
    }
  }

  datatype Item = Item(receipt: Option<ReceiptId>, amount: int)

  datatype Detail = Detail(total: int, status: DetailStatus, items: map<ItemId, Item>, swifts: map<SwiftId, Swift>)

  type Database = map<DetailId, Detail>

  // ---------- totals ----------

  function Counted(swifts: map<SwiftId, Swift>): map<SwiftId, int> {
    map s | s in swifts :: if swifts[s].Counts() then swifts[s].amount else 0
  }

  /** The total of the SWIFTs without an error. */
  ghost function Transferred(swifts: map<SwiftId, Swift>): int {
    Sum(Counted(swifts))
  }

  function Amounts(items: map<ItemId, Item>): map<ItemId, int> {
    map i | i in items :: items[i].amount
  }

  ghost function TotalOf(items: map<ItemId, Item>): int {
    Sum(Amounts(items))
  }

  function Without(items: map<ItemId, Item>, r: ReceiptId): map<ItemId, Item> {
    map i | i in items && items[i].receipt != Some(r) :: items[i]
  }

  function Of(items: map<ItemId, Item>, r: ReceiptId): map<ItemId, Item> {
    map i | i in items && items[i].receipt == Some(r) :: items[i]
  }

  lemma TransferredSet(swifts: map<SwiftId, Swift>, s: SwiftId, swift: Swift)
    ensures Transferred(swifts[s := swift]) == Transferred(swifts - {s}) + if swift.Counts() then swift.amount else 0
    ensures s !in swifts ==> swifts - {s} == swifts
  {
    SumSet(Counted(swifts), s, if swift.Counts() then swift.amount else 0);
    assert Counted(swifts)[s := if swift.Counts() then swift.amount else 0] == Counted(swifts[s := swift]);
    assert Counted(swifts) - {s} == Counted(swifts - {s});
  }

  lemma TransferredWithout(swifts: map<SwiftId, Swift>, s: SwiftId)
    requires s in swifts
    ensures Transferred(swifts) == Transferred(swifts - {s}) + if swifts[s].Counts() then swifts[s].amount else 0
  {
    assert swifts[s := swifts[s]] == swifts;
    TransferredSet(swifts, s, swifts[s]);
  }

  lemma TotalSplits(items: map<ItemId, Item>, r: ReceiptId)
    ensures TotalOf(items) == TotalOf(Without(items, r)) + TotalOf(Of(items, r))
  {
    SumSplit(Amounts(items), Amounts(Of(items, r)));
    assert Amounts(items) - Amounts(Of(items, r)).Keys == Amounts(Without(items, r));
  }

  // ---------- the summary ----------

  function Valid(swifts: map<SwiftId, Swift>): set<SwiftId> {
    set s | s in swifts && swifts[s].Counts()
  }

  ghost function SummaryStatus(total: int, swifts: map<SwiftId, Swift>, fee: nat): DetailStatus {
    var valid, difference := Valid(swifts), total - Transferred(swifts);
    var covered := total > 0 && valid != {} && difference >= 0 && difference <= fee * |valid|;
    if difference < 0 then Faulty
    else if covered && forall s | s in valid :: swifts[s].status == Received then AllReceived
    else if covered then Transferring
    else WaitingSwift
  }

  // ---------- the work a transaction does ----------

  /** `DeleteSwift` is both the direct deletion and the approved request. */
  datatype Work =
    | CreateSwift(detail: DetailId, swift: SwiftId, amount: int)
    | UpdateSwift(swift: SwiftId, amount: int)
    | ReceiveSwift(swift: SwiftId)
    | DeleteSwift(swift: SwiftId)
    | EditDetail(detail: DetailId, items: map<ItemId, Item>)
    | DeleteReceipt(receipt: ReceiptId)

  /** The details a transaction finds before it holds any lock. */
  ghost predicate Concerns(work: Work, d: DetailId, row: Detail) {
    match work
    case CreateSwift(x, _, _) => d == x
    case UpdateSwift(s, _) => s in row.swifts
    case ReceiveSwift(s) => s in row.swifts
    case DeleteSwift(s) => s in row.swifts
    case EditDetail(x, _) => d == x
    case DeleteReceipt(r) => Of(row.items, r) != map[]
  }

  /** The checks made on what was read, row by row. */
  ghost predicate Accepts(work: Work, seen: Detail) {
    match work
    case CreateSwift(_, s, amount) =>
      && s !in seen.swifts && seen.status != AllReceived && Transferred(seen.swifts) < seen.total
      && 0 < amount && Transferred(seen.swifts) + amount <= seen.total
    case UpdateSwift(s, amount) =>
      && s in seen.swifts && seen.swifts[s].status != Received && seen.status != AllReceived
      && 0 < amount && Transferred(seen.swifts - {s}) + amount <= seen.total
    case ReceiveSwift(s) => s in seen.swifts && seen.swifts[s].status == BankTransfer && !seen.swifts[s].hasError
    case DeleteSwift(s) => s in seen.swifts
    case EditDetail(_, items) => seen.status != AllReceived && Transferred(seen.swifts) <= TotalOf(items)
    case DeleteReceipt(r) => Transferred(seen.swifts) <= TotalOf(Without(seen.items, r))
  }

  ghost predicate Allowed(work: Work, view: Database) {
    && (!work.DeleteReceipt? ==> exists d :: view.Keys == {d})
    && (work.CreateSwift? ==> view.Keys == {work.detail})
    && (work.EditDetail? ==> view.Keys == {work.detail})
    && forall d | d in view :: Accepts(work, view[d])
  }

  function NewSwifts(work: Work, swifts: map<SwiftId, Swift>): map<SwiftId, Swift> {
    match work
    case CreateSwift(_, s, amount) => swifts[s := Swift(amount, BankTransfer, false)]
    case UpdateSwift(s, amount) => swifts[s := Swift(amount, BankTransfer, false)]
    case ReceiveSwift(s) => if s in swifts then swifts[s := swifts[s].(status := Received)] else swifts
    case DeleteSwift(s) => swifts - {s}
    case EditDetail(_, _) => swifts
    case DeleteReceipt(_) => swifts
  }

  ghost function NewTotal(work: Work, seen: Detail): int {
    match work
    case EditDetail(_, items) => TotalOf(items)
    case DeleteReceipt(r) => TotalOf(Without(seen.items, r))
    case _ => seen.total
  }

  /** The items are written by key: an edit replaces them, a deletion removes rows
      from every detail, locked or not. */
  function NewItems(work: Work, mine: bool, items: map<ItemId, Item>): map<ItemId, Item> {
    match work
    case EditDetail(_, replacement) => if mine then replacement else items
    case DeleteReceipt(r) => Without(items, r)
    case _ => items
  }

  /** A detail that is edited while it has no SWIFT keeps its status. */
  ghost function NewStatus(work: Work, seen: Detail, fee: nat): DetailStatus {
    if work.EditDetail? && seen.swifts == map[] then seen.status
    else SummaryStatus(NewTotal(work, seen), NewSwifts(work, seen.swifts), fee)
  }

  ghost function Written(work: Work, view: Database, d: DetailId, row: Detail, fee: nat): Detail {
    if d in view then
      Detail(NewTotal(work, view[d]), NewStatus(work, view[d], fee),
             NewItems(work, true, row.items), NewSwifts(work, row.swifts))
    else row.(items := NewItems(work, false, row.items))
  }

  ghost function Commit(work: Work, view: Database, db: Database, fee: nat): Database {
    map d | d in db :: Written(work, view, d, db[d], fee)
  }

  // ---------- transactions step by step ----------

  datatype Phase =
    | Begun
    | Locking(wanted: seq<DetailId>)
    | Reading(view: Database)

  datatype Tx = Tx(work: Work, held: set<DetailId>, phase: Phase)
  {
    predicate Waits() {
      phase.Locking? && phase.wanted != []
    }
  }

  datatype State = State(db: Database, txs: map<TxId, Tx>, fee: nat)

  datatype Event =
    | Begin(t: TxId, work: Work)
    | Locate(t: TxId, wanted: seq<DetailId>)
    | Lock(t: TxId)
    | Read(t: TxId)
    | Finish(t: TxId)
    | Abort(t: TxId)

  ghost predicate Ascending(wanted: seq<DetailId>) {
    forall i, j | 0 <= i < j < |wanted| :: wanted[i] < wanted[j]
  }

  ghost predicate Locked(s: State, d: DetailId) {
    exists t :: t in s.txs && d in s.txs[t].held
  }

  function Rows(db: Database, keys: set<DetailId>): Database {
    map d | d in keys && d in db :: db[d]
  }

  ghost predicate Enabled(s: State, e: Event) {
    match e
    case Begin(t, _) => t !in s.txs
    case Locate(t, wanted) =>
      && t in s.txs && s.txs[t].phase == Begun && Ascending(wanted)
      && forall d :: d in wanted <==> d in s.db && Concerns(s.txs[t].work, d, s.db[d])
    case Lock(t) => t in s.txs && s.txs[t].Waits() && !Locked(s, s.txs[t].phase.wanted[0])
    case Read(t) => t in s.txs && s.txs[t].phase == Locking([])
    case Finish(t) => t in s.txs && s.txs[t].phase.Reading? && Allowed(s.txs[t].work, s.txs[t].phase.view)
    case Abort(t) => t in s.txs
  }

  ghost function After(s: State, e: Event): State
    requires Enabled(s, e)
  {
    match e
    case Begin(t, work) => s.(txs := s.txs[t := Tx(work, {}, Begun)])
    case Locate(t, wanted) => s.(txs := s.txs[t := s.txs[t].(phase := Locking(wanted))])
    case Lock(t) =>
      var tx := s.txs[t];
      s.(txs := s.txs[t := Tx(tx.work, tx.held + {tx.phase.wanted[0]}, Locking(tx.phase.wanted[1..]))])
    case Read(t) =>
      var tx := s.txs[t];
      s.(txs := s.txs[t := tx.(phase := Reading(Rows(s.db, tx.held)))])
    case Finish(t) =>
      var tx := s.txs[t];
      s.(db := Commit(tx.work, tx.phase.view, s.db, s.fee), txs := s.txs - {t})
    case Abort(t) => s.(txs := s.txs - {t})
  }

  // ---------- the invariant ----------

  /** What the lock protects: a detail's total, status and SWIFTs as they were read. */
  ghost predicate UpToDate(seen: Detail, row: Detail) {
    seen.total == row.total && seen.status == row.status && seen.swifts == row.swifts
  }

  ghost predicate Current(tx: Tx, db: Database) {
    tx.phase.Reading? ==>
      && tx.phase.view.Keys <= tx.held
      && forall d | d in tx.phase.view :: d in db && UpToDate(tx.phase.view[d], db[d])
  }

  ghost predicate Exclusive(s: State) {
    forall t, u | t in s.txs && u in s.txs && t != u :: s.txs[t].held !! s.txs[u].held
  }

  /** The SWIFTs that count are positive and do not exceed the total. */
  ghost predicate Capped(row: Detail) {
    && (forall x | x in row.swifts && row.swifts[x].Counts() :: 0 < row.swifts[x].amount)
    && Transferred(row.swifts) <= row.total
  }

  /** A detail with SWIFTs has the status its summary gives. */
  ghost predicate Coherent(row: Detail, fee: nat) {
    row.swifts != map[] ==> row.status == SummaryStatus(row.total, row.swifts, fee)
  }

  ghost predicate Safe(s: State) {
    && Exclusive(s)
    && (forall t | t in s.txs :: Current(s.txs[t], s.db))
    && forall d | d in s.db :: Capped(s.db[d]) && Coherent(s.db[d], s.fee)
  }

  lemma NewSwiftsPositive(work: Work, seen: Detail)
    requires Accepts(work, seen) && Capped(seen)
    ensures var swifts := NewSwifts(work, seen.swifts);
            forall x | x in swifts && swifts[x].Counts() :: 0 < swifts[x].amount
  {
  }

  lemma NewSwiftsCapped(work: Work, seen: Detail)
    requires Accepts(work, seen) && Capped(seen)
    ensures Transferred(NewSwifts(work, seen.swifts)) <= NewTotal(work, seen)
  {
    var swifts := seen.swifts;
    match work {
      case CreateSwift(_, s, amount) =>
        TransferredSet(swifts, s, Swift(amount, BankTransfer, false));
        assert s !in swifts;
      case UpdateSwift(s, amount) =>
        TransferredSet(swifts, s, Swift(amount, BankTransfer, false));
      case ReceiveSwift(s) =>
        TransferredSet(swifts, s, swifts[s].(status := Received));
        TransferredWithout(swifts, s);
      case DeleteSwift(s) =>
        TransferredWithout(swifts, s);
      case _ =>
    }
  }

  /** A commit keeps the cap and the status of every detail it has read. */
  lemma WrittenSafe(work: Work, view: Database, d: DetailId, row: Detail, fee: nat)
    requires Allowed(work, view) && Capped(row) && Coherent(row, fee)
    requires d in view ==> UpToDate(view[d], row)
    ensures Capped(Written(work, view, d, row, fee)) && Coherent(Written(work, view, d, row, fee), fee)
  {
    if d in view {
      assert Capped(view[d]);
      NewSwiftsPositive(work, view[d]);
      NewSwiftsCapped(work, view[d]);
    }
  }

  lemma FinishSafe(s: State, t: TxId)
    requires Safe(s) && Enabled(s, Finish(t))
    ensures Safe(After(s, Finish(t)))
  {
    var tx, s' := s.txs[t], After(s, Finish(t));
    var work, view := tx.work, tx.phase.view;
    assert Current(tx, s.db);
    forall d | d in s'.db
      ensures Capped(s'.db[d]) && Coherent(s'.db[d], s.fee)
    {
      WrittenSafe(work, view, d, s.db[d], s.fee);
    }
    forall u | u in s'.txs
      ensures Current(s'.txs[u], s'.db)
    {
      assert s'.txs[u] == s.txs[u] && u != t && Current(s.txs[u], s.db);
      assert s.txs[u].held !! tx.held;
    }
  }

  lemma ReadSafe(s: State, t: TxId)
    requires Safe(s) && Enabled(s, Read(t))
    ensures Safe(After(s, Read(t)))
  {
    var s' := After(s, Read(t));
    forall u | u in s'.txs
      ensures Current(s'.txs[u], s'.db)
    {
      assert u != t ==> s'.txs[u] == s.txs[u] && Current(s.txs[u], s.db);
    }
  }

  lemma LockSafe(s: State, t: TxId)
    requires Safe(s) && Enabled(s, Lock(t))
    ensures Safe(After(s, Lock(t)))
  {
    var s' := After(s, Lock(t));
    forall u | u in s'.txs
      ensures Current(s'.txs[u], s'.db)
    {
      assert u != t ==> s'.txs[u] == s.txs[u] && Current(s.txs[u], s.db);
    }
  }

  lemma QuietSafe(s: State, e: Event)
    requires Safe(s) && Enabled(s, e) && (e.Begin? || e.Locate? || e.Abort?)
    ensures Safe(After(s, e))
  {
    var s' := After(s, e);
    forall u | u in s'.txs
      ensures Current(s'.txs[u], s'.db)
    {
      assert u in s.txs && u != e.t ==> s'.txs[u] == s.txs[u] && Current(s.txs[u], s.db);
    }
  }

  /** Every step of every transaction keeps the invariant. */
  lemma StepSafe(s: State, e: Event)
    requires Safe(s) && Enabled(s, e)
    ensures Safe(After(s, e))
  {
    match e {
      case Lock(t) => LockSafe(s, t);
      case Read(t) => ReadSafe(s, t);
      case Finish(t) => FinishSafe(s, t);
      case _ => QuietSafe(s, e);
    }
  }

  // ---------- over every interleaving ----------

  ghost predicate Run(states: seq<State>, events: seq<Event>) {
    && |states| == |events| + 1
    && forall i | 0 <= i < |events| :: Enabled(states[i], events[i]) && states[i + 1] == After(states[i], events[i])
  }

  ghost predicate Initial(s: State) {
    s.txs == map[] && forall d | d in s.db :: Capped(s.db[d]) && Coherent(s.db[d], s.fee)
  }

  lemma {:induction false} RunSafe(states: seq<State>, events: seq<Event>, k: nat)
    requires Run(states, events) && Initial(states[0]) && k < |states|
    ensures Safe(states[k])
  {
    if k > 0 {
      RunSafe(states, events, k - 1);
      StepSafe(states[k - 1], events[k - 1]);
    }
  }

  /** Whatever the interleaving, the SWIFTs of a detail never exceed its total,
      and its status is the one its SWIFTs call for. */
  lemma NeverOverpaid(states: seq<State>, events: seq<Event>, k: nat, d: DetailId)
    requires Run(states, events) && Initial(states[0]) && k < |states| && d in states[k].db
    ensures Transferred(states[k].db[d].swifts) <= states[k].db[d].total
    ensures states[k].db[d].swifts != map[] ==>
              && states[k].db[d].status != Faulty
              && states[k].db[d].status == SummaryStatus(states[k].db[d].total, states[k].db[d].swifts, states[k].fee)
  {
    RunSafe(states, events, k);
  }

  lemma SomeTransferred(swifts: map<SwiftId, Swift>, x: SwiftId)
    requires forall y | y in swifts && swifts[y].Counts() :: 0 < swifts[y].amount
    requires x in swifts && swifts[x].Counts()
    ensures 0 < Transferred(swifts)
  {
    SumNonNegative(Counted(swifts - {x}));
    TransferredWithout(swifts, x);
  }

  /** What the status of a detail with SWIFTs says at any moment of any run: it waits
      while more than a fee a counted SWIFT is open, or none counts; then it is being
      transferred while one of these is under way, and received when all are. */
  lemma StatusMeans(states: seq<State>, events: seq<Event>, k: nat, d: DetailId)
    requires Run(states, events) && Initial(states[0]) && k < |states| && d in states[k].db
    requires states[k].db[d].swifts != map[]
    ensures var row, n := states[k].db[d], |Valid(states[k].db[d].swifts)|;
            var covered := 0 < n && row.total - Transferred(row.swifts) <= states[k].fee * n;
            && (row.status == WaitingSwift <==> !covered)
            && (row.status == Transferring <==>
                  && covered
                  && exists x | x in row.swifts && row.swifts[x].Counts() :: row.swifts[x].status == BankTransfer)
            && (row.status == AllReceived <==>
                  covered && forall x | x in row.swifts && row.swifts[x].Counts() :: row.swifts[x].status == Received)
  {
    RunSafe(states, events, k);
    var swifts := states[k].db[d].swifts;
    assert Capped(states[k].db[d]) && Coherent(states[k].db[d], states[k].fee);
    if x :| x in Valid(swifts) {
      SomeTransferred(swifts, x);
    }
  }

  /** What a transaction locks, told by its work. */
  lemma LocatesExactly(s: State, t: TxId, wanted: seq<DetailId>)
    requires Enabled(s, Locate(t, wanted))
    ensures match s.txs[t].work
            case CreateSwift(x, _, _) => forall d :: d in wanted <==> d in s.db && d == x
            case EditDetail(x, _) => forall d :: d in wanted <==> d in s.db && d == x
            case UpdateSwift(x, _) => forall d :: d in wanted <==> d in s.db && x in s.db[d].swifts
            case ReceiveSwift(x) => forall d :: d in wanted <==> d in s.db && x in s.db[d].swifts
            case DeleteSwift(x) => forall d :: d in wanted <==> d in s.db && x in s.db[d].swifts
            case DeleteReceipt(r) =>
              forall d :: d in wanted <==>
                d in s.db && exists i | i in s.db[d].items :: s.db[d].items[i].receipt == Some(r)
  {
    if s.txs[t].work.DeleteReceipt? {
      var r := s.txs[t].work.receipt;
      forall d | d in s.db
        ensures Of(s.db[d].items, r) != map[] <==> exists i | i in s.db[d].items :: s.db[d].items[i].receipt == Some(r)
      {
        HasItems(s.db[d].items, r);
      }
    }
  }

  lemma HasItems(items: map<ItemId, Item>, r: ReceiptId)
    ensures Of(items, r) != map[] <==> exists i | i in items :: items[i].receipt == Some(r)
  {
    if i :| i in items && items[i].receipt == Some(r) {
      assert i in Of(items, r);
    }
    if Of(items, r) != map[] {
      var i :| i in Of(items, r);
      assert items[i].receipt == Some(r);
    }
  }

  // ---------- what a commit changes ----------

  function Paid(swift: Swift): int {
    if swift.Counts() then swift.amount else 0
  }

  /** Only the given SWIFTs of one detail are new; every other SWIFT is what it was. */
  ghost predicate SwiftsBecome(s: State, s': State, d: DetailId, swifts: map<SwiftId, Swift>) {
    && s'.db.Keys == s.db.Keys && d in s.db
    && s'.db[d].swifts == swifts && s'.db[d].total == s.db[d].total && s'.db[d].items == s.db[d].items
    && forall e | e in s.db && e != d :: s'.db[e] == s.db[e]
  }

  /** The transaction has read the detail, and only this one. */
  ghost predicate Reads(s: State, t: TxId, d: DetailId) {
    t in s.txs && s.txs[t].phase.Reading? && s.txs[t].phase.view.Keys == {d}
  }

  /** What was read is what is still there. */
  lemma ReadIsCurrent(s: State, t: TxId, d: DetailId)
    requires Safe(s) && Reads(s, t, d)
    ensures d in s.db && d in s.txs[t].phase.view && UpToDate(s.txs[t].phase.view[d], s.db[d])
  {
    assert Current(s.txs[t], s.db);
    assert d in s.txs[t].phase.view.Keys;
  }

  /** The work on a SWIFT leaves all other details and the money owed alone. */
  lemma OthersUntouched(s: State, t: TxId, d: DetailId)
    requires Safe(s) && Enabled(s, Finish(t)) && Reads(s, t, d)
    requires !s.txs[t].work.EditDetail? && !s.txs[t].work.DeleteReceipt?
    ensures d in s.db
    ensures SwiftsBecome(s, After(s, Finish(t)), d, NewSwifts(s.txs[t].work, s.db[d].swifts))
  {
    ReadIsCurrent(s, t, d);
    assert forall e :: e in s.txs[t].phase.view <==> e == d;
  }

  /** A create goes through exactly when the id is new, the detail is still open
      and the positive amount fits into what is left of its total. */
  lemma CreateGoesThroughExactly(s: State, t: TxId, d: DetailId, x: SwiftId, amount: int)
    requires Safe(s) && Reads(s, t, d) && s.txs[t].work == CreateSwift(d, x, amount)
    ensures d in s.db
    ensures Enabled(s, Finish(t)) <==>
              && x !in s.db[d].swifts && s.db[d].status != AllReceived
              && 0 < amount <= s.db[d].total - Transferred(s.db[d].swifts)
  {
    ReadIsCurrent(s, t, d);
  }

  /** Then the SWIFT is there with its amount, and the detail's sum rises by it. */
  lemma CreateEffect(s: State, t: TxId, d: DetailId, x: SwiftId, amount: int)
    requires Safe(s) && Enabled(s, Finish(t)) && s.txs[t].work == CreateSwift(d, x, amount)
    ensures var s' := After(s, Finish(t));
            && d in s.db && x !in s.db[d].swifts
            && SwiftsBecome(s, s', d, s.db[d].swifts[x := Swift(amount, BankTransfer, false)])
            && Transferred(s'.db[d].swifts) == Transferred(s.db[d].swifts) + amount
  {
    OthersUntouched(s, t, d);
    CreateGoesThroughExactly(s, t, d, x, amount);
    TransferredSet(s.db[d].swifts, x, Swift(amount, BankTransfer, false));
  }

  /** An update goes through exactly for a SWIFT that is not received, in a detail
      still open, with a positive amount that fits besides the others. */
  lemma UpdateGoesThroughExactly(s: State, t: TxId, d: DetailId, x: SwiftId, amount: int)
    requires Safe(s) && Reads(s, t, d) && s.txs[t].work == UpdateSwift(x, amount)
    ensures d in s.db
    ensures Enabled(s, Finish(t)) <==>
              && x in s.db[d].swifts && s.db[d].swifts[x].status != Received && s.db[d].status != AllReceived
              && 0 < amount <= s.db[d].total - Transferred(s.db[d].swifts - {x})
  {
    ReadIsCurrent(s, t, d);
  }

  /** Then it has the new amount, an error is cleared, and the others still count. */
  lemma UpdateEffect(s: State, t: TxId, d: DetailId, x: SwiftId, amount: int)
    requires Safe(s) && Enabled(s, Finish(t)) && Reads(s, t, d) && s.txs[t].work == UpdateSwift(x, amount)
    ensures var s' := After(s, Finish(t));
            && d in s.db && x in s.db[d].swifts
            && SwiftsBecome(s, s', d, s.db[d].swifts[x := Swift(amount, BankTransfer, false)])
            && Transferred(s'.db[d].swifts) == Transferred(s.db[d].swifts - {x}) + amount
            && Transferred(s'.db[d].swifts) == Transferred(s.db[d].swifts) - Paid(s.db[d].swifts[x]) + amount
  {
    OthersUntouched(s, t, d);
    UpdateGoesThroughExactly(s, t, d, x, amount);
    TransferredSet(s.db[d].swifts, x, Swift(amount, BankTransfer, false));
    TransferredWithout(s.db[d].swifts, x);
  }

  /** A SWIFT can be received exactly while it is transferred without an error;
      then only its status changes. */
  lemma ReceiveEffect(s: State, t: TxId, d: DetailId, x: SwiftId)
    requires Safe(s) && Reads(s, t, d) && s.txs[t].work == ReceiveSwift(x)
    ensures d in s.db
    ensures Enabled(s, Finish(t)) <==>
              x in s.db[d].swifts && s.db[d].swifts[x].status == BankTransfer && !s.db[d].swifts[x].hasError
    ensures Enabled(s, Finish(t)) ==>
              var s' := After(s, Finish(t));
              && SwiftsBecome(s, s', d, s.db[d].swifts[x := s.db[d].swifts[x].(status := Received)])
              && Transferred(s'.db[d].swifts) == Transferred(s.db[d].swifts)
  {
    ReadIsCurrent(s, t, d);
    if Enabled(s, Finish(t)) {
      OthersUntouched(s, t, d);
      TransferredSet(s.db[d].swifts, x, s.db[d].swifts[x].(status := Received));
      TransferredWithout(s.db[d].swifts, x);
    }
  }

  /** A deletion removes exactly its SWIFT, and what it counted for. */
  lemma DeleteEffect(s: State, t: TxId, d: DetailId, x: SwiftId)
    requires Safe(s) && Reads(s, t, d) && s.txs[t].work == DeleteSwift(x)
    ensures d in s.db && (Enabled(s, Finish(t)) <==> x in s.db[d].swifts)
    ensures Enabled(s, Finish(t)) ==>
              var s' := After(s, Finish(t));
              && SwiftsBecome(s, s', d, s.db[d].swifts - {x})
              && Transferred(s'.db[d].swifts) == Transferred(s.db[d].swifts) - Paid(s.db[d].swifts[x])
  {
    ReadIsCurrent(s, t, d);
    if Enabled(s, Finish(t)) {
      OthersUntouched(s, t, d);
      TransferredWithout(s.db[d].swifts, x);
    }
  }

  /** An edit goes through exactly when its items cover what is transferred and the
      detail is still open; then they are the items, and their sum is the total. */
  lemma EditEffect(s: State, t: TxId, d: DetailId, items: map<ItemId, Item>)
    requires Safe(s) && Reads(s, t, d) && s.txs[t].work == EditDetail(d, items)
    ensures d in s.db
    ensures Enabled(s, Finish(t)) <==> s.db[d].status != AllReceived && Transferred(s.db[d].swifts) <= TotalOf(items)
    ensures Enabled(s, Finish(t)) ==>
              var db' := After(s, Finish(t)).db;
              && db'.Keys == s.db.Keys
              && db'[d].items == items && db'[d].total == TotalOf(items) && db'[d].swifts == s.db[d].swifts
              && forall e | e in s.db && e != d :: db'[e] == s.db[e]
  {
    ReadIsCurrent(s, t, d);
  }

  /** The deletion of a receipt goes through exactly when what is left covers what
      is transferred, in each detail it has read.  Its items are gone everywhere;
      the details it has read have the sum of the items they had then, less these. */
  lemma ReceiptDeletionEffect(s: State, t: TxId, r: ReceiptId)
    requires Safe(s) && t in s.txs && s.txs[t].phase.Reading? && s.txs[t].work == DeleteReceipt(r)
    ensures var view := s.txs[t].phase.view;
            Enabled(s, Finish(t)) <==>
              forall d | d in view :: d in s.db && Transferred(s.db[d].swifts) <= TotalOf(Without(view[d].items, r))
    ensures Enabled(s, Finish(t)) ==>
              var view, db' := s.txs[t].phase.view, After(s, Finish(t)).db;
              && db'.Keys == s.db.Keys
              && (forall d | d in s.db :: db'[d].swifts == s.db[d].swifts)
              && (forall d, i | d in s.db ::
                    i in db'[d].items <==> i in s.db[d].items && s.db[d].items[i].receipt != Some(r))
              && (forall d, i | d in s.db && i in db'[d].items :: db'[d].items[i] == s.db[d].items[i])
              && forall d | d in s.db ::
                   db'[d].total == if d in view then TotalOf(Without(view[d].items, r)) else s.db[d].total
  {
    assert Current(s.txs[t], s.db);
  }

  /** By how much an event changes what is transferred for a detail. */
  ghost function Change(s: State, e: Event, d: DetailId): int
    requires d in s.db
  {
    if !e.Finish? || e.t !in s.txs || !Reads(s, e.t, d) then 0
    else
      match s.txs[e.t].work
      case CreateSwift(_, _, amount) => amount
      case UpdateSwift(x, amount) => amount - if x in s.db[d].swifts then Paid(s.db[d].swifts[x]) else 0
      case DeleteSwift(x) => if x in s.db[d].swifts then -Paid(s.db[d].swifts[x]) else 0
      case _ => 0
  }

  /** A commit of work on a SWIFT has read exactly one detail. */
  lemma ReadsOne(s: State, t: TxId) returns (d: DetailId)
    requires Enabled(s, Finish(t)) && !s.txs[t].work.DeleteReceipt?
    ensures Reads(s, t, d)
    ensures s.txs[t].work.CreateSwift? || s.txs[t].work.EditDetail? ==> d == s.txs[t].work.detail
  {
    d :| s.txs[t].phase.view.Keys == {d};
    assert d in s.txs[t].phase.view.Keys;
  }

  /** The detail that was read changes by what the work says. */
  lemma ReadChanges(s: State, t: TxId, d: DetailId)
    requires Safe(s) && Enabled(s, Finish(t)) && Reads(s, t, d) && !s.txs[t].work.DeleteReceipt?
    requires s.txs[t].work.CreateSwift? || s.txs[t].work.EditDetail? ==> d == s.txs[t].work.detail
    ensures d in s.db && d in After(s, Finish(t)).db
    ensures Transferred(After(s, Finish(t)).db[d].swifts) == Transferred(s.db[d].swifts) + Change(s, Finish(t), d)
  {
    match s.txs[t].work {
      case CreateSwift(_, x, amount) => CreateEffect(s, t, d, x, amount);
      case UpdateSwift(x, amount) => UpdateEffect(s, t, d, x, amount);
      case ReceiveSwift(x) => ReceiveEffect(s, t, d, x);
      case DeleteSwift(x) => DeleteEffect(s, t, d, x);
      case EditDetail(_, items) => EditEffect(s, t, d, items);
    }
  }

  /** A detail that was not read keeps its SWIFTs. */
  lemma UnreadKeeps(s: State, t: TxId, d: DetailId)
    requires Enabled(s, Finish(t)) && d in s.db && d !in s.txs[t].phase.view
    ensures d in After(s, Finish(t)).db && After(s, Finish(t)).db[d].swifts == s.db[d].swifts
  {
  }

  lemma CommitChanges(s: State, t: TxId, d: DetailId)
    requires Safe(s) && Enabled(s, Finish(t)) && d in s.db
    ensures d in After(s, Finish(t)).db
    ensures Transferred(After(s, Finish(t)).db[d].swifts) == Transferred(s.db[d].swifts) + Change(s, Finish(t), d)
  {
    if s.txs[t].work.DeleteReceipt? {
      ReceiptDeletionEffect(s, t, s.txs[t].work.receipt);
    } else {
      var read := ReadsOne(s, t);
      if d == read {
        ReadChanges(s, t, d);
      } else {
        assert s.txs[t].phase.view.Keys == {read};
        UnreadKeeps(s, t, d);
      }
    }
  }

  ghost function Changes(states: seq<State>, events: seq<Event>, k: nat, d: DetailId): int
    requires Run(states, events) && k < |states|
  {
    if k == 0 then 0
    else
      Changes(states, events, k - 1, d) +
      if d in states[k - 1].db then Change(states[k - 1], events[k - 1], d) else 0
  }

  /** Over any interleaving: what is transferred for a detail is what was at the
      start and the changes of all commits. */
  lemma {:induction false} TransferredIsAllChanges(states: seq<State>, events: seq<Event>, k: nat, d: DetailId)
    requires Run(states, events) && Initial(states[0]) && k < |states| && d in states[0].db
    ensures d in states[k].db
    ensures Transferred(states[k].db[d].swifts) == Transferred(states[0].db[d].swifts) + Changes(states, events, k, d)
  {
    if k > 0 {
      TransferredIsAllChanges(states, events, k - 1, d);
      RunSafe(states, events, k - 1);
      if events[k - 1].Finish? {
        CommitChanges(states[k - 1], events[k - 1].t, d);
      }
    }
  }

  // ---------- the total and the items ----------

  ghost predicate Balanced(db: Database) {
    forall d | d in db :: db[d].total == TotalOf(db[d].items)
  }

  ghost predicate ItemsCurrent(s: State) {
    forall t, d | t in s.txs && s.txs[t].phase.Reading? && d in s.txs[t].phase.view ::
      d in s.db && s.txs[t].phase.view[d].items == s.db[d].items
  }

  /** The deletion of a receipt removes no item outside the details it has locked:
      none was added there since it looked for them. */
  ghost predicate MissesNothing(s: State, e: Event) {
    e.Finish? && e.t in s.txs && s.txs[e.t].work.DeleteReceipt? && s.txs[e.t].phase.Reading? ==>
      forall d | d in s.db && d !in s.txs[e.t].phase.view :: Of(s.db[d].items, s.txs[e.t].work.receipt) == map[]
  }

  lemma NothingToRemove(items: map<ItemId, Item>, r: ReceiptId)
    requires Of(items, r) == map[]
    ensures Without(items, r) == items
  {
    forall i | i in items
      ensures items[i].receipt != Some(r)
    {
      assert i !in Of(items, r);
    }
  }

  lemma WrittenBalanced(work: Work, view: Database, d: DetailId, row: Detail, fee: nat)
    requires d in view && Allowed(work, view) && view[d].items == row.items && UpToDate(view[d], row)
    requires row.total == TotalOf(row.items)
    ensures Written(work, view, d, row, fee).total == TotalOf(Written(work, view, d, row, fee).items)
  {
  }

  lemma UnlockedItems(work: Work, view: Database, d: DetailId, row: Detail, fee: nat)
    requires d !in view && (work.DeleteReceipt? ==> Of(row.items, work.receipt) == map[])
    ensures Written(work, view, d, row, fee) == row
  {
    if work.DeleteReceipt? {
      NothingToRemove(row.items, work.receipt);
    }
  }

  lemma FinishBalanced(s: State, t: TxId)
    requires Safe(s) && Balanced(s.db) && ItemsCurrent(s) && Enabled(s, Finish(t)) && MissesNothing(s, Finish(t))
    ensures Balanced(After(s, Finish(t)).db) && ItemsCurrent(After(s, Finish(t)))
  {
    var tx, s' := s.txs[t], After(s, Finish(t));
    assert Current(tx, s.db);
    forall d | d in s.db
      ensures s'.db[d].total == TotalOf(s'.db[d].items)
      ensures d !in tx.phase.view ==> s'.db[d] == s.db[d]
    {
      if d in tx.phase.view {
        WrittenBalanced(tx.work, tx.phase.view, d, s.db[d], s.fee);
      } else {
        UnlockedItems(tx.work, tx.phase.view, d, s.db[d], s.fee);
      }
    }
    forall u, d | u in s'.txs && s'.txs[u].phase.Reading? && d in s'.txs[u].phase.view
      ensures d in s'.db && s'.txs[u].phase.view[d].items == s'.db[d].items
    {
      assert s'.txs[u] == s.txs[u] && u != t && Current(s.txs[u], s.db);
      assert s.txs[u].held !! tx.held;
    }
  }

  lemma StepBalanced(s: State, e: Event)
    requires Safe(s) && Balanced(s.db) && ItemsCurrent(s) && Enabled(s, e) && MissesNothing(s, e)
    ensures Balanced(After(s, e).db) && ItemsCurrent(After(s, e))
  {
    if e.Finish? {
      FinishBalanced(s, e.t);
    }
  }

  /** As long as no deletion misses an item, every total is the sum of its items. */
  lemma {:induction false} TotalIsSumOfItems(states: seq<State>, events: seq<Event>, k: nat)
    requires Run(states, events) && Initial(states[0]) && Balanced(states[0].db) && k < |states|
    requires forall i | 0 <= i < k :: MissesNothing(states[i], events[i])
    ensures Balanced(states[k].db) && ItemsCurrent(states[k])
  {
    if k > 0 {
      TotalIsSumOfItems(states, events, k - 1);
      RunSafe(states, events, k - 1);
      StepBalanced(states[k - 1], events[k - 1]);
    }
  }

  /** The exact condition for one commit: a deletion keeps the totals right just
      when what it removes from each detail it has not locked adds up to nothing. */
  lemma DeletionBalancedExactly(s: State, t: TxId)
    requires Safe(s) && Balanced(s.db) && ItemsCurrent(s) && Enabled(s, Finish(t)) && s.txs[t].work.DeleteReceipt?
    ensures Balanced(After(s, Finish(t)).db) <==>
            forall d | d in s.db && d !in s.txs[t].phase.view :: TotalOf(Of(s.db[d].items, s.txs[t].work.receipt)) == 0
  {
    var tx, s' := s.txs[t], After(s, Finish(t));
    assert Current(tx, s.db);
    forall d | d in s.db
      ensures s'.db[d].total == TotalOf(s'.db[d].items) <==>
              d in tx.phase.view || TotalOf(Of(s.db[d].items, tx.work.receipt)) == 0
    {
      if d in tx.phase.view {
        WrittenBalanced(tx.work, tx.phase.view, d, s.db[d], s.fee);
      } else {
        TotalSplits(s.db[d].items, tx.work.receipt);
      }
    }
  }

  // ---------- no deadlock ----------

  /** Locks are asked for in ascending order, beyond all that are held. */
  ghost predicate Ordered(s: State) {
    forall t | t in s.txs && s.txs[t].phase.Locking? ::
      && Ascending(s.txs[t].phase.wanted)
      && forall d, i | d in s.txs[t].held && 0 <= i < |s.txs[t].phase.wanted| :: d < s.txs[t].phase.wanted[i]
  }

  ghost predicate FreshStart(s: State) {
    forall t | t in s.txs && s.txs[t].phase == Begun :: s.txs[t].held == {}
  }

  lemma StepOrdered(s: State, e: Event)
    requires Ordered(s) && FreshStart(s) && Enabled(s, e)
    ensures Ordered(After(s, e)) && FreshStart(After(s, e))
  {
    if e.Lock? {
      var wanted := s.txs[e.t].phase.wanted;
      assert forall i | 0 <= i < |wanted| - 1 :: wanted[1..][i] == wanted[i + 1];
    }
  }

  lemma {:induction false} RunOrdered(states: seq<State>, events: seq<Event>, k: nat)
    requires Run(states, events) && Initial(states[0]) && k < |states|
    ensures Ordered(states[k]) && FreshStart(states[k])
  {
    if k > 0 {
      RunOrdered(states, events, k - 1);
      StepOrdered(states[k - 1], events[k - 1]);
    }
  }

  ghost predicate CanMove(s: State, t: TxId) {
    t in s.txs && (s.txs[t].Waits() ==> Enabled(s, Lock(t)))
  }

  /** Following the holder of the lock one waits for leads to ever later details. */
  lemma {:induction false} FollowHolders(s: State, t: TxId, rest: set<TxId>)
    requires Ordered(s) && t in s.txs && t in rest && rest <= s.txs.Keys
    requires forall u | u in s.txs && u !in rest :: s.txs[u].Waits() && s.txs[t].Waits() ==>
               s.txs[u].phase.wanted[0] < s.txs[t].phase.wanted[0]
    ensures exists mover :: CanMove(s, mover)
    decreases |rest|
  {
    if !CanMove(s, t) {
      var d := s.txs[t].phase.wanted[0];
      var u :| u in s.txs && d in s.txs[u].held;
      if !CanMove(s, u) {
        assert d < s.txs[u].phase.wanted[0];
        assert u in rest - {t};
        FollowHolders(s, u, rest - {t});
      }
    }
  }

  /** Some transaction can always go on: waiting for locks never closes a circle. */
  lemma NoDeadlock(states: seq<State>, events: seq<Event>, k: nat)
    requires Run(states, events) && Initial(states[0]) && k < |states| && states[k].txs != map[]
    ensures exists mover :: CanMove(states[k], mover)
  {
    RunOrdered(states, events, k);
    var t :| t in states[k].txs;
    FollowHolders(states[k], t, states[k].txs.Keys);
  }

  // ---------- a deletion that misses an item ----------

  const EMPTY := Detail(0, WaitingSwift, map[], map[])
  const ADDED: map<ItemId, Item> := map[0 := Item(Some(7), 5)]

  /** The deletion of receipt 7, before and after looking, and having locked nothing. */
  function Deletion(phase: Phase): Tx {
    Tx(DeleteReceipt(7), {}, phase)
  }

  function Edit(held: set<DetailId>, phase: Phase): Tx {
    Tx(EditDetail(1, ADDED), held, phase)
  }

  function Stage(k: nat): State {
    var before, after: Database := map[1 := EMPTY], map[1 := EMPTY.(total := 5, items := ADDED)];
    if k == 0 then State(before, map[], 40)
    else if k == 1 then State(before, map[0 := Deletion(Begun)], 40)
    else if k == 2 then State(before, map[0 := Deletion(Locking([]))], 40)
    else if k == 3 then State(before, map[0 := Deletion(Locking([])), 1 := Edit({}, Begun)], 40)
    else if k == 4 then State(before, map[0 := Deletion(Locking([])), 1 := Edit({}, Locking([1]))], 40)
    else if k == 5 then State(before, map[0 := Deletion(Locking([])), 1 := Edit({1}, Locking([]))], 40)
    else if k == 6 then State(before, map[0 := Deletion(Locking([])), 1 := Edit({1}, Reading(before))], 40)
    else if k == 7 then State(after, map[0 := Deletion(Locking([]))], 40)
    else if k == 8 then State(after, map[0 := Deletion(Reading(map[]))], 40)
    else State(map[1 := EMPTY.(total := 5)], map[], 40)
  }

  function Happens(k: nat): Event {
    if k == 0 then Begin(0, DeleteReceipt(7))
    else if k == 1 then Locate(0, [])
    else if k == 2 then Begin(1, EditDetail(1, ADDED))
    else if k == 3 then Locate(1, [1])
    else if k == 4 then Lock(1)
    else if k == 5 then Read(1)
    else if k == 6 then Finish(1)
    else if k == 7 then Read(0)
    else Finish(0)
  }

  ghost predicate Leads(k: nat) {
    Enabled(Stage(k), Happens(k)) && After(Stage(k), Happens(k)) == Stage(k + 1)
  }

  lemma DeletionLooks(k: nat)
    requires k < 2
    ensures Leads(k)
  {
    assert Of(EMPTY.items, 7) == map[];
  }

  lemma EditLocks(k: nat)
    requires 2 <= k < 5
    ensures Leads(k)
  {
    if k == 4 {
      var tx := Stage(4).txs[1];
      assert tx.phase.wanted[1..] == [] && tx.held + {1} == {1};
      assert !Locked(Stage(4), 1);
      assert After(Stage(4), Lock(1)).txs == Stage(5).txs;
    } else if k == 3 {
      assert After(Stage(3), Locate(1, [1])).txs == Stage(4).txs;
    } else {
      assert After(Stage(2), Begin(1, EditDetail(1, ADDED))).txs == Stage(3).txs;
    }
  }

  lemma EditReads()
    ensures Leads(5)
  {
    assert Rows(Stage(5).db, {1}) == Stage(5).db;
  }

  lemma EditIsAllowed()
    ensures Allowed(EditDetail(1, ADDED), Stage(6).txs[1].phase.view)
  {
    TotalOfOne(0, Item(Some(7), 5));
    NoSwifts();
  }

  lemma EditWrites()
    ensures Commit(EditDetail(1, ADDED), Stage(6).txs[1].phase.view, Stage(6).db, 40) == Stage(7).db
  {
    TotalOfOne(0, Item(Some(7), 5));
    NoSwifts();
  }

  lemma EditCommits()
    ensures Leads(6)
  {
    var view := Stage(6).txs[1].phase.view;
    EditIsAllowed();
    EditWrites();
    assert view.Keys == {1};
  }

  lemma DeletionCommits(k: nat)
    requires 7 <= k < 9
    ensures Leads(k)
  {
    if k == 7 {
      assert Rows(Stage(7).db, {}) == map[];
    } else {
      assert Allowed(DeleteReceipt(7), map[]);
      assert Without(ADDED, 7) == map[];
      assert Commit(DeleteReceipt(7), map[], Stage(8).db, 40) == Stage(9).db;
    }
  }

  lemma StageLeads(k: nat)
    requires k < 9
    ensures Leads(k)
  {
    if k < 2 { DeletionLooks(k); }
    else if k < 5 { EditLocks(k); }
    else if k == 5 { EditReads(); }
    else if k == 6 { EditCommits(); }
    else { DeletionCommits(k); }
  }

  /** A receipt's deletion looks for items and finds none; an edit then adds one;
      the deletion removes the item, but leaves the total. */
  lemma DeletionCanMiss()
    ensures exists states: seq<State>, events: seq<Event> ::
      && Run(states, events) && Initial(states[0]) && Balanced(states[0].db)
      && !Balanced(states[|states| - 1].db)
  {
    var states, events := seq(10, k requires 0 <= k => Stage(k)), seq(9, k requires 0 <= k => Happens(k));
    forall k | 0 <= k < |events|
      ensures Enabled(states[k], events[k]) && states[k + 1] == After(states[k], events[k])
    {
      StageLeads(k);
    }
    TotalOfOne(0, Item(Some(7), 5));
    NoSwifts();
    assert 1 in states[9].db;
    assert Run(states, events);
  }

  lemma TotalOfOne(i: ItemId, item: Item)
    ensures TotalOf(map[i := item]) == item.amount && TotalOf(map[]) == 0
  {
    var none: map<ItemId, int> := map[];
    SumSet(none, i, item.amount);
    assert Amounts(map[i := item]) == none[i := item.amount];
    assert Amounts(map[]) == none;
  }

  lemma NoSwifts()
    ensures Transferred(map[]) == 0
  {
    assert Counted(map[]) == map[];
  }
}
