/**
 The orders and receipts the customer rankings read, and the rule by which a
 receipt that turns up twice is looked at once.
 */
module CustomerOrders {
  import opened Basics
  import opened PaymentTimeline

  type CustomerId = nat
  type OrderId = nat
  type ReceiptId = nat

  /** An amount that is no finite number is handled like zero. */
  datatype Receipt = Receipt(id: ReceiptId, usd: int, pending: bool, date: Option<Instant>, createdAt: Instant)
  {
    function EffectiveDate(): Instant {
      if date.Some? then date.value else createdAt
    }

    /** Counts as money received by `asOf`. */
    predicate Usable(asOf: Instant) {
      !pending && 0 < usd && EffectiveDate() <= asOf
    }
  }

  /** `normal` is false for the two system pools. */
  datatype Order = Order(
    id: OrderId,
    normal: bool,
    customer: Option<CustomerId>,
    amount: int,
    releaseDate: Option<Instant>,
    receipts: seq<Receipt>)

  /** Receipts with an id in neither `seen` nor an earlier place. */
  function FirstSightings(receipts: seq<Receipt>, seen: set<ReceiptId>): (r: seq<Receipt>)
    ensures forall i | 0 <= i < |r| :: r[i].id !in seen
    ensures forall i, j | 0 <= i < j < |r| :: r[i].id != r[j].id
  {
    if receipts == [] then []
    else
      var rest := FirstSightings(receipts[1..], seen + {receipts[0].id});
      if receipts[0].id in seen then rest else [receipts[0]] + rest
  }

  function Sighted(receipts: seq<Receipt>): (ids: set<ReceiptId>)
    ensures forall i | 0 <= i < |receipts| :: receipts[i].id in ids
  {
    if receipts == [] then {} else {receipts[0].id} + Sighted(receipts[1..])
  }

  ghost predicate FirstAt(receipts: seq<Receipt>, seen: set<ReceiptId>, k: nat) {
    k < |receipts| && receipts[k].id !in seen && forall j | 0 <= j < k :: receipts[j].id != receipts[k].id
  }

  /** A receipt is among the sightings just when it is the first with its id. */
  lemma {:induction false} SightedWhenFirst(receipts: seq<Receipt>, seen: set<ReceiptId>, r: Receipt)
    ensures r in FirstSightings(receipts, seen) <==> exists k: nat :: FirstAt(receipts, seen, k) && receipts[k] == r
  {
    if receipts != [] {
      var rest, seen' := receipts[1..], seen + {receipts[0].id};
      SightedWhenFirst(rest, seen', r);
      if k: nat :| FirstAt(rest, seen', k) && rest[k] == r {
        assert forall j | 0 <= j < k + 1 :: j == 0 || receipts[j] == rest[j - 1];
        assert FirstAt(receipts, seen, k + 1) && receipts[k + 1] == r;
      }
      if receipts[0].id !in seen {
        assert FirstAt(receipts, seen, 0);
      }
      if k: nat :| k > 0 && FirstAt(receipts, seen, k) && receipts[k] == r {
        assert receipts[0].id != receipts[k].id;
        assert forall j | 0 <= j < k - 1 :: rest[j] == receipts[j + 1];
        assert FirstAt(rest, seen', k - 1);
      }
    }
  }

  lemma {:induction false} SightingsSighted(receipts: seq<Receipt>, seen: set<ReceiptId>)
    ensures forall i | 0 <= i < |FirstSightings(receipts, seen)| ::
              FirstSightings(receipts, seen)[i].id in Sighted(receipts)
  {
    if receipts != [] {
      SightingsSighted(receipts[1..], seen + {receipts[0].id});
    }
  }
}
