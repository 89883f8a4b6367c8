/**
 Receipt numbers: seven digits or more, taken from a stored counter or asked for
 by hand. An error rolls the surrounding transaction back.
 */
module ReceiptNumbers {
  import opened Basics

  datatype Result<+T> = Ok(value: T) | BadRequest | Conflict | OutOfRange

  const RECEIPT_COUNTER_START := 10_000
  const MAX_ALLOCATION_ATTEMPTS := 100
  const MAX_SAFE_INTEGER := 9_007_199_254_740_991

  /** The counter is stored in a signed 32-bit column. */
  const MAX_STORED := 0x7FFF_FFFF

  // ---------- numbers and text ----------

  predicate IsDigit(c: char) {
    '0' <= c <= '9'
  }

  predicate AllDigits(s: string) {
    forall i | 0 <= i < |s| :: IsDigit(s[i])
  }

  function DigitOf(n: nat): (c: char)
    requires n < 10
    ensures IsDigit(c)
  {
    '0' + n as char
  }

  function Decimal(n: nat): (s: string)
    ensures s != [] && AllDigits(s)
  {
    (if n < 10 then [] else Decimal(n / 10)) + [DigitOf(n % 10)]
  }

  /** The number a text of digits denotes; leading zeros do not matter. */
  function ValueOf(s: string): nat
    requires AllDigits(s)
  {
    if s == [] then 0 else 10 * ValueOf(s[..|s| - 1]) + (s[|s| - 1] - '0') as nat
  }

  function Zeros(n: nat): (s: string)
    ensures |s| == n && AllDigits(s)
  {
    if n == 0 then [] else Zeros(n - 1) + ['0']
  }

  function PadStart(digits: string, width: nat): (s: string)
    requires AllDigits(digits)
    ensures AllDigits(s) && |s| >= |digits|
  {
    Zeros(Max(0, width - |digits|)) + digits
  }

  function FormatReceiptNo(counter: nat): (s: string)
    ensures s != [] && AllDigits(s)
  {
    PadStart(Decimal(counter), 7)
  }

  function ParseReceiptCounter(text: string): Option<nat> {
    var normalized := Trim(text);
    if normalized == [] || !AllDigits(normalized) then None
    else
      var counter := ValueOf(normalized);
      if 0 < counter <= MAX_SAFE_INTEGER then Some(counter) else None
  }

  lemma {:induction false} ValueOfDecimal(n: nat)
    ensures ValueOf(Decimal(n)) == n
  {
    var s := Decimal(n);
    if n < 10 {
      assert s[..0] == [];
    } else {
      ValueOfDecimal(n / 10);
      assert s[..|s| - 1] == Decimal(n / 10);
    }
  }

  lemma {:induction false} ValueOfZeros(n: nat)
    ensures ValueOf(Zeros(n)) == 0
  {
    if n > 0 {
      ValueOfZeros(n - 1);
      assert Zeros(n)[..n - 1] == Zeros(n - 1);
    }
  }

  lemma {:induction false} ValueOfPadded(zeros: nat, s: string)
    requires AllDigits(s)
    ensures ValueOf(Zeros(zeros) + s) == ValueOf(s)
  {
    if s == [] {
      ValueOfZeros(zeros);
      assert Zeros(zeros) + s == Zeros(zeros);
    } else {
      ValueOfPadded(zeros, s[..|s| - 1]);
      assert (Zeros(zeros) + s)[..zeros + |s| - 1] == Zeros(zeros) + s[..|s| - 1];
    }
  }

  lemma ValueOfPadStart(digits: string, width: nat)
    requires AllDigits(digits)
    ensures ValueOf(PadStart(digits, width)) == ValueOf(digits)
  {
    ValueOfPadded(Max(0, width - |digits|), digits);
  }

  lemma ValueOfFormat(counter: nat)
    ensures ValueOf(FormatReceiptNo(counter)) == counter
  {
    ValueOfDecimal(counter);
    ValueOfPadStart(Decimal(counter), 7);
  }

  function Power10(k: nat): nat {
    if k == 0 then 1 else 10 * Power10(k - 1)
  }

  lemma {:induction false} DecimalLength(n: nat, k: nat)
    requires 0 < k && n < Power10(k)
    ensures |Decimal(n)| <= k
    decreases k
  {
    if n >= 10 {
      assert k > 1;
      DecimalLength(n / 10, k - 1);
    }
  }

  /** A formatted counter has seven digits as long as it fits into seven. */
  lemma FormatHasSevenDigits(counter: nat)
    requires counter < 10_000_000
    ensures |FormatReceiptNo(counter)| == 7 && AllDigits(FormatReceiptNo(counter))
    ensures ValueOf(FormatReceiptNo(counter)) == counter
  {
    assert Power10(7) == 10_000_000;
    DecimalLength(counter, 7);
    ValueOfFormat(counter);
  }

  lemma TrimDigits(s: string)
    requires s != [] && AllDigits(s)
    ensures Trim(s) == s
  {
    assert IsDigit(s[0]) && IsDigit(s[|s| - 1]);
  }

  /** Parsing a formatted counter gives the counter back. */
  lemma ParseOfFormat(counter: nat)
    ensures ParseReceiptCounter(FormatReceiptNo(counter)) ==
            if 0 < counter <= MAX_SAFE_INTEGER then Some(counter) else None
  {
    ValueOfFormat(counter);
    TrimDigits(FormatReceiptNo(counter));
  }

  /** Different counters have different numbers. */
  lemma FormatIsInjective(a: nat, b: nat)
    requires FormatReceiptNo(a) == FormatReceiptNo(b)
    ensures a == b
  {
    ValueOfFormat(a);
    ValueOfFormat(b);
  }

  // ---------- the first free number ----------

  /** The first of `attempts` counters from `next` on whose number is not taken. */
  function FirstFree(existing: set<string>, next: nat, attempts: nat): (r: Option<nat>)
    decreases attempts
  {
    if attempts == 0 then None
    else if FormatReceiptNo(next) !in existing then Some(next)
    else FirstFree(existing, next + 1, attempts - 1)
  }

  lemma FirstFreeStep(existing: set<string>, next: nat, attempts: nat)
    requires 0 < attempts
    ensures FirstFree(existing, next, attempts) ==
            if FormatReceiptNo(next) !in existing then Some(next) else FirstFree(existing, next + 1, attempts - 1)
  {
  }

  lemma {:induction false} FirstFreeExactly(existing: set<string>, next: nat, attempts: nat, n: nat)
    ensures FirstFree(existing, next, attempts) == Some(n) <==>
            && next <= n < next + attempts && FormatReceiptNo(n) !in existing
            && forall m | next <= m < n :: FormatReceiptNo(m) in existing
    decreases attempts
  {
    if attempts > 0 && FormatReceiptNo(next) in existing {
      FirstFreeExactly(existing, next + 1, attempts - 1, n);
    }
  }

  function Formatted(r: Result<nat>): Result<string> {
    match r
    case Ok(n) => Ok(FormatReceiptNo(n))
    case BadRequest => BadRequest
    case Conflict => Conflict
    case OutOfRange => OutOfRange
  }

  /** Trying counter by counter; a counter is reserved only if its successor fits
      the column. */
  function Reserved(existing: set<string>, next: nat, attempts: nat): Result<nat>
    decreases attempts
  {
    if attempts == 0 then Conflict
    else if next >= MAX_STORED then OutOfRange
    else if FormatReceiptNo(next) !in existing then Ok(next)
    else Reserved(existing, next + 1, attempts - 1)
  }

  lemma {:induction false} ReservedFrom(existing: set<string>, next: nat, attempts: nat)
    ensures Reserved(existing, next, attempts).Ok? ==>
              && Reserved(existing, next, attempts).value >= next
              && FormatReceiptNo(Reserved(existing, next, attempts).value) !in existing
    decreases attempts
  {
    if attempts > 0 {
      ReservedFrom(existing, next + 1, attempts - 1);
    }
  }

  /** Counter `n` can be given out, and no earlier one from `next` on has a free number. */
  ghost predicate LeastFree(existing: set<string>, next: nat, attempts: nat, n: nat) {
    && next <= n < next + attempts && n < MAX_STORED && FormatReceiptNo(n) !in existing
    && forall m | next <= m < n :: FormatReceiptNo(m) in existing
  }

  /** Some counter within the attempts and the column has a free number. */
  ghost predicate SomeFree(existing: set<string>, next: nat, attempts: nat) {
    exists n: nat | next <= n < next + attempts && n < MAX_STORED :: FormatReceiptNo(n) !in existing
  }

  /** Allocation gives out exactly the least free counter. */
  lemma {:induction false} ReservedExactly(existing: set<string>, next: nat, attempts: nat, n: nat)
    ensures Reserved(existing, next, attempts) == Ok(n) <==> LeastFree(existing, next, attempts, n)
    decreases attempts
  {
    if attempts > 0 && next < MAX_STORED && FormatReceiptNo(next) in existing {
      ReservedExactly(existing, next + 1, attempts - 1, n);
    }
  }

  /** It succeeds exactly when there is one; without one it runs out of attempts
      or of the column, whichever ends first. */
  lemma {:induction false} ReservedWhenFree(existing: set<string>, next: nat, attempts: nat)
    ensures Reserved(existing, next, attempts).Ok? <==> SomeFree(existing, next, attempts)
    ensures !SomeFree(existing, next, attempts) && 0 < attempts ==>
              Reserved(existing, next, attempts) == if next + attempts <= MAX_STORED then Conflict else OutOfRange
    decreases attempts
  {
    if attempts > 0 && next < MAX_STORED && FormatReceiptNo(next) in existing {
      ReservedWhenFree(existing, next + 1, attempts - 1);
      if SomeFree(existing, next, attempts) {
        var n: nat :| next <= n < next + attempts && n < MAX_STORED && FormatReceiptNo(n) !in existing;
        assert n != next;
      }
    }
  }

  lemma ReservedStep(existing: set<string>, next: nat, attempts: nat)
    requires 0 < attempts
    ensures Reserved(existing, next, attempts) ==
            if next >= MAX_STORED then OutOfRange
            else if FormatReceiptNo(next) !in existing then Ok(next)
            else Reserved(existing, next + 1, attempts - 1)
  {
  }

  function Suggested(existing: set<string>, next: nat): Result<nat> {
    match FirstFree(existing, next, MAX_ALLOCATION_ATTEMPTS)
    case Some(n) => Ok(n)
    case None => Conflict
  }

  lemma {:induction false} ReservedIsFirstFree(existing: set<string>, next: nat, attempts: nat)
    ensures Reserved(existing, next, attempts) ==
            match FirstFree(existing, next, attempts)
            case Some(n) => if n < MAX_STORED then Ok(n) else OutOfRange
            case None => if attempts == 0 || next + attempts <= MAX_STORED then Conflict else OutOfRange
    decreases attempts
  {
    if attempts > 0 {
      ReservedIsFirstFree(existing, next + 1, attempts - 1);
      FirstFreeFrom(existing, next + 1, attempts - 1);
    }
  }

  /** Both give out the same number, or both fail. */
  predicate Agree<T(==)>(a: Result<T>, b: Result<T>) {
    if a.Ok? then a == b else !b.Ok?
  }

  /** The suggestion is the number that allocation would give out from the same
      state, or both fail, exactly when the number suggested fits the column.  They
      also fail in the same way exactly when all attempts fit. */
  lemma SuggestionIsAllocation(existing: set<string>, next: nat)
    ensures var issued, suggested := Reserved(existing, next, MAX_ALLOCATION_ATTEMPTS), Suggested(existing, next);
            && (Agree(issued, suggested) <==> (suggested.Ok? ==> suggested.value < MAX_STORED))
            && (!suggested.Ok? ==> (issued == suggested <==> next + MAX_ALLOCATION_ATTEMPTS <= MAX_STORED))
  {
    ReservedIsFirstFree(existing, next, MAX_ALLOCATION_ATTEMPTS);
  }

  // ---------- the allocator ----------

  predicate Blank(requested: Option<string>) {
    requested == None || Trim(requested.value) == []
  }

  /** The text is a positive counter in digits that fits and has a free number. */
  predicate NamesFreeCounter(requested: string, existing: set<string>) {
    && Trim(requested) != [] && AllDigits(Trim(requested))
    && 0 < ValueOf(Trim(requested)) <= MAX_SAFE_INTEGER && ValueOf(Trim(requested)) < MAX_STORED
    && FormatReceiptNo(ValueOf(Trim(requested))) !in existing
  }

  lemma LeastIsReserved(existing: set<string>, next: nat)
    ensures var r := Formatted(Reserved(existing, next, MAX_ALLOCATION_ATTEMPTS));
            && (r.Ok? <==> SomeFree(existing, next, 100))
            && (!r.Ok? ==> r == if next + 100 <= MAX_STORED then Conflict else OutOfRange)
            && forall n: nat | LeastFree(existing, next, 100, n) :: r == Ok(FormatReceiptNo(n))
  {
    ReservedWhenFree(existing, next, 100);
    forall n: nat | LeastFree(existing, next, 100, n) {
      ReservedExactly(existing, next, 100, n);
    }
  }

  class Allocator {
    /** The stored row, if there is one yet. */
    var nextValue: Option<int>

    /** Every counter whose number was ever given out, by itself or on request. */
    ghost var issued: set<nat>

    /** The counter an automatic allocation tries first. */
    function Next(): (n: nat)
      reads this
      ensures RECEIPT_COUNTER_START <= n
    {
      if nextValue.Some? then Max(nextValue.value, RECEIPT_COUNTER_START) else RECEIPT_COUNTER_START
    }

    ghost predicate Valid()
      reads this
    {
      && (nextValue.Some? ==> nextValue.value <= MAX_STORED)
      && forall n | n in issued :: n < Next()
    }

    constructor ()
      ensures Valid() && issued == {} && nextValue == None
    {
      nextValue, issued := None, {};
    }

    method BumpCounterPast(nextCounter: int) returns (stored: bool)
      requires Valid()
      modifies this`nextValue
      ensures stored <==> nextCounter <= MAX_STORED
      ensures stored ==> Valid() && Next() == Max(old(Next()), nextCounter) && nextCounter <= Next()
      ensures !stored ==> nextValue == old(nextValue)
    {
      var current := if nextValue.Some? then nextValue.value else RECEIPT_COUNTER_START;
      var value := Max(current, nextCounter);
      if value > MAX_STORED {
        return false;
      }
      nextValue := Some(value);
      stored := true;
    }

    method ReserveNextReceiptCounter() returns (r: Result<nat>)
      requires Valid()
      modifies this`nextValue
      ensures r == if old(Next()) < MAX_STORED then Ok(old(Next())) else OutOfRange
      ensures r.Ok? ==> Valid() && Next() == old(Next()) + 1
      ensures !r.Ok? ==> nextValue == old(nextValue)
    {
      var shouldInitialize := nextValue == None || nextValue.value < RECEIPT_COUNTER_START;
      if shouldInitialize {
        nextValue := Some(RECEIPT_COUNTER_START + 1);
        return Ok(RECEIPT_COUNTER_START);
      }
      if nextValue.value + 1 > MAX_STORED {
        return OutOfRange;
      }
      nextValue := Some(nextValue.value + 1);
      return Ok(Max(nextValue.value - 1, RECEIPT_COUNTER_START));
    }

    /** The suggestion changes nothing. */
    method GetSuggestedNextReceiptNo(existing: set<string>) returns (r: Result<string>)
      ensures r == Formatted(Suggested(existing, Next()))
    {
      var value := Next();
      ghost var found := FirstFree(existing, value, MAX_ALLOCATION_ATTEMPTS);
      for attempt := 0 to MAX_ALLOCATION_ATTEMPTS
        invariant value == Next() + attempt
        invariant FirstFree(existing, value, MAX_ALLOCATION_ATTEMPTS - attempt) == found
      {
        FirstFreeStep(existing, value, MAX_ALLOCATION_ATTEMPTS - attempt);
        var receiptNo := FormatReceiptNo(value);
        if receiptNo !in existing {
          return Ok(receiptNo);
        }
        value := value + 1;
      }
      return Conflict;
    }

    /** The numbers are tried as the suggestion tries them, each time moving the
        stored counter on. */
    method ReserveFreeCounter(existing: set<string>, attempts: nat) returns (r: Result<nat>)
      requires Valid()
      modifies this`nextValue
      ensures r == Reserved(existing, old(Next()), attempts)
      ensures r.Ok? ==> Valid() && Next() == r.value + 1
    {
      ghost var found := Reserved(existing, Next(), attempts);
      for attempt := 0 to attempts
        invariant Valid()
        invariant Reserved(existing, Next(), attempts - attempt) == found
      {
        ReservedStep(existing, Next(), attempts - attempt);
        var counter := ReserveNextReceiptCounter();
        if counter.OutOfRange? || FormatReceiptNo(counter.value) !in existing {
          return counter;
        }
      }
      return Conflict;
    }

    /** Allocation never gives out a number it has given out before, by itself or
        on request, even if its receipt is gone. Whatever fails, nothing has changed. */
    method AllocateAutomatically(existing: set<string>) returns (r: Result<string>)
      requires Valid()
      modifies this
      ensures Valid()
      ensures r == Formatted(Reserved(existing, old(Next()), MAX_ALLOCATION_ATTEMPTS))
      ensures r.Ok? ==> r.value !in existing && forall n | n in old(issued) :: r.value != FormatReceiptNo(n)
      ensures r.Ok? ==> exists n: nat :: r.value == FormatReceiptNo(n) && issued == old(issued) + {n} && n < Next()
      ensures !r.Ok? ==> nextValue == old(nextValue) && issued == old(issued)
    {
      var before := nextValue;
      ReservedFrom(existing, Next(), MAX_ALLOCATION_ATTEMPTS);
      var counter := ReserveFreeCounter(existing, MAX_ALLOCATION_ATTEMPTS);
      if counter.Ok? {
        NeverIssued(issued, counter.value);
        issued := issued + {counter.value};
      } else {
        nextValue := before;
      }
      r := Formatted(counter);
    }

    /** A requested number is given out, in its normal form, just when it is a
        positive number that is not taken; automatic numbers go on after it. */
    method AllocateRequested(requested: string, existing: set<string>) returns (r: Result<string>)
      requires Valid()
      modifies this
      ensures Valid()
      ensures r == match ParseReceiptCounter(requested)
                   case None => BadRequest
                   case Some(n) =>
                     if FormatReceiptNo(n) in existing then Conflict
                     else if n >= MAX_STORED then OutOfRange
                     else Ok(FormatReceiptNo(n))
      ensures r.Ok? ==>
                && issued == old(issued) + {ParseReceiptCounter(requested).value}
                && Next() == Max(old(Next()), ParseReceiptCounter(requested).value + 1)
      ensures !r.Ok? ==> nextValue == old(nextValue) && issued == old(issued)
    {
      var counter := ParseReceiptCounter(requested);
      if counter == None {
        return BadRequest;
      }
      var receiptNo := FormatReceiptNo(counter.value);
      if receiptNo in existing {
        return Conflict;
      }
      var stored := BumpCounterPast(counter.value + 1);
      if !stored {
        return OutOfRange;
      }
      issued := issued + {counter.value};
      return Ok(receiptNo);
    }

    /** A blank request asks for an automatic number: it gets the least free one, and
        fails exactly when the attempts or the column end before.  A request with a
        number gets that number exactly when it is a free counter that fits. */
    method AllocateNextReceiptNo(requested: Option<string>, existing: set<string>) returns (r: Result<string>)
      requires Valid()
      modifies this
      ensures Valid()
      ensures r.Ok? ==>
                && r.value !in existing
                && exists n: nat :: r.value == FormatReceiptNo(n) && issued == old(issued) + {n} && n < Next()
      ensures Blank(requested) && r.Ok? ==> forall n | n in old(issued) :: r.value != FormatReceiptNo(n)
      ensures Blank(requested) ==>
                && (r.Ok? <==> SomeFree(existing, old(Next()), 100))
                && (!r.Ok? ==> r == if old(Next()) + 100 <= MAX_STORED then Conflict else OutOfRange)
                && forall n: nat | LeastFree(existing, old(Next()), 100, n) :: r == Ok(FormatReceiptNo(n))
      ensures !Blank(requested) ==>
                && (r.Ok? <==> NamesFreeCounter(requested.value, existing))
                && (r.Ok? ==> r.value == FormatReceiptNo(ValueOf(Trim(requested.value))))
      ensures !r.Ok? ==> nextValue == old(nextValue) && issued == old(issued)
    {
      if requested.Some? && Trim(requested.value) != [] {
        r := AllocateRequested(requested.value, existing);
      } else {
        LeastIsReserved(existing, Next());
        r := AllocateAutomatically(existing);
      }
    }
  }

  lemma NeverIssued(issued: set<nat>, counter: nat)
    requires forall n | n in issued :: n < counter
    ensures forall n | n in issued :: FormatReceiptNo(counter) != FormatReceiptNo(n)
  {
    forall n | n in issued
      ensures FormatReceiptNo(counter) != FormatReceiptNo(n)
    {
      if FormatReceiptNo(counter) == FormatReceiptNo(n) {
        FormatIsInjective(counter, n);
      }
    }
  }

  lemma {:induction false} FirstFreeFrom(existing: set<string>, next: nat, attempts: nat)
    ensures match FirstFree(existing, next, attempts)
            case Some(n) => next <= n < next + attempts
            case None => true
    decreases attempts
  {
    if attempts > 0 {
      FirstFreeFrom(existing, next + 1, attempts - 1);
    }
  }
}
