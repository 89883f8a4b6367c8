/**
 The window of completed months behind the customer rankings, over the
 proleptic Gregorian calendar. A month is named by its number, twelve times the
 year plus the months gone by in it; days are numbered from 1970-01-01.
 */
module CompletedMonths {
  import opened PaymentTimeline

  type Month = int

  // ---------- the calendar ----------

  predicate Leap(year: int) {
    year % 4 == 0 && (year % 100 != 0 || year % 400 == 0)
  }

  function MonthLength(m: Month): (days: nat)
    ensures 28 <= days <= 31
  {
    match m % 12
    case 1 => if Leap(m / 12) then 29 else 28
    case 3 => 30
    case 5 => 30
    case 8 => 30
    case 10 => 30
    case _ => 31
  }

  const EPOCH: Month := 1970 * 12

  /** The number of the first day of a month, counted on from 1970-01-01. */
  function FirstDay(m: Month): int
    decreases if m < EPOCH then EPOCH - m else m - EPOCH
  {
    if m == EPOCH then 0
    else if m > EPOCH then FirstDay(m - 1) + MonthLength(m - 1)
    else FirstDay(m + 1) - MonthLength(m)
  }

  /** The months follow each other without a gap. */
  lemma MonthStep(m: Month)
    ensures FirstDay(m + 1) == FirstDay(m) + MonthLength(m)
  {
    assert m + 1 - 1 == m;
  }

  lemma {:induction false} FirstDayGrows(m: Month, n: Month)
    requires m < n
    ensures FirstDay(m) + 28 * (n - m) <= FirstDay(n)
    decreases n - m
  {
    MonthStep(n - 1);
    if m + 1 < n {
      FirstDayGrows(m, n - 1);
    }
  }

  function DaysIn(i: nat, leap: bool): nat {
    if i == 1 then (if leap then 29 else 28) else if i in [3, 5, 8, 10] then 30 else 31
  }

  lemma MonthOfYear(year: int, i: nat, m: Month)
    requires i < 12 && m == 12 * year + i
    ensures FirstDay(m + 1) == FirstDay(m) + DaysIn(i, Leap(year))
  {
    assert m % 12 == i && m / 12 == year;
    MonthStep(m);
  }

  function DaysBefore(i: nat, leap: bool): nat {
    if i == 0 then 0 else DaysBefore(i - 1, leap) + DaysIn(i - 1, leap)
  }

  lemma {:induction false} DaysFromJanuary(year: int, i: nat)
    requires i <= 12
    ensures FirstDay(12 * year + i) == FirstDay(12 * year) + DaysBefore(i, Leap(year))
  {
    if i > 0 {
      DaysFromJanuary(year, i - 1);
      MonthOfYear(year, i - 1, 12 * year + (i - 1));
    }
  }

  lemma DaysOfYear(leap: bool)
    ensures DaysBefore(12, leap) == 365 + if leap then 1 else 0
  {
    var extra := if leap then 1 else 0;
    assert DaysBefore(1, leap) == 31;
    assert DaysBefore(2, leap) == 59 + extra;
    assert DaysBefore(4, leap) == 120 + extra;
    assert DaysBefore(6, leap) == 181 + extra;
    assert DaysBefore(8, leap) == 243 + extra;
    assert DaysBefore(10, leap) == 304 + extra;
  }

  /** A year has 365 days, a leap year 366. */
  lemma YearLength(year: int, next: int)
    requires next == year + 1
    ensures FirstDay(12 * next) == FirstDay(12 * year) + 365 + if Leap(year) then 1 else 0
  {
    DaysFromJanuary(year, 12);
    DaysOfYear(Leap(year));
    assert 12 * year + 12 == 12 * next;
  }

  /** The leap years before a year, by the Gregorian rule. */
  function LeapsBefore(year: int): int {
    (year - 1) / 4 - (year - 1) / 100 + (year - 1) / 400
  }

  lemma FourthStep(year: int)
    ensures year / 4 == (year - 1) / 4 + if year % 4 == 0 then 1 else 0
  {
  }

  lemma HundredthStep(year: int)
    ensures year / 100 == (year - 1) / 100 + if year % 100 == 0 then 1 else 0
    ensures year % 100 == 0 ==> year % 4 == 0
  {
  }

  lemma FourHundredthStep(year: int)
    ensures year / 400 == (year - 1) / 400 + if year % 400 == 0 then 1 else 0
    ensures year % 400 == 0 ==> year % 100 == 0
  {
  }

  lemma LeapStep(year: int, next: int)
    requires next == year + 1
    ensures LeapsBefore(next) == LeapsBefore(year) + if Leap(year) then 1 else 0
  {
    FourthStep(year);
    HundredthStep(year);
    FourHundredthStep(year);
  }

  /** The day a year starts on, in closed form. */
  ghost predicate StartsAt(year: int) {
    FirstDay(12 * year) == 365 * (year - 1970) + LeapsBefore(year) - LeapsBefore(1970)
  }

  lemma StartsAtNext(year: int, next: int)
    requires next == year + 1
    ensures StartsAt(year) <==> StartsAt(next)
  {
    YearLength(year, next);
    LeapStep(year, next);
  }

  /** Every year starts on the day the closed form gives. */
  lemma {:induction false} YearStartsAt(year: int)
    ensures StartsAt(year)
    decreases if year < 1970 then 1970 - year else year - 1970
  {
    if year < 1970 {
      YearStartsAt(year + 1);
      StartsAtNext(year, year + 1);
    } else if year > 1970 {
      YearStartsAt(year - 1);
      StartsAtNext(year - 1, year);
    }
  }

  ghost predicate InMonth(day: int, m: Month) {
    FirstDay(m) <= day < FirstDay(m + 1)
  }

  /** The month a day lies in, found by walking from a guess. */
  function MonthFrom(day: int, guess: Month): (m: Month)
    ensures InMonth(day, m)
    decreases if day < FirstDay(guess) then FirstDay(guess) - day else day - FirstDay(guess), day < FirstDay(guess)
  {
    MonthStep(guess);
    MonthStep(guess - 1);
    if day < FirstDay(guess) then
      if FirstDay(guess - 1) <= day then guess - 1 else MonthFrom(day, guess - 1)
    else if FirstDay(guess + 1) <= day then MonthFrom(day, guess + 1)
    else guess
  }

  function MonthOf(day: int): (m: Month)
    ensures InMonth(day, m)
  {
    MonthFrom(day, EPOCH)
  }

  /** No day lies in two months. */
  lemma MonthIsUnique(day: int, m: Month)
    requires InMonth(day, m)
    ensures MonthOf(day) == m
  {
    var found := MonthOf(day);
    if found < m {
      if found + 1 < m { FirstDayGrows(found + 1, m); }
    } else if m < found {
      if m + 1 < found { FirstDayGrows(m + 1, found); }
    }
  }

  // ---------- instants ----------

  function StartOf(m: Month): Instant {
    FirstDay(m) * DAY_MS
  }

  function MonthKey(t: Instant): Month {
    MonthOf(Day(t))
  }

  /** Setting the month of an instant keeps its day of the month and its time of
      day, so that a long month can run over into the next one. */
  function SetUTCMonth(t: Instant, m: Month): Instant {
    (FirstDay(m) + Day(t) - FirstDay(MonthKey(t))) * DAY_MS + t % DAY_MS
  }

  lemma DayOfMidnight(day: int)
    ensures Day(day * DAY_MS) == day && (day * DAY_MS) % DAY_MS == 0
  {
  }

  lemma StartKey(m: Month)
    ensures MonthKey(StartOf(m)) == m
  {
    DayOfMidnight(FirstDay(m));
    MonthStep(m);
    MonthIsUnique(FirstDay(m), m);
  }

  /** On the first of a month nothing runs over. */
  lemma SetMonthOfStart(m: Month, n: Month)
    ensures SetUTCMonth(StartOf(m), n) == StartOf(n)
  {
    StartKey(m);
    DayOfMidnight(FirstDay(m));
  }

  lemma NextMonth(m: Month, cursor: Instant)
    requires cursor == StartOf(m)
    ensures MonthKey(cursor) == m && SetUTCMonth(cursor, MonthKey(cursor) + 1) == StartOf(m + 1)
  {
    StartKey(m);
    SetMonthOfStart(m, m + 1);
  }

  /** Midnight bounds an instant just as its day bounds the day. */
  lemma BeforeMidnight(t: Instant, day: int)
    ensures t < day * DAY_MS <==> Day(t) < day
  {
    assert t == DAY_MS * Day(t) + t % DAY_MS;
  }

  // ---------- the window ----------

  datatype Period = Period(start: Instant, endExclusive: Instant)
  {
    predicate Contains(t: Instant) {
      start <= t < endExclusive
    }
  }

  datatype Result<+T> = Ok(value: T) | InvalidLookback

  /** The window is an error just for a lookback below one month. */
  method GetCompletedMonthWindow(asOf: Instant, months: int) returns (r: Result<Period>)
    ensures r == if months < 1 then InvalidLookback
                 else Ok(Period(StartOf(MonthKey(asOf) - months), StartOf(MonthKey(asOf))))
  {
    if months < 1 {
      return InvalidLookback;
    }
    var endExclusive := StartOf(MonthKey(asOf));
    StartKey(MonthKey(asOf));
    SetMonthOfStart(MonthKey(asOf), MonthKey(asOf) - months);
    var start := SetUTCMonth(endExclusive, MonthKey(endExclusive) - months);
    return Ok(Period(start, endExclusive));
  }

  method BuildMonthKeys(period: Period, count: nat, ghost first: Month) returns (keys: seq<Month>)
    requires period.start == StartOf(first)
    ensures |keys| == count && forall i | 0 <= i < count :: keys[i] == first + i
  {
    keys := [];
    var cursor := period.start;
    ghost var month := first;
    for index := 0 to count
      invariant |keys| == index && month == first + index && cursor == StartOf(month)
      invariant forall i | 0 <= i < index :: keys[i] == first + i
    {
      NextMonth(month, cursor);
      keys := keys + [MonthKey(cursor)];
      cursor := SetUTCMonth(cursor, MonthKey(cursor) + 1);
      month := month + 1;
    }
  }

  /** The window is the disjoint union of its months: an instant lies in it just
      when its month is one of the keys. Hence no receipt inside the window can
      miss its bucket. */
  lemma WindowIsItsMonths(first: Month, count: nat, t: Instant)
    ensures Period(StartOf(first), StartOf(first + count)).Contains(t) <==> first <= MonthKey(t) < first + count
  {
    var m := MonthKey(t);
    BeforeMidnight(t, FirstDay(first));
    BeforeMidnight(t, FirstDay(first + count));
    FirstDayOrder(first, m);
    FirstDayOrder(m + 1, first);
    FirstDayOrder(first + count, m);
    FirstDayOrder(m + 1, first + count);
  }

  lemma FirstDayOrder(m: Month, n: Month)
    ensures m <= n ==> FirstDay(m) <= FirstDay(n)
  {
    if m < n {
      FirstDayGrows(m, n);
    }
  }
}
