/**
 The sliding-window rate limiter. Times are in milliseconds. Settings stay fixed
 and the clock does not go back; every key belongs to one bucket of settings.
 */
module RateLimit {
  import opened Basics

  type Key = nat
  type Instant = int

  const SWEEP_INTERVAL_MS := 30_000

  datatype Configuration = Configuration(windowMs: nat, max: nat)

  /** The settings have lower bounds. */
  type Settings = c: Configuration | 1000 <= c.windowMs && 1 <= c.max witness Configuration(1000, 1)

  datatype Decision = Admitted | Limited(retryAfterMs: int)

  datatype Entry = Entry(timestamps: seq<Instant>, windowMs: nat)

  // ---------- a limiter that forgets nothing ----------

  function Active(timestamps: seq<Instant>, threshold: Instant): seq<Instant> {
    if timestamps == [] then []
    else (if timestamps[0] > threshold then [timestamps[0]] else []) + Active(timestamps[1..], threshold)
  }

  /** The decision on the whole history of admitted requests. */
  function Decide(history: seq<Instant>, settings: Settings, now: Instant): Decision
  {
    var active := Active(history, now - settings.windowMs);
    if |active| >= settings.max then Limited(Max(1, settings.windowMs - (now - active[0]))) else Admitted
  }

  ghost predicate Ascending(s: seq<Instant>) {
    forall i, j | 0 <= i < j < |s| :: s[i] <= s[j]
  }

  ghost predicate Before(history: seq<Instant>, clock: Instant) {
    Ascending(history) && forall i | 0 <= i < |history| :: history[i] <= clock
  }

  /** How many of an ascending history are not after `t`. */
  function UpTo(history: seq<Instant>, t: Instant): (n: nat)
    ensures n <= |history|
  {
    if history == [] || history[0] > t then 0 else 1 + UpTo(history[1..], t)
  }

  lemma {:induction false} UpToSplits(history: seq<Instant>, t: Instant)
    requires Ascending(history)
    ensures forall i | 0 <= i < |history| :: history[i] <= t <==> i < UpTo(history, t)
  {
    if history != [] && history[0] <= t {
      UpToSplits(history[1..], t);
      assert forall i | 0 < i < |history| :: history[i] == history[1..][i - 1];
    }
  }

  lemma {:induction false} ActiveIsSuffix(history: seq<Instant>, threshold: Instant)
    requires Ascending(history)
    ensures Active(history, threshold) == history[UpTo(history, threshold)..]
  {
    if history != [] {
      ActiveIsSuffix(history[1..], threshold);
      if history[0] > threshold {
        assert history[1..] == [] || history[1..][0] == history[1];
        assert UpTo(history[1..], threshold) == 0;
      }
    }
  }

  /** Requests `max` or more places apart are at least a window apart. */
  ghost predicate Spaced(history: seq<Instant>, settings: Settings) {
    forall i, j | 0 <= i && i + settings.max <= j < |history| :: history[i] + settings.windowMs <= history[j]
  }

  lemma AdmittedKeepsSpacing(history: seq<Instant>, settings: Settings, now: Instant)
    requires Ascending(history) && Spaced(history, settings)
    requires Decide(history, settings, now) == Admitted
    ensures Spaced(history + [now], settings)
  {
    var threshold := now - settings.windowMs;
    ActiveIsSuffix(history, threshold);
    UpToSplits(history, threshold);
  }

  /** Any interval as long as the window holds at most `max` admitted requests. */
  lemma WindowHoldsAtMostMax(history: seq<Instant>, settings: Settings, start: Instant)
    requires Ascending(history) && Spaced(history, settings)
    ensures UpTo(history, start + settings.windowMs - 1) - UpTo(history, start - 1) <= settings.max
  {
    var first, end := UpTo(history, start - 1), UpTo(history, start + settings.windowMs - 1);
    UpToSplits(history, start - 1);
    UpToSplits(history, start + settings.windowMs - 1);
    if first + settings.max < |history| {
      assert history[first] + settings.windowMs <= history[first + settings.max];
    }
  }

  /** A request is refused just when the latest `max` admitted ones all lie within
      the window; it may be made again when the earliest of these has left it. */
  lemma RefusedExactly(history: seq<Instant>, settings: Settings, now: Instant)
    requires Before(history, now) && Spaced(history, settings)
    ensures Decide(history, settings, now).Limited? <==>
              |history| >= settings.max && history[|history| - settings.max] > now - settings.windowMs
    ensures Decide(history, settings, now).Limited? ==>
              Decide(history, settings, now).retryAfterMs ==
                history[|history| - settings.max] + settings.windowMs - now
  {
    var threshold, n := now - settings.windowMs, UpTo(history, now - settings.windowMs);
    ActiveIsSuffix(history, threshold);
    UpToSplits(history, threshold);
    UpToSplits(history, now);
    WindowHoldsAtMostMax(history, settings, threshold + 1);
    assert history != [] ==> history[|history| - 1] <= now;
    assert UpTo(history, now) == |history|;
  }

  /** After a refusal, with no other traffic, a later request is admitted exactly
      when `retryAfterMs` have passed. */
  lemma RetryAfterIsExact(history: seq<Instant>, settings: Settings, now: Instant, later: Instant)
    requires Ascending(history) && Spaced(history, settings) && now <= later
    requires Decide(history, settings, now).Limited?
    requires forall i | 0 <= i < |history| :: history[i] <= now
    ensures Decide(history, settings, later) == Admitted <==> now + Decide(history, settings, now).retryAfterMs <= later
  {
    var n, m := UpTo(history, now - settings.windowMs), UpTo(history, later - settings.windowMs);
    ActiveIsSuffix(history, now - settings.windowMs);
    ActiveIsSuffix(history, later - settings.windowMs);
    UpToSplits(history, now - settings.windowMs);
    UpToSplits(history, later - settings.windowMs);
    assert history[n..][0] == history[n] > now - settings.windowMs;
    WindowHoldsAtMostMax(history, settings, now - settings.windowMs + 1);
    UpToSplits(history, now);
    assert history[|history| - 1] <= now;
    assert UpTo(history, now) == |history|;
  }

  // ---------- the store ----------

  ghost predicate Expired(timestamps: seq<Instant>, threshold: Instant) {
    forall i | 0 <= i < |timestamps| :: timestamps[i] <= threshold
  }

  /** What is stored for a key is its history less a part that has expired. */
  ghost predicate Remembers(timestamps: seq<Instant>, history: seq<Instant>, windowMs: nat, clock: Instant) {
    exists forgotten :: history == forgotten + timestamps && Expired(forgotten, clock - windowMs)
  }

  ghost predicate Tracks(timestamps: seq<Instant>, history: seq<Instant>, settings: Settings, clock: Instant) {
    Before(history, clock) && Spaced(history, settings) && Remembers(timestamps, history, settings.windowMs, clock)
  }

  /** Expired timestamps make no difference to what is active. */
  lemma {:induction false} ActiveSkips(forgotten: seq<Instant>, timestamps: seq<Instant>, threshold: Instant)
    requires Expired(forgotten, threshold)
    ensures Active(forgotten + timestamps, threshold) == Active(timestamps, threshold)
  {
    if forgotten == [] {
      assert forgotten + timestamps == timestamps;
    } else {
      ActiveSkips(forgotten[1..], timestamps, threshold);
      assert (forgotten + timestamps)[1..] == forgotten[1..] + timestamps;
    }
  }

  lemma ActiveRemembers(history: seq<Instant>, windowMs: nat, now: Instant)
    requires Ascending(history)
    ensures Remembers(Active(history, now - windowMs), history, windowMs, now)
  {
    var n := UpTo(history, now - windowMs);
    ActiveIsSuffix(history, now - windowMs);
    UpToSplits(history, now - windowMs);
    assert history == history[..n] + history[n..] && Expired(history[..n], now - windowMs);
  }

  lemma TracksActive(timestamps: seq<Instant>, history: seq<Instant>, settings: Settings, now: Instant)
    requires Tracks(timestamps, history, settings, now)
    ensures Active(timestamps, now - settings.windowMs) == Active(history, now - settings.windowMs)
    ensures Tracks(Active(timestamps, now - settings.windowMs), history, settings, now)
  {
    var forgotten :| history == forgotten + timestamps && Expired(forgotten, now - settings.windowMs);
    ActiveSkips(forgotten, timestamps, now - settings.windowMs);
    ActiveRemembers(history, settings.windowMs, now);
  }

  lemma TracksAdmitted(active: seq<Instant>, history: seq<Instant>, settings: Settings, now: Instant)
    requires Tracks(active, history, settings, now) && Decide(history, settings, now) == Admitted
    ensures Tracks(active + [now], history + [now], settings, now)
  {
    AdmittedKeepsSpacing(history, settings, now);
    var forgotten :| history == forgotten + active && Expired(forgotten, now - settings.windowMs);
    assert history + [now] == forgotten + (active + [now]);
  }

  lemma TracksLater(timestamps: seq<Instant>, history: seq<Instant>, settings: Settings, clock: Instant, now: Instant)
    requires Tracks(timestamps, history, settings, clock) && clock <= now
    ensures Tracks(timestamps, history, settings, now)
  {
    var forgotten :| history == forgotten + timestamps && Expired(forgotten, clock - settings.windowMs);
    assert Expired(forgotten, now - settings.windowMs);
  }

  function Stored(store: map<Key, Entry>, key: Key): seq<Instant> {
    if key in store then store[key].timestamps else []
  }

  function Admissions(history: map<Key, seq<Instant>>, key: Key): seq<Instant> {
    if key in history then history[key] else []
  }

  /** The state of one key; the window it was last swept or used with is the fixed one. */
  ghost predicate KeyTracked(store: map<Key, Entry>, history: map<Key, seq<Instant>>, settings: Key -> Settings,
                             clock: Instant, key: Key) {
    && (key in store ==> store[key].windowMs == settings(key).windowMs)
    && Tracks(Stored(store, key), Admissions(history, key), settings(key), clock)
  }

  ghost predicate Consistent(store: map<Key, Entry>, history: map<Key, seq<Instant>>, settings: Key -> Settings,
                             clock: Instant) {
    forall key :: KeyTracked(store, history, settings, clock, key)
  }

  lemma ConsistentLater(store: map<Key, Entry>, history: map<Key, seq<Instant>>, settings: Key -> Settings,
                        clock: Instant, now: Instant)
    requires Consistent(store, history, settings, clock) && clock <= now
    ensures Consistent(store, history, settings, now)
  {
    forall key
      ensures KeyTracked(store, history, settings, now, key)
    {
      assert KeyTracked(store, history, settings, clock, key);
      TracksLater(Stored(store, key), Admissions(history, key), settings(key), clock, now);
    }
  }

  /** A store that differs at one key only. */
  lemma ConsistentExcept(store: map<Key, Entry>, history: map<Key, seq<Instant>>, settings: Key -> Settings,
                         clock: Instant,
                         store': map<Key, Entry>, history': map<Key, seq<Instant>>, key: Key)
    requires Consistent(store, history, settings, clock)
    requires forall other | other != key :: Admissions(history', other) == Admissions(history, other)
    requires store' - {key} == store - {key}
    requires KeyTracked(store', history', settings, clock, key)
    ensures Consistent(store', history', settings, clock)
  {
    forall other | other != key
      ensures KeyTracked(store', history', settings, clock, other)
    {
      SameElsewhere(store, store', key, other);
      assert KeyTracked(store, history, settings, clock, other);
    }
  }

  lemma SameElsewhere(store: map<Key, Entry>, store': map<Key, Entry>, key: Key, other: Key)
    requires store' - {key} == store - {key} && other != key
    ensures other in store' <==> other in store
    ensures other in store ==> store'[other] == store[other]
  {
    assert other in store' <==> other in store' - {key};
    assert other in store <==> other in store - {key};
    assert other in store ==> (store' - {key})[other] == (store - {key})[other];
  }

  /** What a decision reads of the store is what it would read of the history. */
  lemma ActiveOfStore(store: map<Key, Entry>, history: map<Key, seq<Instant>>, settings: Key -> Settings,
                      now: Instant, key: Key)
    requires Consistent(store, history, settings, now)
    ensures var active := Active(Stored(store, key), now - settings(key).windowMs);
                    active == Active(Admissions(history, key), now - settings(key).windowMs)
                    && Tracks(active, Admissions(history, key), settings(key), now)
  {
    assert KeyTracked(store, history, settings, now, key);
    TracksActive(Stored(store, key), Admissions(history, key), settings(key), now);
  }

  /** The store after a key has been swept. */
  function Swept(store: map<Key, Entry>, key: Key, now: Instant): map<Key, Entry>
    requires key in store
  {
    var active := Active(store[key].timestamps, now - store[key].windowMs);
    if active == [] then store - {key} else store[key := Entry(active, store[key].windowMs)]
  }

  lemma SweptKeyTracked(store: map<Key, Entry>, history: map<Key, seq<Instant>>, settings: Key -> Settings,
                        now: Instant, key: Key)
    requires KeyTracked(store, history, settings, now, key) && key in store
    ensures KeyTracked(Swept(store, key, now), history, settings, now, key)
  {
    TracksActive(store[key].timestamps, Admissions(history, key), settings(key), now);
    SweptKey(store, key, now);
  }

  lemma SweptConsistent(store: map<Key, Entry>, history: map<Key, seq<Instant>>, settings: Key -> Settings,
                        now: Instant, key: Key)
    requires Consistent(store, history, settings, now) && key in store
    ensures Consistent(Swept(store, key, now), history, settings, now)
  {
    SweptKeyTracked(store, history, settings, now, key);
    SweptKey(store, key, now);
    ConsistentExcept(store, history, settings, now, Swept(store, key, now), history, key);
  }

  lemma SweptKey(store: map<Key, Entry>, key: Key, now: Instant)
    requires key in store
    ensures var swept := Swept(store, key, now);
            && Stored(swept, key) == Active(store[key].timestamps, now - store[key].windowMs)
            && swept - {key} == store - {key}
            && (key in swept ==> swept[key].windowMs == store[key].windowMs)
  {
  }

  lemma {:induction false} NothingExpired(timestamps: seq<Instant>, threshold: Instant)
    requires |Active(timestamps, threshold)| == |timestamps|
    ensures Active(timestamps, threshold) == timestamps
  {
    if timestamps != [] {
      ActiveLength(timestamps[1..], threshold);
      NothingExpired(timestamps[1..], threshold);
    }
  }

  lemma {:induction false} ActiveLength(timestamps: seq<Instant>, threshold: Instant)
    ensures |Active(timestamps, threshold)| <= |timestamps|
  {
    if timestamps != [] {
      ActiveLength(timestamps[1..], threshold);
    }
  }

  lemma KeptConsistent(store: map<Key, Entry>, history: map<Key, seq<Instant>>, settings: Key -> Settings,
                       now: Instant, key: Key,
                       timestamps: seq<Instant>, past: seq<Instant>)
    requires Consistent(store, history, settings, now) && Tracks(timestamps, past, settings(key), now)
    ensures Consistent(store[key := Entry(timestamps, settings(key).windowMs)], history[key := past], settings, now)
  {
    var store' := store[key := Entry(timestamps, settings(key).windowMs)];
    assert store' - {key} == store - {key};
    ConsistentExcept(store, history, settings, now, store', history[key := past], key);
  }

  /** Nothing expired is stored. */
  ghost predicate Clean(entry: Entry, now: Instant) {
    entry.timestamps != [] && Active(entry.timestamps, now - entry.windowMs) == entry.timestamps
  }

  lemma {:induction false} ActiveTwice(timestamps: seq<Instant>, threshold: Instant)
    ensures Active(Active(timestamps, threshold), threshold) == Active(timestamps, threshold)
  {
    if timestamps != [] {
      ActiveTwice(timestamps[1..], threshold);
      var rest := Active(timestamps[1..], threshold);
      assert ([timestamps[0]] + rest)[1..] == rest;
      assert timestamps[0] <= threshold ==> Active(timestamps, threshold) == rest;
    }
  }

  lemma StartsConsistent(settings: Key -> Settings)
    ensures Consistent(map[], map[], settings, 0)
  {
    forall key: Key
      ensures KeyTracked(map[], map[], settings, 0, key)
    {
      var none: seq<Instant> := [];
      assert none == none + none && Expired(none, 0 - settings(key).windowMs);
    }
  }

  class Limiter {
    var store: map<Key, Entry>
    var lastSweepAt: Instant
    const settings: Key -> Settings

    /** All admitted requests, and the latest time seen. */
    ghost var history: map<Key, seq<Instant>>
    ghost var clock: Instant

    ghost predicate Valid()
      reads this
    {
      Consistent(store, history, settings, clock)
    }

    constructor (settings: Key -> Settings)
      ensures Valid() && this.settings == settings && history == map[]
    {
      store, lastSweepAt := map[], 0;
      history, clock := map[], 0;
      this.settings := settings;
      StartsConsistent(settings);
    }

    /** Sweeping forgets only what no later decision can ask for. */
    method SweepExpiredRateLimitKeys(now: Instant)
      requires Valid() && clock <= now
      modifies this`store, this`lastSweepAt, this`clock
      ensures Valid() && clock == now
      ensures store.Keys <= old(store.Keys)
      ensures now - old(lastSweepAt) >= SWEEP_INTERVAL_MS ==> forall key | key in store :: Clean(store[key], now)
    {
      ConsistentLater(store, history, settings, clock, now);
      clock := now;
      if now - lastSweepAt < SWEEP_INTERVAL_MS {
        return;
      }
      lastSweepAt := now;
      var left := store.Keys;
      while left != {}
        invariant Valid() && clock == now && left <= store.Keys <= old(store.Keys)
        invariant forall key | key in store && key !in left :: Clean(store[key], now)
      {
        var key :| key in left;
        ActiveTwice(store[key].timestamps, now - store[key].windowMs);
        SweepKey(key, now);
        left := left - {key};
      }
    }

    method SweepKey(key: Key, now: Instant)
      requires Valid() && key in store && clock == now
      modifies this`store
      ensures Valid() && store == Swept(old(store), key, now)
    {
      var entry := store[key];
      var active := Active(entry.timestamps, now - entry.windowMs);
      SweptConsistent(store, history, settings, now, key);
      assert KeyTracked(store, history, settings, now, key);
      if active == [] {
        store := store - {key};
      } else if |active| != |entry.timestamps| {
        store := store[key := Entry(active, entry.windowMs)];
      } else {
        NothingExpired(entry.timestamps, now - entry.windowMs);
        assert store[key := entry] == store;
      }
    }

    /** Every decision is the one the whole history calls for, and only admitted
        requests enter the history. */
    method EnforceRateLimit(key: Key, now: Instant) returns (decision: Decision)
      requires Valid() && clock <= now
      modifies this
      ensures Valid() && clock == now
      ensures decision == Decide(old(Admissions(history, key)), settings(key), now)
      ensures Admissions(history, key) ==
              if decision == Admitted then old(Admissions(history, key)) + [now] else old(Admissions(history, key))
      ensures forall other | other != key :: Admissions(history, other) == old(Admissions(history, other))
    {
      var windowMs, max := settings(key).windowMs, settings(key).max;
      SweepExpiredRateLimitKeys(now);
      var active := Active(Stored(store, key), now - windowMs);
      ghost var past := Admissions(history, key);
      ActiveOfStore(store, history, settings, now, key);
      if |active| >= max {
        decision := Limited(Max(1, windowMs - (now - active[0])));
        Keep(key, active, past);
      } else {
        decision := Admitted;
        TracksAdmitted(active, past, settings(key), now);
        Keep(key, active + [now], past + [now]);
      }
    }

    /** Stores the timestamps of a key next to its new history. */
    method Keep(key: Key, timestamps: seq<Instant>, ghost past: seq<Instant>)
      requires Valid() && Tracks(timestamps, past, settings(key), clock)
      modifies this`store, this`history
      ensures Valid() && Admissions(history, key) == past
      ensures forall other | other != key :: Admissions(history, other) == old(Admissions(history, other))
    {
      KeptConsistent(store, history, settings, clock, key, timestamps, past);
      store := store[key := Entry(timestamps, settings(key).windowMs)];
      history := history[key := past];
    }
  }
}
