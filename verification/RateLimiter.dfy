/**
 The in-memory sliding-window rate limiter.

 The implementation remembers only a short queue of timestamps per key and lets a
 background sweep forget idle keys.  The specification remembers everything: the log of
 all accepted requests of a key since the process started.  The theorems relate the two
 over whole histories of requests and sweeps.
 */
module RateLimiter {
  import opened Basics

  /** The timestamps kept for one key, oldest first; a stored queue is never empty. */
  type Queue = q: seq<int> | q != [] witness [0]
  type Store = map<string, Queue>

  // ----- one request, one sweep pass -----

  /** What a request does to the store, and whether it is let through. */
  function RequestStep(store: Store, key: string, limit: nat, window: int, now: int): (r: (Store, bool)) {
    if key in store then
      var queue := store[key];
      if |queue| < limit then
        (store[key := queue + [now]], true)
      else if now - queue[0] >= window then
        (store[key := queue[1..] + [now]], true)
      else
        (store, false)
    else
      (store[key := [now]], true)
  }

  predicate Idle(queue: Queue, expiration: int, now: int) {
    now - queue[|queue| - 1] > expiration
  }

  /** The store after one pass of the background sweep. */
  function SweepStep(store: Store, expiration: int, now: int): (r: Store) {
    map key | key in store && !Idle(store[key], expiration, now) :: store[key]
  }

  class InMemoryRateLimiter {
    var initialized: bool
    var store: Store
    var expirationNanos: int

    constructor ()
      ensures !initialized
    {
      initialized, store, expirationNanos := false, map[], 0;
    }

    /** Only the first call has an effect; later expirations are ignored. */
    method Init(nanos: int)
      modifies this
      ensures initialized
      ensures !old(initialized) ==> store == map[] && expirationNanos == nanos
      ensures old(initialized) ==> store == old(store) && expirationNanos == old(expirationNanos)
    {
      if !initialized {
        store := map[];
        expirationNanos := nanos;
        initialized := true;
      }
    }

    method Request(key: string, limit: nat, window: int, now: int) returns (accepted: bool)
      modifies this`store
      ensures (store, accepted) == RequestStep(old(store), key, limit, window, now)
    {
      if key in store {
        var queue: seq<int> := store[key];
        if |queue| < limit {
          queue := queue + [now];
          store := store[key := queue];
          return true;
        } else if now - queue[0] >= window {
          queue := queue[1..];
          queue := queue + [now];
          store := store[key := queue];
          return true;
        } else {
          return false;
        }
      }
      store := store[key := [now]];
      return true;
    }

    /** One pass of the background sweep: delete idle keys one at a time, in any order. */
    method ClearExpiredItems(now: int)
      modifies this`store
      ensures store == SweepStep(old(store), expirationNanos / NANOS_PER_SECOND, now)
    {
      var pending := store.Keys;
      while pending != {}
        invariant pending <= store.Keys <= old(store).Keys
        invariant forall key :: key in store ==> store[key] == old(store)[key]
        invariant forall key :: key in old(store) && key !in pending ==>
          (key in store <==> !Idle(old(store)[key], expirationNanos / NANOS_PER_SECOND, now))
      {
        var key :| key in pending;
        pending := pending - {key};
        var queue := store[key];
        if |queue| == 0 || now - queue[|queue| - 1] > expirationNanos / NANOS_PER_SECOND {
          store := store - {key};
        }
      }
    }
  }

  // ----- histories -----

  /** The limits each key is always asked with, and the expiration given to Init. */
  datatype Limits = Limits(count: string -> nat, window: string -> int, expirationNanos: int) {
    function Expiration(): int { expirationNanos / NANOS_PER_SECOND }

    /** A first request is accepted unconditionally, so a limit of zero acts as one. */
    function Capacity(key: string): nat { if count(key) == 0 then 1 else count(key) }
  }

  datatype Event = Request(key: string, now: int) | Sweep(now: int)

  /** Nondecreasing clock, and no sweep unless Init started the sweeping goroutine. */
  ghost predicate Legal(lim: Limits, h: seq<Event>) {
    && (forall i, j :: 0 <= i < j < |h| ==> h[i].now <= h[j].now)
    && (forall i :: 0 <= i < |h| && h[i].Sweep? ==> lim.expirationNanos > 0)
  }

  function StoreAfter(lim: Limits, h: seq<Event>): Store {
    if h == [] then map[] else
      var before := StoreAfter(lim, h[..|h| - 1]);
      match h[|h| - 1]
      case Request(key, now) => RequestStep(before, key, lim.count(key), lim.window(key), now).0
      case Sweep(now) => SweepStep(before, lim.Expiration(), now)
  }

  /** The limiter's answer to a request that follows history h. */
  predicate Accepts(lim: Limits, h: seq<Event>, key: string, now: int) {
    RequestStep(StoreAfter(lim, h), key, lim.count(key), lim.window(key), now).1
  }

  /** The specification's memory: every timestamp ever accepted for the key. */
  function Log(lim: Limits, h: seq<Event>, key: string): seq<int> {
    if h == [] then [] else
      var before := h[..|h| - 1];
      var last := h[|h| - 1];
      if last.Request? && last.key == key && Accepts(lim, before, key, last.now)
      then Log(lim, before, key) + [last.now]
      else Log(lim, before, key)
  }

  /** How many timestamps t satisfy from <= t < to. */
  function CountIn(log: seq<int>, from: int, to: int): nat {
    if log == [] then 0 else
      CountIn(log[..|log| - 1], from, to) + if from <= log[|log| - 1] < to then 1 else 0
  }

  /** Fewer than Capacity requests were accepted in the half-open interval (now - window, now]. */
  predicate HasRoom(lim: Limits, h: seq<Event>, key: string, now: int) {
    CountIn(Log(lim, h, key), now - lim.window(key) + 1, now + 1) < lim.Capacity(key)
  }

  // ----- the queue refines the log -----

  /** All entries of the log up to index n have left the window at time now. */
  predicate Expired(log: seq<int>, n: nat, window: int, now: int)
    requires n <= |log|
  {
    forall i :: 0 <= i < n ==> now - log[i] >= window
  }

  predicate SortedUpTo(log: seq<int>, now: int) {
    && (forall i, j :: 0 <= i < j < |log| ==> log[i] <= log[j])
    && (forall i :: 0 <= i < |log| ==> log[i] <= now)
  }

  /** The stored queue is the newest part of the log, and whatever it has forgotten no longer matters. */
  predicate Tracks(store: Store, log: seq<int>, key: string, capacity: nat, window: int, now: int) {
    && SortedUpTo(log, now)
    && if key in store then
         var queue := store[key];
         && |queue| <= capacity
         && |queue| <= |log|
         && queue == log[|log| - |queue|..]
         && (|queue| < capacity ==> Expired(log, |log| - |queue|, window, now))
       else
         Expired(log, |log|, window, now)
  }

  lemma {:induction false} CountBounds(log: seq<int>, from: int, to: int, n: nat)
    requires n <= |log|
    requires forall i :: 0 <= i < n ==> log[i] < from
    ensures CountIn(log, from, to) <= |log| - n
  {
    if n < |log| {
      CountBounds(log[..|log| - 1], from, to, n);
    } else if log != [] {
      CountBounds(log[..|log| - 1], from, to, n - 1);
    }
  }

  lemma {:induction false} CountAtLeast(log: seq<int>, from: int, to: int, n: nat)
    requires n <= |log|
    requires forall i :: n <= i < |log| ==> from <= log[i] < to
    ensures CountIn(log, from, to) >= |log| - n
  {
    if n < |log| {
      CountAtLeast(log[..|log| - 1], from, to, n);
    }
  }

  /** A queue that tracks the log gives the log's answer. */
  lemma TrackingQueueDecides(lim: Limits, store: Store, log: seq<int>, key: string, now: int)
    requires Tracks(store, log, key, lim.Capacity(key), lim.window(key), now)
    ensures RequestStep(store, key, lim.count(key), lim.window(key), now).1
            <==> CountIn(log, now - lim.window(key) + 1, now + 1) < lim.Capacity(key)
  {
    var from := now - lim.window(key) + 1;
    if key in store {
      var queue := store[key];
      var dropped := |log| - |queue|;
      assert forall i :: 0 <= i < |queue| ==> queue[i] == log[dropped + i];
      if |queue| < lim.Capacity(key) {
        CountBounds(log, from, now + 1, dropped);
      } else if now - queue[0] >= lim.window(key) {
        assert log[dropped] == queue[0];
        CountBounds(log, from, now + 1, dropped + 1);
      } else {
        CountAtLeast(log, from, now + 1, dropped);
      }
    } else {
      CountBounds(log, from, now + 1, |log|);
    }
  }

  lemma TracksLater(store: Store, log: seq<int>, key: string, capacity: nat, window: int, now: int, later: int)
    requires now <= later
    requires Tracks(store, log, key, capacity, window, now)
    ensures Tracks(store, log, key, capacity, window, later)
  {
  }

  lemma SortedAppend(log: seq<int>, now: int)
    requires SortedUpTo(log, now)
    ensures SortedUpTo(log + [now], now)
  {
  }

  /** The newest n entries of a log, followed by one more. */
  lemma NewestAppend(log: seq<int>, n: nat, now: int)
    requires n <= |log|
    ensures log[|log| - n..] + [now] == (log + [now])[|log| - n..]
  {
  }

  lemma RequestKeepsTracking(lim: Limits, store: Store, log: seq<int>, asked: string, key: string, now: int)
    requires Tracks(store, log, key, lim.Capacity(key), lim.window(key), now)
    ensures var (store', ok) := RequestStep(store, asked, lim.count(asked), lim.window(asked), now);
            var log' := if asked == key && ok then log + [now] else log;
            Tracks(store', log', key, lim.Capacity(key), lim.window(key), now)
  {
    if asked == key && RequestStep(store, asked, lim.count(asked), lim.window(asked), now).1 {
      SortedAppend(log, now);
      hide SortedUpTo;
      if key !in store {
        NewestAppend(log, 0, now);
      } else {
        var queue := store[key];
        if |queue| < lim.count(key) {
          NewestAppend(log, |queue|, now);
        } else {
          assert queue[1..] == log[|log| - (|queue| - 1)..];
          NewestAppend(log, |queue| - 1, now);
        }
      }
    }
  }

  lemma SweepKeepsTracking(lim: Limits, store: Store, log: seq<int>, key: string, now: int)
    requires lim.window(key) <= lim.Expiration() + 1
    requires Tracks(store, log, key, lim.Capacity(key), lim.window(key), now)
    ensures Tracks(SweepStep(store, lim.Expiration(), now), log, key, lim.Capacity(key), lim.window(key), now)
  {
    if key in store && Idle(store[key], lim.Expiration(), now) {
      var queue := store[key];
      assert queue[|queue| - 1] == log[|log| - 1];
    }
  }

  /** The sweep runs late enough for this key, or not at all. */
  predicate SweepsLate(lim: Limits, key: string) {
    lim.expirationNanos <= 0 || lim.window(key) <= lim.Expiration() + 1
  }

  lemma {:induction false} HistoryIsTracked(lim: Limits, h: seq<Event>, key: string, now: int)
    requires Legal(lim, h)
    requires SweepsLate(lim, key)
    requires forall i :: 0 <= i < |h| ==> h[i].now <= now
    ensures Tracks(StoreAfter(lim, h), Log(lim, h, key), key, lim.Capacity(key), lim.window(key), now)
    decreases |h|
  {
    if h != [] {
      var before, last := h[..|h| - 1], h[|h| - 1];
      HistoryIsTracked(lim, before, key, last.now);
      match last {
        case Request(asked, at) =>
          RequestKeepsTracking(lim, StoreAfter(lim, before), Log(lim, before, key), asked, key, at);
        case Sweep(at) =>
          assert h[|h| - 1].Sweep?;
          SweepKeepsTracking(lim, StoreAfter(lim, before), Log(lim, before, key), key, at);
      }
      TracksLater(StoreAfter(lim, h), Log(lim, h, key), key, lim.Capacity(key), lim.window(key), last.now, now);
    }
  }

  // ----- main results -----

  /** After every legal history, the limiter answers as if it remembered the whole log. */
  ghost predicate MatchesFullLog(lim: Limits, key: string) {
    forall h: seq<Event>, now: int :: Legal(lim, h + [Request(key, now)]) ==>
      (Accepts(lim, h, key, now) <==> HasRoom(lim, h, key, now))
  }

  lemma RequestsFollowTheLog(lim: Limits, h: seq<Event>, key: string, now: int)
    requires SweepsLate(lim, key)
    requires Legal(lim, h + [Request(key, now)])
    ensures Accepts(lim, h, key, now) <==> HasRoom(lim, h, key, now)
  {
    LegalPrefix(lim, h, Request(key, now));
    HistoryIsTracked(lim, h, key, now);
    TrackingQueueDecides(lim, StoreAfter(lim, h), Log(lim, h, key), key, now);
  }

  lemma LegalPrefix(lim: Limits, h: seq<Event>, e: Event)
    requires Legal(lim, h + [e])
    ensures Legal(lim, h)
    ensures forall i :: 0 <= i < |h| ==> h[i].now <= e.now
  {
    var all := h + [e];
    assert forall i :: 0 <= i < |h| ==> all[i] == h[i];
    assert all[|h|] == e;
  }

  /** No window of the configured length ever holds more accepted requests than the capacity. */
  lemma {:induction false} WindowsNeverOverfull(lim: Limits, h: seq<Event>, key: string, from: int)
    requires Legal(lim, h)
    requires SweepsLate(lim, key)
    ensures CountIn(Log(lim, h, key), from, from + lim.window(key)) <= lim.Capacity(key)
    decreases |h|
  {
    if h != [] {
      var before, last := h[..|h| - 1], h[|h| - 1];
      assert h == before + [last];
      LegalPrefix(lim, before, last);
      WindowsNeverOverfull(lim, before, key, from);
      if Log(lim, h, key) != Log(lim, before, key) {
        RequestsFollowTheLog(lim, before, key, last.now);
        HistoryIsTracked(lim, before, key, last.now);
        NewestEntryFits(lim, before, key, from, last.now);
      }
    }
  }

  /** An entry accepted with room to spare overfills no window that it falls into. */
  lemma NewestEntryFits(lim: Limits, h: seq<Event>, key: string, from: int, now: int)
    requires HasRoom(lim, h, key, now)
    requires SortedUpTo(Log(lim, h, key), now)
    requires CountIn(Log(lim, h, key), from, from + lim.window(key)) <= lim.Capacity(key)
    ensures CountIn(Log(lim, h, key) + [now], from, from + lim.window(key)) <= lim.Capacity(key)
  {
    var log := Log(lim, h, key);
    assert (log + [now])[..|log|] == log;
    if from <= now < from + lim.window(key) {
      CountInSubinterval(log, from, from + lim.window(key), now - lim.window(key) + 1, now + 1);
    }
  }

  lemma {:induction false} CountInSubinterval(log: seq<int>, from: int, to: int, from': int, to': int)
    requires forall i :: 0 <= i < |log| ==> (from <= log[i] < to ==> from' <= log[i] < to')
    ensures CountIn(log, from, to) <= CountIn(log, from', to')
  {
    if log != [] {
      CountInSubinterval(log[..|log| - 1], from, to, from', to');
    }
  }

  /** No queue ever outgrows the capacity of its key, whatever the expiration and the clock. */
  lemma {:induction false} QueuesStayBounded(lim: Limits, h: seq<Event>, key: string)
    ensures key in StoreAfter(lim, h) ==> |StoreAfter(lim, h)[key]| <= lim.Capacity(key)
  {
    if h != [] {
      QueuesStayBounded(lim, h[..|h| - 1], key);
    }
  }

  /** The history that fills the queue of a key at time zero. */
  function Burst(key: string, n: nat): (h: seq<Event>)
    ensures |h| == n && forall i :: 0 <= i < n ==> h[i] == Request(key, 0)
  {
    if n == 0 then [] else Burst(key, n - 1) + [Request(key, 0)]
  }

  function Zeros(n: nat): (r: seq<int>)
    ensures |r| == n && forall i :: 0 <= i < n ==> r[i] == 0
  {
    if n == 0 then [] else Zeros(n - 1) + [0]
  }

  lemma {:induction false} BurstFillsQueue(lim: Limits, key: string, n: nat)
    requires n <= lim.Capacity(key)
    ensures Log(lim, Burst(key, n), key) == Zeros(n)
    ensures var store := StoreAfter(lim, Burst(key, n));
            if n == 0 then key !in store else key in store && store[key] == Zeros(n)
  {
    if n > 0 {
      BurstFillsQueue(lim, key, n - 1);
      var before := Burst(key, n - 1);
      assert Burst(key, n)[..n - 1] == before;
      assert Accepts(lim, before, key, 0);
    }
  }

  /** A burst, and then a sweep that comes one second after the expiration, leave the key unknown. */
  lemma BurstThenSweep(lim: Limits, key: string, h: seq<Event>, now: int)
    requires h == Burst(key, lim.Capacity(key)) + [Sweep(now)]
    requires now == lim.Expiration() + 1
    ensures Log(lim, h, key) == Zeros(lim.Capacity(key))
    ensures Accepts(lim, h, key, now)
  {
    var n := lim.Capacity(key);
    BurstFillsQueue(lim, key, n);
    assert h[..|h| - 1] == Burst(key, n);
    assert key !in StoreAfter(lim, h);
  }

  /** A sweep that comes too early makes the limiter forget a full window. */
  lemma EarlySweepOveradmits(lim: Limits, key: string) returns (h: seq<Event>, now: int)
    requires !SweepsLate(lim, key)
    ensures Legal(lim, h + [Request(key, now)])
    ensures Accepts(lim, h, key, now) && !HasRoom(lim, h, key, now)
  {
    hide Accepts, Log;
    now := lim.Expiration() + 1;
    h := Burst(key, lim.Capacity(key)) + [Sweep(now)];
    BurstThenSweep(lim, key, h, now);
    CountAtLeast(Zeros(lim.Capacity(key)), now - lim.window(key) + 1, now + 1, 0);
  }

  /** The limiter agrees with the full log after every history exactly when sweeps come late enough. */
  lemma FullLogIffSweepsLate(lim: Limits, key: string)
    ensures MatchesFullLog(lim, key) <==> SweepsLate(lim, key)
  {
    if SweepsLate(lim, key) {
      forall h: seq<Event>, now: int | Legal(lim, h + [Request(key, now)])
        ensures Accepts(lim, h, key, now) <==> HasRoom(lim, h, key, now)
      {
        RequestsFollowTheLog(lim, h, key, now);
      }
    } else {
      var h, now := EarlySweepOveradmits(lim, key);
    }
  }

  // ----- what a sweep leaves -----

  /** The stored queue ends with the newest admission; a key that is not stored was swept or never admitted. */
  predicate NewestStored(store: Store, log: seq<int>, key: string, expiration: int, now: int) {
    if key in store then log != [] && store[key][|store[key]| - 1] == log[|log| - 1]
    else log == [] || now - log[|log| - 1] > expiration
  }

  lemma {:induction false} HistoryKeepsNewest(lim: Limits, h: seq<Event>, key: string, now: int)
    requires Legal(lim, h) && forall i :: 0 <= i < |h| ==> h[i].now <= now
    ensures NewestStored(StoreAfter(lim, h), Log(lim, h, key), key, lim.Expiration(), now)
    decreases |h|
  {
    if h != [] {
      var before, last := h[..|h| - 1], h[|h| - 1];
      HistoryKeepsNewest(lim, before, key, last.now);
      match last
      case Request(asked, at) =>
        RequestKeepsNewest(lim, StoreAfter(lim, before), Log(lim, before, key), asked, key, at);
      case Sweep(at) =>
        SweepKeepsNewest(StoreAfter(lim, before), Log(lim, before, key), key, lim.Expiration(), at);
    }
  }

  lemma RequestKeepsNewest(lim: Limits, store: Store, log: seq<int>, asked: string, key: string, now: int)
    requires NewestStored(store, log, key, lim.Expiration(), now)
    ensures var (store', ok) := RequestStep(store, asked, lim.count(asked), lim.window(asked), now);
            NewestStored(store', if asked == key && ok then log + [now] else log, key, lim.Expiration(), now)
  {
  }

  lemma SweepKeepsNewest(store: Store, log: seq<int>, key: string, expiration: int, now: int)
    requires NewestStored(store, log, key, expiration, now)
    ensures NewestStored(SweepStep(store, expiration, now), log, key, expiration, now)
  {
  }

  /**
   After a sweep a key is stored exactly if its newest admission is not older than the expiration,
   over every history, whatever the limits are.
   */
  lemma StoredAfterSweepIff(lim: Limits, h: seq<Event>, key: string, now: int)
    requires Legal(lim, h + [Sweep(now)])
    ensures var log := Log(lim, h, key);
            key in StoreAfter(lim, h + [Sweep(now)]) <==> log != [] && now - log[|log| - 1] <= lim.Expiration()
  {
    var all := h + [Sweep(now)];
    assert all[..|all| - 1] == h;
    LegalPrefix(lim, h, Sweep(now));
    HistoryKeepsNewest(lim, h, key, now);
  }
}
