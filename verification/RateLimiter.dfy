/**
 The sliding-window rate limiter (security/rate_limit.py).

 Two forms of the same limiter: the one in memory, a class over deques
 of hits, and the sequential behaviour of the one in Redis, a sorted
 set with an expiry. Times are reals. Both are proved against a count
 of the accepted hits in a window: closed for the form in memory, half
 open for Redis, where a hit exactly one window old has already left.
 */
module RateLimiter {
  import opened Numbers

  /**
   A hit that has left the window that starts at the cutoff: the in-memory window is
   closed, the Redis one half open.
   */
  predicate Gone(hit: real, cutoff: real, closed: bool) {
    if closed then hit < cutoff else hit <= cutoff
  }

  /** Drops hits from the front while they are gone. */
  function Prune(hits: seq<real>, cutoff: real, closed: bool): (kept: seq<real>)
    ensures |kept| <= |hits|
  {
    if hits != [] && Gone(hits[0], cutoff, closed) then Prune(hits[1..], cutoff, closed) else hits
  }

  lemma {:induction false} PruneDropsGone(hits: seq<real>, cutoff: real, closed: bool)
    ensures var kept := Prune(hits, cutoff, closed); var n := |hits| - |kept|;
      kept == hits[n..] && forall i | 0 <= i < n :: Gone(hits[i], cutoff, closed)
  {
    if hits != [] && Gone(hits[0], cutoff, closed) {
      PruneDropsGone(hits[1..], cutoff, closed);
      var kept := Prune(hits[1..], cutoff, closed);
      var n := |hits| - |kept|;
      assert hits[1..][n - 1..] == hits[n..];
      forall i | 0 <= i < n ensures Gone(hits[i], cutoff, closed) {
        if i > 0 {
          assert hits[i] == hits[1..][i - 1];
        }
      }
    } else {
      assert hits[0..] == hits;
    }
  }

  predicate Sorted(hits: seq<real>) {
    forall i, j | 0 <= i < j < |hits| :: hits[i] <= hits[j]
  }

  type Table = map<string, seq<real>>

  function HitsOf(table: Table, key: string): seq<real> {
    if key in table then table[key] else []
  }

  /** What a call of `allow` leaves: a key without hits is dropped, an accepted hit is appended. */
  function AfterAllow(table: Table, key: string, now: real, maxRequests: int, window: real): Table {
    var kept := Prune(HitsOf(table, key), now - window, true);
    if |kept| < maxRequests then table[key := kept + [now]]
    else if kept == [] then table - {key}
    else table[key := kept]
  }

  predicate Allows(table: Table, key: string, now: real, maxRequests: int, window: real) {
    |Prune(HitsOf(table, key), now - window, true)| < maxRequests
  }

  class SlidingWindowRateLimiter {
    const maxRequests: int
    const window: real
    var hits: Table

    constructor (maxRequests: int, window: real)
      ensures this.maxRequests == maxRequests && this.window == window && hits == map[]
    {
      this.maxRequests, this.window := maxRequests, window;
      hits := map[];
    }

    /** _allow_in_memory */
    method Allow(key: string, now: real) returns (ok: bool)
      modifies this`hits
      ensures ok <==> Allows(old(hits), key, now, maxRequests, window)
      ensures hits == AfterAllow(old(hits), key, now, maxRequests, window)
    {
      hide Prune;
      ghost var before := hits;
      if key !in hits {
        hits := hits[key := []];
      }
      var deque := hits[key];
      var cutoff := now - window;
      while deque != [] && deque[0] < cutoff
        invariant hits == if key in before then before else before[key := []]
        invariant Prune(deque, cutoff, true) == Prune(HitsOf(before, key), cutoff, true)
        decreases |deque|
      {
        PruneStep(deque, cutoff, true);
        deque := deque[1..];
      }
      PruneStep(deque, cutoff, true);
      hits := hits[key := deque];
      if deque == [] {
        hits := hits - {key};
      }
      if |deque| >= maxRequests {
        assert hits == if deque == [] then before - {key} else before[key := deque];
        return false;
      }
      deque := deque + [now];
      hits := hits[key := deque];
      return true;
    }
  }

  // ---------------------------------------------------------------------------
  // A history of calls

  datatype Call = Call(key: string, now: real)

  predicate Monotone(calls: seq<Call>) {
    forall i, j | 0 <= i < j < |calls| :: calls[i].now <= calls[j].now
  }

  function TableAfter(calls: seq<Call>, n: nat, maxRequests: int, window: real): Table
    requires n <= |calls|
  {
    if n == 0 then map[]
    else AfterAllow(TableAfter(calls, n - 1, maxRequests, window), calls[n - 1].key, calls[n - 1].now, maxRequests,
      window)
  }

  /** Call i is let through. */
  predicate Accepted(calls: seq<Call>, i: nat, maxRequests: int, window: real)
    requires i < |calls|
  {
    Allows(TableAfter(calls, i, maxRequests, window), calls[i].key, calls[i].now, maxRequests, window)
  }

  /** The times at which the first n calls let the key through. */
  function AcceptedTimes(calls: seq<Call>, n: nat, key: string, maxRequests: int, window: real): seq<real>
    requires n <= |calls|
  {
    if n == 0 then []
    else AcceptedTimes(calls, n - 1, key, maxRequests, window)
         + if calls[n - 1].key == key && Accepted(calls, n - 1, maxRequests, window) then [calls[n - 1].now] else []
  }

  /** How many of the times lie between two bounds, the lower one in or out. */
  function Count(times: seq<real>, from: real, to: real, closed: bool): nat {
    if times == [] then 0
    else Count(times[..|times| - 1], from, to, closed)
         + var last := times[|times| - 1];
           if (if closed then from <= last <= to else from < last <= to) then 1 else 0
  }

  // ---------------------------------------------------------------------------
  // Pruned times

  lemma {:induction false} PruneSnoc(times: seq<real>, x: real, cutoff: real, closed: bool)
    requires Sorted(times + [x])
    ensures Prune(times + [x], cutoff, closed)
      == if Gone(x, cutoff, closed) then [] else Prune(times, cutoff, closed) + [x]
  {
    if times == [] {
      assert [] + [x] == [x] && [x][1..] == [];
    } else {
      assert (times + [x])[1..] == times[1..] + [x] && (times + [x])[0] == times[0];
      assert times[0] <= (times + [x])[|times|] == x;
      SortedTail(times + [x]);
      PruneSnoc(times[1..], x, cutoff, closed);
    }
  }

  lemma SortedTail(times: seq<real>)
    requires Sorted(times) && times != []
    ensures Sorted(times[1..]) && Sorted(times[..|times| - 1])
  {
    forall i, j | 0 <= i < j < |times| - 1 ensures times[1..][i] <= times[1..][j] {
      assert times[i + 1] <= times[j + 1];
    }
  }

  /** Up to now, what pruning keeps is what lies in the window. */
  lemma {:induction false} PruneCounts(times: seq<real>, cutoff: real, now: real, closed: bool)
    requires Sorted(times) && forall i | 0 <= i < |times| :: times[i] <= now
    ensures |Prune(times, cutoff, closed)| == Count(times, cutoff, now, closed)
    decreases |times|
  {
    if times != [] {
      var front, x := times[..|times| - 1], times[|times| - 1];
      assert times == front + [x];
      SortedTail(times);
      PruneCounts(front, cutoff, now, closed);
      PruneSnoc(front, x, cutoff, closed);
      if Gone(x, cutoff, closed) {
        AllGone(front, x, cutoff, now, closed);
      }
    }
  }

  lemma {:induction false} AllGone(times: seq<real>, x: real, cutoff: real, now: real, closed: bool)
    requires Gone(x, cutoff, closed) && forall i | 0 <= i < |times| :: times[i] <= x
    ensures Count(times, cutoff, now, closed) == 0
    decreases |times|
  {
    if times != [] {
      AllGone(times[..|times| - 1], x, cutoff, now, closed);
    }
  }

  lemma {:induction false} PruneTwice(times: seq<real>, early: real, late: real, closed: bool)
    requires early <= late
    ensures Prune(Prune(times, early, closed), late, closed) == Prune(times, late, closed)
  {
    PruneStep(times, early, closed);
    PruneStep(times, late, closed);
    hide Prune;
    if times != [] && Gone(times[0], early, closed) {
      PruneTwice(times[1..], early, late, closed);
    }
  }

  lemma PruneStep(times: seq<real>, cutoff: real, closed: bool)
    ensures Prune(times, cutoff, closed)
      == if times != [] && Gone(times[0], cutoff, closed) then Prune(times[1..], cutoff, closed) else times
  {
  }

  /** A later window holds no more of the earlier times. */
  lemma {:induction false} CountShrinks(times: seq<real>, from: real, to: real, from': real, to': real, closed: bool)
    requires from <= from' && (forall i | 0 <= i < |times| :: times[i] <= to)
    ensures Count(times, from', to', closed) <= Count(times, from, to, closed)
    decreases |times|
  {
    if times != [] {
      CountShrinks(times[..|times| - 1], from, to, from', to', closed);
    }
  }

  // ---------------------------------------------------------------------------
  // The in-memory form

  lemma {:induction false} TimesAreSorted(calls: seq<Call>, n: nat, key: string, maxRequests: int, window: real)
    requires n <= |calls| && Monotone(calls)
    ensures var times := AcceptedTimes(calls, n, key, maxRequests, window);
      Sorted(times) && forall i | 0 <= i < |times| :: n > 0 && times[i] <= calls[n - 1].now
  {
    hide Accepted;
    if n > 0 {
      TimesAreSorted(calls, n - 1, key, maxRequests, window);
    }
  }

  /** What the table still holds for a key is what matters of all its accepted times, now and later. */
  lemma {:induction false} TableHoldsWindow(calls: seq<Call>, n: nat, key: string, maxRequests: int, window: real,
                                            cutoff: real)
    requires n <= |calls| && Monotone(calls) && (n > 0 ==> calls[n - 1].now - window <= cutoff)
    ensures Prune(HitsOf(TableAfter(calls, n, maxRequests, window), key), cutoff, true)
      == Prune(AcceptedTimes(calls, n, key, maxRequests, window), cutoff, true)
    decreases n
  {
    hide Prune;
    if n > 0 {
      var call := calls[n - 1];
      TableHoldsWindow(calls, n - 1, key, maxRequests, window, cutoff);
      if call.key == key {
        TableHoldsWindow(calls, n - 1, key, maxRequests, window, call.now - window);
        TimesAreSorted(calls, n, key, maxRequests, window);
        hide Monotone, Sorted, TableAfter, AfterAllow, HitsOf, Allows;
        AllowPrunes(TableAfter(calls, n - 1, maxRequests, window), key, call.now,
          AcceptedTimes(calls, n - 1, key, maxRequests, window), maxRequests, window, cutoff);
        TableMore(calls, n - 1, maxRequests, window);
      } else {
        assert AcceptedTimes(calls, n - 1, key, maxRequests, window) + []
          == AcceptedTimes(calls, n - 1, key, maxRequests, window);
      }
    }
  }

  lemma TableMore(calls: seq<Call>, n: nat, maxRequests: int, window: real)
    requires n < |calls|
    ensures TableAfter(calls, n + 1, maxRequests, window)
      == AfterAllow(TableAfter(calls, n, maxRequests, window), calls[n].key, calls[n].now, maxRequests, window)
  {
  }

  /** One call on a key keeps the table and the accepted times in step, seen from any later cutoff. */
  lemma AllowPrunes(table: Table, key: string, now: real, times: seq<real>, maxRequests: int, window: real,
                    cutoff: real)
    requires now - window <= cutoff
    requires Prune(HitsOf(table, key), cutoff, true) == Prune(times, cutoff, true)
    requires Prune(HitsOf(table, key), now - window, true) == Prune(times, now - window, true)
    requires Sorted(times + if Allows(table, key, now, maxRequests, window) then [now] else [])
    ensures Prune(HitsOf(AfterAllow(table, key, now, maxRequests, window), key), cutoff, true)
      == Prune(times + (if Allows(table, key, now, maxRequests, window) then [now] else []), cutoff, true)
  {
    var kept := Prune(times, now - window, true);
    PruneTwice(times, now - window, cutoff, true);
    hide Prune;
    if Allows(table, key, now, maxRequests, window) {
      PruneDropsGone(times, now - window, true);
      SuffixSorted(times + [now], kept + [now]);
      PruneSnoc(kept, now, cutoff, true);
      PruneSnoc(times, now, cutoff, true);
    } else {
      assert times + [] == times;
    }
  }

  lemma SuffixSorted(times: seq<real>, suffix: seq<real>)
    requires Sorted(times) && |suffix| <= |times| && suffix == times[|times| - |suffix|..]
    ensures Sorted(suffix)
  {
  }

  /** A request is refused exactly if the key's accepted hits in the closed window up to now are as many as allowed. */
  lemma RefusedExactly(calls: seq<Call>, i: nat, maxRequests: int, window: real)
    requires i < |calls| && Monotone(calls) && window >= 0.0
    ensures var call := calls[i]; var times := AcceptedTimes(calls, i, call.key, maxRequests, window);
      !Accepted(calls, i, maxRequests, window) <==> Count(times, call.now - window, call.now, true) >= maxRequests
  {
    hide Prune, TableAfter, AcceptedTimes, Count, Sorted;
    var call := calls[i];
    TableHoldsWindow(calls, i, call.key, maxRequests, window, call.now - window);
    TimesAreSorted(calls, i, call.key, maxRequests, window);
    PruneCounts(AcceptedTimes(calls, i, call.key, maxRequests, window), call.now - window, call.now, true);
  }

  /** One more accepted time keeps every window within the limit. */
  lemma WindowGrows(times: seq<real>, now: real, from: real, limit: int, window: real, closed: bool)
    requires (forall i | 0 <= i < |times| :: times[i] <= now) && window >= 0.0
    requires Count(times, from, from + window, closed) <= Max(limit, 0)
      && Count(times, now - window, now, closed) < limit
    ensures Count(times + [now], from, from + window, closed) <= Max(limit, 0)
  {
    assert (times + [now])[..|times|] == times;
    if now <= from + window {
      CountShrinks(times, now - window, now, from, from + window, closed);
    }
  }

  lemma NothingYet(from: real, to: real, closed: bool)
    ensures Count([], from, to, closed) == 0 && Sorted([])
    ensures Prune([], from, closed) == [] == RemoveRange([], from)
  {
  }

  /** In no closed window of the given length does a key get more than the limit. */
  lemma {:induction false} NeverMoreThanAllowed(calls: seq<Call>, n: nat, key: string, maxRequests: int, window: real,
                                                from: real)
    requires n <= |calls| && Monotone(calls) && window >= 0.0
    ensures Count(AcceptedTimes(calls, n, key, maxRequests, window), from, from + window, true) <= Max(maxRequests, 0)
  {
    hide Accepted, Count, Sorted;
    if n == 0 {
      NothingYet(from, from + window, true);
    } else {
      var times := AcceptedTimes(calls, n - 1, key, maxRequests, window);
      NeverMoreThanAllowed(calls, n - 1, key, maxRequests, window, from);
      if calls[n - 1].key == key && Accepted(calls, n - 1, maxRequests, window) {
        RefusedExactly(calls, n - 1, maxRequests, window);
        TimesAreSorted(calls, n - 1, key, maxRequests, window);
        WindowGrows(times, calls[n - 1].now, from, maxRequests, window, true);
      } else {
        assert times + [] == times;
      }
    }
  }

  /** Every stored deque is non-empty and sorted. */
  lemma {:induction false} TableIsTidy(calls: seq<Call>, n: nat, key: string, maxRequests: int, window: real)
    requires n <= |calls| && Monotone(calls) && key in TableAfter(calls, n, maxRequests, window)
    ensures var hits := TableAfter(calls, n, maxRequests, window)[key]; hits != [] && Sorted(hits)
    ensures forall i | 0 <= i < |TableAfter(calls, n, maxRequests, window)[key]| ::
      TableAfter(calls, n, maxRequests, window)[key][i] <= calls[n - 1].now
  {
    hide Prune, Sorted;
    var call, table := calls[n - 1], TableAfter(calls, n - 1, maxRequests, window);
    if key in table {
      TableIsTidy(calls, n - 1, key, maxRequests, window);
      if n > 1 {
        assert calls[n - 2].now <= call.now;
      }
    }
    if call.key == key {
      var held := HitsOf(table, key);
      if key !in table {
        NothingYet(call.now, call.now, true);
      }
      TidyAllow(held, call.now, window);
    }
  }

  lemma TidyAllow(held: seq<real>, now: real, window: real)
    requires Sorted(held) && forall i | 0 <= i < |held| :: held[i] <= now
    ensures var kept := Prune(held, now - window, true);
      && Sorted(kept) && (forall i | 0 <= i < |kept| :: kept[i] <= now)
      && Sorted(kept + [now]) && (forall i | 0 <= i < |kept + [now]| :: (kept + [now])[i] <= now)
  {
    PruneDropsGone(held, now - window, true);
    hide Prune;
  }

  // ---------------------------------------------------------------------------
  // The Redis form, one call at a time

  /** A sorted set of hits, which the server drops at its expiry. */
  datatype ZSet = ZSet(scores: seq<real>, expiresAt: real)

  type Store = map<string, ZSet>

  function Live(store: Store, key: string, now: real): seq<real> {
    if key in store && now < store[key].expiresAt then store[key].scores else []
  }

  /** zremrangebyscore -inf cutoff */
  function RemoveRange(scores: seq<real>, cutoff: real): seq<real> {
    if scores == [] then []
    else (if scores[0] <= cutoff then [] else [scores[0]]) + RemoveRange(scores[1..], cutoff)
  }

  predicate RedisAllows(store: Store, key: string, now: real, maxRequests: int, window: real) {
    |RemoveRange(Live(store, key, now), now - window)| < maxRequests
  }

  /** _allow_redis; an accepted hit renews the expiry to int(window) + 1 seconds. */
  function AfterRedisAllow(store: Store, key: string, now: real, maxRequests: int, window: real): Store {
    var kept := RemoveRange(Live(store, key, now), now - window);
    if |kept| < maxRequests then store[key := ZSet(kept + [now], now + (window.Floor + 1) as real)]
    else if key in store then store[key := ZSet(kept, store[key].expiresAt)]
    else store
  }

  function StoreAfter(calls: seq<Call>, n: nat, maxRequests: int, window: real): Store
    requires n <= |calls|
  {
    if n == 0 then map[]
    else AfterRedisAllow(StoreAfter(calls, n - 1, maxRequests, window), calls[n - 1].key, calls[n - 1].now,
      maxRequests, window)
  }

  predicate RedisAccepted(calls: seq<Call>, i: nat, maxRequests: int, window: real)
    requires i < |calls|
  {
    RedisAllows(StoreAfter(calls, i, maxRequests, window), calls[i].key, calls[i].now, maxRequests, window)
  }

  function RedisTimes(calls: seq<Call>, n: nat, key: string, maxRequests: int, window: real): seq<real>
    requires n <= |calls|
  {
    if n == 0 then []
    else RedisTimes(calls, n - 1, key, maxRequests, window)
         + if calls[n - 1].key == key && RedisAccepted(calls, n - 1, maxRequests, window)
           then [calls[n - 1].now] else []
  }

  lemma {:induction false} RemoveRangePrunes(scores: seq<real>, cutoff: real)
    requires Sorted(scores)
    ensures RemoveRange(scores, cutoff) == Prune(scores, cutoff, false)
  {
    if scores != [] {
      SortedTail(scores);
      RemoveRangePrunes(scores[1..], cutoff);
      if scores[0] > cutoff {
        if |scores| > 1 {
          assert scores[0] <= scores[1];
          assert Prune(scores[1..], cutoff, false) == scores[1..];
        }
      }
    }
  }

  lemma {:induction false} RedisTimesAreSorted(calls: seq<Call>, n: nat, key: string, maxRequests: int, window: real)
    requires n <= |calls| && Monotone(calls)
    ensures var times := RedisTimes(calls, n, key, maxRequests, window);
      Sorted(times) && forall i | 0 <= i < |times| :: n > 0 && times[i] <= calls[n - 1].now
  {
    hide RedisAccepted;
    if n > 0 {
      RedisTimesAreSorted(calls, n - 1, key, maxRequests, window);
    }
  }

  /**
   The store for one key: a suffix of its times, all it needs, and an expiry that comes
   after all of them have left.
   */
  predicate Holds(store: Store, key: string, times: seq<real>, now: real, window: real) {
    && (key !in store ==> times == [])
    && (key in store ==>
          var z := store[key];
          && |z.scores| <= |times| && z.scores == times[|times| - |z.scores|..]
          && (forall i | 0 <= i < |times| - |z.scores| :: times[i] <= now - window)
          && (forall i | 0 <= i < |times| :: times[i] + window < z.expiresAt))
  }

  lemma HoldsLater(store: Store, key: string, times: seq<real>, now: real, later: real, window: real)
    requires Holds(store, key, times, now, window) && now <= later
    ensures Holds(store, key, times, later, window)
  {
  }

  /** The live set, pruned, is all the times, pruned. */
  lemma LivePrunes(store: Store, key: string, times: seq<real>, now: real, window: real)
    requires Holds(store, key, times, now, window) && Sorted(times)
    ensures RemoveRange(Live(store, key, now), now - window) == Prune(times, now - window, false)
  {
    hide Prune, RemoveRange;
    var cutoff := now - window;
    if key in store && now < store[key].expiresAt {
      var z := store[key];
      SuffixSorted(times, z.scores);
      RemoveRangePrunes(z.scores, cutoff);
      PruneSuffix(times, |times| - |z.scores|, cutoff);
    } else {
      PruneSuffix(times, |times|, cutoff);
      assert times[|times|..] == [];
      NothingYet(cutoff, now, false);
    }
  }

  lemma {:induction false} PruneSuffix(times: seq<real>, n: nat, cutoff: real)
    requires n <= |times| && forall i | 0 <= i < n :: times[i] <= cutoff
    ensures Prune(times[n..], cutoff, false) == Prune(times, cutoff, false)
    decreases n
  {
    if n > 0 {
      PruneStep(times, cutoff, false);
      hide Prune;
      forall i | 0 <= i < n - 1 ensures times[1..][i] <= cutoff {
        assert times[1..][i] == times[i + 1];
      }
      PruneSuffix(times[1..], n - 1, cutoff);
      assert times[1..][n - 1..] == times[n..];
    } else {
      assert times[0..] == times;
    }
  }

  lemma AllowHolds(store: Store, key: string, call: Call, times: seq<real>, maxRequests: int, window: real)
    requires Holds(store, key, times, call.now, window) && Sorted(times)
      && forall i | 0 <= i < |times| :: times[i] <= call.now
    ensures var accepted := call.key == key && RedisAllows(store, key, call.now, maxRequests, window);
      Holds(AfterRedisAllow(store, call.key, call.now, maxRequests, window), key,
            times + (if accepted then [call.now] else []), call.now, window)
  {
    hide Prune, RemoveRange, Sorted;
    if call.key == key {
      LivePrunes(store, key, times, call.now, window);
      var kept := Prune(times, call.now - window, false);
      PruneDropsGone(times, call.now - window, false);
      if |kept| < maxRequests {
        assert kept + [call.now] == (times + [call.now])[|times| - |kept|..];
        assert window < (window.Floor + 1) as real;
      } else {
        assert times + [] == times;
      }
    } else {
      assert times + [] == times;
    }
  }

  lemma {:induction false} StoreHolds(calls: seq<Call>, n: nat, key: string, maxRequests: int, window: real, now: real)
    requires n <= |calls| && Monotone(calls) && (n > 0 ==> calls[n - 1].now <= now)
    ensures Holds(StoreAfter(calls, n, maxRequests, window), key, RedisTimes(calls, n, key, maxRequests, window), now,
      window)
    decreases n
  {
    hide Holds, RedisAllows, AfterRedisAllow, Sorted;
    if n == 0 {
      NothingHeld(key, now, window);
    } else {
      var call, store := calls[n - 1], StoreAfter(calls, n - 1, maxRequests, window);
      var times := RedisTimes(calls, n - 1, key, maxRequests, window);
      StoreHolds(calls, n - 1, key, maxRequests, window, call.now);
      RedisTimesAreSorted(calls, n - 1, key, maxRequests, window);
      EarlierTimes(calls, n, times);
      AllowHolds(store, key, call, times, maxRequests, window);
      HoldsLater(StoreAfter(calls, n, maxRequests, window), key, RedisTimes(calls, n, key, maxRequests, window),
        call.now, now, window);
    }
  }

  lemma EarlierTimes(calls: seq<Call>, n: nat, times: seq<real>)
    requires 0 < n <= |calls| && Monotone(calls)
    requires forall i | 0 <= i < |times| :: n > 1 && times[i] <= calls[n - 2].now
    ensures forall i | 0 <= i < |times| :: times[i] <= calls[n - 1].now
  {
  }

  lemma NothingHeld(key: string, now: real, window: real)
    ensures Holds(map[], key, [], now, window)
  {
  }

  /** Redis refuses by the same rule over the half-open window, which excludes a hit exactly one window old. */
  lemma RedisRefusedExactly(calls: seq<Call>, i: nat, maxRequests: int, window: real)
    requires i < |calls| && Monotone(calls) && window >= 0.0
    ensures var call := calls[i]; var times := RedisTimes(calls, i, call.key, maxRequests, window);
      !RedisAccepted(calls, i, maxRequests, window) <==> Count(times, call.now - window, call.now, false) >= maxRequests
  {
    hide Prune, RemoveRange, StoreAfter, RedisTimes, Count, Sorted, Holds, Live;
    var call := calls[i];
    StoreHolds(calls, i, call.key, maxRequests, window, call.now);
    RedisTimesAreSorted(calls, i, call.key, maxRequests, window);
    LivePrunes(StoreAfter(calls, i, maxRequests, window), call.key,
      RedisTimes(calls, i, call.key, maxRequests, window), call.now, window);
    PruneCounts(RedisTimes(calls, i, call.key, maxRequests, window), call.now - window, call.now, false);
  }

  /** And in no half-open window does a key get more than the limit. */
  lemma {:induction false} RedisNeverMoreThanAllowed(calls: seq<Call>, n: nat, key: string, maxRequests: int,
                                                     window: real, from: real)
    requires n <= |calls| && Monotone(calls) && window >= 0.0
    ensures Count(RedisTimes(calls, n, key, maxRequests, window), from, from + window, false) <= Max(maxRequests, 0)
  {
    hide RedisAccepted, Count, Sorted;
    if n == 0 {
      NothingYet(from, from + window, false);
    } else {
      var times := RedisTimes(calls, n - 1, key, maxRequests, window);
      RedisNeverMoreThanAllowed(calls, n - 1, key, maxRequests, window, from);
      if calls[n - 1].key == key && RedisAccepted(calls, n - 1, maxRequests, window) {
        RedisRefusedExactly(calls, n - 1, maxRequests, window);
        RedisTimesAreSorted(calls, n - 1, key, maxRequests, window);
        WindowGrows(times, calls[n - 1].now, from, maxRequests, window, false);
      } else {
        assert times + [] == times;
      }
    }
  }
}
