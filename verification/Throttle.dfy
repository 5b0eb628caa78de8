/** The sliding-window request limiter of apps/core/throttling.py, for one
    organization on one plan whose requests are handled one after the other.

    The limiter keeps a pruned, newest-first history in a cache whose entries may
    expire.  The reference is the full log of allowed requests, oldest first. */
module Throttle {
  import opened Arithmetic
  import opened Sequences
  import opened Wrappers

  datatype Rate = Rate(numRequests: nat, duration: real)

  // ---------- the reference: full logs ----------

  /** How many entries of a log are later than `cutoff`. */
  function CountAfter(log: seq<real>, cutoff: real): (n: nat)
    ensures n <= |log|
  {
    if log == [] then 0
    else CountAfter(log[..|log| - 1], cutoff) + if log[|log| - 1] > cutoff then 1 else 0
  }

  predicate Allows(rate: Rate, log: seq<real>, now: real) {
    CountAfter(log, now - rate.duration) < rate.numRequests
  }

  /** The requests that get through when each is judged by the full log. */
  function FullLog(rate: Rate, requests: seq<real>): seq<real> {
    if requests == [] then []
    else
      var log, now := FullLog(rate, requests[..|requests| - 1]), requests[|requests| - 1];
      if Allows(rate, log, now) then log + [now] else log
  }

  lemma {:induction false} CountSuffix(log: seq<real>, k: nat, cutoff: real)
    requires k <= |log|
    requires forall i :: 0 <= i < k ==> log[i] <= cutoff
    requires forall i :: k <= i < |log| ==> log[i] > cutoff
    ensures CountAfter(log, cutoff) == |log| - k
  {
    if |log| > k {
      CountSuffix(log[..|log| - 1], k, cutoff);
    } else if log != [] {
      CountSuffix(log[..|log| - 1], k - 1, cutoff);
    }
  }

  /** In an ascending log the later entries are a suffix. */
  lemma {:induction false} SuffixOf(log: seq<real>, cutoff: real)
    requires Ascending(log)
    ensures var k := |log| - CountAfter(log, cutoff);
      && (forall i :: 0 <= i < k ==> log[i] <= cutoff)
      && (forall i :: k <= i < |log| ==> log[i] > cutoff)
  {
    if log != [] {
      SuffixOf(log[..|log| - 1], cutoff);
      if log[|log| - 1] <= cutoff {
        CountSuffix(log, |log|, cutoff);
      }
    }
  }

  /** Every entry is at least a duration later than the one `numRequests` before it. */
  ghost predicate Spaced(rate: Rate, log: seq<real>) {
    forall i, j :: 0 <= i && j == i + rate.numRequests < |log| ==> log[i] + rate.duration <= log[j]
  }

  /** The reading of a count in an ascending log. */
  lemma CountBelow(log: seq<real>, cutoff: real, n: nat)
    requires Ascending(log) && 1 <= n <= |log|
    ensures CountAfter(log, cutoff) < n <==> log[|log| - n] <= cutoff
  {
    hide CountAfter;
    SuffixOf(log, cutoff);
  }

  lemma {:induction false} LogFacts(rate: Rate, requests: seq<real>)
    requires Ascending(requests)
    ensures var log := FullLog(rate, requests);
      && Ascending(log) && Spaced(rate, log) && (rate.numRequests == 0 ==> log == [])
      && forall i :: 0 <= i < |log| ==> requests != [] && log[i] <= requests[|requests| - 1]
  {
    hide CountAfter, Spaced;
    if requests == [] {
      assert Spaced(rate, []) by { NoneSpaced(rate); }
    } else {
      var before, now := requests[..|requests| - 1], requests[|requests| - 1];
      LogFacts(rate, before);
      assert before != [] ==> before[|before| - 1] <= now;
      if Allows(rate, FullLog(rate, before), now) {
        SpacedNext(rate, FullLog(rate, before), now);
      }
    }
  }

  lemma NoneSpaced(rate: Rate)
    ensures Spaced(rate, [])
  {
  }

  lemma SpacedNext(rate: Rate, log: seq<real>, now: real)
    requires Ascending(log) && Spaced(rate, log) && Allows(rate, log, now)
    ensures Spaced(rate, log + [now])
  {
    hide CountAfter;
    if |log| >= rate.numRequests {
      CountBelow(log, now - rate.duration, rate.numRequests);
    }
  }

  /** The bound: under a clock that never runs backwards, no window of the rate's
      duration, open at its start, contains more than `numRequests` allowed requests. */
  lemma WindowBound(rate: Rate, requests: seq<real>, start: real)
    requires Ascending(requests) && rate.duration > 0.0
    ensures var log := FullLog(rate, requests);
      CountAfter(log, start) - CountAfter(log, start + rate.duration) <= rate.numRequests
  {
    hide CountAfter, FullLog;
    var log := FullLog(rate, requests);
    LogFacts(rate, requests);
    var after := CountAfter(log, start + rate.duration);
    var n := after + rate.numRequests + 1;
    if n <= |log| {
      CountBelow(log, start + rate.duration, after + 1);
      assert log[|log| - n] + rate.duration <= log[|log| - n + rate.numRequests];
      CountBelow(log, start, n);
    }
  }

  /** A request is refused exactly when the last duration already holds the full number
      of allowed ones. */
  lemma RefusedExactly(rate: Rate, requests: seq<real>, now: real)
    requires Ascending(requests) && (requests != [] ==> requests[|requests| - 1] <= now) && rate.duration > 0.0
    ensures var log := FullLog(rate, requests);
      !Allows(rate, log, now) <==> CountAfter(log, now - rate.duration) == rate.numRequests
  {
    hide FullLog, CountAfter;
    WindowBound(rate, requests, now - rate.duration);
    LogFacts(rate, requests);
    var log := FullLog(rate, requests);
    CountSuffix(log, |log|, now);
  }

  /** Two full bursts, one at time zero and one a duration later. */
  function Bursts(n: nat, duration: real, k: nat): (times: seq<real>)
    ensures |times| == k && forall i :: 0 <= i < k ==> times[i] == if i < n then 0.0 else duration
  {
    if k == 0 then [] else Bursts(n, duration, k - 1) + [if k <= n then 0.0 else duration]
  }

  /** The window must be open at its start: with both ends, one can hold twice as many
      allowed requests. */
  lemma {:induction false} BothEndsHoldTwice(n: nat, duration: real, k: nat)
    requires duration > 0.0 && k <= 2 * n
    ensures FullLog(Rate(n, duration), Bursts(n, duration, k)) == Bursts(n, duration, k)
  {
    hide CountAfter, FullLog, Bursts;
    if k == 0 {
      NothingAllowed(n, duration);
    } else {
      BothEndsHoldTwice(n, duration, k - 1);
      var before := Bursts(n, duration, k - 1);
      BurstsNext(n, duration, k);
      LogNext(Rate(n, duration), before, if k <= n then 0.0 else duration);
      if k <= n {
        CountSuffix(before, 0, 0.0 - duration);
      } else {
        CountSuffix(before, n, duration - duration);
      }
    }
  }

  lemma NothingAllowed(n: nat, duration: real)
    ensures Bursts(n, duration, 0) == [] && FullLog(Rate(n, duration), []) == []
  {
  }

  lemma BurstsNext(n: nat, duration: real, k: nat)
    requires k > 0
    ensures Bursts(n, duration, k) == Bursts(n, duration, k - 1) + [if k <= n then 0.0 else duration]
  {
  }

  lemma LogNext(rate: Rate, requests: seq<real>, now: real)
    ensures FullLog(rate, requests + [now]) ==
            if Allows(rate, FullLog(rate, requests), now) then FullLog(rate, requests) + [now]
            else FullLog(rate, requests)
  {
    assert (requests + [now])[..|requests|] == requests;
  }

  // ---------- waiting ----------

  /** What a client is told to wait: until the oldest counted request leaves the window. */
  function Wait(rate: Rate, log: seq<real>, now: real): Option<real> {
    var recent := CountAfter(log, now - rate.duration);
    if recent == 0 then None else Some(WaitFor(rate, log[|log| - recent], now))
  }

  function WaitFor(rate: Rate, oldest: real, now: real): real {
    Max(0.0, rate.duration - (now - oldest))
  }

  /** The wait is exact: a refused client is allowed after it, and not a moment earlier; no
      wait is given only when nothing is ever allowed. */
  lemma WaitIsExact(rate: Rate, requests: seq<real>, now: real, later: real)
    requires Ascending(requests) && (requests != [] ==> requests[|requests| - 1] <= now <= later) && now <= later
    requires rate.duration > 0.0 && !Allows(rate, FullLog(rate, requests), now)
    ensures var log := FullLog(rate, requests); var wait := Wait(rate, log, now);
      && (wait == None <==> rate.numRequests == 0)
      && (Allows(rate, log, later) <==> wait.Some? && later - now >= wait.value)
  {
    hide FullLog, CountAfter;
    RefusedExactly(rate, requests, now);
    LogFacts(rate, requests);
    if rate.numRequests > 0 {
      CountBelow(FullLog(rate, requests), later - rate.duration, rate.numRequests);
      CountBelow(FullLog(rate, requests), now - rate.duration, rate.numRequests);
    }
  }

  // ---------- the limiter ----------

  datatype Meta = Meta(limit: nat, remaining: int, reset: int)

  /** Conversion to an integer cuts off the fraction. */
  function Truncated(x: real): int {
    if x >= 0.0 then x.Floor else -((-x).Floor)
  }

  lemma TruncatedTowardZero(x: real)
    ensures x >= 0.0 ==> Truncated(x) as real <= x < Truncated(x) as real + 1.0
    ensures x <= 0.0 ==> Truncated(x) as real - 1.0 < x <= Truncated(x) as real
  {
  }

  /** What the response says about the limit, from the log after the request. */
  function MetaOf(rate: Rate, log: seq<real>, now: real): Meta {
    var recent := CountAfter(log, now - rate.duration);
    Meta(rate.numRequests, rate.numRequests - recent,
      Truncated((if recent > 0 then log[|log| - recent] else now) + rate.duration))
  }

  /** The reported limit: how many more requests the window would take, and the whole second
      in which the first of the counted ones leaves it. */
  lemma MetaExact(rate: Rate, log: seq<real>, now: real, later: real)
    requires Ascending(log) && rate.duration > 0.0 && 0.0 <= now <= later && (log != [] ==> log[0] >= 0.0)
    ensures var meta := MetaOf(rate, log, now); var counted := CountAfter(log, now - rate.duration);
      && meta.limit == rate.numRequests && meta.remaining == rate.numRequests - counted
      && (counted == 0 ==> meta.reset as real <= now + rate.duration < meta.reset as real + 1.0)
      && (counted > 0 ==>
            && (later >= meta.reset as real + 1.0 ==> CountAfter(log, later - rate.duration) < counted)
            && (later < meta.reset as real ==> CountAfter(log, later - rate.duration) >= counted))
  {
    hide CountAfter;
    var counted := CountAfter(log, now - rate.duration);
    if counted > 0 {
      assert log[|log| - counted] >= log[0];
      CountBelow(log, later - rate.duration, counted);
    }
  }

  /** `recent` are the newest entries of the log, newest first, and all others are no
      later than `cutoff`. */
  ghost predicate Mirrors(recent: seq<real>, log: seq<real>, cutoff: real) {
    && |recent| <= |log|
    && (forall i :: 0 <= i < |recent| ==> recent[i] == log[|log| - 1 - i])
    && (forall i :: 0 <= i < |log| - |recent| ==> log[i] <= cutoff)
  }

  /** The popping loop: what is left are exactly the entries later than `cutoff`. */
  method Pruned(history: seq<real>, ghost log: seq<real>, cutoff: real) returns (recent: seq<real>)
    requires Ascending(log) && Mirrors(history, log, cutoff)
    ensures Mirrors(recent, log, cutoff) && |recent| == CountAfter(log, cutoff)
  {
    hide CountAfter;
    recent := history;
    while recent != [] && recent[|recent| - 1] <= cutoff
      invariant Mirrors(recent, log, cutoff)
    {
      recent := recent[..|recent| - 1];
    }
    CountSuffix(log, |log| - |recent|, cutoff);
  }

  lemma MirrorsLater(recent: seq<real>, log: seq<real>, cutoff: real, later: real, now: real)
    requires Mirrors(recent, log, cutoff) && cutoff <= later < now
    requires Ascending(log) && forall i :: 0 <= i < |log| ==> log[i] <= now
    ensures Mirrors(recent, log, later)
    ensures Mirrors([now] + recent, log + [now], later)
    ensures Ascending(log + [now]) && CountAfter(log + [now], later) == CountAfter(log, later) + 1
  {
    assert (log + [now])[..|log|] == log;
  }

  /** The cached history and the time it was stored say all about the log of the
      requests so far that later requests can depend on. */
  ghost predicate Consistent(rate: Rate, history: seq<real>, storedAt: real, requests: seq<real>) {
    var log := FullLog(rate, requests);
    && rate.duration > 0.0
    && Ascending(requests)
    && (forall i :: 0 <= i < |log| ==> log[i] <= storedAt)
    && Mirrors(history, log, storedAt - rate.duration)
    && (requests != [] ==> storedAt <= requests[|requests| - 1])
  }

  class OrganizationThrottle {
    const rate: Rate
    var history: seq<real>       // the cached list, newest first
    var storedAt: real           // when it was last stored
    ghost var requests: seq<real>

    ghost predicate Valid()
      reads this
    {
      Consistent(rate, history, storedAt, requests)
    }

    constructor (rate: Rate, now: real)
      requires rate.duration > 0.0
      ensures Valid() && requests == [] && this.rate == rate
    {
      this.rate := rate;
      history, storedAt, requests := [], now, [];
    }

    /** One request at `now`.  `expired` tells whether the cache has dropped the list by
        then, which it may do once it is a duration old. */
    method AllowRequest(now: real, expired: bool) returns (allowed: bool, meta: Meta, wait: Option<real>)
      requires Valid() && storedAt <= now && (requests != [] ==> requests[|requests| - 1] <= now)
      requires expired ==> storedAt + rate.duration <= now
      modifies this
      ensures Valid() && requests == old(requests) + [now]
      ensures allowed <==> Allows(rate, FullLog(rate, old(requests)), now)
      ensures meta == MetaOf(rate, FullLog(rate, requests), now)
      ensures wait == if allowed then None else Wait(rate, FullLog(rate, requests), now)
    {
      hide Consistent, FullLog, Allows, Mirrors, Ascending, MetaOf, Truncated, Wait;
      ghost var log := FullLog(rate, requests);
      CachedHistory(rate, history, storedAt, requests, now, expired);
      var recent := Pruned(if expired then [] else history, log, now - rate.duration);
      if |recent| >= rate.numRequests {
        RequestRefused(rate, history, storedAt, requests, now, recent);
        requests := requests + [now];
        var oldest := if recent != [] then recent[|recent| - 1] else now;
        wait := if recent != [] then Some(WaitFor(rate, recent[|recent| - 1], now)) else None;
        return false, Meta(rate.numRequests, 0, Truncated(oldest + rate.duration)), wait;
      }
      RequestAllowed(rate, history, storedAt, requests, now, recent);
      recent := [now] + recent;
      history, storedAt, requests := recent, now, requests + [now];
      var remaining := if rate.numRequests > |recent| then rate.numRequests - |recent| else 0;
      return true, Meta(rate.numRequests, remaining, Truncated(recent[|recent| - 1] + rate.duration)), None;
    }
  }

  /** A cached history, also one that has expired since, mirrors the log. */
  lemma CachedHistory(rate: Rate, history: seq<real>, storedAt: real, requests: seq<real>, now: real, expired: bool)
    requires Consistent(rate, history, storedAt, requests) && storedAt <= now
    requires expired ==> storedAt + rate.duration <= now
    ensures Mirrors(if expired then [] else history, FullLog(rate, requests), now - rate.duration)
    ensures Ascending(FullLog(rate, requests))
  {
    hide FullLog;
    LogFacts(rate, requests);
  }

  lemma RefusedMeta(rate: Rate, log: seq<real>, now: real, recent: seq<real>)
    requires Mirrors(recent, log, now - rate.duration)
    requires |recent| == CountAfter(log, now - rate.duration) == rate.numRequests
    ensures MetaOf(rate, log, now) ==
            Meta(rate.numRequests, 0, Truncated((if recent != [] then recent[|recent| - 1] else now) + rate.duration))
    ensures Wait(rate, log, now) == if recent != [] then Some(WaitFor(rate, recent[|recent| - 1], now)) else None
  {
    hide CountAfter, Truncated, Mirrors, WaitFor;
    OldestIsLast(recent, log, now - rate.duration);
  }

  lemma AllowedMeta(rate: Rate, log: seq<real>, now: real, newest: seq<real>)
    requires Mirrors(newest, log, now - rate.duration) && newest != []
    requires |newest| == CountAfter(log, now - rate.duration)
    ensures MetaOf(rate, log, now) ==
            Meta(rate.numRequests, rate.numRequests - |newest|, Truncated(newest[|newest| - 1] + rate.duration))
  {
    hide CountAfter, Truncated, Mirrors;
    OldestIsLast(newest, log, now - rate.duration);
  }

  /** A full pruned history refuses, as the full log does. */
  lemma RequestRefused(
    rate: Rate, history: seq<real>, storedAt: real, requests: seq<real>, now: real, recent: seq<real>)
    requires Consistent(rate, history, storedAt, requests) && storedAt <= now
    requires requests != [] ==> requests[|requests| - 1] <= now
    requires var log := FullLog(rate, requests);
      Mirrors(recent, log, now - rate.duration) && |recent| == CountAfter(log, now - rate.duration)
    requires |recent| >= rate.numRequests
    ensures !Allows(rate, FullLog(rate, requests), now)
    ensures Consistent(rate, history, storedAt, requests + [now])
    ensures MetaOf(rate, FullLog(rate, requests + [now]), now) ==
            Meta(rate.numRequests, 0, Truncated((if recent != [] then recent[|recent| - 1] else now) + rate.duration))
    ensures Wait(rate, FullLog(rate, requests + [now]), now) ==
            if recent != [] then Some(WaitFor(rate, recent[|recent| - 1], now)) else None
  {
    hide FullLog, CountAfter, Ascending, Truncated, Mirrors, MetaOf, Wait, WaitFor;
    RefusedExactly(rate, requests, now);
    LogNext(rate, requests, now);
    AscendingNext(requests, now);
    RefusedMeta(rate, FullLog(rate, requests), now, recent);
  }

  /** A pruned history with room lets the request in, as the full log does. */
  lemma RequestAllowed(
    rate: Rate, history: seq<real>, storedAt: real, requests: seq<real>, now: real, recent: seq<real>)
    requires Consistent(rate, history, storedAt, requests) && storedAt <= now
    requires requests != [] ==> requests[|requests| - 1] <= now
    requires var log := FullLog(rate, requests);
      Mirrors(recent, log, now - rate.duration) && |recent| == CountAfter(log, now - rate.duration)
    requires |recent| < rate.numRequests
    ensures Allows(rate, FullLog(rate, requests), now)
    ensures Consistent(rate, [now] + recent, now, requests + [now])
    ensures var newest := [now] + recent;
      MetaOf(rate, FullLog(rate, requests + [now]), now) ==
      Meta(rate.numRequests, rate.numRequests - |newest|, Truncated(newest[|newest| - 1] + rate.duration))
  {
    hide FullLog, CountAfter, Ascending, Truncated, Mirrors, MetaOf;
    var log := FullLog(rate, requests);
    LogFacts(rate, requests);
    LogNext(rate, requests, now);
    AscendingNext(requests, now);
    MirrorsLater(recent, log, now - rate.duration, now - rate.duration, now);
    AllowedMeta(rate, log + [now], now, [now] + recent);
  }

  lemma AscendingNext(times: seq<real>, now: real)
    requires Ascending(times) && (times != [] ==> times[|times| - 1] <= now)
    ensures Ascending(times + [now]) && forall i :: 0 <= i < |times| ==> times[i] <= now
  {
  }

  lemma OldestIsLast(recent: seq<real>, log: seq<real>, cutoff: real)
    requires Mirrors(recent, log, cutoff)
    ensures |recent| <= |log| && (recent != [] ==> recent[|recent| - 1] == log[|log| - |recent|])
  {
  }
}
