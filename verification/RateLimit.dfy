/** The per-address handshake limiter: a sliding-window log pruned as it is read,
    with garbage collection, proved against a limiter that forgets nothing. */
module RateLimit {
  import opened Prelude

  type Ip = nat
  type Instant = nat

  /** Nanoseconds per second; instants are counted in nanoseconds. */
  const NANOS: nat := 1_000_000_000

  datatype Limits = Limits(window: nat, max: nat)

  function AtLeastOne(n: nat): nat {
    if n >= 1 then n else 1
  }

  type Log = seq<Instant>
  type Hits = map<Ip, Log>

  // ---- a single log ----

  /** The entries less than `window` old at `now`; a clock reading before an entry makes it age 0. */
  function Recent(log: Log, now: Instant, window: nat): (r: Log)
    ensures |r| <= |log|
    ensures forall t :: t in r ==> t in log
  {
    if log == [] then []
    else
      var rest := Recent(log[..|log| - 1], now, window);
      var t := log[|log| - 1];
      if now < t + window then rest + [t] else rest
  }

  lemma {:induction false} RecentOfRecent(log: Log, now: Instant, later: Instant, window: nat)
    requires now <= later
    ensures Recent(Recent(log, now, window), later, window) == Recent(log, later, window)
  {
    if log == [] {
    } else {
      RecentOfRecent(log[..|log| - 1], now, later, window);
      var rest := Recent(log[..|log| - 1], now, window);
      var t := log[|log| - 1];
      assert (rest + [t])[..|rest|] == rest;
    }
  }

  lemma RecentAppend(log: Log, t: Instant, now: Instant, window: nat)
    ensures Recent(log + [t], now, window)
         == if now < t + window then Recent(log, now, window) + [t] else Recent(log, now, window)
  {
    assert (log + [t])[..|log|] == log;
  }

  lemma {:induction false} NoneRecent(log: Log, now: Instant, window: nat)
    requires forall i :: 0 <= i < |log| ==> log[i] + window <= now
    ensures Recent(log, now, window) == []
  {
    if log == [] {
    } else {
      NoneRecent(log[..|log| - 1], now, window);
    }
  }

  lemma {:induction false} RecentMeans(log: Log, now: Instant, window: nat, t: Instant)
    ensures t in Recent(log, now, window) <==> t in log && now < t + window
  {
    if log == [] {
    } else {
      RecentMeans(log[..|log| - 1], now, window, t);
      assert log == log[..|log| - 1] + [log[|log| - 1]];
    }
  }

  /** How many entries lie in the half-open interval [from, from + span). */
  function CountIn(log: Log, from: Instant, span: nat): nat {
    if log == [] then 0
    else CountIn(log[..|log| - 1], from, span) + (if from <= log[|log| - 1] < from + span then 1 else 0)
  }

  /** The first instant of the last `window` up to and including `now`. */
  function WindowStart(now: Instant, window: nat): Instant {
    if now + 1 >= window then now + 1 - window else 0
  }

  /** As long as no entry lies in the future, the recent ones are those of the last window. */
  lemma {:induction false} RecentCounts(log: Log, now: Instant, window: nat)
    requires forall t :: t in log ==> t <= now
    ensures |Recent(log, now, window)| == CountIn(log, WindowStart(now, window), window)
  {
    if log == [] {
    } else {
      assert log[|log| - 1] in log;
      var front := log[..|log| - 1];
      forall t | t in front
        ensures t <= now
      {
        assert t in log;
      }
      RecentCounts(log[..|log| - 1], now, window);
    }
  }

  // ---- the limiter as implemented ----

  function Entry(hits: Hits, ip: Ip): Log {
    if ip in hits then hits[ip] else []
  }

  function AllowStep(limits: Limits, hits: Hits, ip: Ip, now: Instant): (bool, Hits) {
    var pruned := Recent(Entry(hits, ip), now, limits.window);
    if |pruned| % U32_LIMIT >= limits.max then (false, hits[ip := pruned])
    else (true, hits[ip := pruned + [now]])
  }

  predicate AnyRecent(log: Log, now: Instant, window: nat) {
    exists t | t in log :: now < t + window
  }

  function GcStep(limits: Limits, hits: Hits, now: Instant): Hits {
    map ip | ip in hits && AnyRecent(hits[ip], now, limits.window) :: hits[ip]
  }

  // ---- the limiter that keeps everything ----

  datatype Call = Allow(ip: Ip, now: Instant) | Gc(now: Instant)

  predicate Ordered(calls: seq<Call>) {
    forall i, j :: 0 <= i < j < |calls| ==> calls[i].now <= calls[j].now
  }

  /** Every allowed call so far, per address, never pruned. */
  function History(limits: Limits, calls: seq<Call>, i: nat, ip: Ip): Log
    requires i <= |calls|
  {
    if i == 0 then []
    else
      var before := History(limits, calls, i - 1, ip);
      var c := calls[i - 1];
      if c.Allow? && c.ip == ip && |Recent(before, c.now, limits.window)| < limits.max then before + [c.now]
      else before
  }

  /** What one call leaves of the stored logs. */
  function HitsStep(limits: Limits, hits: Hits, c: Call): Hits {
    match c
    case Allow(ip, now) => AllowStep(limits, hits, ip, now).1
    case Gc(now) => GcStep(limits, hits, now)
  }

  function HitsAfter(limits: Limits, calls: seq<Call>, i: nat): Hits
    requires i <= |calls|
  {
    if i == 0 then map[] else HitsStep(limits, HitsAfter(limits, calls, i - 1), calls[i - 1])
  }

  /** The decision the implementation makes at call `i`. */
  predicate Allowed(limits: Limits, calls: seq<Call>, i: nat)
    requires i < |calls| && calls[i].Allow?
  {
    AllowStep(limits, HitsAfter(limits, calls, i), calls[i].ip, calls[i].now).0
  }

  /** From `now` on, the two logs show the same recent entries. */
  ghost predicate SameRecent(a: Log, b: Log, now: Instant, window: nat) {
    forall later :: later >= now ==> Recent(a, later, window) == Recent(b, later, window)
  }

  lemma SameNow(a: Log, b: Log, now: Instant, window: nat)
    requires SameRecent(a, b, now, window)
    ensures Recent(a, now, window) == Recent(b, now, window)
  {
  }

  lemma PruneIsInvisible(a: Log, b: Log, now: Instant, window: nat)
    requires SameRecent(a, b, now, window)
    ensures SameRecent(Recent(a, now, window), b, now, window)
  {
    forall later | later >= now
      ensures Recent(Recent(a, now, window), later, window) == Recent(b, later, window)
    {
      RecentOfRecent(a, now, later, window);
    }
  }

  lemma AppendKeepsSame(a: Log, b: Log, now: Instant, window: nat)
    requires SameRecent(a, b, now, window)
    ensures SameRecent(a + [now], b + [now], now, window)
  {
    forall later | later >= now
      ensures Recent(a + [now], later, window) == Recent(b + [now], later, window)
    {
      RecentAppend(a, now, later, window);
      RecentAppend(b, now, later, window);
    }
  }

  lemma DropIsInvisible(a: Log, b: Log, now: Instant, window: nat)
    requires SameRecent(a, b, now, window) && !AnyRecent(a, now, window)
    ensures SameRecent([], b, now, window)
  {
    forall later | later >= now
      ensures Recent([], later, window) == Recent(b, later, window)
    {
      assert forall i :: 0 <= i < |a| ==> a[i] in a;
      NoneRecent(a, later, window);
    }
  }

  function Clock(calls: seq<Call>, i: nat): Instant
    requires i <= |calls|
  {
    if i == 0 then 0 else calls[i - 1].now
  }

  /** The stored log is short and, from `now` on, as good as the full history `b`. */
  ghost predicate Tracks(limits: Limits, hits: Hits, ip: Ip, b: Log, now: Instant) {
    |Entry(hits, ip)| <= limits.max && SameRecent(Entry(hits, ip), b, now, limits.window)
  }

  lemma TracksLater(limits: Limits, hits: Hits, ip: Ip, b: Log, now: Instant, later: Instant)
    requires Tracks(limits, hits, ip, b, now) && now <= later
    ensures Tracks(limits, hits, ip, b, later)
  {
  }

  lemma NarrowingIsLossless(n: nat)
    requires n < U32_LIMIT
    ensures n % U32_LIMIT == n
  {
  }

  lemma AllowKeepsTrack(limits: Limits, hits: Hits, ip: Ip, b: Log, now: Instant)
    requires 1 <= limits.max < U32_LIMIT && Tracks(limits, hits, ip, b, now)
    ensures var full := |Recent(b, now, limits.window)| >= limits.max;
            var (ok, hits') := AllowStep(limits, hits, ip, now);
            ok == !full && Tracks(limits, hits', ip, if full then b else b + [now], now)
  {
    var a, w := Entry(hits, ip), limits.window;
    var pruned := Recent(a, now, w);
    SameNow(a, b, now, w);
    NarrowingIsLossless(|pruned|);
    PruneIsInvisible(a, b, now, w);
    if |pruned| >= limits.max {
      assert Entry(AllowStep(limits, hits, ip, now).1, ip) == pruned;
    } else {
      AppendKeepsSame(pruned, b, now, w);
      assert Entry(AllowStep(limits, hits, ip, now).1, ip) == pruned + [now];
    }
  }

  lemma GcKeepsTrack(limits: Limits, hits: Hits, ip: Ip, b: Log, now: Instant)
    requires Tracks(limits, hits, ip, b, now)
    ensures Tracks(limits, GcStep(limits, hits, now), ip, b, now)
  {
    if !AnyRecent(Entry(hits, ip), now, limits.window) {
      DropIsInvisible(Entry(hits, ip), b, now, limits.window);
    }
  }

  lemma {:induction false} PrunedLogTracksHistory(limits: Limits, calls: seq<Call>, i: nat, ip: Ip)
    requires 1 <= limits.max < U32_LIMIT && Ordered(calls) && i <= |calls|
    ensures Tracks(limits, HitsAfter(limits, calls, i), ip, History(limits, calls, i, ip), Clock(calls, i))
  {
    if i == 0 {
    } else {
      PrunedLogTracksHistory(limits, calls, i - 1, ip);
      var hits, b, c := HitsAfter(limits, calls, i - 1), History(limits, calls, i - 1, ip), calls[i - 1];
      TracksLater(limits, hits, ip, b, Clock(calls, i - 1), c.now);
      match c
      case Gc(now) => GcKeepsTrack(limits, hits, ip, b, now);
      case Allow(from, now) =>
        if from == ip {
          AllowKeepsTrack(limits, hits, ip, b, now);
        }
    }
  }

  /** Pruning and garbage collection never change a decision: each call is allowed exactly when
      fewer than `max` calls were allowed from that address in the last window. */
  lemma DecidesLikeFullHistory(limits: Limits, calls: seq<Call>, i: nat)
    requires 1 <= limits.max < U32_LIMIT && Ordered(calls) && i < |calls| && calls[i].Allow?
    ensures Allowed(limits, calls, i) <==>
            |Recent(History(limits, calls, i, calls[i].ip), calls[i].now, limits.window)| < limits.max
  {
    var hits, b, c := HitsAfter(limits, calls, i), History(limits, calls, i, calls[i].ip), calls[i];
    PrunedLogTracksHistory(limits, calls, i, c.ip);
    TracksLater(limits, hits, c.ip, b, Clock(calls, i), c.now);
    AllowKeepsTrack(limits, hits, c.ip, b, c.now);
  }

  lemma {:induction false} HistoryIsPast(limits: Limits, calls: seq<Call>, i: nat, ip: Ip)
    requires Ordered(calls) && i <= |calls|
    ensures forall t :: t in History(limits, calls, i, ip) ==> t <= Clock(calls, i)
  {
    if i == 0 {
    } else {
      HistoryIsPast(limits, calls, i - 1, ip);
      assert Clock(calls, i - 1) <= Clock(calls, i);
    }
  }

  /** After an allow call the stored log of its address is exactly the recent part of the history. */
  lemma StoredAfterAllow(limits: Limits, calls: seq<Call>, i: nat)
    requires 1 <= limits.max < U32_LIMIT && Ordered(calls) && i < |calls| && calls[i].Allow? && limits.window > 0
    ensures var hits, ip := HitsAfter(limits, calls, i + 1), calls[i].ip;
            ip in hits && hits[ip] == Recent(History(limits, calls, i + 1, ip), calls[i].now, limits.window)
  {
    var hits, c := HitsAfter(limits, calls, i), calls[i];
    PrunedLogTracksHistory(limits, calls, i, c.ip);
    TracksLater(limits, hits, c.ip, History(limits, calls, i, c.ip), Clock(calls, i), c.now);
    SameNow(Entry(hits, c.ip), History(limits, calls, i, c.ip), c.now, limits.window);
    HistoryIsAllowedCalls(limits, calls, i, c.ip);
    RecentAppend(History(limits, calls, i, c.ip), c.now, c.now, limits.window);
    RecentOfRecent(History(limits, calls, i, c.ip), c.now, c.now, limits.window);
  }

  lemma {:induction false} AnyRecentMeans(log: Log, now: Instant, window: nat)
    ensures AnyRecent(log, now, window) <==> Recent(log, now, window) != []
  {
    if Recent(log, now, window) != [] {
      RecentMeans(log, now, window, Recent(log, now, window)[0]);
    }
    if AnyRecent(log, now, window) {
      var t :| t in log && now < t + window;
      RecentMeans(log, now, window, t);
    }
  }

  /** After a collection exactly the addresses that the full history shows a recent call of are
      stored. */
  lemma StoredAfterGc(limits: Limits, calls: seq<Call>, i: nat, ip: Ip)
    requires 1 <= limits.max < U32_LIMIT && Ordered(calls) && i < |calls| && calls[i].Gc?
    ensures ip in HitsAfter(limits, calls, i + 1) <==>
            CountIn(History(limits, calls, i + 1, ip), WindowStart(calls[i].now, limits.window), limits.window) > 0
  {
    var hits, b, now := HitsAfter(limits, calls, i), History(limits, calls, i, ip), calls[i].now;
    PrunedLogTracksHistory(limits, calls, i, ip);
    TracksLater(limits, hits, ip, b, Clock(calls, i), now);
    SameNow(Entry(hits, ip), b, now, limits.window);
    AnyRecentMeans(Entry(hits, ip), now, limits.window);
    HistoryIsPast(limits, calls, i + 1, ip);
    assert History(limits, calls, i + 1, ip) == b;
    RecentCounts(b, now, limits.window);
  }

  /** A call is refused only when exactly `max` were allowed in the last window, and no stored log
      ever outgrows `max`, so narrowing its length to 32 bits loses nothing. */
  lemma RefusedOnlyWhenFull(limits: Limits, calls: seq<Call>, i: nat)
    requires 1 <= limits.max < U32_LIMIT && Ordered(calls) && i < |calls| && calls[i].Allow?
    ensures |Entry(HitsAfter(limits, calls, i), calls[i].ip)| <= limits.max
    ensures !Allowed(limits, calls, i) <==>
            CountIn(History(limits, calls, i, calls[i].ip), WindowStart(calls[i].now, limits.window), limits.window) == limits.max
  {
    DecidesLikeFullHistory(limits, calls, i);
    HistoryIsPast(limits, calls, i, calls[i].ip);
    assert Clock(calls, i) <= Clock(calls, i + 1);
    RecentCounts(History(limits, calls, i, calls[i].ip), calls[i].now, limits.window);
    var hits, b, c := HitsAfter(limits, calls, i), History(limits, calls, i, calls[i].ip), calls[i];
    PrunedLogTracksHistory(limits, calls, i, c.ip);
    TracksLater(limits, hits, c.ip, b, Clock(calls, i), c.now);
    SameNow(Entry(hits, c.ip), b, c.now, limits.window);
  }

  // ---- the bound ----

  /** Entries of an interval of length `window` are all still recent at any time inside it. */
  lemma {:induction false} CountedAreRecent(log: Log, from: Instant, now: Instant, window: nat)
    requires from <= now < from + window
    ensures CountIn(log, from, window) <= |Recent(log, now, window)|
  {
    if log == [] {
    } else {
      CountedAreRecent(log[..|log| - 1], from, now, window);
    }
  }

  lemma CountAppend(log: Log, t: Instant, from: Instant, span: nat)
    ensures CountIn(log + [t], from, span) == CountIn(log, from, span) + (if from <= t < from + span then 1 else 0)
  {
    assert (log + [t])[..|log|] == log;
  }

  lemma {:induction false} OneWindowBound(limits: Limits, calls: seq<Call>, i: nat, ip: Ip, from: Instant)
    requires i <= |calls|
    ensures CountIn(History(limits, calls, i, ip), from, limits.window) <= limits.max
  {
    if i == 0 {
    } else {
      OneWindowBound(limits, calls, i - 1, ip, from);
      var before, now := History(limits, calls, i - 1, ip), calls[i - 1].now;
      CountAppend(before, now, from, limits.window);
      if from <= now < from + limits.window {
        CountedAreRecent(before, from, now, limits.window);
      }
    }
  }

  lemma {:induction false} CountSplits(log: Log, from: Instant, first: nat, rest: nat)
    ensures CountIn(log, from, first + rest) == CountIn(log, from, first) + CountIn(log, from + first, rest)
  {
    if log == [] {
    } else {
      CountSplits(log[..|log| - 1], from, first, rest);
    }
  }

  /** From any address, at most k * max handshakes are allowed in any half-open interval of
      length k * window, however calls and collections interleave. */
  lemma {:induction false} RateBound(limits: Limits, calls: seq<Call>, ip: Ip, from: Instant, k: nat)
    ensures CountIn(History(limits, calls, |calls|, ip), from, k * limits.window) <= k * limits.max
    decreases k
  {
    var log := History(limits, calls, |calls|, ip);
    if k == 0 {
      EmptyInterval(log, from);
    } else {
      RateBound(limits, calls, ip, from + limits.window, k - 1);
      OneWindowBound(limits, calls, |calls|, ip, from);
      assert k * limits.window == limits.window + (k - 1) * limits.window;
      assert k * limits.max == limits.max + (k - 1) * limits.max;
      CountSplits(log, from, limits.window, (k - 1) * limits.window);
    }
  }

  lemma {:induction false} EmptyInterval(log: Log, from: Instant)
    ensures CountIn(log, from, 0) == 0
  {
    if log == [] {
    } else {
      EmptyInterval(log[..|log| - 1], from);
    }
  }

  /** The history the bound speaks of is exactly the log of allowed calls. */
  lemma HistoryIsAllowedCalls(limits: Limits, calls: seq<Call>, i: nat, ip: Ip)
    requires 1 <= limits.max < U32_LIMIT && Ordered(calls) && i < |calls|
    ensures History(limits, calls, i + 1, ip) ==
            if calls[i].Allow? && calls[i].ip == ip && Allowed(limits, calls, i)
            then History(limits, calls, i, ip) + [calls[i].now]
            else History(limits, calls, i, ip)
  {
    if calls[i].Allow? {
      DecidesLikeFullHistory(limits, calls, i);
    }
  }

  // ---- one more call ----

  lemma {:induction false} HitsPrefix(limits: Limits, calls: seq<Call>, more: seq<Call>, n: nat)
    requires n <= |calls| && calls <= more
    ensures HitsAfter(limits, calls, n) == HitsAfter(limits, more, n)
  {
    if n == 0 {
    } else {
      HitsPrefix(limits, calls, more, n - 1);
      assert calls[n - 1] == more[n - 1];
    }
  }

  lemma {:induction false} HistoryPrefix(limits: Limits, calls: seq<Call>, more: seq<Call>, n: nat, ip: Ip)
    requires n <= |calls| && calls <= more
    ensures History(limits, calls, n, ip) == History(limits, more, n, ip)
  {
    if n == 0 {
    } else {
      HistoryPrefix(limits, calls, more, n - 1, ip);
    }
  }

  /** The stored logs and the full history after one more call. */
  lemma OneMoreCall(limits: Limits, before: seq<Call>, call: Call, ip: Ip)
    requires 1 <= limits.max < U32_LIMIT && Ordered(before + [call])
    ensures var calls, hits := before + [call], HitsAfter(limits, before, |before|);
            var history := History(limits, before, |before|, ip);
            && HitsAfter(limits, calls, |calls|) == HitsStep(limits, hits, call)
            && History(limits, calls, |calls|, ip) ==
               if call.Allow? && call.ip == ip && AllowStep(limits, hits, ip, call.now).0
               then history + [call.now] else history
  {
    var calls := before + [call];
    HitsPrefix(limits, before, calls, |before|);
    HistoryPrefix(limits, before, calls, |before|, ip);
    HistoryIsAllowedCalls(limits, calls, |before|, ip);
  }

  /** The stored logs are what the calls left. */
  ghost predicate Stored(limits: Limits, hits: Hits, calls: seq<Call>) {
    hits == HitsAfter(limits, calls, |calls|)
  }

  /** Fewer than `max` calls were allowed in the last window, by the full history. */
  ghost predicate HasRoom(limits: Limits, calls: seq<Call>, ip: Ip, now: Instant) {
    CountIn(History(limits, calls, |calls|, ip), WindowStart(now, limits.window), limits.window) < limits.max
  }

  /** Some call of the address was allowed in the last window, by the full history. */
  ghost predicate CalledWithin(limits: Limits, calls: seq<Call>, ip: Ip, now: Instant) {
    CountIn(History(limits, calls, |calls|, ip), WindowStart(now, limits.window), limits.window) > 0
  }

  lemma StoredOneMore(limits: Limits, hits: Hits, calls: seq<Call>, call: Call)
    requires Stored(limits, hits, calls)
    ensures Stored(limits, HitsStep(limits, hits, call), calls + [call])
  {
    HitsPrefix(limits, calls, calls + [call], |calls|);
  }

  lemma AllowedByHistory(limits: Limits, hits: Hits, calls: seq<Call>, ip: Ip, now: Instant)
    requires 1 <= limits.max < U32_LIMIT && Stored(limits, hits, calls) && Ordered(calls + [Allow(ip, now)])
    ensures AllowStep(limits, hits, ip, now).0 <==> HasRoom(limits, calls, ip, now)
  {
    var more := calls + [Allow(ip, now)];
    HitsPrefix(limits, calls, more, |calls|);
    HistoryPrefix(limits, calls, more, |calls|, ip);
    DecidesLikeFullHistory(limits, more, |calls|);
    HistoryIsPast(limits, more, |calls|, ip);
    assert Clock(more, |calls|) <= Clock(more, |calls| + 1);
    RecentCounts(History(limits, more, |calls|, ip), now, limits.window);
  }

  /** What a new call does: the stored logs stay those of all calls, and the answer is the history's. */
  lemma AllowMade(limits: Limits, hits: Hits, calls: seq<Call>, ip: Ip, now: Instant)
    requires 1 <= limits.max < U32_LIMIT && Stored(limits, hits, calls)
    ensures Stored(limits, AllowStep(limits, hits, ip, now).1, calls + [Allow(ip, now)])
    ensures Ordered(calls + [Allow(ip, now)]) ==> AllowStep(limits, hits, ip, now).0 == HasRoom(limits, calls, ip, now)
  {
    StoredOneMore(limits, hits, calls, Allow(ip, now));
    if Ordered(calls + [Allow(ip, now)]) {
      AllowedByHistory(limits, hits, calls, ip, now);
    }
  }

  // ---- the limiter as an object ----

  class RateLimit {
    const limits: Limits
    var hits: Hits
    /** Every call made so far. */
    ghost var calls: seq<Call>

    /** The limits are ones the bounds hold for, and the stored logs are what the calls left. */
    ghost predicate Valid()
      reads this
    {
      1 <= limits.max < U32_LIMIT && NANOS <= limits.window && Stored(limits, hits, calls)
    }

    constructor (max: U32, windowSecs: U64)
      ensures Valid() && calls == []
      ensures max >= 1 ==> limits.max == max
      ensures windowSecs >= 1 ==> limits.window == 1_000_000_000 * windowSecs
      ensures max == 0 ==> limits.max == 1
      ensures windowSecs == 0 ==> limits.window == 1_000_000_000
    {
      limits := Limits(NANOS * AtLeastOne(windowSecs), AtLeastOne(max));
      hits := map[];
      calls := [];
    }

    method Allow(ip: Ip, now: Instant) returns (ok: bool)
      requires Valid()
      modifies this
      ensures Valid() && calls == old(calls) + [Call.Allow(ip, now)]
      ensures (ok, hits) == AllowStep(limits, old(hits), ip, now)
      ensures Ordered(calls) ==> ok == HasRoom(limits, old(calls), ip, now)
    {
      ghost var before := hits;
      AllowMade(limits, hits, calls, ip, now);
      calls := calls + [Call.Allow(ip, now)];
      if ip !in hits {
        hits := hits[ip := []];
      }
      var entry := Recent(hits[ip], now, limits.window);
      hits := hits[ip := entry];
      assert hits == before[ip := entry];
      if |entry| % U32_LIMIT >= limits.max {
        return false;
      }
      hits := hits[ip := entry + [now]];
      assert hits == before[ip := entry + [now]];
      return true;
    }

    /** Exactly the addresses without a recent call are forgotten; for everything later, what is left
        is as good as the full history. */
    method Gc(now: Instant)
      requires Valid()
      modifies this
      ensures Valid() && calls == old(calls) + [Call.Gc(now)]
      ensures hits == GcStep(limits, old(hits), now)
      ensures Ordered(calls) ==> forall ip :: Tracks(limits, hits, ip, History(limits, calls, |calls|, ip), now)
      ensures Ordered(calls) ==> forall ip :: ip in hits <==> CalledWithin(limits, calls, ip, now)
    {
      StoredOneMore(limits, hits, calls, Call.Gc(now));
      calls := calls + [Call.Gc(now)];
      hits := map ip | ip in hits && AnyRecent(hits[ip], now, limits.window) :: hits[ip];
      if Ordered(calls) {
        forall ip
          ensures Tracks(limits, hits, ip, History(limits, calls, |calls|, ip), now)
          ensures ip in hits <==> CalledWithin(limits, calls, ip, now)
        {
          PrunedLogTracksHistory(limits, calls, |calls|, ip);
          StoredAfterGc(limits, calls, |calls| - 1, ip);
        }
      }
    }
  }
}
