/**
 * The sliding-window rate limiter: the subscription plan table, the pruning step,
 * one admission (`throttle`) as a specification function, and the `RateLimiter`
 * class whose `Throttle` method updates its timestamp list in place.
 *
 * Clock model: `Date.now()` is not a global here. `Throttle` receives the first
 * clock read `now`; the read after the (possible) suspension is
 * `now + wait + resumeLag`, i.e. the suspend primitive lets at least `wait`
 * milliseconds pass; the read used for the appended entry is the previous read
 * plus `appendLag`. Both lags are arbitrary non-negative numbers, so the clock
 * never runs backwards within a call.
 */
module RateLimiting {
  import opened Wrappers

  /** The trailing window, `60 * 1000` milliseconds. */
  const WindowMs: int := 60 * 1000

  datatype RateLimitConfig = RateLimitConfig(requestsPerMinute: int, plan: string)

  /** `SUBSCRIPTION_PLANS`: the five HIBP subscription tiers. */
  const SubscriptionPlans: map<string, RateLimitConfig> := map[
    "Pwned 1" := RateLimitConfig(10, "Pwned 1"),
    "Pwned 2" := RateLimitConfig(50, "Pwned 2"),
    "Pwned 3" := RateLimitConfig(100, "Pwned 3"),
    "Pwned 4" := RateLimitConfig(500, "Pwned 4"),
    "Pwned 5" := RateLimitConfig(1000, "Pwned 5")
  ]

  /** The table holds exactly the five tiers, each entry names its own key, and quotas grow with the tier. */
  lemma PlanTable()
    ensures SubscriptionPlans.Keys == {"Pwned 1", "Pwned 2", "Pwned 3", "Pwned 4", "Pwned 5"}
    ensures forall name :: name in SubscriptionPlans ==>
      SubscriptionPlans[name].plan == name && SubscriptionPlans[name].requestsPerMinute >= 10
    ensures SubscriptionPlans["Pwned 1"].requestsPerMinute == 10
    ensures SubscriptionPlans["Pwned 2"].requestsPerMinute == 50
    ensures SubscriptionPlans["Pwned 3"].requestsPerMinute == 100
    ensures SubscriptionPlans["Pwned 4"].requestsPerMinute == 500
    ensures SubscriptionPlans["Pwned 5"].requestsPerMinute == 1000
  {
  }

  function Max(a: int, b: int): int {
    if a >= b then a else b
  }

  predicate Sorted(ts: seq<int>) {
    forall i, j :: 0 <= i < j < |ts| ==> ts[i] <= ts[j]
  }

  // ---------------------------------------------------------------------------
  // Pruning: `requestTimestamps.filter(timestamp => timestamp >= now - 60 * 1000)`

  /** Keeps, in their original order, the timestamps that are not older than one window before `now`. */
  function Prune(ts: seq<int>, now: int): (kept: seq<int>)
    ensures |kept| <= |ts|
    ensures forall t :: t in kept <==> t in ts && t >= now - WindowMs
  {
    if ts == [] then []
    else (if ts[0] >= now - WindowMs then [ts[0]] else []) + Prune(ts[1..], now)
  }

  /** Pruning works element by element: it distributes over concatenation (so relative order is kept). */
  lemma {:induction false} PruneAppend(a: seq<int>, b: seq<int>, now: int)
    ensures Prune(a + b, now) == Prune(a, now) + Prune(b, now)
  {
    if a == [] {
      assert a + b == b;
    } else {
      var head := if a[0] >= now - WindowMs then [a[0]] else [];
      assert (a + b)[0] == a[0];
      assert (a + b)[1..] == a[1..] + b;
      assert Prune(a + b, now) == head + Prune(a[1..] + b, now);
      PruneAppend(a[1..], b, now);
      assert Prune(a, now) == head + Prune(a[1..], now);
    }
  }

  /** An entry inside the window survives pruning; a list entirely inside the window is left as it is. */
  lemma {:induction false} PruneKeepsAll(ts: seq<int>, now: int)
    requires forall t :: t in ts ==> t >= now - WindowMs
    ensures Prune(ts, now) == ts
  {
    if ts != [] {
      assert ts[0] in ts;
      assert forall t :: t in ts[1..] ==> t in ts;
      PruneKeepsAll(ts[1..], now);
    }
  }

  /** Pruning at a later instant after pruning at an earlier one is the same as pruning once, at the later instant. */
  lemma {:induction false} PruneTwice(ts: seq<int>, earlier: int, later: int)
    requires earlier <= later
    ensures Prune(Prune(ts, earlier), later) == Prune(ts, later)
  {
    if ts != [] {
      PruneTwice(ts[1..], earlier, later);
      var head := if ts[0] >= earlier - WindowMs then [ts[0]] else [];
      PruneAppend(head, Prune(ts[1..], earlier), later);
    }
  }

  /** The later the clock, the fewer entries survive. */
  lemma {:induction false} PruneShrinks(ts: seq<int>, earlier: int, later: int)
    requires earlier <= later
    ensures |Prune(ts, later)| <= |Prune(ts, earlier)|
  {
    PruneTwice(ts, earlier, later);
  }

  /** On a chronologically ordered list, pruning only drops entries from the front. */
  lemma {:induction false} PruneSortedSuffix(ts: seq<int>, now: int)
    requires Sorted(ts)
    ensures Prune(ts, now) == ts[|ts| - |Prune(ts, now)|..]
  {
    if ts != [] {
      PruneSortedSuffix(ts[1..], now);
      if ts[0] >= now - WindowMs {
        PruneKeepsAll(ts, now);
      }
    }
  }

  lemma PruneSorted(ts: seq<int>, now: int)
    requires Sorted(ts)
    ensures Sorted(Prune(ts, now))
  {
    PruneSortedSuffix(ts, now);
  }

  // ---------------------------------------------------------------------------
  // One admission

  /**
   * What one `throttle()` call does to the timestamp list, and what it asks of
   * the suspend primitive. `lastPrune` is the clock read the final prune used
   * (`now` or `newNow`); `admittedAt` is the clock read pushed onto the list.
   */
  datatype Admission = Admission(
    timestamps: seq<int>,
    suspendedFor: Option<int>,
    lastPrune: int,
    admittedAt: int)

  /**
   * The wait before the oldest retained entry leaves the window:
   * `Math.max(0, oldestTimestamp + 60 * 1000 - now)`. On an empty list the
   * source computes NaN, which is not `> 0`; it is represented by 0 here,
   * which leads to the same behaviour (no suspension).
   */
  function WaitTime(pruned: seq<int>, now: int): (wait: int)
    ensures wait >= 0
    ensures pruned != [] ==> pruned[0] + WindowMs <= now + wait
    ensures pruned != [] && now <= pruned[0] + WindowMs ==> now + wait == pruned[0] + WindowMs
  {
    if pruned == [] then 0 else Max(0, pruned[0] + WindowMs - now)
  }

  /** The specification of `throttle()` for a limiter allowing `rpm` requests per minute. */
  function Admit(ts: seq<int>, rpm: int, now: int, resumeLag: nat, appendLag: nat): (a: Admission)
    ensures a.suspendedFor.Some? ==> 0 < a.suspendedFor.value && a.lastPrune == now + a.suspendedFor.value + resumeLag
  {
    var pruned := Prune(ts, now);
    if |pruned| < rpm then
      Admission(pruned + [now + appendLag], None, now, now + appendLag)
    else
      var wait := WaitTime(pruned, now);
      var newNow := now + wait + resumeLag;
      Admission(
        Prune(pruned, newNow) + [newNow + appendLag],
        if wait > 0 then Some(wait) else None,
        newNow,
        newNow + appendLag)
  }

  /**
   * Every call appends exactly one entry, at the end, equal to the last clock
   * read; what precedes it is exactly the old list pruned at the last prune's
   * clock read, which is no earlier than `now`.
   */
  lemma AdmitAppendsOne(ts: seq<int>, rpm: int, now: int, resumeLag: nat, appendLag: nat)
    ensures var a := Admit(ts, rpm, now, resumeLag, appendLag);
      && a.timestamps == Prune(ts, a.lastPrune) + [a.admittedAt]
      && now <= a.lastPrune
      && a.admittedAt == a.lastPrune + appendLag
  {
    var pruned := Prune(ts, now);
    if |pruned| >= rpm {
      PruneTwice(ts, now, now + WaitTime(pruned, now) + resumeLag);
    }
  }

  /**
   * The suspend primitive is invoked, with the time until the oldest retained
   * entry leaves the window, exactly when the window is full and that time is
   * positive; with no entry from the future, the duration never exceeds one window.
   */
  lemma AdmitSuspension(ts: seq<int>, rpm: int, now: int, resumeLag: nat, appendLag: nat)
    ensures var pruned := Prune(ts, now);
      var a := Admit(ts, rpm, now, resumeLag, appendLag);
      && (a.suspendedFor.Some? <==> |pruned| >= rpm && pruned != [] && pruned[0] + WindowMs > now)
      && (a.suspendedFor.Some? ==> a.suspendedFor.value == pruned[0] + WindowMs - now)
      && (a.suspendedFor.Some? && (forall t :: t in ts ==> t <= now) ==> a.suspendedFor.value <= WindowMs)
  {
    var pruned := Prune(ts, now);
    if pruned != [] {
      assert pruned[0] in pruned;
    }
  }

  /** Under quota, `throttle` does not suspend and only prunes and appends the first clock read plus the append lag. */
  lemma AdmitImmediate(ts: seq<int>, rpm: int, now: int, resumeLag: nat, appendLag: nat)
    requires |Prune(ts, now)| < rpm
    ensures var a := Admit(ts, rpm, now, resumeLag, appendLag);
      a.suspendedFor == None && a.timestamps == Prune(ts, now) + [now + appendLag]
  {
  }

  /**
   * After the call, no entry is older than one window before the clock read the
   * last prune used, and, with no entry from the future, none is later than the
   * appended one.
   */
  lemma AdmitWindow(ts: seq<int>, rpm: int, now: int, resumeLag: nat, appendLag: nat)
    ensures var a := Admit(ts, rpm, now, resumeLag, appendLag);
      forall t :: t in a.timestamps ==> a.lastPrune - WindowMs <= t
    ensures var a := Admit(ts, rpm, now, resumeLag, appendLag);
      (forall t :: t in ts ==> t <= now) ==> forall t :: t in a.timestamps ==> t <= a.admittedAt
  {
    AdmitAppendsOne(ts, rpm, now, resumeLag, appendLag);
  }

  /** A chronologically ordered list of past admissions stays ordered. */
  lemma AdmitKeepsSorted(ts: seq<int>, rpm: int, now: int, resumeLag: nat, appendLag: nat)
    requires Sorted(ts)
    requires forall t :: t in ts ==> t <= now
    ensures Sorted(Admit(ts, rpm, now, resumeLag, appendLag).timestamps)
  {
    var a := Admit(ts, rpm, now, resumeLag, appendLag);
    AdmitAppendsOne(ts, rpm, now, resumeLag, appendLag);
    var kept := Prune(ts, a.lastPrune);
    PruneSorted(ts, a.lastPrune);
    assert forall t :: t in kept ==> t <= a.admittedAt;
    assert forall i :: 0 <= i < |kept| ==> kept[i] in kept;
  }

  /**
   * Quota: when the clock read after a suspension is strictly later than the
   * instant the wait was computed to end (`resumeLag > 0`), the oldest entry
   * is evicted, so a list of at most `rpm` entries stays at most `rpm` long;
   * before the append the list is strictly under quota.
   */
  lemma AdmitQuota(ts: seq<int>, rpm: int, now: int, resumeLag: nat, appendLag: nat)
    requires rpm >= 1 && |ts| <= rpm
    requires resumeLag > 0
    ensures var a := Admit(ts, rpm, now, resumeLag, appendLag);
      |Prune(ts, a.lastPrune)| < rpm && |a.timestamps| <= rpm
  {
    var a := Admit(ts, rpm, now, resumeLag, appendLag);
    var pruned := Prune(ts, now);
    AdmitAppendsOne(ts, rpm, now, resumeLag, appendLag);
    if |pruned| >= rpm {
      assert pruned[0] in pruned;
      var newNow := a.lastPrune;
      assert newNow == pruned[0] + WindowMs + resumeLag;
      assert Prune(pruned, newNow) == Prune(pruned[1..], newNow);
      PruneTwice(ts, now, newNow);
    }
  }

  /**
   * The boundary the `>=` filter leaves open: on an ordered list whose window
   * is exactly full, a resumption at exactly `oldest + 60000` evicts nothing,
   * and the list grows to `rpm + 1` entries.
   */
  lemma AdmitExactResumeOverflows(ts: seq<int>, rpm: int, now: int, appendLag: nat)
    requires Sorted(ts) && rpm >= 1
    requires |Prune(ts, now)| == rpm
    ensures |Admit(ts, rpm, now, 0, appendLag).timestamps| == rpm + 1
  {
    var pruned := Prune(ts, now);
    PruneSorted(ts, now);
    assert pruned[0] in pruned;
    var newNow := pruned[0] + WindowMs;
    assert WaitTime(pruned, now) == pruned[0] + WindowMs - now;
    forall t | t in pruned ensures t >= newNow - WindowMs {
      var i :| 0 <= i < |pruned| && pruned[i] == t;
    }
    PruneKeepsAll(pruned, newNow);
  }

  /**
   * At the boundary instant the list grows without bound: once the oldest
   * entry is exactly one window old, a call at that instant on a full window
   * computes a wait of 0, does not suspend, evicts nothing and appends, and
   * the resulting list satisfies the same hypotheses again.
   */
  lemma GrowsWithoutWait(ts: seq<int>, rpm: int, now: int)
    requires rpm >= 1 && Sorted(ts) && |ts| >= rpm
    requires ts[0] == now - WindowMs
    requires forall t :: t in ts ==> t <= now
    ensures var a := Admit(ts, rpm, now, 0, 0);
      && a.suspendedFor == None
      && a.timestamps == ts + [now]
      && Sorted(a.timestamps) && a.timestamps[0] == now - WindowMs
  {
    forall t | t in ts ensures t >= now - WindowMs {
      var i :| 0 <= i < |ts| && ts[i] == t;
    }
    PruneKeepsAll(ts, now);
    var r := ts + [now];
    forall i, j | 0 <= i < j < |r| ensures r[i] <= r[j] {
      if j == |ts| {
        assert ts[i] in ts;
      }
    }
  }

  // ---------------------------------------------------------------------------
  // The corrected wait

  /**
   * The wait the quota needs: until the oldest retained entry is strictly
   * outside the window, one millisecond longer than `WaitTime`.
   */
  function CorrectedWaitTime(pruned: seq<int>, now: int): (wait: int)
    ensures pruned != [] ==> wait > 0 && pruned[0] + WindowMs < now + wait
  {
    if pruned == [] then 0 else WaitTime(pruned, now) + 1
  }

  /** `Admit` with `CorrectedWaitTime` in place of `WaitTime`. */
  function AdmitCorrected(ts: seq<int>, rpm: int, now: int, resumeLag: nat, appendLag: nat): Admission {
    var pruned := Prune(ts, now);
    if |pruned| < rpm then
      Admission(pruned + [now + appendLag], None, now, now + appendLag)
    else
      var wait := CorrectedWaitTime(pruned, now);
      var newNow := now + wait + resumeLag;
      Admission(
        Prune(pruned, newNow) + [newNow + appendLag],
        if wait > 0 then Some(wait) else None,
        newNow,
        newNow + appendLag)
  }

  /**
   * The corrected admission suspends on every full window and leaves the list
   * exactly as the written one does when its resumption comes one millisecond late.
   */
  lemma AdmitCorrectedIsStrictResume(ts: seq<int>, rpm: int, now: int, resumeLag: nat, appendLag: nat)
    requires rpm >= 1
    ensures var c := AdmitCorrected(ts, rpm, now, resumeLag, appendLag);
      var s := Admit(ts, rpm, now, resumeLag + 1, appendLag);
      && c.timestamps == s.timestamps && c.lastPrune == s.lastPrune && c.admittedAt == s.admittedAt
      && (c.suspendedFor.Some? <==> |Prune(ts, now)| >= rpm)
  {
    var pruned := Prune(ts, now);
    if |pruned| >= rpm {
      var wait := WaitTime(pruned, now);
      assert CorrectedWaitTime(pruned, now) == wait + 1;
      assert now + (wait + 1) + resumeLag == now + wait + (resumeLag + 1);
    }
  }

  /** With the corrected wait the quota holds whatever the resumption lag, zero included. */
  lemma AdmitCorrectedQuota(ts: seq<int>, rpm: int, now: int, resumeLag: nat, appendLag: nat)
    requires rpm >= 1 && |ts| <= rpm
    ensures |AdmitCorrected(ts, rpm, now, resumeLag, appendLag).timestamps| <= rpm
  {
    AdmitCorrectedIsStrictResume(ts, rpm, now, resumeLag, appendLag);
    AdmitQuota(ts, rpm, now, resumeLag + 1, appendLag);
  }

  // ---------------------------------------------------------------------------
  // The objects

  /**
   * The injected suspend primitive (`setTimeout`, or a test double). It is
   * observed through the durations it has been asked to wait, oldest first.
   */
  class Suspender {
    var requested: seq<int>

    constructor ()
      ensures requested == []
    {
      requested := [];
    }

    method Suspend(ms: int)
      modifies this
      ensures requested == old(requested) + [ms]
    {
      requested := requested + [ms];
    }
  }

  class RateLimiter {
    var requestTimestamps: seq<int>
    var config: RateLimitConfig
    var suspender: Suspender

    constructor (config: RateLimitConfig, suspender: Suspender)
      ensures this.config == config && this.suspender == suspender
      ensures requestTimestamps == []
    {
      this.config := config;
      this.suspender := suspender;
      requestTimestamps := [];
    }

    /**
     * `throttle()`: prune, wait for the oldest entry to leave a full window,
     * prune again with the clock read after the wait, append the clock read.
     */
    method Throttle(now: int, resumeLag: nat, appendLag: nat)
      modifies this`requestTimestamps, suspender
      ensures config == old(config) && suspender == old(suspender)
      ensures var a := Admit(old(requestTimestamps), config.requestsPerMinute, now, resumeLag, appendLag);
        && requestTimestamps == a.timestamps
        && suspender.requested == old(suspender.requested) +
             (if a.suspendedFor.Some? then [a.suspendedFor.value] else [])
    {
      requestTimestamps := Prune(requestTimestamps, now);
      var clock := now;
      if |requestTimestamps| >= config.requestsPerMinute {
        var waitTime := 0;
        if requestTimestamps != [] {
          var oldestTimestamp := requestTimestamps[0];
          waitTime := Max(0, oldestTimestamp + WindowMs - now);
        }
        if waitTime > 0 {
          suspender.Suspend(waitTime);
        }
        var newNow := now + waitTime + resumeLag;
        requestTimestamps := Prune(requestTimestamps, newNow);
        clock := newNow;
      }
      requestTimestamps := requestTimestamps + [clock + appendLag];
    }
  }
}
