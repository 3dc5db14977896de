/**
 * Sequences of `throttle()` calls made one after another by a single caller:
 * the history of admissions they record, the quota over every trailing window
 * of that history, and the two rate-limiter test scenarios.
 */
module RateLimitRuns {
  import opened RateLimiting

  /**
   * One call as its environment sees it: the time that passes between the
   * previous call's last clock read and this call's first one, and the two
   * lags of the clock model of `Throttle`.
   */
  datatype Call = Call(gap: nat, resumeLag: nat, appendLag: nat)

  /**
   * The limiter's list, the last clock read, the clock read of the last prune,
   * and every admission ever recorded (including those pruned since).
   */
  datatype LimiterState = LimiterState(
    timestamps: seq<int>,
    clock: int,
    lastPrune: int,
    history: seq<int>)

  function Step(s: LimiterState, rpm: int, c: Call): LimiterState {
    var a := Admit(s.timestamps, rpm, s.clock + c.gap, c.resumeLag, c.appendLag);
    LimiterState(a.timestamps, a.admittedAt, a.lastPrune, s.history + [a.admittedAt])
  }

  /** A fresh limiter (empty list, clock at `start`) after the given calls, in order. */
  function Run(rpm: int, start: int, calls: seq<Call>): LimiterState {
    if calls == [] then LimiterState([], start, start, [])
    else Step(Run(rpm, start, calls[..|calls| - 1]), rpm, calls[|calls| - 1])
  }

  /** The admissions of `h` that fall in the closed trailing window `[T - 60000, T]`. */
  function Window(h: seq<int>, T: int): seq<int> {
    if h == [] then []
    else Window(h[..|h| - 1], T) + (if T - WindowMs <= h[|h| - 1] <= T then [h[|h| - 1]] else [])
  }

  lemma WindowAppend(h: seq<int>, x: int, T: int)
    ensures Window(h + [x], T) == Window(h, T) + (if T - WindowMs <= x <= T then [x] else [])
  {
    assert (h + [x])[..|h|] == h;
  }

  /** A window ending at or after `q` holds no more admissions than survive a prune at `q`. */
  lemma {:induction false} WindowWithinPrune(h: seq<int>, T: int, q: int)
    requires q <= T
    ensures |Window(h, T)| <= |Prune(h, q)|
  {
    if h != [] {
      var init, x := h[..|h| - 1], h[|h| - 1];
      assert h == init + [x];
      WindowWithinPrune(init, T, q);
      PruneAppend(init, [x], q);
    }
  }

  /** What holds after every call of a run. */
  ghost predicate Inv(s: LimiterState, rpm: int) {
    && s.timestamps == Prune(s.history, s.lastPrune)
    && s.lastPrune <= s.clock
    && |s.timestamps| <= rpm
    && Sorted(s.history)
    && (forall t :: t in s.history ==> t <= s.clock)
    && (forall T :: |Window(s.history, T)| <= rpm)
  }

  lemma StepKeepsInv(s: LimiterState, rpm: int, c: Call)
    requires Inv(s, rpm) && rpm >= 1 && c.resumeLag > 0
    ensures Inv(Step(s, rpm, c), rpm)
  {
    var now := s.clock + c.gap;
    var a := Admit(s.timestamps, rpm, now, c.resumeLag, c.appendLag);
    var s' := Step(s, rpm, c);
    var q := a.lastPrune;
    AdmitAppendsOne(s.timestamps, rpm, now, c.resumeLag, c.appendLag);
    AdmitQuota(s.timestamps, rpm, now, c.resumeLag, c.appendLag);
    PruneTwice(s.history, s.lastPrune, q);
    PruneAppend(s.history, [a.admittedAt], q);
    assert s'.timestamps == Prune(s'.history, s'.lastPrune);
    forall i, j | 0 <= i < j < |s'.history| ensures s'.history[i] <= s'.history[j] {
      if j == |s.history| {
        assert s.history[i] in s.history;
      }
    }
    forall T ensures |Window(s'.history, T)| <= rpm {
      WindowAppend(s.history, a.admittedAt, T);
      if T - WindowMs <= a.admittedAt <= T {
        WindowWithinPrune(s.history, T, q);
      }
    }
  }

  /**
   * The window property over whole runs: when every resumption after a
   * suspension comes strictly after the computed end of the wait, no closed
   * 60-second window ever holds more than `rpm` admissions; every call is
   * admitted exactly once (nothing is dropped) and in call order.
   */
  lemma {:induction false} RunWindowQuota(rpm: int, start: int, calls: seq<Call>)
    requires rpm >= 1
    requires forall i :: 0 <= i < |calls| ==> calls[i].resumeLag > 0
    ensures var s := Run(rpm, start, calls);
      && |s.history| == |calls|
      && Sorted(s.history)
      && |s.timestamps| <= rpm
      && forall T :: |Window(s.history, T)| <= rpm
  {
    RunInv(rpm, start, calls);
  }

  lemma {:induction false} RunInv(rpm: int, start: int, calls: seq<Call>)
    requires rpm >= 1
    requires forall i :: 0 <= i < |calls| ==> calls[i].resumeLag > 0
    ensures Inv(Run(rpm, start, calls), rpm) && |Run(rpm, start, calls).history| == |calls|
  {
    if calls != [] {
      var init := calls[..|calls| - 1];
      RunInv(rpm, start, init);
      StepKeepsInv(Run(rpm, start, init), rpm, calls[|calls| - 1]);
    }
  }

  // ---------------------------------------------------------------------------
  // Runs with the corrected wait

  function StepCorrected(s: LimiterState, rpm: int, c: Call): LimiterState {
    var a := AdmitCorrected(s.timestamps, rpm, s.clock + c.gap, c.resumeLag, c.appendLag);
    LimiterState(a.timestamps, a.admittedAt, a.lastPrune, s.history + [a.admittedAt])
  }

  function RunCorrected(rpm: int, start: int, calls: seq<Call>): LimiterState {
    if calls == [] then LimiterState([], start, start, [])
    else StepCorrected(RunCorrected(rpm, start, calls[..|calls| - 1]), rpm, calls[|calls| - 1])
  }

  /** The same calls, each resuming one millisecond later. */
  function LateResume(calls: seq<Call>): (late: seq<Call>)
    ensures |late| == |calls|
    ensures forall i :: 0 <= i < |calls| ==> late[i].resumeLag > 0
  {
    seq(|calls|, i requires 0 <= i < |calls| => Call(calls[i].gap, calls[i].resumeLag + 1, calls[i].appendLag))
  }

  lemma StepCorrectedIsLateStep(s: LimiterState, rpm: int, c: Call)
    requires rpm >= 1
    ensures StepCorrected(s, rpm, c) == Step(s, rpm, Call(c.gap, c.resumeLag + 1, c.appendLag))
  {
    AdmitCorrectedIsStrictResume(s.timestamps, rpm, s.clock + c.gap, c.resumeLag, c.appendLag);
  }

  /** A corrected run is a written run whose every resumption comes one millisecond late. */
  lemma {:induction false} RunCorrectedIsLateRun(rpm: int, start: int, calls: seq<Call>)
    requires rpm >= 1
    ensures RunCorrected(rpm, start, calls) == Run(rpm, start, LateResume(calls))
  {
    if calls != [] {
      var init, c := calls[..|calls| - 1], calls[|calls| - 1];
      var late := LateResume(calls);
      RunCorrectedIsLateRun(rpm, start, init);
      assert late[..|calls| - 1] == LateResume(init);
      var s := RunCorrected(rpm, start, init);
      assert late[|calls| - 1] == Call(c.gap, c.resumeLag + 1, c.appendLag);
      assert Run(rpm, start, late) == Step(s, rpm, late[|calls| - 1]);
      StepCorrectedIsLateStep(s, rpm, c);
    }
  }

  /**
   * The window property with the corrected wait, for every run: whatever the
   * clock does after a suspension or between calls, no closed 60-second
   * window of the admission history holds more than `rpm` admissions, and
   * every call is admitted exactly once, in call order.
   */
  lemma CorrectedRunWindowQuota(rpm: int, start: int, calls: seq<Call>)
    requires rpm >= 1
    ensures var s := RunCorrected(rpm, start, calls);
      && |s.history| == |calls|
      && Sorted(s.history)
      && |s.timestamps| <= rpm
      && forall T :: |Window(s.history, T)| <= rpm
  {
    RunCorrectedIsLateRun(rpm, start, calls);
    RunWindowQuota(rpm, start, LateResume(calls));
  }

  // ---------------------------------------------------------------------------
  // Driving a `RateLimiter` object

  /**
   * Calls `Throttle` once per element of `calls`, in order, on a limiter with
   * an empty list, and returns the admission instants it recorded: the object
   * follows `Run` step for step.
   */
  method ThrottleInSequence(limiter: RateLimiter, start: int, calls: seq<Call>) returns (admitted: seq<int>)
    requires limiter.requestTimestamps == []
    modifies limiter`requestTimestamps, limiter.suspender
    ensures var s := Run(limiter.config.requestsPerMinute, start, calls);
      admitted == s.history && limiter.requestTimestamps == s.timestamps
  {
    var rpm := limiter.config.requestsPerMinute;
    var clock := start;
    admitted := [];
    for i := 0 to |calls|
      invariant limiter.config.requestsPerMinute == rpm
      invariant var s := Run(rpm, start, calls[..i]);
        limiter.requestTimestamps == s.timestamps && clock == s.clock && admitted == s.history
    {
      var c := calls[i];
      ghost var s := Run(rpm, start, calls[..i]);
      ghost var a := Admit(s.timestamps, rpm, clock + c.gap, c.resumeLag, c.appendLag);
      assert calls[..i + 1][..i] == calls[..i];
      assert Run(rpm, start, calls[..i + 1]) == Step(s, rpm, c);
      AdmitAppendsOne(s.timestamps, rpm, clock + c.gap, c.resumeLag, c.appendLag);
      limiter.Throttle(clock + c.gap, c.resumeLag, c.appendLag);
      assert limiter.requestTimestamps == a.timestamps;
      clock := limiter.requestTimestamps[|limiter.requestTimestamps| - 1];
      assert clock == a.admittedAt;
      admitted := admitted + [clock];
    }
    assert calls[..|calls|] == calls;
  }

  /**
   * The test "should not throttle when under rate limit": five calls on the
   * "Pwned 1" plan with the fake clock frozen at `t0` never reach the suspend
   * primitive.
   */
  method UnderLimitScenario(t0: int) returns (suspendCalls: seq<int>, stored: nat)
    ensures suspendCalls == [] && stored == 5
  {
    var suspender := new Suspender();
    var limiter := new RateLimiter(SubscriptionPlans["Pwned 1"], suspender);
    for i := 0 to 5
      invariant limiter.suspender == suspender && limiter.config.requestsPerMinute == 10
      invariant limiter.requestTimestamps == seq(i, _ => t0)
      invariant suspender.requested == []
    {
      PruneKeepsAll(limiter.requestTimestamps, t0);
      limiter.Throttle(t0, 0, 0);
      assert limiter.requestTimestamps == seq(i + 1, _ => t0);
    }
    suspendCalls, stored := suspender.requested, |limiter.requestTimestamps|;
  }

  /** Ten calls at `t0` on a new "Pwned 1" limiter: the window is full and nothing was suspended. */
  method FillPwned1(t0: int) returns (limiter: RateLimiter, suspender: Suspender)
    ensures fresh(limiter) && fresh(suspender)
    ensures limiter.suspender == suspender && limiter.config.requestsPerMinute == 10
    ensures limiter.requestTimestamps == seq(10, _ => t0) && suspender.requested == []
  {
    suspender := new Suspender();
    limiter := new RateLimiter(SubscriptionPlans["Pwned 1"], suspender);
    for i := 0 to 10
      invariant limiter.suspender == suspender && limiter.config.requestsPerMinute == 10
      invariant limiter.requestTimestamps == seq(i, _ => t0)
      invariant suspender.requested == []
    {
      PruneKeepsAll(limiter.requestTimestamps, t0);
      limiter.Throttle(t0, 0, 0);
      assert limiter.requestTimestamps == seq(i + 1, _ => t0);
    }
  }

  /**
   * The test "should throttle when rate limit is reached": ten calls at `t0`
   * fill the "Pwned 1" window; the eleventh asks the suspend primitive to wait
   * 60000 ms, the fake clock is advanced by exactly that much, and, since an
   * entry exactly one window old is kept, the list ends with eleven entries.
   */
  method AtLimitScenario(t0: int) returns (suspendCalls: seq<int>, stored: nat)
    ensures suspendCalls == [60000] && stored == 11
  {
    var limiter, suspender := FillPwned1(t0);
    var full := limiter.requestTimestamps;
    PruneKeepsAll(full, t0);
    PruneKeepsAll(full, t0 + 60000);
    limiter.Throttle(t0, 0, 0);
    suspendCalls, stored := suspender.requested, |limiter.requestTimestamps|;
  }

  /**
   * The same test continued: `extra` further calls at the instant the clock
   * resumed at, `t0 + 60000`, are all admitted at once, none suspends, and the
   * window `[t0, t0 + 60000]` ends up holding `11 + extra` admissions on a
   * 10-per-minute plan.
   */
  method BoundaryInstantScenario(t0: int, extra: nat) returns (suspendCalls: seq<int>, stored: nat)
    ensures suspendCalls == [60000] && stored == 11 + extra
  {
    var limiter, suspender := FillPwned1(t0);
    var full := limiter.requestTimestamps;
    PruneKeepsAll(full, t0);
    PruneKeepsAll(full, t0 + 60000);
    var later := t0 + WindowMs;
    limiter.Throttle(t0, 0, 0);
    assert limiter.requestTimestamps == seq(10, _ => t0) + seq(1, _ => later);
    for k := 0 to extra
      invariant limiter.suspender == suspender && limiter.config.requestsPerMinute == 10
      invariant limiter.requestTimestamps == seq(10, _ => t0) + seq(k + 1, _ => later)
      invariant suspender.requested == [60000]
    {
      var ts := limiter.requestTimestamps;
      assert forall i :: 0 <= i < |ts| ==> ts[i] == if i < 10 then t0 else later;
      assert forall t :: t in ts ==> t <= later;
      GrowsWithoutWait(ts, 10, later);
      limiter.Throttle(later, 0, 0);
      assert limiter.requestTimestamps == seq(10, _ => t0) + seq(k + 2, _ => later);
    }
    suspendCalls, stored := suspender.requested, |limiter.requestTimestamps|;
  }
}
