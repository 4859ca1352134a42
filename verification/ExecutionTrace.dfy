/**
 What the execution loop did with the decisions it took, as a trace of outcomes, and what
 follows for the breaker and the limiter from a trace being possible at all.
 */
module ExecutionTrace {
  import opened Breakers
  import opened Numbers
  import opened TokenBuckets
  import RateLimiting

  /** What the limiter was asked, with the reading of the clock at each level. */
  datatype Request = Request(symbol: string, globalNs: nat, symbolNs: nat)

  datatype Outcome =
    | NotApproved
    | KillSwitch
    | Refused(checkNs: nat)
    | Invalid(checkNs: nat)
    | RateLimited(checkNs: nat, request: Request)
    | Duplicate(checkNs: nat, request: Request, intent: nat)
    | Submitted(checkNs: nat, request: Request, intent: nat, executionId: string, endNs: nat)
    | Failure(checkNs: nat, request: Request, intent: nat, startNs: nat, endNs: nat)
  {
    predicate AsksBreaker() {
      !NotApproved? && !KillSwitch?
    }

    predicate Settled() {
      AsksBreaker() && !Refused?
    }

    predicate AsksLimiter() {
      RateLimited? || PassedLimiter()
    }

    predicate PassedLimiter() {
      Duplicate? || Submitted? || Failure?
    }

    predicate ReachedBroker() {
      Submitted? || Failure?
    }

    predicate InOrder() {
      match this
      case Submitted(checkNs, _, _, _, endNs) => checkNs <= endNs
      case Failure(checkNs, _, _, startNs, endNs) => checkNs <= startNs <= endNs
      case _ => true
    }

    function LastNs(): nat
      requires AsksBreaker()
    {
      if Submitted? || Failure? then endNs else checkNs
    }
  }

  // ---------- the breaker along a trace ----------

  function BreakerStep(b: Inner, o: Outcome, threshold: nat, cooldownMs: nat): Inner {
    if !o.AsksBreaker() then b
    else
      var asked := Asked(b, cooldownMs, o.checkNs);
      match o
      case Submitted(_, _, _, _, _) => Succeeded(asked)
      case Failure(_, _, _, _, endNs) => Failed(asked, threshold, endNs)
      case _ => asked
  }

  function BreakerAfter(trace: seq<Outcome>, threshold: nat, cooldownMs: nat): Inner {
    if trace == [] then NEW_INNER
    else BreakerStep(BreakerAfter(trace[..|trace| - 1], threshold, cooldownMs), trace[|trace| - 1], threshold,
                     cooldownMs)
  }

  /** The last reading of the clock. */
  function Clock(trace: seq<Outcome>): nat {
    if trace == [] then 0
    else
      var o := trace[|trace| - 1];
      if o.AsksBreaker() then o.LastNs() else Clock(trace[..|trace| - 1])
  }

  /** Readings never go back, and the breaker refused just the decisions it does not admit. */
  ghost predicate BreakerLegal(trace: seq<Outcome>, threshold: nat, cooldownMs: nat) {
    trace == [] ||
    var before, o := trace[..|trace| - 1], trace[|trace| - 1];
    && BreakerLegal(before, threshold, cooldownMs)
    && o.InOrder()
    && (o.AsksBreaker() ==>
          && Clock(before) <= o.checkNs
          && (o.Refused? <==> !Admits(BreakerAfter(before, threshold, cooldownMs), cooldownMs, o.checkNs)))
  }

  function Failures(trace: seq<Outcome>): nat {
    if trace == [] then 0
    else Failures(trace[..|trace| - 1]) + if trace[|trace| - 1].Failure? then 1 else 0
  }

  /** When the failure numbered `n`, counting from one, was recorded. */
  function FailureNs(trace: seq<Outcome>, n: nat): nat
    requires 1 <= n <= Failures(trace)
  {
    var before, o := trace[..|trace| - 1], trace[|trace| - 1];
    if o.Failure? && Failures(trace) == n then o.endNs else FailureNs(before, n)
  }

  ghost predicate BrokerAlwaysFails(trace: seq<Outcome>) {
    forall i :: 0 <= i < |trace| ==> !trace[i].Submitted?
  }

  /** The shortest time between a failure that opened the breaker and the next attempt. */
  function PeriodNs(cooldownMs: nat): nat {
    (cooldownMs + 1) * NS_PER_MS
  }

  lemma CooledDownMeansPeriod(b: Inner, cooldownMs: nat, now: nat)
    ensures CooledDown(b, cooldownMs, now) <==> b.trippedAtNs + PeriodNs(cooldownMs) <= now
  {
    var elapsed := SaturatingSub(now, b.trippedAtNs);
    if elapsed / NS_PER_MS > cooldownMs {
      assert elapsed >= (cooldownMs + 1) * NS_PER_MS;
    }
    if b.trippedAtNs + PeriodNs(cooldownMs) <= now {
      assert elapsed >= (cooldownMs + 1) * NS_PER_MS;
      assert elapsed / NS_PER_MS >= cooldownMs + 1;
    }
  }

  /** Where a breaker stands that has only ever seen failures. */
  ghost predicate OnlyFailures(trace: seq<Outcome>, threshold: nat, cooldownMs: nat)
    requires 1 <= threshold
  {
    var b, n := BreakerAfter(trace, threshold, cooldownMs), Failures(trace);
    && b.failures == n
    && (n < threshold ==> b.state.Closed?)
    && (threshold <= n ==>
          && !b.state.Closed?
          && b.trippedAtNs == FailureNs(trace, n) <= Clock(trace)
          && FailureNs(trace, threshold) + (n - threshold) * PeriodNs(cooldownMs) <= b.trippedAtNs
          && (b.state.HalfOpen? ==> b.trippedAtNs + PeriodNs(cooldownMs) <= Clock(trace)))
  }

  lemma FailureNsStays(trace: seq<Outcome>, o: Outcome, n: nat)
    requires 1 <= n <= Failures(trace)
    ensures Failures(trace + [o]) >= n && FailureNs(trace + [o], n) == FailureNs(trace, n)
  {
    assert (trace + [o])[..|trace|] == trace;
  }

  lemma OneMorePeriod(start: nat, n: nat, period: nat, last: nat, next: nat)
    requires start + n * period <= last && last + period <= next
    ensures start + (n + 1) * period <= next
  {
    assert (n + 1) * period == n * period + period;
  }

  /** The trace read one outcome further. */
  lemma TraceGrows(trace: seq<Outcome>, o: Outcome, threshold: nat, cooldownMs: nat)
    ensures var longer := trace + [o];
            && BreakerAfter(longer, threshold, cooldownMs) ==
               BreakerStep(BreakerAfter(trace, threshold, cooldownMs), o, threshold, cooldownMs)
            && Failures(longer) == Failures(trace) + (if o.Failure? then 1 else 0)
            && Clock(longer) == (if o.AsksBreaker() then o.LastNs() else Clock(trace))
            && (o.Failure? ==> FailureNs(longer, Failures(longer)) == o.endNs)
            && (BreakerLegal(longer, threshold, cooldownMs) ==>
                  && BreakerLegal(trace, threshold, cooldownMs) && o.InOrder()
                  && (o.AsksBreaker() ==> Clock(trace) <= o.checkNs)
                  && (o.AsksBreaker() ==>
                      (o.Refused? <==> !Admits(BreakerAfter(trace, threshold, cooldownMs), cooldownMs, o.checkNs))))
  {
    hide BreakerStep, Admits;
    assert (trace + [o])[..|trace|] == trace;
  }

  lemma FailureGrows(trace: seq<Outcome>, o: Outcome, threshold: nat, cooldownMs: nat)
    requires 1 <= threshold && OnlyFailures(trace, threshold, cooldownMs)
    requires BreakerLegal(trace + [o], threshold, cooldownMs) && !o.Submitted?
    ensures OnlyFailures(trace + [o], threshold, cooldownMs)
  {
    hide PeriodNs, CooledDown, BreakerAfter, Failures, Clock, FailureNs, BreakerLegal;
    var b, n := BreakerAfter(trace, threshold, cooldownMs), Failures(trace);
    TraceGrows(trace, o, threshold, cooldownMs);
    if threshold <= n {
      FailureNsStays(trace, o, n);
      FailureNsStays(trace, o, threshold);
      if o.AsksBreaker() {
        CooledDownMeansPeriod(b, cooldownMs, o.checkNs);
        if o.Failure? {
          OneMorePeriod(FailureNs(trace, threshold), n - threshold, PeriodNs(cooldownMs), b.trippedAtNs, o.endNs);
        }
      }
    }
  }

  lemma {:induction false} FailuresOnly(trace: seq<Outcome>, threshold: nat, cooldownMs: nat)
    requires 1 <= threshold && BreakerLegal(trace, threshold, cooldownMs) && BrokerAlwaysFails(trace)
    ensures OnlyFailures(trace, threshold, cooldownMs)
  {
    if trace != [] {
      var before, o := trace[..|trace| - 1], trace[|trace| - 1];
      hide OnlyFailures;
      FailuresOnly(before, threshold, cooldownMs);
      assert trace == before + [o];
      FailureGrows(before, o, threshold, cooldownMs);
    }
  }

  /**
   Against a broker that always fails the breaker has left Closed exactly when the threshold-th failure was recorded.
   */
  lemma OpensAtThreshold(trace: seq<Outcome>, threshold: nat, cooldownMs: nat)
    requires 1 <= threshold && BreakerLegal(trace, threshold, cooldownMs) && BrokerAlwaysFails(trace)
    ensures BreakerAfter(trace, threshold, cooldownMs).state.Closed? <==> Failures(trace) < threshold
    ensures trace != [] && trace[|trace| - 1].Failure? && Failures(trace) == threshold ==>
              BreakerAfter(trace, threshold, cooldownMs) == Inner(Open, threshold, trace[|trace| - 1].endNs)
  {
    FailuresOnly(trace, threshold, cooldownMs);
    if trace != [] && trace[|trace| - 1].Failure? && Failures(trace) == threshold {
      FailuresOnly(trace[..|trace| - 1], threshold, cooldownMs) by { PrefixFails(trace); }
    }
  }

  lemma PrefixFails(trace: seq<Outcome>)
    requires trace != [] && BrokerAlwaysFails(trace)
    ensures BrokerAlwaysFails(trace[..|trace| - 1])
  {
  }

  /**
   Once it has opened, an attempt starts at least one period after the failure before it, although HalfOpen admits
   every call.
   */
  lemma AttemptsAreSpaced(trace: seq<Outcome>, threshold: nat, cooldownMs: nat)
    requires 1 <= threshold && BreakerLegal(trace, threshold, cooldownMs) && BrokerAlwaysFails(trace)
    requires trace != [] && trace[|trace| - 1].Failure? && threshold < Failures(trace)
    ensures FailureNs(trace, Failures(trace) - 1) + PeriodNs(cooldownMs) <= trace[|trace| - 1].startNs
  {
    hide PeriodNs, CooledDown;
    var before, o := trace[..|trace| - 1], trace[|trace| - 1];
    FailuresOnly(before, threshold, cooldownMs);
    CooledDownMeansPeriod(BreakerAfter(before, threshold, cooldownMs), cooldownMs, o.checkNs);
  }

  /** The attempts made by any time `t`: the threshold, and one more for every period since the first opening. */
  lemma AttemptsAreBounded(trace: seq<Outcome>, threshold: nat, cooldownMs: nat, t: nat)
    requires 1 <= threshold && BreakerLegal(trace, threshold, cooldownMs) && BrokerAlwaysFails(trace)
    requires Clock(trace) <= t
    ensures Failures(trace) <= threshold ||
            Failures(trace) <= threshold + (t - FailureNs(trace, threshold)) / PeriodNs(cooldownMs)
  {
    FailuresOnly(trace, threshold, cooldownMs);
    var n := Failures(trace);
    if threshold < n {
      var span := t - FailureNs(trace, threshold);
      assert (n - threshold) * PeriodNs(cooldownMs) <= span;
      QuotientAtLeast(n - threshold, PeriodNs(cooldownMs), span);
    }
  }

  lemma QuotientAtLeast(n: nat, d: nat, span: int)
    requires 0 < d && n * d <= span
    ensures n <= span / d
  {
    var q := span / d;
    assert span == d * q + span % d;
    assert d * (q + 1) == d * q + d;
    if q < n {
      Monotone(d, q + 1, n);
    }
  }

  lemma Monotone(d: nat, a: int, b: int)
    requires a <= b
    ensures d * a <= d * b
  {
  }

  // ---------- the breaker along every trace ----------

  /** The failures since the last success. */
  function FailuresSince(trace: seq<Outcome>): nat {
    if trace == [] || trace[|trace| - 1].Submitted? then 0
    else FailuresSince(trace[..|trace| - 1]) + if trace[|trace| - 1].Failure? then 1 else 0
  }

  /** When the last failure was recorded. */
  function LastFailureNs(trace: seq<Outcome>): nat
    requires 0 < FailuresSince(trace)
  {
    var o := trace[|trace| - 1];
    if o.Failure? then o.endNs else LastFailureNs(trace[..|trace| - 1])
  }

  /** The failures in a row that open the breaker. */
  ghost predicate TooMany(failures: nat, threshold: nat) {
    0 < failures && threshold <= failures
  }

  /**
   Where the breaker stands after any trace, successes included: it counts the failures since the last success, has
   left Closed exactly when they are too many, and is stamped with the last of them.
   */
  ghost predicate CountsFailures(trace: seq<Outcome>, threshold: nat, cooldownMs: nat) {
    var b, n := BreakerAfter(trace, threshold, cooldownMs), FailuresSince(trace);
    && b.failures == n
    && (b.state.Closed? <==> !TooMany(n, threshold))
    && (TooMany(n, threshold) ==> b.trippedAtNs == LastFailureNs(trace))
    && (b.state.HalfOpen? ==> LastFailureNs(trace) + (cooldownMs + 1) * 1_000_000 <= Clock(trace))
  }

  lemma SinceGrows(trace: seq<Outcome>, o: Outcome)
    ensures FailuresSince(trace + [o]) == if o.Submitted? then 0 else FailuresSince(trace) + if o.Failure? then 1 else 0
    ensures 0 < FailuresSince(trace + [o]) ==>
              LastFailureNs(trace + [o]) == if o.Failure? then o.endNs else LastFailureNs(trace)
  {
    assert (trace + [o])[..|trace|] == trace;
  }

  lemma CountGrows(trace: seq<Outcome>, o: Outcome, threshold: nat, cooldownMs: nat)
    requires CountsFailures(trace, threshold, cooldownMs) && BreakerLegal(trace + [o], threshold, cooldownMs)
    ensures CountsFailures(trace + [o], threshold, cooldownMs)
    ensures o.AsksBreaker() ==>
              (o.Refused? <==>
               && TooMany(FailuresSince(trace), threshold)
               && o.checkNs < LastFailureNs(trace) + (cooldownMs + 1) * 1_000_000)
  {
    hide BreakerAfter, FailuresSince, LastFailureNs, Clock, FailureNs, Failures, BreakerLegal, CooledDown;
    TraceGrows(trace, o, threshold, cooldownMs);
    SinceGrows(trace, o);
    if o.AsksBreaker() {
      CooledDownMeansPeriod(BreakerAfter(trace, threshold, cooldownMs), cooldownMs, o.checkNs);
    }
  }

  /** Every legal trace keeps the count. */
  lemma {:induction false} BreakerCounts(trace: seq<Outcome>, threshold: nat, cooldownMs: nat)
    requires BreakerLegal(trace, threshold, cooldownMs)
    ensures CountsFailures(trace, threshold, cooldownMs)
  {
    if trace != [] {
      hide CountsFailures;
      var before, o := trace[..|trace| - 1], trace[|trace| - 1];
      BreakerCounts(before, threshold, cooldownMs);
      assert trace == before + [o];
      CountGrows(before, o, threshold, cooldownMs);
    }
  }

  /**
   Along every legal trace a decision is refused exactly if there were `threshold` failures, and at least one, since
   the last success, and the last of them is less than the cooldown and one more millisecond ago.
   */
  lemma RefusedExactly(trace: seq<Outcome>, o: Outcome, threshold: nat, cooldownMs: nat)
    requires BreakerLegal(trace + [o], threshold, cooldownMs) && o.AsksBreaker()
    ensures o.Refused? <==>
            && 0 < FailuresSince(trace) && threshold <= FailuresSince(trace)
            && o.checkNs < LastFailureNs(trace) + (cooldownMs + 1) * 1_000_000
  {
    hide BreakerAfter, FailuresSince, LastFailureNs, Clock, FailureNs, Failures, BreakerLegal, CountsFailures;
    TraceGrows(trace, o, threshold, cooldownMs);
    BreakerCounts(trace, threshold, cooldownMs);
    CountGrows(trace, o, threshold, cooldownMs);
  }

  /** A success leaves the breaker closed with no failures, whatever came before. */
  lemma SuccessCloses(trace: seq<Outcome>, o: Outcome, threshold: nat, cooldownMs: nat)
    requires BreakerLegal(trace + [o], threshold, cooldownMs) && o.Submitted?
    ensures var b := BreakerAfter(trace + [o], threshold, cooldownMs); b.state.Closed? && b.failures == 0
  {
    hide BreakerAfter, FailuresSince, LastFailureNs, Clock, BreakerLegal;
    BreakerCounts(trace + [o], threshold, cooldownMs);
    SinceGrows(trace, o);
  }

  // ---------- the limiter along a trace ----------

  function PassedBy(r: Request): RateLimiting.Passed {
    RateLimiting.Passed(r.symbol, 1.0, r.globalNs, r.symbolNs)
  }

  /** The requests that got past both levels of the limiter. */
  function PassedOf(trace: seq<Outcome>): seq<RateLimiting.Passed> {
    if trace == [] then []
    else
      var o := trace[|trace| - 1];
      PassedOf(trace[..|trace| - 1]) + if o.PassedLimiter() then [PassedBy(o.request)] else []
  }

  /** The last reading of the clock that the limiter took. */
  function LimiterClock(trace: seq<Outcome>): nat {
    if trace == [] then 0
    else
      var o := trace[|trace| - 1];
      if o.AsksLimiter() then o.request.symbolNs else LimiterClock(trace[..|trace| - 1])
  }

  /** Room in the windows of both levels. */
  ghost predicate HasRoom(passed: seq<RateLimiting.Passed>, r: Request, globalRate: real, symbolRate: real) {
    && Fits(RateLimiting.GlobalView(passed), r.globalNs, 1.0, globalRate, globalRate)
    && Fits(RateLimiting.SymbolView(passed, r.symbol), r.symbolNs, 1.0, symbolRate, symbolRate)
  }

  /** Readings never go back, and the limiter stopped just the decisions that its windows have no room for. */
  ghost predicate LimiterLegal(trace: seq<Outcome>, globalRate: real, symbolRate: real) {
    trace == [] ||
    var before, o := trace[..|trace| - 1], trace[|trace| - 1];
    && LimiterLegal(before, globalRate, symbolRate)
    && (o.AsksLimiter() ==>
          && LimiterClock(before) <= o.request.globalNs <= o.request.symbolNs
          && (o.RateLimited? <==> !HasRoom(PassedOf(before), o.request, globalRate, symbolRate)))
  }

  lemma LimiterTraceGrows(trace: seq<Outcome>, o: Outcome, globalRate: real, symbolRate: real)
    ensures PassedOf(trace + [o]) ==
            if o.PassedLimiter() then PassedOf(trace) + [PassedBy(o.request)] else PassedOf(trace)
    ensures LimiterClock(trace + [o]) == if o.AsksLimiter() then o.request.symbolNs else LimiterClock(trace)
    ensures LimiterLegal(trace + [o], globalRate, symbolRate) <==>
            && LimiterLegal(trace, globalRate, symbolRate)
            && (o.AsksLimiter() ==>
                  && LimiterClock(trace) <= o.request.globalNs <= o.request.symbolNs
                  && (o.RateLimited? <==> !HasRoom(PassedOf(trace), o.request, globalRate, symbolRate)))
  {
    hide HasRoom, PassedBy;
    assert (trace + [o])[..|trace|] == trace && PassedOf(trace) + [] == PassedOf(trace);
  }

  /** What both levels have let through is in time order, and each of it fitted when it came. */
  lemma {:induction false} LogsAreLegal(trace: seq<Outcome>, symbol: string, globalRate: real, symbolRate: real)
    requires LimiterLegal(trace, globalRate, symbolRate) && 0.0 <= globalRate && 0.0 <= symbolRate
    ensures var log := RateLimiting.GlobalView(PassedOf(trace));
            Chronological(log, LimiterClock(trace)) && Legal(log, globalRate, globalRate)
    ensures var log := RateLimiting.SymbolView(PassedOf(trace), symbol);
            Chronological(log, LimiterClock(trace)) && Legal(log, symbolRate, symbolRate)
  {
    hide Fits, Legal, Chronological, Level, RateLimiting.GlobalView, RateLimiting.SymbolView, PassedOf;
    hide LimiterClock, LimiterLegal;
    if trace == [] {
      NothingPassed(symbol, globalRate, symbolRate);
    } else {
      var before, o := trace[..|trace| - 1], trace[|trace| - 1];
      assert trace == before + [o];
      LimiterTraceGrows(before, o, globalRate, symbolRate);
      LogsAreLegal(before, symbol, globalRate, symbolRate);
      var passed := PassedOf(before);
      if o.PassedLimiter() {
        RateLimiting.ViewsExtend(passed, PassedBy(o.request), symbol);
        LogGoesOn(RateLimiting.GlobalView(passed), LimiterClock(before), o.request.globalNs, o.request.symbolNs,
                  globalRate);
        if o.request.symbol == symbol {
          LogGoesOn(RateLimiting.SymbolView(passed, symbol), LimiterClock(before), o.request.symbolNs,
                    o.request.symbolNs, symbolRate);
        } else {
          LogStands(RateLimiting.SymbolView(passed, symbol), LimiterClock(before), o.request.symbolNs);
          assert RateLimiting.SymbolView(passed, symbol) + [] == RateLimiting.SymbolView(passed, symbol);
        }
      } else if o.AsksLimiter() {
        LogStands(RateLimiting.GlobalView(passed), LimiterClock(before), o.request.symbolNs);
        LogStands(RateLimiting.SymbolView(passed, symbol), LimiterClock(before), o.request.symbolNs);
      }
    }
  }

  lemma NothingPassed(symbol: string, globalRate: real, symbolRate: real)
    ensures PassedOf([]) == [] && RateLimiting.GlobalView([]) == [] && RateLimiting.SymbolView([], symbol) == []
    ensures Chronological([], 0) && Legal([], globalRate, globalRate) && Legal([], symbolRate, symbolRate)
    ensures LimiterClock([]) == 0
  {
  }

  lemma LogGoesOn(log: seq<Admission>, last: nat, now: nat, later: nat, rate: real)
    requires Chronological(log, last) && Legal(log, rate, rate) && last <= now <= later && 0.0 <= rate
    requires Fits(log, now, 1.0, rate, rate)
    ensures Chronological(log + [Admission(now, 1.0)], later) && Legal(log + [Admission(now, 1.0)], rate, rate)
  {
    hide Fits, Legal, Level;
    LogExtends(log, Admission(now, 1.0), rate, rate);
  }

  lemma LogStands(log: seq<Admission>, last: nat, now: nat)
    requires Chronological(log, last) && last <= now
    ensures Chronological(log, now)
  {
  }

  /** The decisions that reached the broker, by the reading the global level took for them. */
  function BrokerCalls(trace: seq<Outcome>, from: nat, to: nat): nat {
    if trace == [] then 0
    else
      var o := trace[|trace| - 1];
      BrokerCalls(trace[..|trace| - 1], from, to) +
      if o.ReachedBroker() && from <= o.request.globalNs <= to then 1 else 0
  }

  /** Those for one symbol, by the reading its own level took. */
  function BrokerCallsFor(trace: seq<Outcome>, symbol: string, from: nat, to: nat): nat {
    if trace == [] then 0
    else
      var o := trace[|trace| - 1];
      BrokerCallsFor(trace[..|trace| - 1], symbol, from, to) +
      if o.ReachedBroker() && o.request.symbol == symbol && from <= o.request.symbolNs <= to then 1 else 0
  }

  /** A call of the broker within the window of the global level. */
  predicate CalledAt(trace: seq<Outcome>, i: nat, from: nat, to: nat)
    requires i < |trace|
  {
    (trace[i].Submitted? || trace[i].Failure?) && from <= trace[i].request.globalNs <= to
  }

  predicate CalledForAt(trace: seq<Outcome>, i: nat, symbol: string, from: nat, to: nat)
    requires i < |trace|
  {
    && (trace[i].Submitted? || trace[i].Failure?)
    && trace[i].request.symbol == symbol && from <= trace[i].request.symbolNs <= to
  }

  /** The calls counted are those of the trace. */
  lemma {:induction false} CallsAreCounted(trace: seq<Outcome>, symbol: string, from: nat, to: nat)
    ensures BrokerCalls(trace, from, to) == |set i | 0 <= i < |trace| && CalledAt(trace, i, from, to)|
    ensures BrokerCallsFor(trace, symbol, from, to) ==
            |set i | 0 <= i < |trace| && CalledForAt(trace, i, symbol, from, to)|
  {
    if trace != [] {
      CallsAreCounted(trace[..|trace| - 1], symbol, from, to);
      CallsStep(trace, from, to);
      CallsForStep(trace, symbol, from, to);
    }
  }

  lemma CallsStep(trace: seq<Outcome>, from: nat, to: nat)
    requires trace != []
    ensures var before, n := trace[..|trace| - 1], |trace| - 1;
            |set i | 0 <= i < |trace| && CalledAt(trace, i, from, to)| ==
            |set i | 0 <= i < n && CalledAt(before, i, from, to)| + if CalledAt(trace, n, from, to) then 1 else 0
  {
    var before, n := trace[..|trace| - 1], |trace| - 1;
    assert forall i :: 0 <= i < n ==> (CalledAt(trace, i, from, to) <==> CalledAt(before, i, from, to));
    hide CalledAt;
    assert (set i | 0 <= i < |trace| && CalledAt(trace, i, from, to)) ==
           (set i | 0 <= i < n && CalledAt(before, i, from, to)) + if CalledAt(trace, n, from, to) then {n} else {};
  }

  lemma CallsForStep(trace: seq<Outcome>, symbol: string, from: nat, to: nat)
    requires trace != []
    ensures var before, n := trace[..|trace| - 1], |trace| - 1;
            |set i | 0 <= i < |trace| && CalledForAt(trace, i, symbol, from, to)| ==
            |set i | 0 <= i < n && CalledForAt(before, i, symbol, from, to)| +
              if CalledForAt(trace, n, symbol, from, to) then 1 else 0
  {
    var before, n := trace[..|trace| - 1], |trace| - 1;
    assert forall i :: 0 <= i < n ==>
             (CalledForAt(trace, i, symbol, from, to) <==> CalledForAt(before, i, symbol, from, to));
    hide CalledForAt;
    assert (set i | 0 <= i < |trace| && CalledForAt(trace, i, symbol, from, to)) ==
           (set i | 0 <= i < n && CalledForAt(before, i, symbol, from, to))
           + if CalledForAt(trace, n, symbol, from, to) then {n} else {};
  }

  lemma {:induction false} CallsWereAdmitted(trace: seq<Outcome>, symbol: string, from: nat, to: nat)
    ensures BrokerCalls(trace, from, to) as real <= AdmittedBetween(RateLimiting.GlobalView(PassedOf(trace)), from, to)
    ensures BrokerCallsFor(trace, symbol, from, to) as real <=
            AdmittedBetween(RateLimiting.SymbolView(PassedOf(trace), symbol), from, to)
  {
    hide RateLimiting.GlobalView, RateLimiting.SymbolView, AdmittedBetween, BrokerCalls, BrokerCallsFor;
    hide PassedOf, LimiterClock;
    hide LimiterLegal;
    if trace == [] {
      NothingCalled(symbol, from, to);
    } else {
      var before, o := trace[..|trace| - 1], trace[|trace| - 1];
      assert trace == before + [o];
      CallsWereAdmitted(before, symbol, from, to);
      LimiterTraceGrows(before, o, 0.0, 0.0);
      OneMoreCall(before, o, symbol, from, to);
      if o.PassedLimiter() {
        RateLimiting.ViewsExtend(PassedOf(before), PassedBy(o.request), symbol);
        AdmittedOneMore(RateLimiting.GlobalView(PassedOf(before)), Admission(o.request.globalNs, 1.0), from, to);
        AdmittedOneMore(RateLimiting.SymbolView(PassedOf(before), symbol), Admission(o.request.symbolNs, 1.0), from,
                        to);
      }
    }
  }

  lemma NothingCalled(symbol: string, from: nat, to: nat)
    ensures BrokerCalls([], from, to) == BrokerCallsFor([], symbol, from, to) == 0 && PassedOf([]) == []
    ensures AdmittedBetween(RateLimiting.GlobalView([]), from, to) == 0.0
    ensures AdmittedBetween(RateLimiting.SymbolView([], symbol), from, to) == 0.0
  {
  }

  lemma OneMoreCall(trace: seq<Outcome>, o: Outcome, symbol: string, from: nat, to: nat)
    ensures BrokerCalls(trace + [o], from, to) as real ==
            BrokerCalls(trace, from, to) as real +
            if o.ReachedBroker() && from <= o.request.globalNs <= to then 1.0 else 0.0
    ensures BrokerCallsFor(trace + [o], symbol, from, to) as real ==
            BrokerCallsFor(trace, symbol, from, to) as real +
            if o.ReachedBroker() && o.request.symbol == symbol && from <= o.request.symbolNs <= to then 1.0 else 0.0
  {
    assert (trace + [o])[..|trace|] == trace;
  }

  lemma AdmittedOneMore(log: seq<Admission>, a: Admission, from: nat, to: nat)
    ensures AdmittedBetween(log + [a], from, to) ==
            AdmittedBetween(log, from, to) + if from <= a.at <= to then a.count else 0.0
    ensures AdmittedBetween(log + [], from, to) == AdmittedBetween(log, from, to)
  {
    assert (log + [a])[..|log|] == log && log + [] == log;
  }

  /** In any window of the clock no more decisions reach the broker than either level's rate allows. */
  lemma BrokerIsRationed(trace: seq<Outcome>, symbol: string, from: nat, to: nat, globalRate: real, symbolRate: real)
    requires LimiterLegal(trace, globalRate, symbolRate) && 0.0 <= globalRate && 0.0 <= symbolRate && from <= to
    ensures BrokerCalls(trace, from, to) as real <= globalRate + Earned(globalRate, from, to)
    ensures BrokerCallsFor(trace, symbol, from, to) as real <= symbolRate + Earned(symbolRate, from, to)
  {
    hide Legal, Chronological, AdmittedBetween, Earned, RateLimiting.GlobalView, RateLimiting.SymbolView, PassedOf;
    hide BrokerCalls, BrokerCallsFor, LimiterLegal, LimiterClock;
    LogsAreLegal(trace, symbol, globalRate, symbolRate);
    CallsWereAdmitted(trace, symbol, from, to);
    var now := LimiterClock(trace);
    NoWindowOverflows(RateLimiting.GlobalView(PassedOf(trace)), from, to, now, globalRate, globalRate);
    NoWindowOverflows(RateLimiting.SymbolView(PassedOf(trace), symbol), from, to, now, symbolRate, symbolRate);
  }
}
