/**
 The execution loop: kill switch, breaker, symbol check, rate limiter, idempotency
 store, broker with retries, in that order. Every run of it leaves a legal trace, so
 the theorems of modules `ExecutionTrace` and `StoreTrace` hold of every run.
 */
module Execution {
  import opened ExecutionTrace
  import opened StoreTrace
  import Breakers
  import Idempotency
  import Lru
  import RateLimiting
  import Residency
  import StoreRuns
  import Text
  import TokenBuckets

  datatype Reply = Accepted(executionId: string) | Transient | Permanent

  /** The decision as far as the loop reads it. */
  datatype Decision = Decision(approved: bool, symbolId: nat, intentId: nat)

  /** The readings of the clock while one decision is handled, in the order they are taken. */
  datatype Times = Times(checkNs: nat, globalNs: nat, createdNs: nat, symbolNs: nat, startNs: nat, endNs: nat) {
    predicate InOrder() {
      checkNs <= globalNs <= createdNs <= symbolNs <= startNs <= endNs
    }
  }

  /** A decision taken from the channel, the kill switch before and after, and what the broker would answer. */
  datatype Arrival = Arrival(decision: Decision, killBefore: bool, killAfter: bool, times: Times, replies: nat -> Reply)

  ghost predicate InOrder(arrivals: seq<Arrival>, from: nat) {
    arrivals == [] ||
    (&& from <= arrivals[0].times.checkNs && arrivals[0].times.InOrder()
     && InOrder(arrivals[1..], arrivals[0].times.endNs))
  }

  function Pow2(n: nat): nat {
    if n == 0 then 1 else 2 * Pow2(n - 1)
  }

  /** How many calls the broker gets at most. */
  function MaxCalls(maxRetries: nat): nat {
    if maxRetries == 0 then 1 else maxRetries
  }

  /** The call that settles the matter: the first that does not fail transiently, or the last allowed. */
  function SettlingCall(replies: nat -> Reply, from: nat, limit: nat): (i: nat)
    requires from < limit
    ensures from <= i < limit
    ensures forall j :: from <= j < i ==> replies(j).Transient?
    ensures i + 1 < limit ==> !replies(i).Transient?
    decreases limit - from
  {
    if from + 1 == limit || !replies(from).Transient? then from else SettlingCall(replies, from + 1, limit)
  }

  lemma {:induction false} SettlesAt(replies: nat -> Reply, from: nat, limit: nat, i: nat)
    requires from <= i < limit
    requires forall j :: from <= j < i ==> replies(j).Transient?
    requires i + 1 == limit || !replies(i).Transient?
    ensures SettlingCall(replies, from, limit) == i
    decreases limit - from
  {
    if from < i {
      SettlesAt(replies, from + 1, limit, i);
    }
  }

  lemma PowersDouble(n: nat)
    ensures Pow2(0) == 1 && Pow2(n + 1) == Pow2(n) + Pow2(n)
  {
  }

  lemma BackoffDoubles(base: nat, n: nat)
    ensures base * (Pow2(n) - 1) + base * Pow2(n) == base * (Pow2(n + 1) - 1)
  {
  }

  /** The breaker once it was told how the call went. */
  function Recorded(b: Breakers.Inner, o: Outcome, threshold: nat): Breakers.Inner {
    match o
    case Submitted(_, _, _, _, _) => Breakers.Succeeded(b)
    case Failure(_, _, _, _, endNs) => Breakers.Failed(b, threshold, endNs)
    case _ => b
  }

  function RequestFor(d: Decision, t: Times): Request {
    Request(Text.Decimal(d.symbolId), t.globalNs, t.symbolNs)
  }

  /** The outcome of a decision the breaker let pass tells what became of it and when. */
  ghost predicate Reports(o: Outcome, d: Decision, t: Times, replies: nat -> Reply, maxRetries: nat) {
    var final := replies(SettlingCall(replies, 0, MaxCalls(maxRetries)));
    && o.AsksBreaker() && !o.Refused? && o.InOrder() && o.checkNs == t.checkNs && o.LastNs() <= t.endNs
    && (o.AsksLimiter() ==> o.request == RequestFor(d, t))
    && (o.PassedLimiter() ==> o.intent == d.intentId)
    && (o.Submitted? ==> final == Accepted(o.executionId))
    && (o.Failure? ==> o.startNs == t.startNs && !final.Accepted?)
  }

  lemma ReportsTell(o: Outcome, d: Decision, t: Times, replies: nat -> Reply, maxRetries: nat)
    requires Reports(o, d, t, replies, maxRetries)
    ensures o.Settled() && o.InOrder() && o.checkNs == t.checkNs && o.LastNs() <= t.endNs
    ensures o.AsksLimiter() ==> o.request == RequestFor(d, t)
  {
  }

  lemma NothingToStore(raw: Idempotency.Raw, o: Outcome, capacity: nat, maxBytes: nat)
    requires !o.PassedLimiter()
    ensures StepLegal(raw, o) && Idempotency.RunRaw(raw, StepOps(o), capacity, maxBytes) == raw
  {
  }

  /** What a decision past the limiter does to the store: its lookup, and its mark if it succeeds. */
  lemma StoreUse(raw: Idempotency.Raw, o: Outcome, capacity: nat, maxBytes: nat)
    requires o.PassedLimiter()
    ensures StepLegal(raw, o) <==> (o.Duplicate? <==> IntentKey(o.intent) in raw.processed)
    ensures var looked := Idempotency.ApplyRaw(raw, Lru.Lookup(IntentKey(o.intent)), capacity, maxBytes);
            Idempotency.RunRaw(raw, StepOps(o), capacity, maxBytes) ==
            if o.Submitted? then
              Idempotency.ApplyRaw(looked, Lru.Mark(IntentKey(o.intent), o.executionId), capacity, maxBytes)
            else looked
  {
    hide Idempotency.RunRaw, Idempotency.ApplyRaw, IntentKey;
    var lookup := Lru.Lookup(IntentKey(o.intent));
    StoreRuns.RunOfOne(raw, lookup, capacity, maxBytes);
    if o.Submitted? {
      var looked, mark := Idempotency.ApplyRaw(raw, lookup, capacity, maxBytes),
        Lru.Mark(IntentKey(o.intent), o.executionId);
      assert StepOps(o) == [lookup] + [mark];
      StoreRuns.RunSplits(raw, [lookup], [mark], capacity, maxBytes);
      StoreRuns.RunOfOne(looked, mark, capacity, maxBytes);
    }
  }

  lemma BreakerTraceGrows(trace: seq<Outcome>, o: Outcome, threshold: nat, cooldownMs: nat)
    requires BreakerLegal(trace, threshold, cooldownMs) && o.InOrder()
    requires o.AsksBreaker() ==> Clock(trace) <= o.checkNs
    requires o.AsksBreaker() ==>
               (o.Refused? <==> !Breakers.Admits(BreakerAfter(trace, threshold, cooldownMs), cooldownMs, o.checkNs))
    ensures BreakerLegal(trace + [o], threshold, cooldownMs)
    ensures var b := BreakerAfter(trace, threshold, cooldownMs);
            BreakerAfter(trace + [o], threshold, cooldownMs) ==
            if o.AsksBreaker() then Recorded(Breakers.Asked(b, cooldownMs, o.checkNs), o, threshold) else b
    ensures Clock(trace + [o]) == if o.AsksBreaker() then o.LastNs() else Clock(trace)
  {
    hide Breakers.Admits, Breakers.Asked;
    assert (trace + [o])[..|trace|] == trace;
  }

  lemma StoreTraceGrows(raw: Idempotency.Raw, trace: seq<Outcome>, o: Outcome, capacity: nat, maxBytes: nat)
    ensures var now := Idempotency.RunRaw(raw, StoreOps(trace), capacity, maxBytes);
            && (StoreLegal(raw, trace + [o], capacity, maxBytes) <==>
                  StoreLegal(raw, trace, capacity, maxBytes) && StepLegal(now, o))
            && Idempotency.RunRaw(raw, StoreOps(trace + [o]), capacity, maxBytes) ==
               Idempotency.RunRaw(now, StepOps(o), capacity, maxBytes)
  {
    hide Idempotency.RunRaw, StepOps, StepLegal;
    TraceSplit(raw, trace, [o], capacity, maxBytes);
    OneStepLegal(Idempotency.RunRaw(raw, StoreOps(trace), capacity, maxBytes), o, capacity, maxBytes);
    OpsSplit(trace, [o]);
    OneStepOps(o);
    StoreRuns.RunSplits(raw, StoreOps(trace), StepOps(o), capacity, maxBytes);
  }

  lemma NextInOrder(arrivals: seq<Arrival>, i: nat, from: nat)
    requires i < |arrivals| && InOrder(arrivals[i..], from)
    ensures from <= arrivals[i].times.checkNs && arrivals[i].times.InOrder()
    ensures InOrder(arrivals[i + 1..], arrivals[i].times.endNs)
  {
    assert arrivals[i..][1..] == arrivals[i + 1..];
  }

  lemma EarlierIsInOrder(arrivals: seq<Arrival>, from: nat, earlier: nat)
    requires InOrder(arrivals, from) && earlier <= from
    ensures InOrder(arrivals, earlier)
  {
  }

  class ExecutionManager {
    const limiter: RateLimiting.RateLimiter
    const breaker: Breakers.CircuitBreaker
    const store: Idempotency.IdempotencyStore
    const maxRetries: nat
    const retryBackoffMs: nat
    const maxSymbolLength: nat
    ghost const initialFields: Idempotency.Raw
    ghost const globalRate: real
    ghost const symbolRate: real
    ghost var trace: seq<Outcome>
    ghost var lastNs: nat

    ghost function Repr(): set<object>
      reads this, limiter
    {
      {this, breaker, store} + limiter.Repr()
    }

    /** The limiter, breaker and store are where the trace says, and the trace is one they allow. */
    ghost predicate Valid()
      reads this, limiter, Repr()
    {
      LimiterValid() && BreakerValid() && StoreValid()
    }

    ghost predicate LimiterValid()
      reads this, limiter, limiter.Repr()
    {
      && limiter.Valid() && limiter.clock <= lastNs && LimiterClock(trace) <= lastNs
      && limiter.passed == PassedOf(trace) && LimiterLegal(trace, globalRate, symbolRate)
      && limiter.global.maxTokens == globalRate && limiter.defaultPerSymbolRate == symbolRate
    }

    ghost predicate BreakerValid()
      reads this, breaker
    {
      && breaker.Valid() && Clock(trace) <= lastNs
      && breaker.Fields() == BreakerAfter(trace, breaker.failureThreshold, breaker.cooldownMs)
      && BreakerLegal(trace, breaker.failureThreshold, breaker.cooldownMs)
    }

    /** The store's fields are where the trace leads from those it had at the start, consistent or not. */
    ghost predicate StoreValid()
      reads this, store
    {
      && store.Recorded() && Residency.Reachable(initialFields, store.capacity)
      && store.Fields() == Idempotency.RunRaw(initialFields, StoreOps(trace), store.capacity, store.maxMemoryBytes)
      && StoreLegal(initialFields, trace, store.capacity, store.maxMemoryBytes)
    }

    constructor (limiter: RateLimiting.RateLimiter, breaker: Breakers.CircuitBreaker,
                 store: Idempotency.IdempotencyStore,
                 maxRetries: nat, retryBackoffMs: nat, maxSymbolLength: nat)
      requires limiter.Valid() && limiter.passed == []
      requires breaker.Valid() && breaker.Fields() == Breakers.NEW_INNER && store.Recorded()
      ensures Valid() && trace == [] && lastNs == limiter.clock
      ensures this.limiter == limiter && this.breaker == breaker && this.store == store
      ensures initialFields == store.Fields()
      ensures globalRate == limiter.global.maxTokens && symbolRate == limiter.defaultPerSymbolRate
    {
      this.limiter, this.breaker, this.store := limiter, breaker, store;
      this.maxRetries, this.retryBackoffMs, this.maxSymbolLength := maxRetries, retryBackoffMs, maxSymbolLength;
      globalRate, symbolRate := limiter.global.maxTokens, limiter.defaultPerSymbolRate;
      initialFields, trace, lastNs := store.Fields(), [], limiter.clock;
      Residency.StoreIsReachable(store);
    }

    /** Calls the broker until it settles; waits double from one call to the next. */
    method SubmitWithRetry(replies: nat -> Reply) returns (reply: Reply, calls: nat, sleptMs: nat)
      ensures calls == SettlingCall(replies, 0, MaxCalls(maxRetries)) + 1 && reply == replies(calls - 1)
      ensures sleptMs == retryBackoffMs * (Pow2(calls - 1) - 1)
      ensures if maxRetries == 0 then calls == 1 else 1 <= calls <= maxRetries
      ensures forall j :: 0 <= j < calls - 1 ==> replies(j).Transient?
      ensures reply.Transient? && 0 < maxRetries ==> calls == maxRetries
    {
      calls, sleptMs := 0, 0;
      for attempt := 0 to maxRetries
        invariant calls == attempt
        invariant attempt == maxRetries ==> maxRetries == 0
        invariant forall j :: 0 <= j < attempt ==> replies(j).Transient?
        invariant sleptMs == retryBackoffMs * (Pow2(attempt) - 1)
      {
        reply := replies(attempt);
        calls := calls + 1;
        if reply.Accepted? || reply.Permanent? || attempt + 1 == maxRetries {
          SettlesAt(replies, 0, MaxCalls(maxRetries), attempt);
          return;
        }
        BackoffDoubles(retryBackoffMs, attempt);
        sleptMs := sleptMs + retryBackoffMs * Pow2(attempt);
      }
      reply := replies(0);
      calls := 1;
    }

    /** Room in the windows of both levels of the limiter. */
    ghost predicate HasRoomFor(d: Decision, t: Times)
      reads limiter, limiter.global
    {
      HasRoom(limiter.passed, RequestFor(d, t), limiter.global.maxTokens, limiter.defaultPerSymbolRate)
    }

    /** Past the limiter: a key already in the store stops here, any other goes to the broker. */
    method Dispatch(d: Decision, t: Times, replies: nat -> Reply) returns (ghost o: Outcome)
      requires store.Recorded() && breaker.Valid() && t.InOrder()
      modifies breaker, store
      ensures breaker.Valid() && breaker.Fields() == Recorded(old(breaker.Fields()), o, breaker.failureThreshold)
      ensures store.Recorded() && StepLegal(old(store.Fields()), o)
      ensures store.Fields() ==
              Idempotency.RunRaw(old(store.Fields()), StepOps(o), store.capacity, store.maxMemoryBytes)
      ensures o.PassedLimiter() && Reports(o, d, t, replies, maxRetries)
    {
      hide Idempotency.RunRaw, Idempotency.ApplyRaw, StepOps, StepLegal, IntentKey, Text.Decimal;
      hide Idempotency.IdempotencyStore.Valid, Idempotency.IdempotencyStore.Recorded, Idempotency.LogLine;
      hide Lru.Marked, Lru.Accessed, Lru.KeySet, Lru.Find, Pow2, SettlingCall, MaxCalls;
      var key := IntentKey(d.intentId);
      ghost var before := store.Fields();
      var duplicate := store.IsProcessed(key);
      if duplicate {
        o := Duplicate(t.checkNs, RequestFor(d, t), d.intentId);
        StoreUse(before, o, store.capacity, store.maxMemoryBytes);
        return;
      }
      var reply, calls, slept := SubmitWithRetry(replies);
      if reply.Accepted? {
        store.MarkProcessed(key, reply.executionId);
        breaker.RecordSuccess();
        o := Submitted(t.checkNs, RequestFor(d, t), d.intentId, reply.executionId, t.endNs);
      } else {
        breaker.RecordFailure(t.endNs);
        o := Failure(t.checkNs, RequestFor(d, t), d.intentId, t.startNs, t.endNs);
      }
      StoreUse(before, o, store.capacity, store.maxMemoryBytes);
    }

    /** What happens to a decision once the breaker let it pass. */
    method ExecuteDecision(d: Decision, t: Times, replies: nat -> Reply) returns (ghost o: Outcome)
      requires limiter.Valid() && limiter.clock <= t.globalNs && t.InOrder()
      requires store.Recorded() && breaker.Valid()
      modifies limiter.Repr(), breaker, store
      ensures limiter.Valid() && fresh(limiter.Repr() - old(limiter.Repr())) && limiter.clock <= t.symbolNs
      ensures limiter.global == old(limiter.global)
      ensures limiter.passed ==
              if o.PassedLimiter() then old(limiter.passed) + [PassedBy(o.request)] else old(limiter.passed)
      ensures breaker.Valid() && breaker.Fields() == Recorded(old(breaker.Fields()), o, breaker.failureThreshold)
      ensures store.Recorded() && StepLegal(old(store.Fields()), o)
      ensures store.Fields() ==
              Idempotency.RunRaw(old(store.Fields()), StepOps(o), store.capacity, store.maxMemoryBytes)
      ensures Reports(o, d, t, replies, maxRetries)
      ensures o.Invalid? <==> |Text.Decimal(d.symbolId)| > maxSymbolLength
      ensures !o.Invalid? ==> (o.RateLimited? <==> !old(HasRoomFor(d, t)))
    {
      hide Idempotency.RunRaw, StepOps, StepLegal, RateLimiting.GlobalView, RateLimiting.SymbolView, TokenBuckets.Fits;
      hide Idempotency.IdempotencyStore.Recorded, RateLimiting.RateLimiter.Valid, Text.Decimal, SettlingCall, MaxCalls;
      var symbol := Text.Decimal(d.symbolId);
      if |symbol| > maxSymbolLength {
        o := Invalid(t.checkNs);
        NothingToStore(store.Fields(), o, store.capacity, store.maxMemoryBytes);
        return;
      }
      var ok := limiter.TryConsume(symbol, 1.0, t.globalNs, t.createdNs, t.symbolNs);
      if !ok {
        o := RateLimited(t.checkNs, RequestFor(d, t));
        NothingToStore(store.Fields(), o, store.capacity, store.maxMemoryBytes);
        return;
      }
      o := Dispatch(d, t, replies);
    }

    /** Approval, kill switch and breaker stand before execution. */
    method Handle(a: Arrival) returns (ghost o: Outcome)
      requires limiter.Valid() && limiter.clock <= a.times.globalNs && a.times.InOrder()
      requires store.Recorded() && breaker.Valid()
      modifies limiter.Repr(), breaker, store
      ensures limiter.Valid() && fresh(limiter.Repr() - old(limiter.Repr())) && limiter.global == old(limiter.global)
      ensures limiter.clock <= if o.AsksBreaker() then a.times.symbolNs else old(limiter.clock)
      ensures limiter.passed ==
              if o.PassedLimiter() then old(limiter.passed) + [PassedBy(o.request)] else old(limiter.passed)
      ensures breaker.Valid() && store.Recorded() && StepLegal(old(store.Fields()), o)
      ensures store.Fields() ==
              Idempotency.RunRaw(old(store.Fields()), StepOps(o), store.capacity, store.maxMemoryBytes)
      ensures var b, cooldownMs := old(breaker.Fields()), breaker.cooldownMs;
              && breaker.Fields() ==
                 (if o.AsksBreaker() then
                    Recorded(Breakers.Asked(b, cooldownMs, o.checkNs), o, breaker.failureThreshold)
                  else b)
              && (o.AsksBreaker() ==> (o.Refused? <==> !Breakers.Admits(b, cooldownMs, o.checkNs)))
      ensures Follows(o, a) && (o.AsksLimiter() ==> o.request == RequestFor(a.decision, a.times))
      ensures o.Settled() && !o.Invalid? ==> (o.RateLimited? <==> !old(HasRoomFor(a.decision, a.times)))
    {
      hide Idempotency.RunRaw, StepOps, StepLegal, Breakers.Asked, Breakers.Admits, HasRoomFor, Reports;
      hide RequestFor, PassedBy;
      hide Idempotency.IdempotencyStore.Recorded, RateLimiting.RateLimiter.Valid, Text.Decimal;
      ghost var before := store.Fields();
      if !a.decision.approved {
        o := NotApproved;
        NothingToStore(before, o, store.capacity, store.maxMemoryBytes);
        return;
      }
      if a.killAfter {
        o := KillSwitch;
        NothingToStore(before, o, store.capacity, store.maxMemoryBytes);
        return;
      }
      var admitted := breaker.CanExecute(a.times.checkNs);
      if !admitted {
        o := Refused(a.times.checkNs);
        NothingToStore(before, o, store.capacity, store.maxMemoryBytes);
        return;
      }
      o := ExecuteDecision(a.decision, a.times, a.replies);
      ReportsTell(o, a.decision, a.times, a.replies, maxRetries);
    }

    /** The outcome an arrival leads to, up to what breaker, limiter and store decide. */
    ghost predicate Follows(o: Outcome, a: Arrival) {
      && (o.NotApproved? <==> !a.decision.approved)
      && (o.KillSwitch? <==> a.decision.approved && a.killAfter)
      && (o.AsksBreaker() ==> o.InOrder() && o.checkNs == a.times.checkNs && o.LastNs() <= a.times.endNs)
      && (o.Settled() ==>
            && Reports(o, a.decision, a.times, a.replies, maxRetries)
            && (o.Invalid? <==> |Text.Decimal(a.decision.symbolId)| > maxSymbolLength))
    }

    /**
     What an outcome tells, in the figures of the arrival: which request went to the limiter, which intent to the
     store, and which of the broker's replies, all before it transient, settled the submission.
     */
    lemma OutcomeInFigures(o: Outcome, a: Arrival) returns (n: nat)
      requires Follows(o, a)
      ensures o.NotApproved? <==> !a.decision.approved
      ensures o.KillSwitch? <==> a.decision.approved && a.killAfter
      ensures !o.NotApproved? && !o.KillSwitch? && !o.Refused? ==>
                (o.Invalid? <==> |Text.Decimal(a.decision.symbolId)| > maxSymbolLength)
      ensures o.RateLimited? || o.Duplicate? || o.Submitted? || o.Failure? ==>
                && o.request.symbol == Text.Decimal(a.decision.symbolId)
                && o.request.globalNs == a.times.globalNs && o.request.symbolNs == a.times.symbolNs
      ensures o.Duplicate? || o.Submitted? || o.Failure? ==> o.intent == a.decision.intentId
      ensures n == 0 || n < maxRetries
      ensures forall j :: 0 <= j < n ==> a.replies(j).Transient?
      ensures o.Submitted? ==> a.replies(n) == Accepted(o.executionId)
      ensures o.Failure? ==> a.replies(n).Permanent? || (a.replies(n).Transient? && maxRetries <= n + 1)
    {
      hide Text.Decimal, Outcome.InOrder;
      n := SettlingCall(a.replies, 0, MaxCalls(maxRetries));
    }

    /** One turn of the loop adds one outcome to the trace. */
    method Process(a: Arrival)
      requires Valid() && lastNs <= a.times.checkNs && a.times.InOrder()
      modifies Repr()
      ensures Valid() && fresh(Repr() - old(Repr())) && lastNs <= a.times.endNs
      ensures |trace| == |old(trace)| + 1 && old(trace) <= trace
      ensures var o := trace[|trace| - 1];
              && Follows(o, a)
              && (o.Settled() && !o.Invalid? ==> (o.RateLimited? <==> !old(HasRoomFor(a.decision, a.times))))
    {
      hide Idempotency.RunRaw, BreakerAfter, BreakerLegal, StoreOps, StepOps, StoreLegal, PassedOf, Clock;
      hide Recorded, LimiterClock;
      hide Breakers.Asked, Breakers.Admits, HasRoom, Reports, StepLegal, LimiterLegal, PassedBy, Text.Decimal;
      hide Idempotency.IdempotencyStore.Recorded, RateLimiting.RateLimiter.Valid, Breakers.CircuitBreaker.Valid;
      hide Residency.Reachable;
      ghost var o := Handle(a);
      if o.AsksBreaker() {
        lastNs := a.times.endNs;
      }
      BreakerTraceGrows(trace, o, breaker.failureThreshold, breaker.cooldownMs);
      StoreTraceGrows(initialFields, trace, o, store.capacity, store.maxMemoryBytes);
      LimiterTraceGrows(trace, o, globalRate, symbolRate);
      trace := trace + [o];
    }

    /** The loop takes decisions until the kill switch stops it, and drains the rest unexecuted. */
    method RunLoop(arrivals: seq<Arrival>) returns (taken: nat, drained: nat)
      requires Valid() && InOrder(arrivals, lastNs)
      modifies Repr()
      ensures Valid() && fresh(Repr() - old(Repr()))
      ensures taken + drained == |arrivals| && |trace| == |old(trace)| + taken && old(trace) <= trace
      ensures forall i :: 0 <= i < taken ==> !arrivals[i].killBefore
      ensures drained > 0 ==> arrivals[taken].killBefore
      ensures forall i :: 0 <= i < taken ==> Follows(trace[|old(trace)| + i], arrivals[i])
    {
      hide Valid, HasRoomFor, Follows, InOrder, Times.InOrder, Text.Decimal, Outcome.Settled;
      taken, drained := 0, 0;
      ghost var done: seq<Outcome> := [];
      assert arrivals[0..] == arrivals;
      while taken < |arrivals| && !arrivals[taken].killBefore
        invariant taken <= |arrivals|
        invariant Valid() && fresh(Repr() - old(Repr()))
        invariant |done| == taken && trace == old(trace) + done
        invariant InOrder(arrivals[taken..], lastNs)
        invariant forall i :: 0 <= i < taken ==> !arrivals[i].killBefore
        invariant forall i :: 0 <= i < taken ==> Follows(done[i], arrivals[i])
      {
        NextInOrder(arrivals, taken, lastNs);
        Process(arrivals[taken]);
        done := done + [trace[|trace| - 1]];
        EarlierIsInOrder(arrivals[taken + 1..], arrivals[taken].times.endNs, lastNs);
        taken := taken + 1;
      }
      drained := |arrivals| - taken;
    }

    /**
     Whatever the manager has done, on a store that was tidy when it was handed over or has room for
     one key: between two submissions of an intent at least a store's capacity of others were used.
     */
    lemma AtMostOnce(i: nat, j: nat)
      requires Valid() && (store.capacity <= 1 || StoreRuns.Tidy(initialFields, store.capacity))
      requires StoreRuns.RoomyRun(initialFields, StoreOps(trace), store.capacity, store.maxMemoryBytes)
      requires i < j < |trace| && trace[i].Submitted? && trace[j].Submitted? && trace[i].intent == trace[j].intent
      ensures store.capacity <= |UsedIntents(trace[i + 1..j]) - {trace[i].intent}|
    {
      hide StoreLegal, StoreRuns.RoomyRun, UsedIntents, StoreOps, StoreRuns.Tidy, StoreRuns.Rations;
      hide Residency.Reachable;
      hide LimiterValid, BreakerValid, Idempotency.RunRaw, Idempotency.IdempotencyStore.Recorded;
      Residency.RationsExactly(initialFields, store.capacity);
      AtMostOncePerCapacity(initialFields, trace, i, j, store.capacity, store.maxMemoryBytes);
    }

    /**
     Whatever the manager has done: in any window of the clock no more decisions reached the broker than either rate
     allows.
     */
    lemma BrokerRationed(symbol: string, from: nat, to: nat)
      requires Valid() && 0.0 <= globalRate && 0.0 <= symbolRate && from <= to
      ensures BrokerCalls(trace, from, to) as real <= globalRate + TokenBuckets.Earned(globalRate, from, to)
      ensures BrokerCallsFor(trace, symbol, from, to) as real <= symbolRate + TokenBuckets.Earned(symbolRate, from, to)
    {
      hide StoreValid, BreakerValid, LimiterLegal, LimiterClock, PassedOf, BrokerCalls, BrokerCallsFor;
      hide RateLimiting.RateLimiter.Valid;
      BrokerIsRationed(trace, symbol, from, to, globalRate, symbolRate);
    }

    /** While the broker has always failed, attempts are rationed by the breaker. */
    lemma AttemptsRationed()
      requires Valid() && 1 <= breaker.failureThreshold && BrokerAlwaysFails(trace)
      ensures breaker.state.Closed? <==> Failures(trace) < breaker.failureThreshold
      ensures Failures(trace) <= breaker.failureThreshold ||
              Failures(trace) <= breaker.failureThreshold +
                (lastNs - FailureNs(trace, breaker.failureThreshold)) / PeriodNs(breaker.cooldownMs)
    {
      hide BreakerLegal, PeriodNs, BreakerAfter, LimiterValid, StoreValid, Failures, FailureNs, BrokerAlwaysFails;
      OpensAtThreshold(trace, breaker.failureThreshold, breaker.cooldownMs);
      AttemptsAreBounded(trace, breaker.failureThreshold, breaker.cooldownMs, lastNs);
    }
  }
}
