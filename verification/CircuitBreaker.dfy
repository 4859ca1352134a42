/** The circuit breaker: three states, a failure count, and a cooldown counted in whole milliseconds. */
module Breakers {
  import opened Numbers

  datatype State = Closed | Open | HalfOpen

  datatype Inner = Inner(state: State, failures: nat, trippedAtNs: nat)

  const NEW_INNER := Inner(Closed, 0, 0)

  function Succeeded(b: Inner): Inner {
    b.(state := Closed, failures := 0)
  }

  function Failed(b: Inner, threshold: nat, now: nat): Inner {
    var failures := b.failures + 1;
    if failures >= threshold || b.state.HalfOpen? then Inner(Open, failures, now) else b.(failures := failures)
  }

  predicate CooledDown(b: Inner, cooldownMs: nat, now: nat) {
    SaturatingSub(now, b.trippedAtNs) / NS_PER_MS > cooldownMs
  }

  predicate Admits(b: Inner, cooldownMs: nat, now: nat) {
    b.state.Open? ==> CooledDown(b, cooldownMs, now)
  }

  /** The breaker after it was asked whether a call may go ahead. */
  function Asked(b: Inner, cooldownMs: nat, now: nat): Inner {
    if b.state.Open? && CooledDown(b, cooldownMs, now) then b.(state := HalfOpen) else b
  }

  class CircuitBreaker {
    var state: State
    var failures: nat
    var trippedAtNs: nat
    var isOpen: bool
    const failureThreshold: nat
    const cooldownMs: nat

    function Fields(): Inner
      reads this
    {
      Inner(state, failures, trippedAtNs)
    }

    /** The flag mirrors the state, and only a full count leaves Closed. */
    ghost predicate Valid()
      reads this
    {
      && (isOpen <==> state.Open?)
      && (!state.Closed? ==> failureThreshold <= failures)
      && (state.Closed? ==> failures < failureThreshold || failures == 0)
    }

    constructor (failureThreshold: nat, cooldownMs: nat)
      ensures Valid() && Fields() == NEW_INNER
      ensures state.Closed? && failures == trippedAtNs == 0 && !isOpen
      ensures this.failureThreshold == failureThreshold && this.cooldownMs == cooldownMs
    {
      state, failures, trippedAtNs, isOpen := Closed, 0, 0, false;
      this.failureThreshold, this.cooldownMs := failureThreshold, cooldownMs;
    }

    method RecordSuccess()
      requires Valid()
      modifies this
      ensures Valid() && Fields() == Succeeded(old(Fields()))
      ensures state.Closed? && failures == 0 && !isOpen && trippedAtNs == old(trippedAtNs)
    {
      failures := 0;
      state := Closed;
      isOpen := false;
    }

    method RecordFailure(now: nat)
      requires Valid()
      modifies this
      ensures Valid() && Fields() == Failed(old(Fields()), failureThreshold, now)
      ensures failures == old(failures) + 1
      ensures old(state).HalfOpen? || failureThreshold <= failures ==> state.Open? && trippedAtNs == now
      ensures !old(state).HalfOpen? && failures < failureThreshold ==> state.Closed? && trippedAtNs == old(trippedAtNs)
    {
      failures := failures + 1;
      if failures >= failureThreshold || state.HalfOpen? {
        trippedAtNs := now;
        state := Open;
        isOpen := true;
      }
    }

    method Trip(now: nat)
      requires Valid()
      modifies this
      ensures Valid() && Fields() == Inner(Open, failureThreshold, now)
    {
      trippedAtNs := now;
      state := Open;
      failures := failureThreshold;
      isOpen := true;
    }

    method CanExecute(now: nat) returns (ok: bool)
      requires Valid()
      modifies this
      ensures Valid() && Fields() == Asked(old(Fields()), cooldownMs, now)
      ensures ok <==> Admits(old(Fields()), cooldownMs, now)
      ensures ok <==> !old(state).Open? || trippedAtNs + (cooldownMs + 1) * 1_000_000 <= now
      ensures failures == old(failures) && trippedAtNs == old(trippedAtNs)
      ensures state == if old(state).Open? && ok then HalfOpen else old(state)
    {
      match state
      case Closed => ok := true;
      case Open =>
        var elapsedMs := SaturatingSub(now, trippedAtNs) / NS_PER_MS;
        if elapsedMs > cooldownMs {
          state := HalfOpen;
          isOpen := false;
          ok := true;
        } else {
          ok := false;
        }
      case HalfOpen => ok := true;
    }

    method Reset()
      requires Valid()
      modifies this
      ensures Valid() && Fields() == Succeeded(old(Fields()))
      ensures state.Closed? && failures == 0 && !isOpen && trippedAtNs == old(trippedAtNs)
    {
      failures := 0;
      state := Closed;
      isOpen := false;
    }
  }
}
