/**
 Token buckets, and what their decisions mean.

 A bucket is characterised by the requests it has let through so far. `Fits` is
 the eager reading: a request passes when every window that ends now, whatever
 instant it starts at, still holds no more than the burst plus what the rate
 earned over the window. `Level` is what the lazily refilled counter holds.
 `LevelDecidesWindows` says the two decide alike.
 */
module TokenBuckets {
  import opened Numbers

  /** A request that was let through: when, and for how much. */
  datatype Admission = Admission(at: nat, count: real)

  /** What `rate` tokens per second earn between two readings of the clock. */
  function Earned(rate: real, from: nat, now: nat): real {
    rate * ((now - from) as real / NS_PER_S)
  }

  /** How much was let through at or after `from`. */
  ghost function AdmittedSince(log: seq<Admission>, from: nat): real {
    if log == [] then 0.0
    else
      var last := log[|log| - 1];
      AdmittedSince(log[..|log| - 1], from) + if from <= last.at then last.count else 0.0
  }

  /** How much was let through between `from` and `to`, both included. */
  ghost function AdmittedBetween(log: seq<Admission>, from: nat, to: nat): real {
    if log == [] then 0.0
    else
      var last := log[|log| - 1];
      AdmittedBetween(log[..|log| - 1], from, to) + if from <= last.at <= to then last.count else 0.0
  }

  /** Non-negative amounts, in time order, none after `now`. */
  ghost predicate Chronological(log: seq<Admission>, now: nat) {
    && (forall i :: 0 <= i < |log| ==> log[i].at <= now && 0.0 <= log[i].count)
    && (forall i, j :: 0 <= i < j < |log| ==> log[i].at <= log[j].at)
  }

  /** The eager specification of one admission decision. */
  ghost predicate Fits(log: seq<Admission>, now: nat, count: real, burst: real, rate: real) {
    forall from: nat :: from <= now ==> AdmittedSince(log, from) + count <= burst + Earned(rate, from, now)
  }

  /** The window from `from` on, in figures: no more than the burst came through, and the rate for each second. */
  ghost predicate HasRoomSince(log: seq<Admission>, from: nat, now: nat, count: real, burst: real, rate: real) {
    (AdmittedSince(log, from) + count - burst) * 1_000_000_000.0 <= rate * (now - from) as real
  }

  /** The window rule is that of all windows, in figures. */
  lemma FitsInFigures(log: seq<Admission>, now: nat, count: real, burst: real, rate: real)
    ensures Fits(log, now, count, burst, rate) <==>
            forall from: nat :: from <= now ==> HasRoomSince(log, from, now, count, burst, rate)
  {
    hide AdmittedSince, Earned;
    forall from: nat | from <= now
      ensures AdmittedSince(log, from) + count <= burst + Earned(rate, from, now) <==>
              HasRoomSince(log, from, now, count, burst, rate)
    {
      EarnedInFigures(rate, from, now);
    }
  }

  lemma EarnedInFigures(rate: real, from: nat, now: nat)
    requires from <= now
    ensures Earned(rate, from, now) * 1_000_000_000.0 == rate * (now - from) as real
  {
    var seconds := (now - from) as real / NS_PER_S;
    assert seconds * NS_PER_S == (now - from) as real;
    assert rate * seconds * NS_PER_S == rate * (seconds * NS_PER_S);
  }

  /** Every entry of the log fitted when it was let through. */
  ghost predicate Legal(log: seq<Admission>, burst: real, rate: real) {
    log == [] ||
    var last := log[|log| - 1];
    Legal(log[..|log| - 1], burst, rate) && Fits(log[..|log| - 1], last.at, last.count, burst, rate)
  }

  /** The counter of a bucket that has let `log` through and refills at `now`. */
  ghost function Level(log: seq<Admission>, now: nat, burst: real, rate: real): real {
    if log == [] then burst
    else
      var last := log[|log| - 1];
      Min(burst, Level(log[..|log| - 1], last.at, burst, rate) - last.count + Earned(rate, last.at, now))
  }

  lemma EarnedIs(rate: real, from: nat, now: nat)
    ensures Earned(rate, from, now) == rate * ((now - from) as real / NS_PER_S)
  {
  }

  lemma EarnedSplits(rate: real, a: nat, b: nat, c: nat)
    ensures Earned(rate, a, b) + Earned(rate, b, c) == Earned(rate, a, c)
  {
    var x, y := (b - a) as real / NS_PER_S, (c - b) as real / NS_PER_S;
    assert x + y == (c - a) as real / NS_PER_S;
    assert rate * x + rate * y == rate * (x + y);
  }

  lemma EarnedGrows(rate: real, a: nat, b: nat)
    requires 0.0 <= rate && a <= b
    ensures 0.0 <= Earned(rate, a, b)
  {
    assert 0.0 <= (b - a) as real / NS_PER_S;
  }

  lemma {:induction false} AdmittedSinceNonNegative(log: seq<Admission>, from: nat, now: nat)
    requires Chronological(log, now)
    ensures 0.0 <= AdmittedSince(log, from)
  {
    if log != [] {
      AdmittedSinceNonNegative(log[..|log| - 1], from, now);
    }
  }

  lemma {:induction false} NothingAdmittedLater(log: seq<Admission>, from: nat, now: nat)
    requires Chronological(log, now) && now < from
    ensures AdmittedSince(log, from) == 0.0
  {
    if log != [] {
      NothingAdmittedLater(log[..|log| - 1], from, now);
    }
  }

  /** Folding the last admission into the request leaves the same windows to check. */
  lemma FitsUnfolds(log: seq<Admission>, now: nat, count: real, burst: real, rate: real)
    requires log != [] && Chronological(log, now) && 0.0 <= rate
    ensures var last := log[|log| - 1];
            Fits(log, now, count, burst, rate) <==>
            count <= burst &&
              Fits(log[..|log| - 1], last.at, last.count + count - Earned(rate, last.at, now), burst, rate)
  {
    var rest, last := log[..|log| - 1], log[|log| - 1];
    var carried := last.count + count - Earned(rate, last.at, now);
    if Fits(log, now, count, burst, rate) {
      assert AdmittedSince(log, now) + count <= burst + Earned(rate, now, now);
      AdmittedSinceNonNegative(log, now, now);
      forall from: nat | from <= last.at
        ensures AdmittedSince(rest, from) + carried <= burst + Earned(rate, from, last.at)
      {
        assert AdmittedSince(log, from) + count <= burst + Earned(rate, from, now);
        EarnedSplits(rate, from, last.at, now);
      }
    }
    if count <= burst && Fits(rest, last.at, carried, burst, rate) {
      forall from: nat | from <= now
        ensures AdmittedSince(log, from) + count <= burst + Earned(rate, from, now)
      {
        if from <= last.at {
          assert AdmittedSince(rest, from) + carried <= burst + Earned(rate, from, last.at);
          EarnedSplits(rate, from, last.at, now);
        } else {
          NothingAdmittedLater(log, from, last.at);
          EarnedGrows(rate, from, now);
        }
      }
    }
  }

  /** The counter of the lazily refilled bucket decides exactly as the eager window rule. */
  lemma {:induction false} LevelDecidesWindows(log: seq<Admission>, now: nat, count: real, burst: real, rate: real)
    requires Chronological(log, now) && 0.0 <= rate
    ensures count <= Level(log, now, burst, rate) <==> Fits(log, now, count, burst, rate)
  {
    if log == [] {
      forall from: nat | from <= now
        ensures 0.0 <= Earned(rate, from, now)
      {
        EarnedGrows(rate, from, now);
      }
      if Fits(log, now, count, burst, rate) {
        assert AdmittedSince(log, now) + count <= burst + Earned(rate, now, now);
      }
    } else {
      var last := log[|log| - 1];
      LevelDecidesWindows(log[..|log| - 1], last.at, last.count + count - Earned(rate, last.at, now), burst, rate);
      FitsUnfolds(log, now, count, burst, rate);
    }
  }

  /** Refilling in two steps is refilling once: an idle or refused call leaves no trace. */
  lemma LevelAdvances(log: seq<Admission>, t: nat, now: nat, burst: real, rate: real)
    requires t <= now && 0.0 <= rate
    ensures Min(Level(log, t, burst, rate) + Earned(rate, t, now), burst) == Level(log, now, burst, rate)
  {
    EarnedGrows(rate, t, now);
    if log != [] {
      EarnedSplits(rate, log[|log| - 1].at, t, now);
    }
  }

  /** Safety over whole runs: no window, wherever it starts and ends, ever holds more than burst plus earnings. */
  lemma {:induction false} NoWindowOverflows(log: seq<Admission>, from: nat, to: nat, now: nat, burst: real, rate: real)
    requires Chronological(log, now) && Legal(log, burst, rate)
    requires 0.0 <= rate && 0.0 <= burst && from <= to
    ensures AdmittedBetween(log, from, to) <= burst + Earned(rate, from, to)
  {
    EarnedGrows(rate, from, to);
    if log != [] {
      var rest, last := log[..|log| - 1], log[|log| - 1];
      if last.at <= to && from <= last.at {
        assert AdmittedSince(rest, from) + last.count <= burst + Earned(rate, from, last.at);
        BetweenIsSince(rest, from, to, last.at);
        EarnedSplits(rate, from, last.at, to);
        EarnedGrows(rate, last.at, to);
      } else {
        NoWindowOverflows(rest, from, to, now, burst, rate);
      }
    }
  }

  lemma {:induction false} BetweenIsSince(log: seq<Admission>, from: nat, to: nat, now: nat)
    requires Chronological(log, now) && now <= to
    ensures AdmittedBetween(log, from, to) == AdmittedSince(log, from)
  {
    if log != [] {
      BetweenIsSince(log[..|log| - 1], from, to, now);
    }
  }

  lemma LevelWithinBurst(log: seq<Admission>, now: nat, burst: real, rate: real)
    ensures Level(log, now, burst, rate) <= burst
  {
  }

  /** Appending an admission takes its amount off the level and keeps a fitting log legal. */
  lemma LogExtends(log: seq<Admission>, a: Admission, burst: real, rate: real)
    requires Chronological(log, a.at) && 0.0 <= a.count && 0.0 <= rate
    ensures Chronological(log + [a], a.at)
    ensures Level(log + [a], a.at, burst, rate) == Level(log, a.at, burst, rate) - a.count
    ensures Legal(log + [a], burst, rate) <==> Legal(log, burst, rate) && Fits(log, a.at, a.count, burst, rate)
  {
    assert (log + [a])[..|log + [a]| - 1] == log;
    LevelWithinBurst(log, a.at, burst, rate);
    assert Earned(rate, a.at, a.at) == 0.0;
  }

  class TokenBucket {
    var tokens: real
    const maxTokens: real
    const refillRate: real
    var lastRefillNs: nat
    ghost var log: seq<Admission>

    /** The counter is the level of everything let through so far. */
    ghost predicate Valid()
      reads this
    {
      && 0.0 <= refillRate
      && Chronological(log, lastRefillNs)
      && Legal(log, maxTokens, refillRate)
      && tokens == Level(log, lastRefillNs, maxTokens, refillRate)
    }

    constructor (maxTokens: real, refillRate: real, now: nat)
      requires 0.0 <= refillRate
      ensures Valid() && log == [] && lastRefillNs == now
      ensures this.maxTokens == maxTokens && this.refillRate == refillRate
    {
      tokens := maxTokens;
      this.maxTokens := maxTokens;
      this.refillRate := refillRate;
      lastRefillNs := now;
      log := [];
    }

    method Refill(now: nat)
      requires Valid() && lastRefillNs <= now
      modifies this
      ensures Valid() && log == old(log) && lastRefillNs == now
    {
      hide Level, Legal;
      var elapsed := (now - lastRefillNs) as real / NS_PER_S;
      LevelAdvances(log, lastRefillNs, now, maxTokens, refillRate);
      tokens := Min(tokens + refillRate * elapsed, maxTokens);
      lastRefillNs := now;
    }

    /** Lets `count` through exactly when every window ending now has room for it. */
    method TryConsume(count: real, now: nat) returns (ok: bool)
      requires Valid() && lastRefillNs <= now && 0.0 <= count
      modifies this
      ensures Valid() && lastRefillNs == now
      ensures ok <==> Fits(old(log), now, count, maxTokens, refillRate)
      ensures log == if ok then old(log) + [Admission(now, count)] else old(log)
    {
      hide Level, Chronological, Legal, Fits;
      Refill(now);
      LevelDecidesWindows(log, now, count, maxTokens, refillRate);
      if tokens >= count {
        tokens := tokens - count;
        LogExtends(log, Admission(now, count), maxTokens, refillRate);
        log := log + [Admission(now, count)];
        ok := true;
      } else {
        ok := false;
      }
    }

    /** Takes back the admission made a moment ago, as if it had never been tried. */
    method Refund(count: real)
      requires Valid() && log != [] && log[|log| - 1] == Admission(lastRefillNs, count)
      modifies this
      ensures Valid() && log == old(log)[..|old(log)| - 1] && lastRefillNs == old(lastRefillNs)
    {
      hide Level, Legal;
      tokens := tokens + count;
      LogExtends(log[..|log| - 1], Admission(lastRefillNs, count), maxTokens, refillRate);
      assert log == log[..|log| - 1] + [Admission(lastRefillNs, count)];
      log := log[..|log| - 1];
    }
  }
}
