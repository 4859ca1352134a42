/** The two-level limiter: one global bucket, one bucket per symbol made on first use, and a refund. */
module RateLimiting {
  import opened TokenBuckets

  /** A request that passed both levels, with the clock readings each level took. */
  datatype Passed = Passed(symbol: string, count: real, globalNs: nat, symbolNs: nat)

  /** What the global level saw of the requests that passed. */
  ghost function GlobalView(passed: seq<Passed>): seq<Admission> {
    if passed == [] then []
    else
      var last := passed[|passed| - 1];
      GlobalView(passed[..|passed| - 1]) + [Admission(last.globalNs, last.count)]
  }

  /** What the level of one symbol saw of the requests that passed. */
  ghost function SymbolView(passed: seq<Passed>, symbol: string): seq<Admission> {
    if passed == [] then []
    else
      var last := passed[|passed| - 1];
      SymbolView(passed[..|passed| - 1], symbol) +
      if last.symbol == symbol then [Admission(last.symbolNs, last.count)] else []
  }

  lemma ViewsExtend(passed: seq<Passed>, p: Passed, symbol: string)
    ensures GlobalView(passed + [p]) == GlobalView(passed) + [Admission(p.globalNs, p.count)]
    ensures SymbolView(passed + [p], symbol) ==
            SymbolView(passed, symbol) + if p.symbol == symbol then [Admission(p.symbolNs, p.count)] else []
  {
    assert (passed + [p])[..|passed + [p]| - 1] == passed;
  }

  lemma AllViewsExtend(passed: seq<Passed>, p: Passed)
    ensures SymbolView(passed + [p], p.symbol) == SymbolView(passed, p.symbol) + [Admission(p.symbolNs, p.count)]
    ensures forall s :: s != p.symbol ==> SymbolView(passed + [p], s) == SymbolView(passed, s)
  {
    hide SymbolView;
    forall s
      ensures SymbolView(passed + [p], s) ==
              SymbolView(passed, s) + if s == p.symbol then [Admission(p.symbolNs, p.count)] else []
    {
      ViewsExtend(passed, p, s);
    }
  }

  class RateLimiter {
    var global: TokenBucket
    var perSymbol: map<string, TokenBucket>
    const defaultPerSymbolRate: real
    ghost var passed: seq<Passed>
    ghost var clock: nat

    ghost function Repr(): set<object>
      reads this
    {
      {this, global} + perSymbol.Values
    }

    ghost predicate Valid()
      reads this, Repr()
    {
      && global.Valid() && global.refillRate == global.maxTokens
      && global.lastRefillNs <= clock
      && global.log == GlobalView(passed)
      && SymbolsValid()
    }

    /** One bucket per symbol seen, none shared, each holding that symbol's share of the log. */
    ghost predicate SymbolsValid()
      reads this, perSymbol.Values
    {
      && 0.0 <= defaultPerSymbolRate
      && (forall s :: s in perSymbol ==> BucketFor(s))
      && (forall s, t :: s in perSymbol && t in perSymbol && s != t ==> perSymbol[s] != perSymbol[t])
      && (forall s :: s !in perSymbol ==> SymbolView(passed, s) == [])
    }

    ghost predicate BucketFor(s: string)
      requires s in perSymbol
      reads this, perSymbol.Values
    {
      var b := perSymbol[s];
      && b in perSymbol.Values
      && b != global && b.Valid()
      && b.maxTokens == b.refillRate == defaultPerSymbolRate
      && b.lastRefillNs <= clock
      && b.log == SymbolView(passed, s)
    }

    /** The symbols' buckets stand while only the global one is touched. */
    twostate lemma SymbolsStand()
      requires old(SymbolsValid()) && perSymbol == old(perSymbol) && passed == old(passed) && old(clock) <= clock
      requires global == old(global) && forall b :: b in perSymbol.Values ==> unchanged(b)
      ensures SymbolsValid()
    {
      hide TokenBucket.Valid, Fits, Level, Legal, Chronological, Earned, GlobalView, SymbolView;
      forall s | s in perSymbol
        ensures BucketFor(s)
      {
        assert old(BucketFor(s));
      }
    }

    lemma GlobalApart()
      requires SymbolsValid()
      ensures global !in perSymbol.Values
    {
      assert forall s :: s in perSymbol ==> BucketFor(s);
    }

    constructor (globalRate: real, perSymbolRate: real, now: nat)
      requires 0.0 <= globalRate && 0.0 <= perSymbolRate
      ensures Valid() && fresh(Repr()) && passed == [] && clock == now
      ensures global.maxTokens == globalRate && defaultPerSymbolRate == perSymbolRate
    {
      global := new TokenBucket(globalRate, globalRate, now);
      perSymbol := map[];
      defaultPerSymbolRate := perSymbolRate;
      passed := [];
      clock := now;
    }

    /** The bucket of the symbol, made full if this is the first request for it. */
    method EntryOrInsert(symbol: string, createdNs: nat) returns (bucket: TokenBucket)
      requires SymbolsValid() && clock <= createdNs
      modifies this`perSymbol, this`clock
      ensures SymbolsValid() && fresh(perSymbol.Values - old(perSymbol.Values))
      ensures clock == createdNs && symbol in perSymbol && bucket == perSymbol[symbol]
    {
      hide TokenBucket.Valid, Fits, Level, Legal, Chronological, Earned, GlobalView, SymbolView;
      ghost var before := perSymbol;
      assert forall s :: s in before ==> BucketFor(s);
      clock := createdNs;
      if symbol !in perSymbol {
        assert SymbolView(passed, symbol) == [];
        var created := new TokenBucket(defaultPerSymbolRate, defaultPerSymbolRate, createdNs);
        perSymbol := perSymbol[symbol := created];
        forall s | s in perSymbol
          ensures BucketFor(s)
        {
          assert s != symbol ==> s in before && perSymbol[s] == before[s];
        }
      }
      bucket := perSymbol[symbol];
    }

    /** The second level on its own. */
    method ConsumeForSymbol(symbol: string, count: real, globalNs: nat, createdNs: nat, symbolNs: nat)
        returns (ok: bool)
      requires SymbolsValid() && 0.0 <= count && clock <= createdNs <= symbolNs
      modifies this, perSymbol.Values
      ensures SymbolsValid() && fresh(perSymbol.Values - old(perSymbol.Values))
      ensures clock == symbolNs && global == old(global)
      ensures ok <==> Fits(SymbolView(old(passed), symbol), symbolNs, count, defaultPerSymbolRate, defaultPerSymbolRate)
      ensures passed == if ok then old(passed) + [Passed(symbol, count, globalNs, symbolNs)] else old(passed)
    {
      hide TokenBucket.Valid, Fits, Level, Legal, Chronological, Earned, GlobalView, SymbolView;
      var bucket := EntryOrInsert(symbol, createdNs);
      assert BucketFor(symbol);
      label Entered:
      ok := bucket.TryConsume(count, symbolNs);
      clock := symbolNs;
      ghost var before := passed;
      if ok {
        passed := passed + [Passed(symbol, count, globalNs, symbolNs)];
      }
      AllViewsExtend(before, Passed(symbol, count, globalNs, symbolNs));
      forall s | s in perSymbol
        ensures BucketFor(s)
      {
        assert old@Entered(BucketFor(s));
        assert s != symbol ==> perSymbol[s] != bucket;
      }
    }

    /**
     The decision is the conjunction of the two eager window rules over the requests
     that passed both levels: when the bucket of the symbol came into being, how often
     anything was refilled, and what was charged and refunded do not matter.
     */
    method TryConsume(symbol: string, count: real, globalNs: nat, createdNs: nat, symbolNs: nat) returns (ok: bool)
      requires Valid() && 0.0 <= count && clock <= globalNs <= createdNs <= symbolNs
      modifies Repr()
      ensures Valid() && fresh(Repr() - old(Repr()))
      ensures clock <= symbolNs
      ensures global == old(global)
      ensures ok <==>
              && Fits(GlobalView(old(passed)), globalNs, count, global.maxTokens, global.maxTokens)
              && Fits(SymbolView(old(passed), symbol), symbolNs, count, defaultPerSymbolRate, defaultPerSymbolRate)
      ensures passed == if ok then old(passed) + [Passed(symbol, count, globalNs, symbolNs)] else old(passed)
    {
      hide TokenBucket.Valid, Fits, Level, Legal, Chronological, Earned, GlobalView, SymbolView, SymbolsValid;
      GlobalApart();
      clock := globalNs;
      ok := global.TryConsume(count, globalNs);
      SymbolsStand();
      if !ok {
        return;
      }
      ok := ConsumeForSymbol(symbol, count, globalNs, createdNs, symbolNs);
      assert global.Valid() && global.log == GlobalView(old(passed)) + [Admission(globalNs, count)];
      if !ok {
        GlobalApart();
        label Refused:
        global.Refund(count);
        SymbolsStand@Refused();
      } else {
        ViewsExtend(old(passed), Passed(symbol, count, globalNs, symbolNs), symbol);
      }
    }

    /** Safety over the whole life of the limiter, for any window at either level. */
    lemma NoWindowOverflows(symbol: string, from: nat, to: nat)
      requires Valid() && 0.0 <= global.maxTokens && from <= to
      ensures AdmittedBetween(GlobalView(passed), from, to) <=
              global.maxTokens + Earned(global.maxTokens, from, to)
      ensures AdmittedBetween(SymbolView(passed, symbol), from, to) <=
              defaultPerSymbolRate + Earned(defaultPerSymbolRate, from, to)
    {
      TokenBuckets.NoWindowOverflows(global.log, from, to, global.lastRefillNs, global.maxTokens, global.maxTokens);
      if symbol in perSymbol {
        var bucket := perSymbol[symbol];
        assert BucketFor(symbol);
        TokenBuckets.NoWindowOverflows(bucket.log, from, to, bucket.lastRefillNs, defaultPerSymbolRate,
                                       defaultPerSymbolRate);
      } else {
        EarnedGrows(defaultPerSymbolRate, from, to);
      }
    }
  }
}
