/** The store along a trace of the execution loop: when an intent that was submitted can be submitted again. */
module StoreTrace {
  import opened ExecutionTrace
  import opened Idempotency
  import opened Residency
  import opened StoreRuns
  import Lru
  import Text
  import UntidyDeques

  function IntentKey(intent: nat): string {
    "intent-" + Text.Decimal(intent)
  }

  lemma IntentKeysDiffer(a: nat, b: nat)
    ensures IntentKey(a) == IntentKey(b) <==> a == b
  {
    if IntentKey(a) == IntentKey(b) {
      assert IntentKey(a)[7..] == Text.Decimal(a) && IntentKey(b)[7..] == Text.Decimal(b);
      Text.DecimalReadsBack(a);
      Text.DecimalReadsBack(b);
    }
  }

  function StepOps(o: Outcome): seq<Lru.Op> {
    if o.Submitted? then [Lru.Lookup(IntentKey(o.intent)), Lru.Mark(IntentKey(o.intent), o.executionId)]
    else if o.PassedLimiter() then [Lru.Lookup(IntentKey(o.intent))]
    else []
  }

  function StoreOps(trace: seq<Outcome>): seq<Lru.Op> {
    if trace == [] then [] else StepOps(trace[0]) + StoreOps(trace[1..])
  }

  /** Duplicates were found in the store, and what went to the broker was not. */
  ghost predicate StepLegal(raw: Raw, o: Outcome) {
    o.PassedLimiter() ==> (o.Duplicate? <==> IntentKey(o.intent) in raw.processed)
  }

  ghost predicate StoreLegal(raw: Raw, trace: seq<Outcome>, capacity: nat, maxBytes: nat)
    decreases |trace|
  {
    trace == [] ||
    (&& StepLegal(raw, trace[0])
     && StoreLegal(RunRaw(raw, StepOps(trace[0]), capacity, maxBytes), trace[1..], capacity, maxBytes))
  }

  lemma {:induction false} OpsSplit(a: seq<Outcome>, b: seq<Outcome>)
    ensures StoreOps(a + b) == StoreOps(a) + StoreOps(b)
  {
    if a == [] {
      assert a + b == b;
    } else {
      hide StepOps;
      assert (a + b)[1..] == a[1..] + b;
      OpsSplit(a[1..], b);
    }
  }

  lemma OneStepOps(o: Outcome)
    ensures StoreOps([o]) == StepOps(o)
  {
    hide StepOps;
    assert StoreOps([o]) == StepOps(o) + StoreOps([]);
  }

  lemma {:induction false} TraceSplit(raw: Raw, a: seq<Outcome>, b: seq<Outcome>, capacity: nat, maxBytes: nat)
    ensures StoreLegal(raw, a + b, capacity, maxBytes) <==>
            && StoreLegal(raw, a, capacity, maxBytes)
            && StoreLegal(RunRaw(raw, StoreOps(a), capacity, maxBytes), b, capacity, maxBytes)
    decreases |a|
  {
    hide StepOps, StepLegal, ApplyRaw;
    if a == [] {
      assert a + b == b;
    } else {
      assert (a + b)[1..] == a[1..] + b;
      RunSplits(raw, StepOps(a[0]), StoreOps(a[1..]), capacity, maxBytes);
      TraceSplit(RunRaw(raw, StepOps(a[0]), capacity, maxBytes), a[1..], b, capacity, maxBytes);
    }
  }

  lemma OneStepLegal(raw: Raw, o: Outcome, capacity: nat, maxBytes: nat)
    ensures StoreLegal(raw, [o], capacity, maxBytes) <==> StepLegal(raw, o)
  {
    hide StepOps, StepLegal, RunRaw;
    assert [o][1..] == [];
  }

  /** The intents that were submitted, or turned away as duplicates. */
  ghost function UsedIntents(trace: seq<Outcome>): set<nat> {
    if trace == [] then {}
    else UsedIntents(trace[1..]) + if trace[0].Submitted? || trace[0].Duplicate? then {trace[0].intent} else {}
  }

  ghost function KeysFor(intents: set<nat>): set<string> {
    set intent | intent in intents :: IntentKey(intent)
  }

  lemma {:induction false} AsManyKeys(intents: set<nat>)
    ensures |KeysFor(intents)| == |intents|
    decreases |intents|
  {
    hide IntentKey;
    if intents != {} {
      var intent :| intent in intents;
      AsManyKeys(intents - {intent});
      forall other | other in intents - {intent}
        ensures IntentKey(other) != IntentKey(intent)
      {
        IntentKeysDiffer(other, intent);
      }
      assert KeysFor(intents) == KeysFor(intents - {intent}) + {IntentKey(intent)};
    }
  }

  lemma KeysForOthers(intents: set<nat>, intent: nat)
    ensures KeysFor(intents - {intent}) == KeysFor(intents) - {IntentKey(intent)}
  {
    hide IntentKey;
    forall other | other in intents
      ensures IntentKey(other) == IntentKey(intent) <==> other == intent
    {
      IntentKeysDiffer(other, intent);
    }
  }

  /** A success looks its key up in vain and then marks it. */
  lemma SubmissionIsMark(raw: Raw, o: Outcome, capacity: nat, maxBytes: nat)
    requires o.Submitted? && IntentKey(o.intent) !in raw.processed
    ensures var mark := Lru.Mark(IntentKey(o.intent), o.executionId);
            && RunRaw(raw, StepOps(o), capacity, maxBytes) == ApplyRaw(raw, mark, capacity, maxBytes)
            && (RoomyRun(raw, StepOps(o), capacity, maxBytes) <==> RoomyOp(raw, mark, maxBytes))
            && UsedKeys(raw, StepOps(o), capacity, maxBytes) == {IntentKey(o.intent)}
  {
    hide IntentKey, RunRaw, RoomyRun, UsedKeys, MarkedRaw, DroppedRaw;
    var lookup, mark := Lru.Lookup(IntentKey(o.intent)), Lru.Mark(IntentKey(o.intent), o.executionId);
    assert StepOps(o) == [lookup] + [mark];
    RunSplits(raw, [lookup], [mark], capacity, maxBytes);
    RunOfOne(raw, lookup, capacity, maxBytes);
    RunOfOne(raw, mark, capacity, maxBytes);
  }

  lemma StepUses(raw: Raw, o: Outcome, capacity: nat, maxBytes: nat)
    requires StepLegal(raw, o)
    ensures UsedKeys(raw, StepOps(o), capacity, maxBytes) ==
            if o.Submitted? || o.Duplicate? then {IntentKey(o.intent)} else {}
  {
    hide IntentKey, ApplyRaw;
    if o.Submitted? {
      SubmissionIsMark(raw, o, capacity, maxBytes);
    } else if o.PassedLimiter() {
      RunOfOne(raw, Lru.Lookup(IntentKey(o.intent)), capacity, maxBytes);
    }
  }

  /** Along a trace the keys used in the store are those of the intents used. */
  lemma {:induction false} TraceUses(raw: Raw, trace: seq<Outcome>, capacity: nat, maxBytes: nat)
    requires StoreLegal(raw, trace, capacity, maxBytes)
    ensures UsedKeys(raw, StoreOps(trace), capacity, maxBytes) == KeysFor(UsedIntents(trace))
    decreases |trace|
  {
    hide StepOps, StepLegal, ApplyRaw, IntentKey;
    if trace != [] {
      RunSplits(raw, StepOps(trace[0]), StoreOps(trace[1..]), capacity, maxBytes);
      StepUses(raw, trace[0], capacity, maxBytes);
      TraceUses(RunRaw(raw, StepOps(trace[0]), capacity, maxBytes), trace[1..], capacity, maxBytes);
    }
  }

  /**
   An intent that was submitted twice, with fewer than `capacity` other intents used between, the byte cap not in the
   way.
   */
  ghost predicate Resubmits(raw: Raw, trace: seq<Outcome>, i: nat, j: nat, capacity: nat, maxBytes: nat) {
    && StoreLegal(raw, trace, capacity, maxBytes) && RoomyRun(raw, StoreOps(trace), capacity, maxBytes)
    && i < j < |trace| && trace[i].Submitted? && trace[j].Submitted? && trace[i].intent == trace[j].intent
    && |UsedIntents(trace[i + 1..j]) - {trace[i].intent}| < capacity
  }

  /** The parts of a trace around two outcomes. */
  lemma TraceParts(raw: Raw, before: seq<Outcome>, first: Outcome, between: seq<Outcome>, rest: seq<Outcome>,
                   capacity: nat, maxBytes: nat)
    requires first.Submitted?
    ensures var start := RunRaw(raw, StoreOps(before), capacity, maxBytes);
            var mark := Lru.Mark(IntentKey(first.intent), first.executionId);
            var marked := ApplyRaw(start, mark, capacity, maxBytes);
            var end := RunRaw(marked, StoreOps(between), capacity, maxBytes);
            var trace := before + ([first] + (between + rest));
            && (StoreLegal(raw, trace, capacity, maxBytes) <==>
                  && StoreLegal(raw, before, capacity, maxBytes) && IntentKey(first.intent) !in start.processed
                  && StoreLegal(marked, between, capacity, maxBytes) && StoreLegal(end, rest, capacity, maxBytes))
            && (StoreLegal(raw, trace, capacity, maxBytes) ==>
                  (RoomyRun(raw, StoreOps(trace), capacity, maxBytes) <==>
                     && RoomyRun(raw, StoreOps(before), capacity, maxBytes) && RoomyOp(start, mark, maxBytes)
                     && RoomyRun(marked, StoreOps(between), capacity, maxBytes)
                     && RoomyRun(end, StoreOps(rest), capacity, maxBytes)))
  {
    hide IntentKey, RunRaw, RoomyRun, UsedKeys, ApplyRaw, RoomyOp, StoreOps, StepOps, StoreLegal;
    var start := RunRaw(raw, StoreOps(before), capacity, maxBytes);
    TraceSplit(raw, before, [first] + (between + rest), capacity, maxBytes);
    OpsSplit(before, [first] + (between + rest));
    RunSplits(raw, StoreOps(before), StoreOps([first] + (between + rest)), capacity, maxBytes);
    TraceSplit(start, [first], between + rest, capacity, maxBytes);
    OneStepLegal(start, first, capacity, maxBytes);
    OpsSplit([first], between + rest);
    OneStepOps(first);
    if IntentKey(first.intent) !in start.processed {
      SubmissionIsMark(start, first, capacity, maxBytes);
      var marked := RunRaw(start, StepOps(first), capacity, maxBytes);
      RunSplits(start, StepOps(first), StoreOps(between + rest), capacity, maxBytes);
      TraceSplit(marked, between, rest, capacity, maxBytes);
      OpsSplit(between, rest);
      RunSplits(marked, StoreOps(between), StoreOps(rest), capacity, maxBytes);
    }
  }

  /** Between two successful submissions of one intent, at least `capacity` distinct other intents were used. */
  lemma AtMostOncePerCapacity(raw: Raw, trace: seq<Outcome>, i: nat, j: nat, capacity: nat, maxBytes: nat)
    requires Rations(raw, capacity)
    ensures !Resubmits(raw, trace, i, j, capacity, maxBytes)
  {
    hide StoreLegal, RoomyRun, RunRaw, ApplyRaw, RoomyOp, StoreOps, UsedKeys, UsedIntents, KeysFor, Lapses, IntentKey;
    if Resubmits(raw, trace, i, j, capacity, maxBytes) {
      var before, between, second, rest := trace[..i], trace[i + 1..j], trace[j], trace[j + 1..];
      assert trace == before + ([trace[i]] + (between + ([second] + rest)));
      TraceParts(raw, before, trace[i], between, [second] + rest, capacity, maxBytes);
      var mark := Lru.Mark(IntentKey(trace[i].intent), trace[i].executionId);
      var marked := ApplyRaw(RunRaw(raw, StoreOps(before), capacity, maxBytes), mark, capacity, maxBytes);
      SecondMisses(RunRaw(marked, StoreOps(between), capacity, maxBytes), second, rest, capacity, maxBytes);
      TraceUses(marked, between, capacity, maxBytes);
      KeysForOthers(UsedIntents(between), trace[i].intent);
      AsManyKeys(UsedIntents(between) - {trace[i].intent});
      NoLapse(raw, StoreOps(before), mark, StoreOps(between), capacity, maxBytes);
    }
  }

  lemma SecondMisses(raw: Raw, o: Outcome, rest: seq<Outcome>, capacity: nat, maxBytes: nat)
    requires o.Submitted? && StoreLegal(raw, [o] + rest, capacity, maxBytes)
    ensures IntentKey(o.intent) !in raw.processed
  {
    hide RunRaw, StepOps, IntentKey;
    assert ([o] + rest)[0] == o;
  }

  /** What the law says of a run in three parts. */
  lemma NoLapse(raw: Raw, before: seq<Lru.Op>, mark: Lru.Op, after: seq<Lru.Op>, capacity: nat, maxBytes: nat)
    requires Rations(raw, capacity) && mark.Mark? && RoomyRun(raw, before, capacity, maxBytes)
    requires RoomyOp(RunRaw(raw, before, capacity, maxBytes), mark, maxBytes)
    requires var marked := ApplyRaw(RunRaw(raw, before, capacity, maxBytes), mark, capacity, maxBytes);
             && RoomyRun(marked, after, capacity, maxBytes)
             && mark.key !in RunRaw(marked, after, capacity, maxBytes).processed
    ensures var marked := ApplyRaw(RunRaw(raw, before, capacity, maxBytes), mark, capacity, maxBytes);
            capacity <= |UsedKeys(marked, after, capacity, maxBytes) - {mark.key}|
  {
    hide RunRaw, ApplyRaw, RoomyRun, RoomyOp, UsedKeys;
    assert !Lapses(raw, Lapse(before, mark, after, maxBytes), capacity);
  }

  // ---------- the bound fails on every untidy store ----------

  ghost predicate IsIntentKey(key: string) {
    exists intent :: key == IntentKey(intent)
  }

  /** From here on no intent has its key in the deque. */
  ghost function PastIntents(order: seq<string>): nat {
    if order == [] then 0
    else
      var n := PastIntents(order[1..]);
      if intent: nat :| order[0] == IntentKey(intent) then (if intent < n then n else intent + 1) else n
  }

  lemma {:induction false} PastAllIntents(order: seq<string>, intent: nat)
    requires PastIntents(order) <= intent
    ensures IntentKey(intent) !in order
  {
    hide IntentKey;
    if order != [] {
      PastAllIntents(order[1..], intent);
      if order[0] == IntentKey(intent) {
        var first: nat :| order[0] == IntentKey(first) && PastIntents(order) >= first + 1;
        IntentKeysDiffer(first, intent);
      }
    }
  }

  ghost function NewIntentKey(order: seq<string>): string {
    IntentKey(PastIntents(order))
  }

  lemma IntentSupply()
    ensures UntidyDeques.Supplies(IsIntentKey, NewIntentKey)
  {
    hide IntentKey, PastIntents;
    forall order
      ensures NewIntentKey(order) !in order && IsIntentKey(NewIntentKey(order))
    {
      PastAllIntents(order, PastIntents(order));
    }
  }

  /** A run on intent keys that marks what it misses and looks up what it finds is the run of a trace. */
  lemma {:induction false} CourseTrace(raw: Raw, ops: seq<Lru.Op>, capacity: nat, maxBytes: nat)
      returns (trace: seq<Outcome>)
    requires UntidyDeques.Course(raw, ops, IsIntentKey, capacity, maxBytes)
    ensures StoreLegal(raw, trace, capacity, maxBytes) && RoomyRun(raw, StoreOps(trace), capacity, maxBytes)
    ensures RunRaw(raw, StoreOps(trace), capacity, maxBytes) == RunRaw(raw, ops, capacity, maxBytes)
    ensures UsedKeys(raw, StoreOps(trace), capacity, maxBytes) == UsedKeys(raw, ops, capacity, maxBytes)
    decreases |ops|
  {
    hide ApplyRaw, RoomyOp, IntentKey, StepOps, StepLegal, StoreLegal;
    trace := [];
    if ops == [] {
      NothingTraced(raw, capacity, maxBytes);
    } else {
      var o := OneOutcome(raw, ops[0], capacity, maxBytes);
      var rest := CourseTrace(ApplyRaw(raw, ops[0], capacity, maxBytes), ops[1..], capacity, maxBytes);
      trace := [o] + rest;
      TraceSplit(raw, [o], rest, capacity, maxBytes);
      OneStepLegal(raw, o, capacity, maxBytes);
      OpsSplit([o], rest);
      OneStepOps(o);
      RunSplits(raw, StepOps(o), StoreOps(rest), capacity, maxBytes);
    }
  }

  lemma NothingTraced(raw: Raw, capacity: nat, maxBytes: nat)
    ensures StoreLegal(raw, [], capacity, maxBytes) && StoreOps([]) == []
  {
  }

  lemma OneOutcome(raw: Raw, op: Lru.Op, capacity: nat, maxBytes: nat) returns (o: Outcome)
    requires RoomyOp(raw, op, maxBytes) && IsIntentKey(op.key) && (op.Mark? <==> op.key !in raw.processed)
    ensures StepLegal(raw, o) && RunRaw(raw, StepOps(o), capacity, maxBytes) == ApplyRaw(raw, op, capacity, maxBytes)
    ensures RoomyRun(raw, StepOps(o), capacity, maxBytes)
    ensures UsedKeys(raw, StepOps(o), capacity, maxBytes) == UsedByOp(raw, op)
    ensures op.Mark? ==> o.Submitted? && IntentKey(o.intent) == op.key && o.executionId == op.result
  {
    hide ApplyRaw, RoomyOp, IntentKey;
    var intent :| op.key == IntentKey(intent);
    var request := Request("", 0, 0);
    if op.Mark? {
      o := Submitted(0, request, intent, op.result, 0);
      SubmissionIsMark(raw, o, capacity, maxBytes);
    } else {
      o := Duplicate(0, request, intent);
      RunOfOne(raw, op, capacity, maxBytes);
    }
  }

  /** A lapse on intent keys is a trace that submits an intent twice too soon. */
  lemma LapseResubmits(raw: Raw, l: Lapse, capacity: nat) returns (trace: seq<Outcome>, i: nat, j: nat, maxBytes: nat)
    requires UntidyDeques.FairLapse(raw, l, IsIntentKey, capacity)
    ensures Resubmits(raw, trace, i, j, capacity, maxBytes)
  {
    hide RunRaw, ApplyRaw, RoomyRun, RoomyOp, UsedKeys, UsedIntents, KeysFor, StoreLegal, StoreOps, StepOps, IntentKey;
    hide UntidyDeques.Course;
    maxBytes := LastMarkFits(raw, l, capacity);
    var middle := RunRaw(raw, l.before, capacity, maxBytes);
    var before := CourseTrace(raw, l.before, capacity, maxBytes);
    var first := OneOutcome(middle, l.mark, capacity, maxBytes);
    var marked := ApplyRaw(middle, l.mark, capacity, maxBytes);
    var between := CourseTrace(marked, l.after, capacity, maxBytes);
    var end := RunRaw(marked, l.after, capacity, maxBytes);
    var second := OneOutcome(end, l.mark, capacity, maxBytes);
    IntentKeysDiffer(first.intent, second.intent);
    trace, i, j := before + ([first] + (between + [second])), |before|, |before| + 1 + |between|;
    TraceParts(raw, before, first, between, [second], capacity, maxBytes);
    OneStepLegal(end, second, capacity, maxBytes);
    OneStepOps(second);
    TraceUses(marked, between, capacity, maxBytes);
    KeysForOthers(UsedIntents(between), first.intent);
    AsManyKeys(UsedIntents(between) - {first.intent});
    assert trace[i + 1..j] == between;
  }

  /** A byte cap under which the lapse still happens, and its key can be marked once more. */
  lemma LastMarkFits(raw: Raw, l: Lapse, capacity: nat) returns (larger: nat)
    requires UntidyDeques.FairLapse(raw, l, IsIntentKey, capacity)
    ensures UntidyDeques.FairLapse(raw, l.(maxBytes := larger), IsIntentKey, capacity)
    ensures var middle := RunRaw(raw, l.before, capacity, larger);
            var end := RunRaw(ApplyRaw(middle, l.mark, capacity, larger), l.after, capacity, larger);
            RoomyOp(end, l.mark, larger)
  {
    hide RunRaw, ApplyRaw, RoomyRun, UsedKeys, UntidyDeques.Course, IsIntentKey;
    var middle := RunRaw(raw, l.before, capacity, l.maxBytes);
    var marked := ApplyRaw(middle, l.mark, capacity, l.maxBytes);
    var end := RunRaw(marked, l.after, capacity, l.maxBytes);
    var needed := end.bytes + Lru.Item(l.mark.key, l.mark.result).Size();
    larger := if needed <= l.maxBytes then l.maxBytes else needed;
    UntidyDeques.LapseUnderLarger(raw, l, IsIntentKey, capacity, larger);
    UntidyDeques.CourseIsRoomy(marked, l.after, IsIntentKey, capacity, l.maxBytes);
    RunUnderLarger(marked, l.after, capacity, l.maxBytes, larger);
    ApplyUnderLarger(middle, l.mark, capacity, l.maxBytes, larger);
  }

  /**
   For a store that holds intent keys, however it came to be: no run submits an intent twice with
   fewer than `capacity` others between, exactly if its deque is tidy or has room for one key only.
   */
  lemma AtMostOnceExactly(raw: Raw, capacity: nat)
    requires Reachable(raw, capacity) && forall p :: 0 <= p < |raw.order| ==> IsIntentKey(raw.order[p])
    ensures (forall trace, i, j, maxBytes :: !Resubmits(raw, trace, i, j, capacity, maxBytes)) <==>
            capacity <= 1 || Tidy(raw, capacity)
  {
    hide Resubmits, Tidy, IsIntentKey, Rations;
    RationsExactly(raw, capacity);
    if Rations(raw, capacity) {
      forall trace, i, j, maxBytes
        ensures !Resubmits(raw, trace, i, j, capacity, maxBytes)
      {
        AtMostOncePerCapacity(raw, trace, i, j, capacity, maxBytes);
      }
    } else {
      IntentSupply();
      ReachableIsPlaced(raw, capacity);
      var l := UntidyDeques.UntidyLapses(raw, capacity, IsIntentKey, NewIntentKey);
      var trace, i, j, maxBytes := LapseResubmits(raw, l, capacity);
    }
  }
}
