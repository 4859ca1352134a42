/** A concrete run of the loop that submits an intent again at once, on a store that it had itself written. */
module ReopenedStore {
  import opened ExecutionTrace
  import opened Idempotency
  import opened StoreRuns
  import opened StoreTrace
  import Lru
  import Text

  /** Intent `n` submitted, the broker answering "x". */
  function Sent(n: nat): Outcome {
    Submitted(0, Request("", 0, 0), n, "x", 0)
  }

  function SentItem(n: nat): Lru.Item {
    Lru.Item(IntentKey(n), "x")
  }

  /** The store after a submission that it takes in: the places in front of `start` stay. */
  lemma Sending(raw: Raw, n: nat, maxBytes: nat) returns (next: Raw, start: nat)
    requires Placed(raw, 2) && IntentKey(n) !in raw.processed && raw.bytes + SentItem(n).Size() <= maxBytes
    ensures next == RunRaw(raw, StepOps(Sent(n)), 2, maxBytes) && Placed(next, 2)
    ensures StepLegal(raw, Sent(n)) && RoomyRun(raw, StepOps(Sent(n)), 2, maxBytes)
    ensures start <= |raw.order| && next.order == [IntentKey(n)] + raw.order[..start]
    ensures forall k :: k in next.processed <==> k == IntentKey(n) || (k in raw.processed && k !in raw.order[start..])
    ensures if |raw.processed| < 2 then start == |raw.order|
            else && start < |raw.order| && raw.order[start] in raw.processed
                 && forall t :: start < t < |raw.order| ==> raw.order[t] !in raw.processed
    ensures next.bytes <= raw.bytes + SentItem(n).Size()
  {
    hide ApplyRaw, RoomyOp, IntentKey;
    SubmissionIsMark(raw, Sent(n), 2, maxBytes);
    start := MarkPops(raw, IntentKey(n), "x", 2, maxBytes);
    MarkAddsAtMost(raw, IntentKey(n), "x", 2, maxBytes);
    next := ApplyRaw(raw, Lru.Mark(IntentKey(n), "x"), 2, maxBytes);
  }

  lemma KeyOfDigit(n: nat)
    requires n < 10
    ensures IntentKey(n) == "intent-" + ['0' + n as char] && SentItem(n).Size() == 73
  {
  }

  /**
   Loading the lines of `a`, `b`, `c`, `a` again and `d` with room for two: `d` and `c` stay, and a place of `a`
   between them.
   */
  lemma LoadFive(a: string, b: string, c: string, d: string, maxBytes: nat)
    requires a != b && a != c && a != d && b != c && b != d && c != d && |a| == |b| == |c| == |d| == 8
    requires 365 <= maxBytes
    ensures var items := [Lru.Item(a, "x"), Lru.Item(b, "x"), Lru.Item(c, "x"), Lru.Item(a, "x"), Lru.Item(d, "x")];
            Evict(LoadItems(items), 2, maxBytes) == Raw(map[c := "x", d := "x"], [d, a, c], 219)
  {
    var i, j, k, l := Lru.Item(a, "x"), Lru.Item(b, "x"), Lru.Item(c, "x"), Lru.Item(d, "x");
    hide Evict, LoadItems, PopBack;
    LoadNextItem([], i);
    LoadNextItem([i], j);
    LoadNextItem([i, j], k);
    LoadNextItem([i, j, k], i);
    LoadNextItem([i, j, k, i], l);
    NothingLoaded();
    assert [] + [i] == [i] && [i] + [j] == [i, j] && [i, j] + [k] == [i, j, k];
    assert [i, j, k] + [i] == [i, j, k, i] && [i, j, k, i] + [l] == [i, j, k, i, l];
    assert LoadItems([i, j, k]).order == [c, b, a];
    assert LoadItems([i, j, k, i, l]).order == [d, a, c, b, a];
    assert LoadItems([i, j, k, i, l]).bytes == 365;
    assert LoadItems([i, j, k, i, l]).processed == map[a := "x", b := "x", c := "x", d := "x"];
    PopTwo(a, b, c, d, maxBytes);
  }

  lemma PopTwo(a: string, b: string, c: string, d: string, maxBytes: nat)
    requires a != b && a != c && a != d && b != c && b != d && c != d && |a| == |b| == |c| == |d| == 8
    requires 365 <= maxBytes
    ensures Evict(Raw(map[a := "x", b := "x", c := "x", d := "x"], [d, a, c, b, a], 365), 2, maxBytes) ==
            Raw(map[c := "x", d := "x"], [d, a, c], 219)
  {
    var four := Raw(map[a := "x", b := "x", c := "x", d := "x"], [d, a, c, b, a], 365);
    var three := Raw(map[b := "x", c := "x", d := "x"], [d, a, c, b], 292);
    var two := Raw(map[c := "x", d := "x"], [d, a, c], 219);
    hide Evict, PopBack;
    assert |four.processed| == 4 && |three.processed| == 3 && |two.processed| == 2 by {
      CountFour(a, b, c, d);
    }
    TakenOut(a, b, c, d);
    PopOne(four, three);
    PopOne(three, two);
    EvictStep(four, 2, maxBytes);
    EvictStep(three, 2, maxBytes);
    EvictStep(two, 2, maxBytes);
  }

  lemma TakenOut(a: string, b: string, c: string, d: string)
    requires a != b && a != c && a != d && b != c && b != d && c != d
    ensures map[a := "x", b := "x", c := "x", d := "x"] - {a} == map[b := "x", c := "x", d := "x"]
    ensures map[b := "x", c := "x", d := "x"] - {b} == map[c := "x", d := "x"]
  {
  }

  /** A pop that takes out a held key with a result of one character. */
  lemma PopOne(raw: Raw, rest: Raw)
    requires raw.order != [] && rest.order == raw.order[..|raw.order| - 1]
    requires var key := raw.order[|raw.order| - 1];
             && |key| == 8 && key in raw.processed && raw.processed[key] == "x"
             && rest.processed == raw.processed - {key} && raw.bytes == rest.bytes + 73
    ensures PopBack(raw) == rest
  {
  }

  lemma CountFour(a: string, b: string, c: string, d: string)
    requires a != b && a != c && a != d && b != c && b != d && c != d
    ensures |map[a := "x", b := "x", c := "x", d := "x"]| == 4 && |map[b := "x", c := "x", d := "x"]| == 3
    ensures |map[c := "x", d := "x"]| == 2
  {
  }

  lemma FiveKeys()
    ensures forall n :: 1 <= n < 6 ==> |IntentKey(n)| == 8 && SentItem(n).Size() == 73
    ensures forall m, n :: 1 <= m < n < 6 ==> IntentKey(m) != IntentKey(n)
  {
    forall n | 1 <= n < 6
      ensures |IntentKey(n)| == 8 && SentItem(n).Size() == 73
    {
      KeyOfDigit(n);
    }
    forall m, n | 1 <= m < n < 6
      ensures IntentKey(m) != IntentKey(n)
    {
      IntentKeysDiffer(m, n);
    }
  }

  /** 1 is submitted, and now has a place in front and its stale one at the back. */
  lemma SubmitFirst(raw: Raw, maxBytes: nat) returns (next: Raw)
    requires raw == Raw(map[IntentKey(3) := "x", IntentKey(4) := "x"], [IntentKey(4), IntentKey(1), IntentKey(3)], 219)
    requires 1000 <= maxBytes
    ensures next == RunRaw(raw, StepOps(Sent(1)), 2, maxBytes) && next.bytes <= 292
    ensures StepLegal(raw, Sent(1)) && RoomyRun(raw, StepOps(Sent(1)), 2, maxBytes)
    ensures next.order == [IntentKey(1), IntentKey(4), IntentKey(1)]
    ensures forall k :: k in next.processed <==> k == IntentKey(1) || k == IntentKey(4)
  {
    hide IntentKey, RunRaw, RoomyRun, StepLegal, StepOps;
    FiveKeys();
    SizeOfTwo(raw.processed, IntentKey(3), IntentKey(4));
    var after, start := Sending(raw, 1, maxBytes);
    assert raw.order[2] in raw.processed && start == 2;
    assert raw.order[2..] == [IntentKey(3)] && raw.order[..2] == [IntentKey(4), IntentKey(1)];
    next := after;
  }

  /** 5 is submitted: the stale place of 1 goes, and with it 1. */
  lemma SubmitFifth(raw: Raw, maxBytes: nat) returns (next: Raw)
    requires raw.order == [IntentKey(1), IntentKey(4), IntentKey(1)] && raw.bytes <= 292 && 1000 <= maxBytes
    requires forall k :: k in raw.processed <==> k == IntentKey(1) || k == IntentKey(4)
    ensures next == RunRaw(raw, StepOps(Sent(5)), 2, maxBytes) && next.bytes <= 365 && Placed(next, 2)
    ensures StepLegal(raw, Sent(5)) && RoomyRun(raw, StepOps(Sent(5)), 2, maxBytes)
    ensures IntentKey(1) !in next.processed
  {
    hide IntentKey, RunRaw, RoomyRun, StepLegal, StepOps;
    FiveKeys();
    SizeOfTwo(raw.processed, IntentKey(1), IntentKey(4));
    assert raw.order[0] == IntentKey(1) && raw.order[1] == IntentKey(4);
    var after, start := Sending(raw, 5, maxBytes);
    assert raw.order[2] in raw.processed && start == 2;
    assert raw.order[2..] == [IntentKey(1)];
    next := after;
  }

  /** On that store, 1, 5 and 1 again can all be submitted: 5 pushes out the stale place of 1, and with it 1. */
  lemma SubmittedAgain(raw: Raw, maxBytes: nat)
    requires raw == Raw(map[IntentKey(3) := "x", IntentKey(4) := "x"], [IntentKey(4), IntentKey(1), IntentKey(3)], 219)
    requires 1000 <= maxBytes
    ensures Resubmits(raw, [Sent(1), Sent(5), Sent(1)], 0, 2, 2, maxBytes)
  {
    hide IntentKey, RunRaw, RoomyRun, StepLegal, StepOps, StoreOps, StoreLegal, UsedIntents;
    FiveKeys();
    var r1 := SubmitFirst(raw, maxBytes);
    var r2 := SubmitFifth(r1, maxBytes);
    var r3, start := Sending(r2, 1, maxBytes);
    ThreeSteps(raw, r1, r2, Sent(1), Sent(5), Sent(1), 2, maxBytes);
    OnlyFive();
  }

  lemma SizeOfTwo(m: map<string, string>, a: string, b: string)
    requires a != b && forall k :: k in m <==> k == a || k == b
    ensures |m| == 2
  {
    assert m.Keys == {a, b};
    assert |m.Keys| == |m|;
  }

  lemma OnlyFive()
    ensures |UsedIntents([Sent(1), Sent(5), Sent(1)][1..2]) - {1}| == 1
  {
    assert [Sent(1), Sent(5), Sent(1)][1..2] == [Sent(5)];
    assert UsedIntents([Sent(5)][1..]) == {};
    assert UsedIntents([Sent(5)]) - {1} == {5};
  }

  lemma ThreeSteps(raw: Raw, r1: Raw, r2: Raw, a: Outcome, b: Outcome, c: Outcome, capacity: nat, maxBytes: nat)
    requires StepLegal(raw, a) && RoomyRun(raw, StepOps(a), capacity, maxBytes)
    requires r1 == RunRaw(raw, StepOps(a), capacity, maxBytes)
    requires StepLegal(r1, b) && RoomyRun(r1, StepOps(b), capacity, maxBytes)
    requires r2 == RunRaw(r1, StepOps(b), capacity, maxBytes)
    requires StepLegal(r2, c) && RoomyRun(r2, StepOps(c), capacity, maxBytes)
    ensures StoreLegal(raw, [a, b, c], capacity, maxBytes) && RoomyRun(raw, StoreOps([a, b, c]), capacity, maxBytes)
  {
    hide RunRaw, RoomyRun, StepLegal, StepOps, StoreOps, StoreLegal;
    OneStepLegal(r2, c, capacity, maxBytes);
    OneStepOps(c);
    StepInFront(r1, b, [c], capacity, maxBytes);
    StepInFront(raw, a, [b, c], capacity, maxBytes);
    assert [b] + [c] == [b, c] && [a] + [b, c] == [a, b, c];
  }

  lemma StepInFront(raw: Raw, o: Outcome, rest: seq<Outcome>, capacity: nat, maxBytes: nat)
    ensures var next := RunRaw(raw, StepOps(o), capacity, maxBytes);
            && (StoreLegal(raw, [o] + rest, capacity, maxBytes) <==>
                StepLegal(raw, o) && StoreLegal(next, rest, capacity, maxBytes))
            && (RoomyRun(raw, StoreOps([o] + rest), capacity, maxBytes) <==>
                  RoomyRun(raw, StepOps(o), capacity, maxBytes) && RoomyRun(next, StoreOps(rest), capacity, maxBytes))
            && RunRaw(raw, StoreOps([o] + rest), capacity, maxBytes) == RunRaw(next, StoreOps(rest), capacity, maxBytes)
            && StoreOps([o] + rest) == StepOps(o) + StoreOps(rest)
  {
    hide RunRaw, RoomyRun, StepLegal, StepOps;
    assert ([o] + rest)[1..] == rest;
    RunSplits(raw, StepOps(o), StoreOps(rest), capacity, maxBytes);
  }

  lemma LoggedSent(trace: seq<Outcome>, n: nat, maxBytes: nat)
    requires SentItem(n).Size() <= maxBytes
    ensures Logged(StoreOps(trace + [Sent(n)]), maxBytes) == Logged(StoreOps(trace), maxBytes) + [SentItem(n)]
  {
    hide IntentKey, StoreOps;
    OpsSplit(trace, [Sent(n)]);
    OneStepOps(Sent(n));
    var before, lookup, mark := StoreOps(trace), Lru.Lookup(IntentKey(n)), Lru.Mark(IntentKey(n), "x");
    assert before + StepOps(Sent(n)) == (before + [lookup]) + [mark];
    assert (before + [lookup])[..|before|] == before;
    assert ((before + [lookup]) + [mark])[..|before| + 1] == before + [lookup];
    assert Logged(before, maxBytes) + [] == Logged(before, maxBytes);
  }

  /** A store that holds `a` and `b`, `a` the more recent, takes in `n`: `b` makes room. */
  lemma SendingToTwo(raw: Raw, a: string, b: string, n: nat, maxBytes: nat) returns (next: Raw)
    requires HoldsTwo(raw, a, b) && IntentKey(n) != a && IntentKey(n) != b && raw.bytes + SentItem(n).Size() <= maxBytes
    ensures next == RunRaw(raw, StepOps(Sent(n)), 2, maxBytes) && HoldsTwo(next, IntentKey(n), a)
    ensures StepLegal(raw, Sent(n)) && RoomyRun(raw, StepOps(Sent(n)), 2, maxBytes)
    ensures next.bytes <= raw.bytes + SentItem(n).Size()
  {
    hide IntentKey, RunRaw, RoomyRun, StepLegal, StepOps;
    SizeOfTwo(raw.processed, a, b);
    var next', start := Sending(raw, n, maxBytes);
    assert raw.order[1] in raw.processed && raw.order[..1] == [a] && raw.order[1..] == [b];
    next := next';
  }

  ghost predicate HoldsTwo(raw: Raw, a: string, b: string) {
    a != b && raw.order == [a, b] && forall k :: k in raw.processed <==> k == a || k == b
  }

  lemma SendingTwo(maxBytes: nat) returns (r1: Raw, r2: Raw)
    requires 1000 <= maxBytes
    ensures var empty := Raw(map[], [], 0);
            && StepLegal(empty, Sent(1)) && RoomyRun(empty, StepOps(Sent(1)), 2, maxBytes)
            && r1 == RunRaw(empty, StepOps(Sent(1)), 2, maxBytes)
            && StepLegal(r1, Sent(2)) && RoomyRun(r1, StepOps(Sent(2)), 2, maxBytes)
            && r2 == RunRaw(r1, StepOps(Sent(2)), 2, maxBytes)
            && HoldsTwo(r2, IntentKey(2), IntentKey(1)) && r2.bytes <= 146
  {
    hide IntentKey, RunRaw, RoomyRun, StepLegal, StepOps;
    FiveKeys();
    var empty := Raw(map[], [], 0);
    var a, start := Sending(empty, 1, maxBytes);
    assert a.order == [IntentKey(1)];
    assert a.processed.Keys == {IntentKey(1)};
    assert |a.processed.Keys| == |a.processed|;
    var b, start' := Sending(a, 2, maxBytes);
    assert b.order == [IntentKey(2), IntentKey(1)];
    r1, r2 := a, b;
  }

  /**
   What a new store has logged and holds after 1, 2, 3, 1 and 4 were submitted, each of them missed, with room for
   two.
   */
  lemma FirstRun(maxBytes: nat)
    requires 1000 <= maxBytes
    ensures var trace, empty := [Sent(1), Sent(2), Sent(3), Sent(1), Sent(4)], Raw(map[], [], 0);
            && StoreLegal(empty, trace, 2, maxBytes) && RoomyRun(empty, StoreOps(trace), 2, maxBytes)
            && Logged(StoreOps(trace), maxBytes) == [SentItem(1), SentItem(2), SentItem(3), SentItem(1), SentItem(4)]
  {
    hide IntentKey, RunRaw, RoomyRun, StepLegal, StepOps, StoreOps, StoreLegal, Logged, Sent, SentItem, HoldsTwo;
    FiveKeys();
    var r1, r2 := SendingTwo(maxBytes);
    var r3 := SendingToTwo(r2, IntentKey(2), IntentKey(1), 3, maxBytes);
    var r4 := SendingToTwo(r3, IntentKey(3), IntentKey(2), 1, maxBytes);
    var r5 := SendingToTwo(r4, IntentKey(1), IntentKey(3), 4, maxBytes);
    ThreeSteps(r2, r3, r4, Sent(3), Sent(1), Sent(4), 2, maxBytes);
    StepInFront(r1, Sent(2), [Sent(3), Sent(1), Sent(4)], 2, maxBytes);
    StepInFront(Raw(map[], [], 0), Sent(1), [Sent(2)] + [Sent(3), Sent(1), Sent(4)], 2, maxBytes);
    assert [Sent(1)] + ([Sent(2)] + [Sent(3), Sent(1), Sent(4)]) == [Sent(1), Sent(2), Sent(3), Sent(1), Sent(4)];
    LoggedFive(maxBytes);
  }

  lemma LoggedFive(maxBytes: nat)
    requires 1000 <= maxBytes
    ensures Logged(StoreOps([Sent(1), Sent(2), Sent(3), Sent(1), Sent(4)]), maxBytes) ==
            [SentItem(1), SentItem(2), SentItem(3), SentItem(1), SentItem(4)]
  {
    hide IntentKey, StoreOps, Logged, Sent, SentItem;
    FiveKeys();
    LoggedSent([], 1, maxBytes);
    LoggedSent([Sent(1)], 2, maxBytes);
    LoggedSent([Sent(1), Sent(2)], 3, maxBytes);
    LoggedSent([Sent(1), Sent(2), Sent(3)], 1, maxBytes);
    LoggedSent([Sent(1), Sent(2), Sent(3), Sent(1)], 4, maxBytes);
    NothingLogged(maxBytes);
    assert [] + [Sent(1)] == [Sent(1)] && [Sent(1)] + [Sent(2)] == [Sent(1), Sent(2)];
    assert [Sent(1), Sent(2)] + [Sent(3)] == [Sent(1), Sent(2), Sent(3)];
    assert [Sent(1), Sent(2), Sent(3)] + [Sent(1)] == [Sent(1), Sent(2), Sent(3), Sent(1)];
    assert [Sent(1), Sent(2), Sent(3), Sent(1)] + [Sent(4)] == [Sent(1), Sent(2), Sent(3), Sent(1), Sent(4)];
  }

  lemma NothingLogged(maxBytes: nat)
    ensures Logged(StoreOps([]), maxBytes) == []
  {
  }

  lemma SentIsClean(n: nat)
    requires n < 10
    ensures LogClean(SentItem(n)) && '\n' !in SentItem(n).key && '\n' !in SentItem(n).result
  {
    KeyOfDigit(n);
    hide IntentKey;
    assert SentItem(n).key[0] == 'i';
    assert Text.Digit(n) != ' ';
  }

  /**
   A store with room for two, its log, and the loop: 1, 2, 3, 1 and 4 are submitted, each missed in
   the store; the store is opened on the log it wrote; then 1, 5 and 1 again are submitted.
   */
  lemma ReopenedStoreResubmits(maxBytes: nat)
    requires 1000 <= maxBytes
    ensures var first, empty := [Sent(1), Sent(2), Sent(3), Sent(1), Sent(4)], Raw(map[], [], 0);
            var content := WrittenLog(Logged(StoreOps(first), maxBytes));
            && StoreLegal(empty, first, 2, maxBytes) && RoomyRun(empty, StoreOps(first), 2, maxBytes)
            && Resubmits(Loaded(content, 2, maxBytes), [Sent(1), Sent(5), Sent(1)], 0, 2, 2, maxBytes)
  {
    hide IntentKey, RunRaw, RoomyRun, StoreOps, StoreLegal, Logged, WrittenLog, ReadLines, Text.Lines;
    hide LoadItems, Evict, Resubmits;
    hide LogClean;
    FirstRun(maxBytes);
    FiveKeys();
    forall n | 0 <= n < 10
      ensures LogClean(SentItem(n)) && '\n' !in SentItem(n).key && '\n' !in SentItem(n).result
    {
      SentIsClean(n);
    }
    ReadWrittenLog([SentItem(1), SentItem(2), SentItem(3), SentItem(1), SentItem(4)]);
    LoadFive(IntentKey(1), IntentKey(2), IntentKey(3), IntentKey(4), maxBytes);
    SubmittedAgain(Evict(LoadItems([SentItem(1), SentItem(2), SentItem(3), SentItem(1), SentItem(4)]), 2, maxBytes),
                   maxBytes);
  }
}
