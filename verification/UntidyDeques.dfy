/** A deque that is not tidy: the run that makes it lose a key too soon. */
module UntidyDeques {
  import opened Lru
  import opened Idempotency
  import opened StoreRuns

  /** A source of keys that is never at a loss for a new one. */
  ghost predicate Supplies(allowed: string -> bool, supply: seq<string> -> string) {
    forall order :: supply(order) !in order && allowed(supply(order))
  }

  lemma NewKey(order: seq<string>, allowed: string -> bool, supply: seq<string> -> string) returns (x: string)
    requires Supplies(allowed, supply)
    ensures x !in order && allowed(x)
  {
    x := supply(order);
  }

  /** A run that marks only what it does not hold and looks up only what it does, with allowed keys. */
  ghost predicate Course(raw: Raw, ops: seq<Op>, allowed: string -> bool, capacity: nat, maxBytes: nat)
    decreases |ops|
  {
    ops == [] ||
    (&& RoomyOp(raw, ops[0], maxBytes) && allowed(ops[0].key) && (ops[0].Mark? <==> ops[0].key !in raw.processed)
     && Course(ApplyRaw(raw, ops[0], capacity, maxBytes), ops[1..], allowed, capacity, maxBytes))
  }

  lemma {:induction false} CourseIsRoomy(raw: Raw, ops: seq<Op>, allowed: string -> bool, capacity: nat, maxBytes: nat)
    requires Course(raw, ops, allowed, capacity, maxBytes)
    ensures RoomyRun(raw, ops, capacity, maxBytes)
    decreases |ops|
  {
    hide ApplyRaw, RoomyOp;
    if ops != [] {
      CourseIsRoomy(ApplyRaw(raw, ops[0], capacity, maxBytes), ops[1..], allowed, capacity, maxBytes);
    }
  }

  /** One more operation in front, under any byte cap that suits both. */
  lemma CourseCons(raw: Raw, op: Op, ops: seq<Op>, allowed: string -> bool, capacity: nat, m: nat, m': nat)
      returns (larger: nat)
    requires RoomyOp(raw, op, m) && allowed(op.key) && (op.Mark? <==> op.key !in raw.processed)
    requires Course(ApplyRaw(raw, op, capacity, m), ops, allowed, capacity, m')
    ensures m <= larger && m' <= larger && Course(raw, [op] + ops, allowed, capacity, larger)
    ensures RunRaw(raw, [op] + ops, capacity, larger) == RunRaw(ApplyRaw(raw, op, capacity, m), ops, capacity, m')
    ensures UsedKeys(raw, [op] + ops, capacity, larger) ==
            {op.key} + UsedKeys(ApplyRaw(raw, op, capacity, m), ops, capacity, m')
  {
    hide ApplyRaw, RoomyOp, RunRaw, UsedKeys, RoomyRun;
    larger := if m <= m' then m' else m;
    ApplyUnderLarger(raw, op, capacity, m, larger);
    CourseIsRoomy(ApplyRaw(raw, op, capacity, m), ops, allowed, capacity, m');
    RunUnderLarger(ApplyRaw(raw, op, capacity, m), ops, capacity, m', larger);
    CourseUnderLarger(ApplyRaw(raw, op, capacity, m), ops, allowed, capacity, m', larger);
    RunCons(raw, op, ops, capacity, larger);
    assert ([op] + ops)[1..] == ops;
  }

  lemma {:induction false} CourseUnderLarger(raw: Raw, ops: seq<Op>, allowed: string -> bool, capacity: nat,
                                             maxBytes: nat, larger: nat)
    requires Course(raw, ops, allowed, capacity, maxBytes) && maxBytes <= larger
    ensures Course(raw, ops, allowed, capacity, larger)
    decreases |ops|
  {
    hide ApplyRaw, RoomyOp;
    if ops != [] {
      ApplyUnderLarger(raw, ops[0], capacity, maxBytes, larger);
      CourseUnderLarger(ApplyRaw(raw, ops[0], capacity, maxBytes), ops[1..], allowed, capacity, maxBytes, larger);
    }
  }

  /** A lapse made of allowed keys, each marked when it is not held. */
  ghost predicate FairLapse(raw: Raw, l: Lapse, allowed: string -> bool, capacity: nat) {
    var middle := RunRaw(raw, l.before, capacity, l.maxBytes);
    var marked := ApplyRaw(middle, l.mark, capacity, l.maxBytes);
    && l.mark.Mark? && allowed(l.mark.key) && l.mark.key !in middle.processed
    && Course(raw, l.before, allowed, capacity, l.maxBytes) && RoomyOp(middle, l.mark, l.maxBytes)
    && Course(marked, l.after, allowed, capacity, l.maxBytes)
    && l.mark.key !in RunRaw(marked, l.after, capacity, l.maxBytes).processed
    && |UsedKeys(marked, l.after, capacity, l.maxBytes) - {l.mark.key}| < capacity
  }

  lemma FairLapseLapses(raw: Raw, l: Lapse, allowed: string -> bool, capacity: nat)
    requires FairLapse(raw, l, allowed, capacity)
    ensures Lapses(raw, l, capacity)
  {
    hide ApplyRaw, RoomyOp, RunRaw, UsedKeys, RoomyRun, Course;
    var middle := RunRaw(raw, l.before, capacity, l.maxBytes);
    CourseIsRoomy(raw, l.before, allowed, capacity, l.maxBytes);
    CourseIsRoomy(ApplyRaw(middle, l.mark, capacity, l.maxBytes), l.after, allowed, capacity, l.maxBytes);
  }

  /** The same lapse under a larger byte cap. */
  lemma LapseUnderLarger(raw: Raw, l: Lapse, allowed: string -> bool, capacity: nat, larger: nat)
    requires FairLapse(raw, l, allowed, capacity) && l.maxBytes <= larger
    ensures FairLapse(raw, l.(maxBytes := larger), allowed, capacity)
    ensures var l' := l.(maxBytes := larger);
            RunRaw(raw, l'.before, capacity, larger) == RunRaw(raw, l.before, capacity, l.maxBytes)
  {
    hide ApplyRaw, RoomyOp, RunRaw, UsedKeys, RoomyRun, Course;
    var middle := RunRaw(raw, l.before, capacity, l.maxBytes);
    var marked := ApplyRaw(middle, l.mark, capacity, l.maxBytes);
    CourseIsRoomy(raw, l.before, allowed, capacity, l.maxBytes);
    CourseIsRoomy(marked, l.after, allowed, capacity, l.maxBytes);
    RunUnderLarger(raw, l.before, capacity, l.maxBytes, larger);
    CourseUnderLarger(raw, l.before, allowed, capacity, l.maxBytes, larger);
    ApplyUnderLarger(middle, l.mark, capacity, l.maxBytes, larger);
    RunUnderLarger(marked, l.after, capacity, l.maxBytes, larger);
    CourseUnderLarger(marked, l.after, allowed, capacity, l.maxBytes, larger);
  }

  /** What lapses after one more operation lapses before it. */
  lemma LapseCons(raw: Raw, op: Op, l: Lapse, allowed: string -> bool, capacity: nat, m: nat) returns (l': Lapse)
    requires RoomyOp(raw, op, m) && allowed(op.key) && (op.Mark? <==> op.key !in raw.processed)
    requires FairLapse(ApplyRaw(raw, op, capacity, m), l, allowed, capacity)
    ensures FairLapse(raw, l', allowed, capacity)
  {
    hide ApplyRaw, RoomyOp, RunRaw, UsedKeys, RoomyRun, Course;
    var next := ApplyRaw(raw, op, capacity, m);
    var larger := CourseCons(raw, op, l.before, allowed, capacity, m, l.maxBytes);
    LapseUnderLarger(next, l, allowed, capacity, larger);
    l' := l.(before := [op] + l.before, maxBytes := larger);
  }

  /** None of the held keys in `ahead` has a place behind the one of `key` at `p`. */
  ghost predicate Trailing(raw: Raw, key: string, ahead: set<string>, p: nat) {
    && key in raw.processed && p < |raw.order| && raw.order[p] == key && key !in ahead
    && forall y :: y in ahead ==> y in raw.processed && y !in raw.order[p..]
  }

  lemma InPrefix(order: seq<string>, p: nat, end: nat)
    requires end <= |order| && p < |order|
    ensures p < end ==> order[p] in order[..end]
  {
    if p < end {
      assert order[..end][p] == order[p];
    }
  }

  lemma InSuffix(order: seq<string>, start: nat, p: nat)
    requires start <= |order| && p < |order|
    ensures start <= p ==> order[p] in order[start..]
  {
    if start <= p {
      assert order[start..][p - start] == order[p];
    }
  }

  /** What is behind a place after a new key has come to the front and the deque was cut at `start`. */
  lemma BehindAfterPush(order: seq<string>, key: string, start: nat, p: nat)
    requires p < start <= |order|
    ensures var next := [key] + order[..start];
            && p + 1 < |next| && next[p + 1] == order[p]
            && forall y :: y !in order[p..] ==> y !in next[p + 1..] && y !in order[start..]
  {
    var next := [key] + order[..start];
    forall y | y !in order[p..]
      ensures y !in next[p + 1..] && y !in order[start..]
    {
      assert forall t :: p <= t < |order| ==> order[t] == order[p..][t - p];
      assert forall t :: p + 1 <= t < |next| ==> next[t] == order[t - 1];
    }
  }

  lemma PlacedBehind(order: seq<string>, x: string, p: nat)
    requires x !in order && p <= |order|
    ensures x !in order[p..]
  {
  }

  /** A new key in front joins the others, unless its coming has pushed `key` out. */
  lemma TrailingStep(raw: Raw, key: string, ahead: set<string>, p: nat, x: string, capacity: nat, maxBytes: nat)
    requires Placed(raw, capacity) && Trailing(raw, key, ahead, p) && x !in raw.order && 1 <= capacity
    requires raw.bytes + Item(x, "").Size() <= maxBytes
    ensures RoomyOp(raw, Mark(x, ""), maxBytes) && x !in raw.processed && x !in ahead
    ensures var next := ApplyRaw(raw, Mark(x, ""), capacity, maxBytes);
            Placed(next, capacity) && (key in next.processed ==> Trailing(next, key, ahead + {x}, p + 1))
  {
    hide ApplyRaw, RoomyOp;
    var start := MarkPops(raw, x, "", capacity, maxBytes);
    var next := ApplyRaw(raw, Mark(x, ""), capacity, maxBytes);
    if key in next.processed {
      InSuffix(raw.order, start, p);
      BehindAfterPush(raw.order, x, start, p);
      PlacedBehind(raw.order, x, p);
    }
  }

  /**
   A held key behind which none of `ahead` has a place: newly marked keys push it out before they fill the slots left.
   */
  lemma {:induction false} Doomed(raw: Raw, key: string, ahead: set<string>, p: nat, capacity: nat,
                                  allowed: string -> bool, supply: seq<string> -> string) returns (ops: seq<Op>, m: nat)
    requires Placed(raw, capacity) && Supplies(allowed, supply) && Trailing(raw, key, ahead, p) && 1 <= |ahead|
    ensures Course(raw, ops, allowed, capacity, m) && key !in RunRaw(raw, ops, capacity, m).processed
    ensures |UsedKeys(raw, ops, capacity, m) - {key}| + |ahead| <= capacity
    decreases capacity - |ahead|
  {
    hide ApplyRaw, RoomyOp, RunRaw, UsedKeys, RoomyRun, Course;
    SlotsTaken(raw, key, ahead, p, capacity);
    var x := NewKey(raw.order, allowed, supply);
    var op, m0 := Mark(x, ""), raw.bytes + Item(x, "").Size();
    TrailingStep(raw, key, ahead, p, x, capacity, m0);
    hide Placed, Trailing;
    var next := ApplyRaw(raw, op, capacity, m0);
    var m': nat;
    if key !in next.processed {
      NothingMore(next, allowed, capacity, m0);
      ops, m' := [], m0;
    } else {
      assert |ahead + {x}| == |ahead| + 1;
      ops, m' := Doomed(next, key, ahead + {x}, p + 1, capacity, allowed, supply);
    }
    m := CourseCons(raw, op, ops, allowed, capacity, m0, m');
    var used := UsedKeys(next, ops, capacity, m');
    SetNoSmaller({x} + used - {key}, (used - {key}) + {x});
    ops := [op] + ops;
  }

  lemma SlotsTaken(raw: Raw, key: string, ahead: set<string>, p: nat, capacity: nat)
    requires Placed(raw, capacity) && Trailing(raw, key, ahead, p)
    ensures |ahead| + 1 <= capacity
  {
    assert |ahead + {key}| == |ahead| + 1 && |raw.processed.Keys| == |raw.processed|;
    SetNoSmaller(ahead + {key}, raw.processed.Keys);
  }

  lemma NothingMore(raw: Raw, allowed: string -> bool, capacity: nat, maxBytes: nat)
    ensures Course(raw, [], allowed, capacity, maxBytes) && RunRaw(raw, [], capacity, maxBytes) == raw
    ensures UsedKeys(raw, [], capacity, maxBytes) == {}
  {
  }

  /** The place of a key that is not held, which marking the key again will not clear. */
  ghost predicate Stale(raw: Raw, key: string, p: nat, capacity: nat) {
    && p < |raw.order| && raw.order[p] == key && key !in raw.processed
    && (|raw.processed| < capacity || exists q :: p < q < |raw.order| && raw.order[q] in raw.processed)
  }

  lemma StaleStep(raw: Raw, key: string, y: string, p: nat, capacity: nat, maxBytes: nat)
    requires 1 <= capacity && Placed(raw, capacity) && Stale(raw, key, p, capacity)
    requires y in raw.processed && y !in raw.order[p..] && raw.bytes + Item(key, "").Size() <= maxBytes
    ensures RoomyOp(raw, Mark(key, ""), maxBytes)
    ensures var next := ApplyRaw(raw, Mark(key, ""), capacity, maxBytes);
            Placed(next, capacity) && Trailing(next, key, {y}, p + 1)
  {
    hide ApplyRaw, RoomyOp;
    var start := MarkPops(raw, key, "", capacity, maxBytes);
    var next := ApplyRaw(raw, Mark(key, ""), capacity, maxBytes);
    assert p < start;
    BehindAfterPush(raw.order, key, start, p);
  }

  /** With a held key that has places only in front of it, such a place lapses. */
  lemma StaleLapses(raw: Raw, key: string, y: string, p: nat, capacity: nat,
                    allowed: string -> bool, supply: seq<string> -> string) returns (l: Lapse)
    requires 1 <= capacity && Placed(raw, capacity) && Supplies(allowed, supply) && allowed(key)
    requires Stale(raw, key, p, capacity) && y in raw.processed && y !in raw.order[p..]
    ensures FairLapse(raw, l, allowed, capacity)
  {
    hide ApplyRaw, RoomyOp, RunRaw, UsedKeys, RoomyRun, Course, Placed, Trailing;
    var m0 := raw.bytes + Item(key, "").Size();
    var next := ApplyRaw(raw, Mark(key, ""), capacity, m0);
    StaleStep(raw, key, y, p, capacity, m0);
    var ops, m := Doomed(next, key, {y}, p + 1, capacity, allowed, supply);
    l := Lapse([], Mark(key, ""), ops, if m0 <= m then m else m0);
    ApplyUnderLarger(raw, l.mark, capacity, m0, l.maxBytes);
    NothingMore(raw, allowed, capacity, l.maxBytes);
    CourseIsRoomy(next, ops, allowed, capacity, m);
    RunUnderLarger(next, ops, capacity, m, l.maxBytes);
    CourseUnderLarger(next, ops, allowed, capacity, m, l.maxBytes);
  }

  ghost predicate AllAllowed(raw: Raw, allowed: string -> bool) {
    forall p :: 0 <= p < |raw.order| ==> allowed(raw.order[p])
  }

  /** Marking a new key while there is a slot left only puts it in front. */
  lemma FreeSlotStep(raw: Raw, x: string, capacity: nat, maxBytes: nat)
    requires Placed(raw, capacity) && x !in raw.order && |raw.processed| < capacity
    requires raw.bytes + Item(x, "").Size() <= maxBytes
    ensures RoomyOp(raw, Mark(x, ""), maxBytes) && x !in raw.processed
    ensures var next := ApplyRaw(raw, Mark(x, ""), capacity, maxBytes);
            && Placed(next, capacity) && next.order == [x] + raw.order && |next.processed| == |raw.processed| + 1
            && forall k :: k in next.processed <==> k == x || k in raw.processed
  {
    hide ApplyRaw, RoomyOp;
    var start := MarkPops(raw, x, "", capacity, maxBytes);
    assert raw.order[..start] == raw.order && raw.order[start..] == [];
  }

  /** No held key has two places. */
  ghost predicate Single(raw: Raw) {
    forall i, j :: 0 <= i < j < |raw.order| && raw.order[i] == raw.order[j] ==> raw.order[i] !in raw.processed
  }

  /** When no held key repeats, a stale place lapses: a held key is brought in front of it first, if need be. */
  lemma DisorderLapses(raw: Raw, p: nat, capacity: nat,
                       allowed: string -> bool, supply: seq<string> -> string) returns (l: Lapse)
    requires 2 <= capacity && Placed(raw, capacity) && Supplies(allowed, supply) && AllAllowed(raw, allowed)
    requires Single(raw) && p < |raw.order| && Stale(raw, raw.order[p], p, capacity)
    ensures FairLapse(raw, l, allowed, capacity)
  {
    hide ApplyRaw, RoomyOp, FairLapse, Placed, Stale, Single, Supplies;
    var key := raw.order[p];
    assert allowed(key);
    if y :| y in raw.processed && y !in raw.order[p..] {
      l := StaleLapses(raw, key, y, p, capacity, allowed, supply);
    } else if raw.processed == map[] {
      var x := NewKey(raw.order, allowed, supply);
      var m0 := raw.bytes + Item(x, "").Size();
      var next := ApplyRaw(raw, Mark(x, ""), capacity, m0);
      OneInFront(raw, next, x, p, capacity, m0);
      l := StaleLapses(next, key, x, p + 1, capacity, allowed, supply);
      l := LapseCons(raw, Mark(x, ""), l, allowed, capacity, m0);
    } else {
      var y :| y in raw.processed;
      var next := ApplyRaw(raw, Lookup(y), capacity, raw.bytes);
      assert forall k :: k in raw.processed ==> k in raw.order[p..];
      BroughtForward(raw, next, y, p, capacity);
      l := StaleLapses(next, key, y, p + 1, capacity, allowed, supply);
      l := LapseCons(raw, Lookup(y), l, allowed, capacity, raw.bytes);
    }
  }

  lemma OneInFront(raw: Raw, next: Raw, x: string, p: nat, capacity: nat, maxBytes: nat)
    requires 2 <= capacity && Placed(raw, capacity) && raw.processed == map[] && x !in raw.order
    requires p < |raw.order| && Stale(raw, raw.order[p], p, capacity)
    requires raw.bytes + Item(x, "").Size() <= maxBytes && next == ApplyRaw(raw, Mark(x, ""), capacity, maxBytes)
    ensures RoomyOp(raw, Mark(x, ""), maxBytes) && x !in raw.processed
    ensures Placed(next, capacity) && Stale(next, raw.order[p], p + 1, capacity)
    ensures x in next.processed && x !in next.order[p + 1..]
  {
    hide ApplyRaw, RoomyOp;
    FreeSlotStep(raw, x, capacity, maxBytes);
    assert next.order[p + 1..] == raw.order[p..];
  }

  /** A held key that has its only place behind `p` is looked up, and then has it in front. */
  lemma BroughtForward(raw: Raw, next: Raw, y: string, p: nat, capacity: nat)
    requires 2 <= capacity && Placed(raw, capacity) && Single(raw) && y in raw.processed
    requires p < |raw.order| && Stale(raw, raw.order[p], p, capacity)
    requires forall k :: k in raw.processed ==> k in raw.order[p..]
    requires next == ApplyRaw(raw, Lookup(y), capacity, raw.bytes)
    ensures RoomyOp(raw, Lookup(y), raw.bytes)
    ensures Placed(next, capacity) && Stale(next, raw.order[p], p + 1, capacity)
    ensures y in next.processed && y !in next.order[p + 1..]
  {
    hide ApplyRaw, RoomyOp, Single, MovedFront;
    var f := HitMoves(raw, y, capacity, raw.bytes);
    HitIsRoomy(raw, y);
    MovedPlaces(raw.order, f);
    StalePlaceShifts(raw, next, y, f, p, capacity);
  }

  lemma StalePlaceShifts(raw: Raw, next: Raw, y: string, f: nat, p: nat, capacity: nat)
    requires 2 <= capacity && Single(raw) && y in raw.processed
    requires p < |raw.order| && Stale(raw, raw.order[p], p, capacity)
    requires forall k :: k in raw.processed ==> k in raw.order[p..]
    requires f < |raw.order| && raw.order[f] == y && next.processed == raw.processed
    requires MovedFront(raw.order, next.order, f)
    ensures Stale(next, raw.order[p], p + 1, capacity) && y !in next.order[p + 1..]
  {
    hide MovedFront;
    var g := PlaceBehind(raw.order, p, y);
    assert f == g;
    NotBehind(raw, next.order, y, f, p);
    StaleMoves(raw.order, next.order, f, p);
    if |raw.processed| >= capacity {
      var z := AnotherKey(raw.processed, y);
      var h := PlaceBehind(raw.order, p, z);
      HeldMoves(raw.order, next.order, f, p, h);
    }
  }

  lemma PlaceBehind(order: seq<string>, p: nat, y: string) returns (g: nat)
    requires p <= |order| && y in order[p..]
    ensures p <= g < |order| && order[g] == y
  {
    var i :| 0 <= i < |order[p..]| && order[p..][i] == y;
    g := p + i;
  }

  lemma StaleMoves(order: seq<string>, moved: seq<string>, f: nat, p: nat)
    requires p < f < |order| && MovedFront(order, moved, f)
    ensures p + 1 < |moved| && moved[p + 1] == order[p]
  {
  }

  lemma HeldMoves(order: seq<string>, moved: seq<string>, f: nat, p: nat, h: nat)
    requires p < f < |order| && p < h < |order| && h != f && MovedFront(order, moved, f)
    ensures exists q :: p + 1 < q < |moved| && moved[q] == order[h]
  {
    assert moved[if h < f then h + 1 else h] == order[h];
  }

  lemma NotBehind(raw: Raw, moved: seq<string>, y: string, f: nat, p: nat)
    requires Single(raw) && y in raw.processed && p < f < |raw.order| && raw.order[f] == y
    requires MovedFront(raw.order, moved, f)
    ensures y !in moved[p + 1..]
  {
    forall t | p + 1 <= t < |moved|
      ensures moved[t] != y
    {
      assert moved[t] == if t <= f then raw.order[t - 1] else raw.order[t];
    }
  }

  lemma AnotherKey(m: map<string, string>, key: string) returns (other: string)
    requires 2 <= |m|
    ensures other in m && other != key
  {
    var rest := m.Keys - {key};
    SetNoSmaller(m.Keys, rest + {key});
    assert |m.Keys| == |m| && rest != {};
    other :| other in rest;
  }

  /** The place at `f` has come to the front. */
  ghost predicate MovedFront(order: seq<string>, moved: seq<string>, f: nat)
    requires f < |order|
  {
    && |moved| == |order| && moved[0] == order[f]
    && (forall i :: 0 < i <= f ==> moved[i] == order[i - 1])
    && (forall i :: f < i < |order| ==> moved[i] == order[i])
  }

  lemma MovedPlaces(order: seq<string>, f: nat)
    requires f < |order|
    ensures MovedFront(order, [order[f]] + (order[..f] + order[f + 1..]), f)
  {
  }

  /** No held key has a place behind `q`. */
  ghost predicate Rear(raw: Raw, q: nat) {
    forall t :: q < t < |raw.order| ==> raw.order[t] !in raw.processed
  }

  /**
   A held key with a place at `q` behind all held keys and one at `f`, and another held key between:
   once the slots are full the next new key pushes it out, and the place at `f` is stale.
   */
  lemma {:induction false} FillLapses(raw: Raw, key: string, z: nat, f: nat, q: nat, capacity: nat,
                                      allowed: string -> bool, supply: seq<string> -> string) returns (l: Lapse)
    requires 2 <= capacity && Placed(raw, capacity) && Supplies(allowed, supply) && allowed(key)
    requires f < z < q < |raw.order| && raw.order[f] == raw.order[q] == key && Rear(raw, q)
    requires key in raw.processed && raw.order[z] in raw.processed && raw.order[z] != key
    ensures FairLapse(raw, l, allowed, capacity)
    decreases capacity - |raw.processed|
  {
    hide ApplyRaw, RoomyOp, FairLapse, Placed, Rear, Stale, Supplies;
    var x := NewKey(raw.order, allowed, supply);
    var m0 := raw.bytes + Item(x, "").Size();
    var next := ApplyRaw(raw, Mark(x, ""), capacity, m0);
    SlotsHold(raw, capacity);
    if |raw.processed| < capacity {
      FreeSlotStep(raw, x, capacity, m0);
      RearShifts(raw, next, x, q);
      l := FillLapses(next, key, z + 1, f + 1, q + 1, capacity, allowed, supply);
    } else {
      FullStep(raw, next, key, x, z, f, q, capacity, m0);
      l := StaleLapses(next, key, x, f + 1, capacity, allowed, supply);
    }
    l := LapseCons(raw, Mark(x, ""), l, allowed, capacity, m0);
  }

  lemma SlotsHold(raw: Raw, capacity: nat)
    requires Placed(raw, capacity)
    ensures |raw.processed| <= capacity
  {
  }

  lemma RearShifts(raw: Raw, next: Raw, x: string, q: nat)
    requires Rear(raw, q) && next.order == [x] + raw.order && x !in raw.order
    requires forall k :: k in next.processed <==> k == x || k in raw.processed
    ensures Rear(next, q + 1)
  {
  }

  lemma FullStep(raw: Raw, next: Raw, key: string, x: string, z: nat, f: nat, q: nat, capacity: nat, maxBytes: nat)
    requires 2 <= capacity == |raw.processed| && Placed(raw, capacity) && x !in raw.order
    requires f < z < q < |raw.order| && raw.order[f] == raw.order[q] == key && Rear(raw, q)
    requires key in raw.processed && raw.order[z] in raw.processed && raw.order[z] != key
    requires raw.bytes + Item(x, "").Size() <= maxBytes && next == ApplyRaw(raw, Mark(x, ""), capacity, maxBytes)
    ensures RoomyOp(raw, Mark(x, ""), maxBytes) && x !in raw.processed && Placed(next, capacity)
    ensures Stale(next, key, f + 1, capacity) && x in next.processed && x !in next.order[f + 1..]
  {
    hide ApplyRaw, RoomyOp, Stale;
    FullPops(raw, next, key, x, q, capacity, maxBytes);
    NotInRear(raw, z, q);
    StaleAfterFull(raw, next, key, x, z, f, q, capacity);
  }

  /** In a full store the new key pops the deque down to the rear place. */
  lemma FullPops(raw: Raw, next: Raw, key: string, x: string, q: nat, capacity: nat, maxBytes: nat)
    requires 1 <= capacity == |raw.processed| && Placed(raw, capacity) && x !in raw.order
    requires q < |raw.order| && raw.order[q] == key && key in raw.processed && Rear(raw, q)
    requires raw.bytes + Item(x, "").Size() <= maxBytes && next == ApplyRaw(raw, Mark(x, ""), capacity, maxBytes)
    ensures RoomyOp(raw, Mark(x, ""), maxBytes) && x !in raw.processed && Placed(next, capacity)
    ensures next.order == [x] + raw.order[..q]
    ensures forall k :: k in next.processed <==> k == x || (k in raw.processed && k !in raw.order[q..])
  {
    hide ApplyRaw, RoomyOp;
    var start := MarkPops(raw, x, "", capacity, maxBytes);
    assert start == q;
  }

  lemma StaleAfterFull(raw: Raw, next: Raw, key: string, x: string, z: nat, f: nat, q: nat, capacity: nat)
    requires f < z < q < |raw.order| && raw.order[f] == raw.order[q] == key && x !in raw.order
    requires raw.order[z] in raw.processed && raw.order[z] !in raw.order[q..]
    requires next.order == [x] + raw.order[..q]
    requires forall k :: k in next.processed <==> k == x || (k in raw.processed && k !in raw.order[q..])
    ensures Stale(next, key, f + 1, capacity) && x in next.processed && x !in next.order[f + 1..]
  {
    InSuffix(raw.order, q, q);
    BehindAfterPush(raw.order, x, q, f);
    PlacedBehind(raw.order, x, f);
    assert next.order[z + 1] == raw.order[z];
  }

  lemma NotInRear(raw: Raw, z: nat, q: nat)
    requires z < q < |raw.order| && raw.order[z] != raw.order[q] && raw.order[z] in raw.processed && Rear(raw, q)
    ensures raw.order[z] !in raw.order[q..]
  {
  }

  /** A held key that has two places, the last of them behind all held keys. */
  lemma RearLapses(raw: Raw, key: string, q: nat, capacity: nat,
                   allowed: string -> bool, supply: seq<string> -> string) returns (l: Lapse)
    requires 2 <= capacity && 2 <= |raw.processed| && Placed(raw, capacity) && Supplies(allowed, supply) && allowed(key)
    requires q < |raw.order| && raw.order[q] == key && key in raw.order[..q] && key in raw.processed && Rear(raw, q)
    ensures FairLapse(raw, l, allowed, capacity)
  {
    hide ApplyRaw, RoomyOp, FairLapse, Placed, Rear, MovedFront;
    var f := HitMoves(raw, key, capacity, raw.bytes);
    HitIsRoomy(raw, key);
    var next := ApplyRaw(raw, Lookup(key), capacity, raw.bytes);
    MovedPlaces(raw.order, f);
    var other := AnotherKey(raw.processed, key);
    var z := PlacedBetween(raw, next, key, other, f, q, capacity);
    l := FillLapses(next, key, z, 0, q, capacity, allowed, supply);
    l := LapseCons(raw, Lookup(key), l, allowed, capacity, raw.bytes);
  }

  lemma PlacedBetween(raw: Raw, next: Raw, key: string, other: string, f: nat, q: nat, capacity: nat) returns (z: nat)
    requires Placed(raw, capacity) && Rear(raw, q) && other in raw.processed && other != key && key in raw.processed
    requires f < |raw.order| && raw.order[f] == key && key !in raw.order[..f]
    requires q < |raw.order| && raw.order[q] == key && key in raw.order[..q]
    requires next.processed == raw.processed && MovedFront(raw.order, next.order, f)
    ensures 0 < z < q < |next.order| && next.order[0] == next.order[q] == key && next.order[z] == other && Rear(next, q)
  {
    var i :| 0 <= i < q && raw.order[..q][i] == key;
    InPrefix(raw.order, i, f);
    assert f < q;
    var g :| 0 <= g < |raw.order| && raw.order[g] == other;
    assert g < q;
    z := if g < f then g + 1 else g;
  }

  /**
   A key at `q` and somewhere before it: both are still there, one place further on, after another place came to the
   front.
   */
  lemma SecondPlaceShifts(order: seq<string>, moved: seq<string>, q: nat, f: nat)
    requires q < f < |order| && order[q] in order[..q] && MovedFront(order, moved, f)
    ensures |moved| == |order| && moved[q + 1] == order[q] && order[q] in moved[..q + 1]
  {
    var i :| 0 <= i < q && order[..q][i] == order[q];
    InPrefix(moved, i + 1, q + 1);
  }

  lemma StillAllowed(raw: Raw, next: Raw, x: string, allowed: string -> bool)
    requires AllAllowed(raw, allowed) && allowed(x)
    requires forall t :: 0 <= t < |next.order| ==> next.order[t] == x || next.order[t] in raw.order
    ensures AllAllowed(next, allowed)
  {
  }

  /** A held key that has two places: what comes behind the last of them is looked up first, or a key is added. */
  lemma {:induction false} RepeatLapses(raw: Raw, q: nat, capacity: nat,
                                        allowed: string -> bool, supply: seq<string> -> string) returns (l: Lapse)
    requires 2 <= capacity && Placed(raw, capacity) && Supplies(allowed, supply) && AllAllowed(raw, allowed)
    requires q < |raw.order| && raw.order[q] in raw.order[..q] && raw.order[q] in raw.processed
    ensures FairLapse(raw, l, allowed, capacity)
    decreases |raw.order| - q
  {
    hide ApplyRaw, RoomyOp, FairLapse, Placed, AllAllowed, Rear, MovedFront, Supplies;
    var key := raw.order[q];
    IsAllowed(raw, q, allowed);
    if Rear(raw, q) {
      if 2 <= |raw.processed| {
        l := RearLapses(raw, key, q, capacity, allowed, supply);
      } else {
        l := LoneLapses(raw, q, capacity, allowed, supply);
      }
    } else {
      var t := BehindRear(raw, q);
      if raw.order[t] in raw.order[..t] {
        l := RepeatLapses(raw, t, capacity, allowed, supply);
      } else {
        var w := raw.order[t];
        IsAllowed(raw, t, allowed);
        var f := HitMoves(raw, w, capacity, raw.bytes);
        HitIsRoomy(raw, w);
        FirstOf(raw.order, f, t);
        var next := ApplyRaw(raw, Lookup(w), capacity, raw.bytes);
        MovedPlaces(raw.order, t);
        SecondPlaceShifts(raw.order, next.order, q, t);
        StillAllowed(raw, next, w, allowed);
        l := RepeatLapses(next, q + 1, capacity, allowed, supply);
        l := LapseCons(raw, Lookup(w), l, allowed, capacity, raw.bytes);
      }
    }
  }

  lemma FirstOf(order: seq<string>, f: nat, t: nat)
    requires f < |order| && t < |order| && order[f] == order[t]
    requires order[f] !in order[..f] && order[t] !in order[..t]
    ensures f == t
  {
    InPrefix(order, f, t);
    InPrefix(order, t, f);
  }

  lemma IsAllowed(raw: Raw, p: nat, allowed: string -> bool)
    requires AllAllowed(raw, allowed) && p < |raw.order|
    ensures allowed(raw.order[p])
  {
  }

  lemma BehindRear(raw: Raw, q: nat) returns (t: nat)
    requires !Rear(raw, q)
    ensures q < t < |raw.order| && raw.order[t] in raw.processed
  {
    t :| q < t < |raw.order| && raw.order[t] in raw.processed;
  }

  /** The only key held, with two places. */
  lemma LoneLapses(raw: Raw, q: nat, capacity: nat, allowed: string -> bool, supply: seq<string> -> string)
      returns (l: Lapse)
    requires 2 <= capacity && Placed(raw, capacity) && Supplies(allowed, supply)
    requires q < |raw.order| && allowed(raw.order[q]) && raw.order[q] in raw.order[..q] && raw.order[q] in raw.processed
    requires |raw.processed| < 2 && Rear(raw, q)
    ensures FairLapse(raw, l, allowed, capacity)
  {
    hide ApplyRaw, RoomyOp, FairLapse, Placed, Rear, Supplies;
    var x := NewKey(raw.order, allowed, supply);
    var m0 := raw.bytes + Item(x, "").Size();
    FreeSlotStep(raw, x, capacity, m0);
    var next := ApplyRaw(raw, Mark(x, ""), capacity, m0);
    RearShifts(raw, next, x, q);
    assert |raw.processed| >= 1;
    assert next.order[..q + 1] == [x] + raw.order[..q];
    l := RearLapses(next, raw.order[q], q + 1, capacity, allowed, supply);
    l := LapseCons(raw, Mark(x, ""), l, allowed, capacity, m0);
  }

  /** Untidy fields lapse. */
  lemma UntidyLapses(raw: Raw, capacity: nat, allowed: string -> bool, supply: seq<string> -> string) returns (l: Lapse)
    requires 2 <= capacity && Placed(raw, capacity) && Supplies(allowed, supply) && AllAllowed(raw, allowed)
    requires !Tidy(raw, capacity)
    ensures FairLapse(raw, l, allowed, capacity)
  {
    hide FairLapse;
    if Single(raw) {
      var p :| 0 <= p < |raw.order| && raw.order[p] !in raw.processed
               && !(|raw.processed| == capacity && forall q :: p < q < |raw.order| ==> raw.order[q] !in raw.processed);
      l := DisorderLapses(raw, p, capacity, allowed, supply);
    } else {
      var i, q :| 0 <= i < q < |raw.order| && raw.order[i] == raw.order[q] && raw.order[i] in raw.processed;
      assert raw.order[..q][i] == raw.order[q];
      l := RepeatLapses(raw, q, capacity, allowed, supply);
    }
  }
}
