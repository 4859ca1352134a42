/** Runs of the store on its three fields as they stand: what each operation does to the places of the deque. */
module StoreRuns {
  import opened Lru
  import opened Idempotency

  // ---------- runs in which the byte cap does not bind ----------

  ghost predicate RoomyOp(raw: Raw, op: Op, maxBytes: nat) {
    match op
    case Mark(key, result) => DroppedRaw(raw, key).bytes + Item(key, result).Size() <= maxBytes
    case Lookup(key) => key in raw.processed ==> raw.bytes <= maxBytes
  }

  /** The counter never meets the byte cap during the run. */
  ghost predicate RoomyRun(raw: Raw, ops: seq<Op>, capacity: nat, maxBytes: nat)
    decreases |ops|
  {
    ops == [] ||
    (&& RoomyOp(raw, ops[0], maxBytes)
     && RoomyRun(ApplyRaw(raw, ops[0], capacity, maxBytes), ops[1..], capacity, maxBytes))
  }

  ghost function UsedByOp(raw: Raw, op: Op): set<string> {
    if op.Mark? || op.key in raw.processed then {op.key} else {}
  }

  /** The keys that were marked, or looked up and found, during the run. */
  ghost function UsedKeys(raw: Raw, ops: seq<Op>, capacity: nat, maxBytes: nat): set<string>
    decreases |ops|
  {
    if ops == [] then {}
    else UsedByOp(raw, ops[0]) + UsedKeys(ApplyRaw(raw, ops[0], capacity, maxBytes), ops[1..], capacity, maxBytes)
  }

  lemma {:induction false} RunSplits(raw: Raw, a: seq<Op>, b: seq<Op>, capacity: nat, maxBytes: nat)
    ensures var middle := RunRaw(raw, a, capacity, maxBytes);
            && RunRaw(raw, a + b, capacity, maxBytes) == RunRaw(middle, b, capacity, maxBytes)
            && (RoomyRun(raw, a + b, capacity, maxBytes) <==>
                  RoomyRun(raw, a, capacity, maxBytes) && RoomyRun(middle, b, capacity, maxBytes))
            && UsedKeys(raw, a + b, capacity, maxBytes) ==
               UsedKeys(raw, a, capacity, maxBytes) + UsedKeys(middle, b, capacity, maxBytes)
    decreases |a|
  {
    hide ApplyRaw, RoomyOp, UsedByOp;
    if a == [] {
      assert a + b == b;
    } else {
      assert (a + b)[1..] == a[1..] + b;
      RunSplits(ApplyRaw(raw, a[0], capacity, maxBytes), a[1..], b, capacity, maxBytes);
    }
  }

  lemma RunOfOne(raw: Raw, op: Op, capacity: nat, maxBytes: nat)
    ensures RunRaw(raw, [op], capacity, maxBytes) == ApplyRaw(raw, op, capacity, maxBytes)
    ensures RoomyRun(raw, [op], capacity, maxBytes) <==> RoomyOp(raw, op, maxBytes)
    ensures UsedKeys(raw, [op], capacity, maxBytes) == UsedByOp(raw, op)
  {
    hide ApplyRaw, RoomyOp, UsedByOp;
    var after := ApplyRaw(raw, op, capacity, maxBytes);
    assert [op][1..] == [];
    assert RunRaw(after, [], capacity, maxBytes) == after && UsedKeys(after, [], capacity, maxBytes) == {};
  }

  lemma RunCons(raw: Raw, op: Op, ops: seq<Op>, capacity: nat, maxBytes: nat)
    ensures var after := ApplyRaw(raw, op, capacity, maxBytes);
            && RunRaw(raw, [op] + ops, capacity, maxBytes) == RunRaw(after, ops, capacity, maxBytes)
            && (RoomyRun(raw, [op] + ops, capacity, maxBytes) <==>
                  RoomyOp(raw, op, maxBytes) && RoomyRun(after, ops, capacity, maxBytes))
            && UsedKeys(raw, [op] + ops, capacity, maxBytes) ==
               UsedByOp(raw, op) + UsedKeys(after, ops, capacity, maxBytes)
  {
    RunSplits(raw, [op], ops, capacity, maxBytes);
    RunOfOne(raw, op, capacity, maxBytes);
  }

  /** Where the counter fits, eviction is by slots alone. */
  lemma {:induction false} EvictBySlots(raw: Raw, slots: int, bytes: int, bytes': int)
    requires raw.bytes <= bytes && raw.bytes <= bytes'
    ensures Evict(raw, slots, bytes) == Evict(raw, slots, bytes')
    decreases |raw.order|
  {
    if |raw.processed| > slots && raw.order != [] {
      EvictBySlots(PopBack(raw), slots, bytes, bytes');
    }
  }

  /** A byte cap that does not bind may as well be larger. */
  lemma ApplyUnderLarger(raw: Raw, op: Op, capacity: nat, maxBytes: nat, larger: nat)
    requires RoomyOp(raw, op, maxBytes) && maxBytes <= larger
    ensures RoomyOp(raw, op, larger) && ApplyRaw(raw, op, capacity, larger) == ApplyRaw(raw, op, capacity, maxBytes)
  {
    hide Evict, DroppedRaw, LoadItem, RemoveFirst;
    match op
    case Mark(key, result) =>
      var size := Item(key, result).Size();
      EvictBySlots(DroppedRaw(raw, key), capacity - 1, maxBytes - size, larger - size);
    case Lookup(key) =>
      if key in raw.processed {
        EvictBySlots(raw.(order := [key] + RemoveFirst(raw.order, key)), capacity, maxBytes, larger);
      }
  }

  lemma {:induction false} RunUnderLarger(raw: Raw, ops: seq<Op>, capacity: nat, maxBytes: nat, larger: nat)
    requires RoomyRun(raw, ops, capacity, maxBytes) && maxBytes <= larger
    ensures RoomyRun(raw, ops, capacity, larger)
    ensures RunRaw(raw, ops, capacity, larger) == RunRaw(raw, ops, capacity, maxBytes)
    ensures UsedKeys(raw, ops, capacity, larger) == UsedKeys(raw, ops, capacity, maxBytes)
    decreases |ops|
  {
    hide ApplyRaw, RoomyOp, UsedByOp;
    if ops != [] {
      ApplyUnderLarger(raw, ops[0], capacity, maxBytes, larger);
      RunUnderLarger(ApplyRaw(raw, ops[0], capacity, maxBytes), ops[1..], capacity, maxBytes, larger);
    }
  }

  // ---------- one operation, by places ----------

  /** Every key held has a place, and slots are not exceeded. */
  ghost predicate Placed(raw: Raw, capacity: nat) {
    && |raw.processed| <= capacity
    && forall key :: key in raw.processed ==> key in raw.order
  }

  lemma {:induction false} FirstPlace(order: seq<string>, key: string) returns (f: nat)
    requires key in order
    ensures f < |order| && order[f] == key && key !in order[..f]
    ensures RemoveFirst(order, key) == order[..f] + order[f + 1..]
  {
    f := 0;
    if order[0] != key {
      var g := FirstPlace(order[1..], key);
      f := g + 1;
      assert order[..f] == [order[0]] + order[1..][..f - 1];
      assert order[1..][f - 1 + 1..] == order[f + 1..];
    }
  }

  /** A hit within the caps moves the first place of its key to the front and does nothing else. */
  lemma HitMoves(raw: Raw, key: string, capacity: nat, maxBytes: nat) returns (f: nat)
    requires Placed(raw, capacity) && key in raw.processed && raw.bytes <= maxBytes
    ensures f < |raw.order| && raw.order[f] == key && key !in raw.order[..f]
    ensures ApplyRaw(raw, Lookup(key), capacity, maxBytes) ==
            raw.(order := [key] + (raw.order[..f] + raw.order[f + 1..]))
    ensures Placed(ApplyRaw(raw, Lookup(key), capacity, maxBytes), capacity)
  {
    hide RemoveFirst, Evict;
    f := FirstPlace(raw.order, key);
    var moved := raw.(order := [key] + RemoveFirst(raw.order, key));
    EvictStep(moved, capacity, maxBytes);
    forall other | other in raw.processed && other != key
      ensures other in RemoveFirst(raw.order, key)
    {
      PlacesAfterRemoval(raw.order, key, other);
    }
  }

  lemma HitIsRoomy(raw: Raw, key: string)
    ensures RoomyOp(raw, Lookup(key), raw.bytes)
  {
  }

  lemma {:induction false} PoppedShrinks(raw: Raw, k: nat)
    requires k <= |raw.order|
    ensures Popped(raw, k).processed.Keys <= raw.processed.Keys && Popped(raw, k).bytes <= raw.bytes
    ensures k < |raw.order| && raw.order[|raw.order| - 1 - k] !in raw.processed ==>
              && Popped(raw, k + 1).processed == Popped(raw, k).processed
              && Popped(raw, k + 1).bytes == Popped(raw, k).bytes
    decreases k
  {
    if k > 0 {
      PoppedShrinks(PopBack(raw), k - 1);
    }
  }

  lemma FewerHeld(a: map<string, string>, b: map<string, string>, key: string)
    requires a.Keys <= b.Keys && key in b && key !in a
    ensures |a| < |b|
  {
    assert |a.Keys| == |a| && |b.Keys| == |b|;
    SetNoSmaller(a.Keys, b.Keys - {key});
  }

  /**
   Marking a key that is not held, with no byte cap in the way: the last places are popped, if
   the slots are taken down to the last one of a held key, and the key gets a place in front.
   */
  lemma MarkPops(raw: Raw, key: string, result: string, capacity: nat, maxBytes: nat) returns (start: nat)
    requires 1 <= capacity && Placed(raw, capacity) && key !in raw.processed
    requires raw.bytes + Item(key, result).Size() <= maxBytes
    ensures RoomyOp(raw, Mark(key, result), maxBytes)
    ensures var after := ApplyRaw(raw, Mark(key, result), capacity, maxBytes);
            && start <= |raw.order| && after.order == [key] + raw.order[..start] && Placed(after, capacity)
            && (forall k :: k in after.processed <==> k == key || (k in raw.processed && k !in raw.order[start..]))
            && (if |raw.processed| < capacity then start == |raw.order| && |after.processed| == |raw.processed| + 1
                else && start < |raw.order| && raw.order[start] in raw.processed
                     && forall t :: start < t < |raw.order| ==> raw.order[t] !in raw.processed)
  {
    hide Evict, ApplyRaw, LoadItem, RoomyOp;
    var item := Item(key, result);
    var slots, bytes := capacity - 1, maxBytes - item.Size();
    NewMarkLoads(raw, item, capacity, maxBytes);
    start := EvictionPops(raw, slots, bytes);
    LoadedSize(Evict(raw, slots, bytes), item);
  }

  /** Making room for one more without a byte cap in the way. */
  lemma EvictionPops(raw: Raw, slots: nat, bytes: int) returns (start: nat)
    requires Placed(raw, slots + 1) && raw.bytes <= bytes
    ensures var rest := Evict(raw, slots, bytes);
            && start <= |raw.order| && rest.order == raw.order[..start] && Placed(rest, slots)
            && (forall k :: k in rest.processed <==> k in raw.processed && k !in raw.order[start..])
            && (if |raw.processed| <= slots then start == |raw.order| && |rest.processed| == |raw.processed|
                else && start < |raw.order| && raw.order[start] in raw.processed
                     && forall t :: start < t < |raw.order| ==> raw.order[t] !in raw.processed)
  {
    hide Evict, Popped, PopBack;
    EvictMakesRoom(raw, slots, bytes);
    var k := EvictPopsFewest(raw, slots, bytes);
    start := |raw.order| - k;
    if |raw.processed| <= slots {
      EvictStep(raw, slots, bytes);
      PopNothing(raw);
      assert k == 0;
    } else {
      PopsStopAtHeld(raw, slots, bytes, k);
    }
    forall key
      ensures key in Popped(raw, k).processed <==> key in raw.processed && key !in raw.order[start..]
    {
      PoppedHolds(raw, k, key);
    }
    PoppedHolds(raw, k, "");
  }

  /** A key that is not held and fits is loaded after one eviction. */
  lemma NewMarkLoads(raw: Raw, item: Item, capacity: nat, maxBytes: nat)
    requires item.key !in raw.processed && raw.bytes + item.Size() <= maxBytes
    ensures RoomyOp(raw, Mark(item.key, item.result), maxBytes)
    ensures ApplyRaw(raw, Mark(item.key, item.result), capacity, maxBytes) ==
            LoadItem(Evict(raw, capacity - 1, maxBytes - item.Size()), item)
  {
    hide Evict, LoadItem;
  }

  lemma MarkAddsAtMost(raw: Raw, key: string, result: string, capacity: nat, maxBytes: nat)
    requires key !in raw.processed
    ensures ApplyRaw(raw, Mark(key, result), capacity, maxBytes).bytes <= raw.bytes + Item(key, result).Size()
  {
    hide Evict, Popped;
    var bytes := maxBytes - Item(key, result).Size();
    var k := EvictPopsFewest(raw, capacity - 1, bytes);
    PoppedShrinks(raw, k);
  }

  lemma LoadedSize(raw: Raw, item: Item)
    requires item.key !in raw.processed
    ensures |LoadItem(raw, item).processed| == |raw.processed| + 1
    ensures LoadItem(raw, item).processed.Keys == raw.processed.Keys + {item.key}
    ensures LoadItem(raw, item).order == [item.key] + raw.order
  {
  }

  /** A full store is popped down to the last place of a held key, and no further. */
  lemma PopsStopAtHeld(raw: Raw, slots: nat, bytes: int, k: nat)
    requires |raw.processed| == slots + 1 && raw.bytes <= bytes && k <= |raw.order|
    requires |Popped(raw, k).processed| <= slots
    requires forall j: nat :: j < k ==> |Popped(raw, j).processed| > slots || Popped(raw, j).bytes > bytes
    ensures 1 <= k && raw.order[|raw.order| - k] in raw.processed
    ensures forall t :: |raw.order| - k < t < |raw.order| ==> raw.order[t] !in raw.processed
  {
    hide Popped, PopBack;
    var n := |raw.order|;
    PopNothing(raw);
    PoppedShrinks(raw, k - 1);
    forall t | n - k < t < n
      ensures raw.order[t] !in raw.processed
    {
      PoppedShrinks(raw, n - t);
      PoppedHolds(raw, n - t, raw.order[t]);
      assert raw.order[t] == raw.order[t..][0];
      if raw.order[t] in raw.processed {
        FewerHeld(Popped(raw, n - t).processed, raw.processed, raw.order[t]);
      }
    }
  }

  // ---------- the law, and when the fields guarantee it ----------

  /** A run in three parts: something, a mark, and what follows until its key is missed. */
  datatype Lapse = Lapse(before: seq<Op>, mark: Op, after: seq<Op>, maxBytes: nat)

  /** The key is gone before `capacity` other keys were marked or found, although the byte cap never was in the way. */
  ghost predicate Lapses(raw: Raw, l: Lapse, capacity: nat) {
    var middle := RunRaw(raw, l.before, capacity, l.maxBytes);
    var marked := ApplyRaw(middle, l.mark, capacity, l.maxBytes);
    && l.mark.Mark?
    && RoomyRun(raw, l.before, capacity, l.maxBytes) && RoomyOp(middle, l.mark, l.maxBytes)
    && RoomyRun(marked, l.after, capacity, l.maxBytes)
    && l.mark.key !in RunRaw(marked, l.after, capacity, l.maxBytes).processed
    && |UsedKeys(marked, l.after, capacity, l.maxBytes) - {l.mark.key}| < capacity
  }

  /** No key that was marked is missed before `capacity` others were used, in any run. */
  ghost predicate Rations(raw: Raw, capacity: nat) {
    forall l :: !Lapses(raw, l, capacity)
  }

  /**
   A held key has one place. A place whose key is not held has no held key behind it, and
   then the store is full: the next eviction clears it.
   */
  ghost predicate Tidy(raw: Raw, capacity: nat) {
    && (forall p, q :: 0 <= p < q < |raw.order| && raw.order[p] == raw.order[q] ==> raw.order[p] !in raw.processed)
    && (forall p :: 0 <= p < |raw.order| && raw.order[p] !in raw.processed ==>
          |raw.processed| == capacity && forall q :: p < q < |raw.order| ==> raw.order[q] !in raw.processed)
  }
}
