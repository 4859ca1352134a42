/**
 How long the store holds on to a key. A deque with stale places can drop a key that was
 just marked; the module proves exactly which fields, and which logs, guarantee that a
 marked key stays until `capacity` other keys were used.
 */
module Residency {
  import opened Lru
  import opened Idempotency
  import opened StoreRuns
  import opened UntidyDeques
  import Text

  // ---------- tidy fields: the law of the list ----------

  /**
   The fields of the list, but for places of keys not held at the back of a full store, and a counter that may be
   over.
   */
  ghost predicate Trails(raw: Raw, list: seq<Item>, junk: seq<string>, capacity: nat) {
    && Distinct(list) && |list| <= capacity && raw.processed == ToMap(list) && Bytes(list) <= raw.bytes
    && raw.order == KeysOf(list) + junk && (forall k :: k in junk ==> k !in KeySet(list))
    && (junk == [] || |list| == capacity)
  }

  lemma {:induction false} KeysAre(list: seq<Item>, key: string)
    ensures key in KeysOf(list) <==> key in KeySet(list)
  {
    if list != [] {
      KeysAre(list[1..], key);
    }
  }

  lemma {:induction false} RetainJunk(order: seq<string>, junk: seq<string>, key: string)
    requires key !in junk
    ensures Retain(order + junk, key) == Retain(order, key) + junk
    ensures key in order ==> RemoveFirst(order + junk, key) == RemoveFirst(order, key) + junk
  {
    hide Retain, RemoveFirst;
    if order == [] {
      assert order + junk == junk;
      RetainMissing(junk, key);
      RetainNothing(key);
    } else {
      assert order + junk == [order[0]] + (order[1..] + junk) && order == [order[0]] + order[1..];
      RetainCons(order[0], order[1..] + junk, key);
      RetainCons(order[0], order[1..], key);
      RetainJunk(order[1..], junk, key);
      assert [order[0]] + Retain(order[1..], key) + junk == [order[0]] + (Retain(order[1..], key) + junk);
      assert [order[0]] + RemoveFirst(order[1..], key) + junk == [order[0]] + (RemoveFirst(order[1..], key) + junk);
    }
  }

  lemma {:induction false} RetainMissing(order: seq<string>, key: string)
    requires key !in order
    ensures Retain(order, key) == order
  {
    if order != [] {
      RetainMissing(order[1..], key);
    }
  }

  /** A full store with one slot asked for drops the junk and the last of the list. */
  lemma {:induction false} EvictTrailing(raw: Raw, list: seq<Item>, junk: seq<string>, capacity: nat, bytes: int)
    requires 1 <= capacity == |list| && Trails(raw, list, junk, capacity) && raw.bytes <= bytes
    ensures Trails(Evict(raw, capacity - 1, bytes), list[..capacity - 1], [], capacity - 1)
    ensures Evict(raw, capacity - 1, bytes).bytes <= raw.bytes
    decreases |junk|
  {
    hide Evict, Distinct, KeySet, Bytes, ToMap, KeysOf, Without, Find;
    MapFacts(list);
    KeyCount(list);
    EvictStep(raw, capacity - 1, bytes);
    if junk != [] {
      var front := junk[..|junk| - 1];
      assert raw.order[|raw.order| - 1] == junk[|junk| - 1];
      assert raw.order[..|raw.order| - 1] == KeysOf(list) + front;
      assert junk[|junk| - 1] in junk;
      EvictTrailing(PopBack(raw), list, front, capacity, bytes);
    } else {
      assert raw.order == KeysOf(list);
      PopLast(raw, list);
      EvictStep(PopBack(raw), capacity - 1, bytes);
    }
  }

  lemma KeyCount(list: seq<Item>)
    requires Distinct(list)
    ensures |KeysOf(list)| == |list|
  {
    MapFacts(list);
  }

  /** Popping the back of a deque without junk drops the last of the list. */
  lemma PopLast(raw: Raw, list: seq<Item>)
    requires list != [] && Trails(raw, list, [], |list|)
    ensures raw.order != [] && Trails(PopBack(raw), list[..|list| - 1], [], |list| - 1)
    ensures PopBack(raw).bytes <= raw.bytes
    ensures |PopBack(raw).processed| == |list| - 1
  {
    hide Distinct, KeySet, Bytes, ToMap, KeysOf, Without, Find;
    var last, front := list[|list| - 1], list[..|list| - 1];
    MapFacts(list);
    KeyCount(list);
    LastOf(list);
    WithoutFacts(list, last.key);
    WithoutRepresents(list, last.key);
    MapFacts(front);
    assert raw.order == KeysOf(list) == KeysOf(front) + [last.key];
    assert KeysOf(front) + [] == KeysOf(front);
  }

  lemma DropTrails(raw: Raw, list: seq<Item>, junk: seq<string>, key: string, capacity: nat)
    requires 1 <= capacity && Trails(raw, list, junk, capacity) && (key in raw.processed || |list| < capacity)
    ensures Trails(DroppedRaw(raw, key), Without(list, key), junk, capacity - 1)
    ensures key !in KeySet(Without(list, key)) && key !in junk
  {
    hide Without, Distinct, KeySet, Bytes, ToMap, KeysOf, Retain, Find;
    MapFacts(list);
    WithoutFacts(list, key);
    WithoutRepresents(list, key);
    if key in raw.processed {
      RetainJunk(KeysOf(list), junk, key);
    }
  }

  lemma AddTrails(raw: Raw, list: seq<Item>, junk: seq<string>, item: Item, capacity: nat)
    requires 1 <= capacity && Trails(raw, list, junk, capacity - 1) && item.key !in KeySet(list) && item.key !in junk
    ensures Trails(LoadItem(raw, item), [item] + list, junk, capacity)
  {
    hide Distinct, KeySet, Bytes, ToMap, KeysOf;
    ConsFacts(item, list);
    ConsRepresents(item, list);
    assert [item.key] + (KeysOf(list) + junk) == [item.key] + KeysOf(list) + junk;
  }

  lemma MarkTrails(raw: Raw, list: seq<Item>, junk: seq<string>, item: Item, capacity: nat, maxBytes: nat)
      returns (junk': seq<string>)
    requires 1 <= capacity && Trails(raw, list, junk, capacity) && RoomyOp(raw, Mark(item.key, item.result), maxBytes)
    ensures Trails(MarkedRaw(raw, item, capacity, maxBytes), Marked(list, item.key, item.result, capacity, maxBytes),
                   junk', capacity)
    ensures Bytes(Without(list, item.key)) + item.Size() <= maxBytes
  {
    hide Distinct, KeySet, Bytes, ToMap, KeysOf, Evict, LoadItem, Without, Marked;
    var key, bytes := item.key, maxBytes - item.Size();
    var dropped, rest := DroppedRaw(raw, key), Without(list, key);
    MapFacts(list);
    if key in raw.processed || |list| < capacity {
      DropTrails(raw, list, junk, key, capacity);
      RoomyMark(list, key, item.result, capacity, maxBytes);
      MapFacts(rest);
      EvictStep(dropped, capacity - 1, bytes);
      AddTrails(dropped, rest, junk, item, capacity);
      junk' := junk;
    } else {
      WithoutFacts(list, key);
      EvictTrailing(raw, list, junk, capacity, bytes);
      RoomyMark(list, key, item.result, capacity, maxBytes);
      FrontFacts(list, capacity - 1, key);
      AddTrails(Evict(raw, capacity - 1, bytes), list[..capacity - 1], [], item, capacity);
      junk' := [];
    }
  }

  lemma {:induction false} FrontFacts(list: seq<Item>, n: nat, key: string)
    requires n <= |list| && key !in KeySet(list)
    ensures key !in KeySet(list[..n])
  {
    if n > 0 {
      FrontFacts(list[1..], n - 1, key);
      assert list[..n][1..] == list[1..][..n - 1];
    }
  }

  lemma LookupTrails(raw: Raw, list: seq<Item>, junk: seq<string>, key: string, capacity: nat, maxBytes: nat)
    requires 1 <= capacity && Trails(raw, list, junk, capacity) && RoomyOp(raw, Lookup(key), maxBytes)
    ensures Trails(ApplyRaw(raw, Lookup(key), capacity, maxBytes), Accessed(list, key, capacity, maxBytes), junk,
                   capacity)
  {
    hide Distinct, KeySet, Bytes, ToMap, KeysOf, Evict, Without, Accessed, Find, RemoveFirst, Keep;
    MapFacts(list);
    if key in raw.processed {
      var item := Find(list, key);
      var moved := raw.(order := [key] + RemoveFirst(raw.order, key));
      AccessKeepsInvariant(list, key, capacity, maxBytes);
      EvictStep(moved, capacity, maxBytes);
      KeysAre(list, key);
      RetainJunk(KeysOf(list), junk, key);
      WithoutFacts(list, key);
      WithoutRepresents(list, key);
      ConsFacts(item, Without(list, key));
      ConsRepresents(item, Without(list, key));
      assert [key] + (KeysOf(Without(list, key)) + junk) == [key] + KeysOf(Without(list, key)) + junk;
      assert ToMap([item] + Without(list, key)) == ToMap(list);
    } else {
      MissedLookup(list, key, capacity, maxBytes);
    }
  }

  lemma MissedLookup(list: seq<Item>, key: string, capacity: nat, maxBytes: nat)
    requires key !in KeySet(list)
    ensures Accessed(list, key, capacity, maxBytes) == list
  {
  }

  /** Along every run in which the byte cap does not bind, the fields trail the list, and use what the list uses. */
  lemma {:induction false} RunTrails(raw: Raw, list: seq<Item>, junk: seq<string>, ops: seq<Op>, capacity: nat,
                                     maxBytes: nat)
      returns (junk': seq<string>)
    requires 1 <= capacity && Trails(raw, list, junk, capacity) && RoomyRun(raw, ops, capacity, maxBytes)
    ensures Trails(RunRaw(raw, ops, capacity, maxBytes), Run(list, ops, capacity, maxBytes), junk', capacity)
    ensures Roomy(list, ops, capacity, maxBytes)
    ensures UsedKeys(raw, ops, capacity, maxBytes) == Used(list, ops, capacity, maxBytes)
    decreases |ops|
  {
    hide Trails, ApplyRaw, Apply, RoomyOp, UsedBy, UsedByOp, Bytes, Without;
    junk' := junk;
    if ops != [] {
      junk' := OpTrails(raw, list, junk, ops[0], capacity, maxBytes);
      junk' := RunTrails(ApplyRaw(raw, ops[0], capacity, maxBytes), Apply(list, ops[0], capacity, maxBytes), junk',
                         ops[1..], capacity, maxBytes);
    }
  }

  lemma OpTrails(raw: Raw, list: seq<Item>, junk: seq<string>, op: Op, capacity: nat, maxBytes: nat)
      returns (junk': seq<string>)
    requires 1 <= capacity && Trails(raw, list, junk, capacity) && RoomyOp(raw, op, maxBytes)
    ensures Trails(ApplyRaw(raw, op, capacity, maxBytes), Apply(list, op, capacity, maxBytes), junk', capacity)
    ensures op.Mark? ==> Bytes(Without(list, op.key)) + Item(op.key, op.result).Size() <= maxBytes
    ensures UsedByOp(raw, op) == UsedBy(list, op)
  {
    hide MarkedRaw, Marked, Accessed, Distinct, KeySet, Bytes, Without, TouchedRaw, RoomyOp, ToMap, KeysOf;
    MapFacts(list);
    match op
    case Mark(key, result) =>
      junk' := MarkTrails(raw, list, junk, Item(key, result), capacity, maxBytes);
    case Lookup(key) =>
      LookupTrails(raw, list, junk, key, capacity, maxBytes);
      junk' := junk;
  }

  /** The law for fields that trail a list. */
  lemma TrailingRations(raw: Raw, list: seq<Item>, junk: seq<string>, l: Lapse, capacity: nat)
    requires 1 <= capacity && Trails(raw, list, junk, capacity)
    ensures !Lapses(raw, l, capacity)
  {
    hide Trails, ApplyRaw, RunRaw, RoomyRun, RoomyOp, UsedKeys, Used, Run, Roomy, Marked;
    if Lapses(raw, l, capacity) {
      var m := l.maxBytes;
      var middle, items := RunRaw(raw, l.before, capacity, m), Run(list, l.before, capacity, m);
      var j1 := RunTrails(raw, list, junk, l.before, capacity, m);
      var j2 := OpTrails(middle, items, j1, l.mark, capacity, m);
      var marked, items' := ApplyRaw(middle, l.mark, capacity, m), Apply(items, l.mark, capacity, m);
      var j3 := RunTrails(marked, items', j2, l.after, capacity, m);
      RoomyAfterMark(items, l.mark, l.after, capacity, m);
      TrailsFacts(middle, items, j1, capacity);
      TrailsFacts(RunRaw(marked, l.after, capacity, m), Run(items', l.after, capacity, m), j3, capacity);
      MissNeedsCapacityOthers(items, l.mark.key, l.mark.result, l.after, capacity, m);
    }
  }

  lemma RoomyAfterMark(list: seq<Item>, mark: Op, ops: seq<Op>, capacity: nat, maxBytes: nat)
    requires mark.Mark? && Bytes(Without(list, mark.key)) + Item(mark.key, mark.result).Size() <= maxBytes
    requires Roomy(Apply(list, mark, capacity, maxBytes), ops, capacity, maxBytes)
    ensures Roomy(list, [mark] + ops, capacity, maxBytes)
  {
    hide Apply, Bytes, Without;
    assert ([mark] + ops)[1..] == ops;
  }

  lemma TrailsFacts(raw: Raw, list: seq<Item>, junk: seq<string>, capacity: nat)
    requires Trails(raw, list, junk, capacity)
    ensures Distinct(list) && raw.processed.Keys == KeySet(list)
  {
    MapFacts(list);
  }

  // ---------- exactly the tidy fields ----------

  function ItemsOf(keys: seq<string>, m: map<string, string>): seq<Item>
    requires forall k :: k in keys ==> k in m
  {
    if keys == [] then [] else [Item(keys[0], m[keys[0]])] + ItemsOf(keys[1..], m)
  }

  lemma {:induction false} ItemsFacts(keys: seq<string>, m: map<string, string>)
    requires forall k :: k in keys ==> k in m
    requires forall i, j :: 0 <= i < j < |keys| ==> keys[i] != keys[j]
    ensures var list := ItemsOf(keys, m);
            && Distinct(list) && KeysOf(list) == keys
            && (forall k :: k in ToMap(list) <==> k in keys) && (forall k :: k in keys ==> ToMap(list)[k] == m[k])
  {
    hide Distinct, ToMap, KeysOf, KeySet;
    if keys == [] {
      NoItems();
    } else {
      var item, rest := Item(keys[0], m[keys[0]]), ItemsOf(keys[1..], m);
      ItemsFacts(keys[1..], m);
      KeysAre(rest, keys[0]);
      assert keys[0] !in keys[1..];
      ConsFacts(item, rest);
      ConsRepresents(item, rest);
      assert keys == [keys[0]] + keys[1..];
    }
  }

  lemma ItemsOfAll(keys: seq<string>, m: map<string, string>)
    requires forall k :: k in keys <==> k in m
    requires forall i, j :: 0 <= i < j < |keys| ==> keys[i] != keys[j]
    ensures var list := ItemsOf(keys, m); Distinct(list) && KeysOf(list) == keys && ToMap(list) == m
  {
    hide Distinct, ToMap, KeysOf, ItemsOf;
    ItemsFacts(keys, m);
  }

  lemma NoItems()
    ensures Distinct([]) && KeysOf([]) == [] && ToMap([]) == map[]
  {
  }

  function HeldInFront(order: seq<string>, m: map<string, string>): (n: nat)
    ensures n <= |order| && (forall i :: 0 <= i < n ==> order[i] in m) && (n < |order| ==> order[n] !in m)
  {
    if order == [] || order[0] !in m then 0
    else
      var n := HeldInFront(order[1..], m);
      assert forall i :: 0 < i <= n ==> order[i] == order[1..][i - 1];
      n + 1
  }

  /** Tidy fields hold exactly the keys in front, each once, and the rest of the deque is places of others. */
  lemma TidyFront(raw: Raw, capacity: nat, n: nat)
    requires Placed(raw, capacity) && Tidy(raw, capacity) && n == HeldInFront(raw.order, raw.processed)
    ensures forall k :: k in raw.order[..n] <==> k in raw.processed
    ensures forall i, j :: 0 <= i < j < n ==> raw.order[i] != raw.order[j]
    ensures forall k :: k in raw.order[n..] ==> k !in raw.processed
    ensures n == |raw.order| || |raw.processed| == capacity
  {
    hide HeldInFront;
    forall k | k in raw.processed
      ensures k in raw.order[..n]
    {
      var i :| 0 <= i < |raw.order| && raw.order[i] == k;
      assert i < n;
      InPrefix(raw.order, i, n);
    }
  }

  lemma OverIsPlaced(raw: Raw, held: seq<Item>, excess: nat, capacity: nat)
    requires Over(raw, held, excess) && |raw.processed| <= capacity
    ensures Placed(raw, capacity)
  {
  }

  lemma TidyTrails(raw: Raw, held: seq<Item>, excess: nat, capacity: nat) returns (list: seq<Item>, junk: seq<string>)
    requires Over(raw, held, excess) && |raw.processed| <= capacity && Tidy(raw, capacity)
    ensures Trails(raw, list, junk, capacity)
  {
    hide Distinct, Bytes, ToMap, KeysOf, ItemsOf, KeySet, Tidy, Placed, HeldInFront;
    var n := HeldInFront(raw.order, raw.processed);
    OverIsPlaced(raw, held, excess, capacity);
    TidyFront(raw, capacity, n);
    list, junk := ItemsOf(raw.order[..n], raw.processed), raw.order[n..];
    ItemsOfAll(raw.order[..n], raw.processed);
    MapFacts(list);
    BytesOfMap(list, held);
    assert raw.order == raw.order[..n] + raw.order[n..];
  }

  /** While only its own key is used, a held key stays. */
  lemma {:induction false} OwnUseKeeps(raw: Raw, key: string, ops: seq<Op>, capacity: nat, maxBytes: nat)
    requires Placed(raw, capacity) && key in raw.processed && RoomyRun(raw, ops, capacity, maxBytes)
    requires UsedKeys(raw, ops, capacity, maxBytes) <= {key}
    ensures key in RunRaw(raw, ops, capacity, maxBytes).processed
    decreases |ops|
  {
    if ops != [] {
      OwnUseStep(raw, key, ops[0], capacity, maxBytes);
      hide ApplyRaw, RoomyOp, Placed;
      OwnUseKeeps(ApplyRaw(raw, ops[0], capacity, maxBytes), key, ops[1..], capacity, maxBytes);
    }
  }

  lemma OwnUseStep(raw: Raw, key: string, op: Op, capacity: nat, maxBytes: nat)
    requires Placed(raw, capacity) && key in raw.processed && RoomyOp(raw, op, maxBytes) && UsedByOp(raw, op) <= {key}
    ensures var next := ApplyRaw(raw, op, capacity, maxBytes);
            Placed(next, capacity) && key in next.processed
  {
    hide Evict, Retain, RemoveFirst;
    assert op.Mark? ==> op.key in UsedByOp(raw, op);
    match op
    case Mark(k, result) =>
      var size := Item(k, result).Size();
      var dropped := DroppedRaw(raw, k);
      DropsOne(raw, k);
      EvictStep(dropped, capacity - 1, maxBytes - size);
      forall other | other in raw.processed && other != key
        ensures other in Retain(raw.order, key)
      {
        PlacesAfterRemoval(raw.order, key, other);
      }
    case Lookup(k) =>
      if k in raw.processed {
        assert k in UsedByOp(raw, op);
        var f := HitMoves(raw, key, capacity, maxBytes);
      }
  }

  lemma DropsOne(raw: Raw, key: string)
    requires key in raw.processed
    ensures |DroppedRaw(raw, key).processed| == |raw.processed| - 1
  {
    assert (raw.processed - {key}).Keys == raw.processed.Keys - {key};
    assert |raw.processed.Keys| == |raw.processed| && |(raw.processed - {key}).Keys| == |raw.processed - {key}|;
  }

  /** The fields as every store has them: whatever log it was opened on, and whatever was done to it. */
  ghost predicate Reachable(raw: Raw, capacity: nat) {
    && (exists held, excess :: Over(raw, held, excess))
    && (capacity == 0 || |raw.processed| <= capacity)
  }

  lemma ReachableIsPlaced(raw: Raw, capacity: nat)
    requires Reachable(raw, capacity) && 1 <= capacity
    ensures Placed(raw, capacity)
  {
    var held, excess :| Over(raw, held, excess);
    OverIsPlaced(raw, held, excess, capacity);
  }

  /** Longer than every key of the deque, so new. */
  function Longer(order: seq<string>): (key: string)
    ensures forall k :: k in order ==> |k| < |key|
  {
    if order == [] then "x" else Longer(order[1..]) + order[0]
  }

  lemma AnyKeySupply()
    ensures Supplies(_ => true, Longer)
  {
    forall order
      ensures Longer(order) !in order
    {
      assert Longer(order) in order ==> |Longer(order)| < |Longer(order)|;
    }
  }

  /**
   A store guarantees that a marked key stays until `capacity` other keys were used, over every
   run in which the byte cap does not bind, exactly if its deque is tidy, or has room for one key only.
   */
  lemma RationsExactly(raw: Raw, capacity: nat)
    requires Reachable(raw, capacity)
    ensures Rations(raw, capacity) <==> capacity <= 1 || Tidy(raw, capacity)
  {
    hide Tidy, Placed, Lapses, FairLapse, Over, Trails;
    if capacity >= 1 {
      var held, excess :| Over(raw, held, excess);
      OverIsPlaced(raw, held, excess, capacity);
      if capacity > 1 && !Tidy(raw, capacity) {
        AnyKeySupply();
        var l := UntidyLapses(raw, capacity, _ => true, Longer);
        FairLapseLapses(raw, l, _ => true, capacity);
      } else {
        TidyRations(raw, held, excess, capacity);
      }
    } else {
      NothingToRation(raw);
    }
  }

  lemma NothingToRation(raw: Raw)
    ensures Rations(raw, 0)
  {
  }

  lemma TidyRations(raw: Raw, held: seq<Item>, excess: nat, capacity: nat)
    requires 1 <= capacity && Over(raw, held, excess) && |raw.processed| <= capacity
    requires capacity == 1 || Tidy(raw, capacity)
    ensures Rations(raw, capacity)
  {
    hide Tidy, Placed, Lapses, Over, Trails;
    OverIsPlaced(raw, held, excess, capacity);
    if Tidy(raw, capacity) {
      var list, junk := TidyTrails(raw, held, excess, capacity);
      forall l
        ensures !Lapses(raw, l, capacity)
      {
        TrailingRations(raw, list, junk, l, capacity);
      }
    } else {
      forall l
        ensures !Lapses(raw, l, capacity)
      {
        OneSlotRations(raw, l);
      }
    }
  }

  lemma {:induction false} RunIsPlaced(raw: Raw, ops: seq<Op>, capacity: nat, maxBytes: nat)
    requires 1 <= capacity && Placed(raw, capacity) && RoomyRun(raw, ops, capacity, maxBytes)
    ensures Placed(RunRaw(raw, ops, capacity, maxBytes), capacity)
    decreases |ops|
  {
    hide ApplyRaw, RoomyOp, Placed;
    if ops != [] {
      OpIsPlaced(raw, ops[0], capacity, maxBytes);
      RunIsPlaced(ApplyRaw(raw, ops[0], capacity, maxBytes), ops[1..], capacity, maxBytes);
    }
  }

  lemma OpIsPlaced(raw: Raw, op: Op, capacity: nat, maxBytes: nat)
    requires 1 <= capacity && Placed(raw, capacity) && RoomyOp(raw, op, maxBytes)
    ensures var next := ApplyRaw(raw, op, capacity, maxBytes);
            Placed(next, capacity) && (op.Mark? ==> op.key in next.processed)
  {
    hide ApplyRaw, RoomyOp, UsedByOp, Placed;
    if op.key in raw.processed {
      assert UsedByOp(raw, op) <= {op.key} by { UsesOwnKey(raw, op); }
      OwnUseStep(raw, op.key, op, capacity, maxBytes);
    } else {
      UnheldIsPlaced(raw, op, capacity, maxBytes);
    }
  }

  lemma UsesOwnKey(raw: Raw, op: Op)
    ensures UsedByOp(raw, op) <= {op.key}
  {
  }

  lemma UnheldIsPlaced(raw: Raw, op: Op, capacity: nat, maxBytes: nat)
    requires 1 <= capacity && Placed(raw, capacity) && RoomyOp(raw, op, maxBytes) && op.key !in raw.processed
    ensures var next := ApplyRaw(raw, op, capacity, maxBytes);
            Placed(next, capacity) && (op.Mark? ==> op.key in next.processed)
  {
    hide Evict, Placed;
    if op.Mark? {
      var start := MarkPops(raw, op.key, op.result, capacity, maxBytes);
    }
  }

  /** With one slot a key is pushed out only by another. */
  lemma OneSlotRations(raw: Raw, l: Lapse)
    requires Placed(raw, 1)
    ensures !Lapses(raw, l, 1)
  {
    hide ApplyRaw, RunRaw, RoomyRun, RoomyOp, UsedKeys, Placed;
    if Lapses(raw, l, 1) {
      var middle := RunRaw(raw, l.before, 1, l.maxBytes);
      RunIsPlaced(raw, l.before, 1, l.maxBytes);
      OpIsPlaced(middle, l.mark, 1, l.maxBytes);
      var marked := ApplyRaw(middle, l.mark, 1, l.maxBytes);
      var used := UsedKeys(marked, l.after, 1, l.maxBytes);
      assert used - {l.mark.key} == {};
      assert used <= {l.mark.key};
      OwnUseKeeps(marked, l.mark.key, l.after, 1, l.maxBytes);
    }
  }

  // ---------- of a store ----------

  /** Every store, however it was opened and used, has reachable fields. */
  lemma StoreIsReachable(store: IdempotencyStore)
    requires store.Recorded()
    ensures Reachable(store.Fields(), store.capacity)
  {
    var list := LoadedStaysOver(store.origin, store.ops, store.capacity, store.maxMemoryBytes);
    MapFacts(list);
    assert Over(store.Fields(), list, Overwritten(ReadLines(Text.Lines(store.origin))));
  }

  /** A store that was opened on a log without repeated keys starts tidy. */
  lemma FreshLogIsTidy(content: string, capacity: nat, maxBytes: nat)
    requires NoKeyTwice(ReadLines(Text.Lines(content)))
    ensures Tidy(Loaded(content, capacity, maxBytes), capacity)
  {
    hide Loaded, ReadLines, Text.Lines, Latest, NoKeyTwice, Keep;
    LoadedRepresents(content, capacity, maxBytes);
    var list := Keep(Latest(ReadLines(Text.Lines(content))), capacity, maxBytes);
    KeysOnce(list);
  }

  lemma {:induction false} KeysOnce(list: seq<Item>)
    requires Distinct(list)
    ensures forall p :: 0 <= p < |KeysOf(list)| ==> KeysOf(list)[p] in ToMap(list)
    ensures forall p, q :: 0 <= p < q < |KeysOf(list)| ==> KeysOf(list)[p] != KeysOf(list)[q]
  {
    hide Distinct, ToMap, KeysOf, KeySet;
    if list == [] {
      NoItems();
    } else {
      var item, rest := list[0], list[1..];
      assert list == [item] + rest;
      ConsFacts(item, rest);
      ConsRepresents(item, rest);
      KeysOnce(rest);
      KeysAre(rest, item.key);
    }
  }

  /**
   The lines of a log that leave the deque tidy, when the oldest `n` are evicted on loading: no key
   that stays is among the rest twice, and the rest starts with all lines of keys that were lost,
   if there are any, and then fills the store.
   */
  ghost predicate TidyLines(items: seq<Item>, n: nat, full: bool)
    requires n <= |items|
  {
    && (forall i, j :: n <= i < j < |items| && items[i].key == items[j].key ==> Lost(items, n, items[i].key))
    && (forall j :: n <= j < |items| && Lost(items, n, items[j].key) ==>
          full && forall i :: n <= i < j ==> Lost(items, n, items[i].key))
  }

  ghost predicate Lost(items: seq<Item>, n: nat, key: string)
    requires n <= |items|
  {
    exists i :: 0 <= i < n && items[i].key == key
  }

  /** Whether a store opens tidy can be read off its log. */
  lemma TidyByLines(content: string, capacity: nat, maxBytes: nat) returns (n: nat)
    ensures var items, raw := ReadLines(Text.Lines(content)), Loaded(content, capacity, maxBytes);
            && n <= |items| && (n == 0 <==> raw == LoadItems(items))
            && (Tidy(raw, capacity) <==> TidyLines(items, n, |raw.processed| == capacity))
            && (n == 0 ==> (Tidy(raw, capacity) <==> NoKeyTwice(items)))
  {
    var items, raw := ReadLines(Text.Lines(content)), Loaded(content, capacity, maxBytes);
    hide Loaded, ReadLines, Text.Lines, Latest, LoadItems, ToMap, Lost, Tidy, TidyLines, NoKeyTwice;
    n := LoadedRanksByFirstLine(content, capacity, maxBytes);
    var last := |items| - 1;
    forall p | 0 <= p < |raw.order|
      ensures raw.order[p] == items[last - p].key
      ensures raw.order[p] in raw.processed <==> !Lost(items, n, raw.order[p])
    {
      LoadedPlaces(items, last - p);
      LostOrHeld(items, n, last - p);
    }
    TidyBackwards(raw, capacity, items, n);
    if n == 0 {
      NothingLost(items, |raw.processed| == capacity);
    }
  }

  lemma LostOrHeld(items: seq<Item>, n: nat, p: nat)
    requires n <= |items| && p < |items|
    ensures items[p].key in ToMap(Latest(items))
    ensures Lost(items, n, items[p].key) <==> !forall i :: 0 <= i < n ==> items[i].key != items[p].key
  {
    LatestFacts(items);
    MapFacts(Latest(items));
  }

  lemma TidyBackwards(raw: Raw, capacity: nat, items: seq<Item>, n: nat)
    requires n <= |items| && |raw.order| == |items| - n
    requires forall p :: 0 <= p < |raw.order| ==> raw.order[p] == items[|items| - 1 - p].key
    requires forall p :: 0 <= p < |raw.order| ==> (raw.order[p] in raw.processed <==> !Lost(items, n, raw.order[p]))
    ensures Tidy(raw, capacity) <==> TidyLines(items, n, |raw.processed| == capacity)
  {
    hide Tidy, TidyLines;
    if Tidy(raw, capacity) {
      TidyGivesLines(raw, capacity, items, n);
    }
    if TidyLines(items, n, |raw.processed| == capacity) {
      LinesGiveTidy(raw, capacity, items, n);
    }
  }

  lemma TidyGivesLines(raw: Raw, capacity: nat, items: seq<Item>, n: nat)
    requires n <= |items| && |raw.order| == |items| - n
    requires forall p :: 0 <= p < |raw.order| ==> raw.order[p] == items[|items| - 1 - p].key
    requires forall p :: 0 <= p < |raw.order| ==> (raw.order[p] in raw.processed <==> !Lost(items, n, raw.order[p]))
    requires Tidy(raw, capacity)
    ensures TidyLines(items, n, |raw.processed| == capacity)
  {
    hide Lost;
    var last := |items| - 1;
    forall i, j | n <= i < j < |items| && items[i].key == items[j].key
      ensures Lost(items, n, items[i].key)
    {
      assert raw.order[last - j] == raw.order[last - i];
    }
    forall j | n <= j < |items| && Lost(items, n, items[j].key)
      ensures |raw.processed| == capacity && forall i :: n <= i < j ==> Lost(items, n, items[i].key)
    {
      assert raw.order[last - j] !in raw.processed;
      forall i | n <= i < j
        ensures Lost(items, n, items[i].key)
      {
        assert raw.order[last - i] !in raw.processed;
      }
    }
  }

  lemma LinesGiveTidy(raw: Raw, capacity: nat, items: seq<Item>, n: nat)
    requires n <= |items| && |raw.order| == |items| - n
    requires forall p :: 0 <= p < |raw.order| ==> raw.order[p] == items[|items| - 1 - p].key
    requires forall p :: 0 <= p < |raw.order| ==> (raw.order[p] in raw.processed <==> !Lost(items, n, raw.order[p]))
    requires TidyLines(items, n, |raw.processed| == capacity)
    ensures Tidy(raw, capacity)
  {
    hide Lost;
    var last := |items| - 1;
    forall p, q | 0 <= p < q < |raw.order| && raw.order[p] == raw.order[q]
      ensures raw.order[p] !in raw.processed
    {
      assert items[last - q].key == items[last - p].key;
    }
    forall p | 0 <= p < |raw.order| && raw.order[p] !in raw.processed
      ensures |raw.processed| == capacity && forall q :: p < q < |raw.order| ==> raw.order[q] !in raw.processed
    {
      assert Lost(items, n, items[last - p].key);
    }
  }

  lemma NothingLost(items: seq<Item>, full: bool)
    ensures TidyLines(items, 0, full) <==> NoKeyTwice(items)
  {
  }
}
