/**
 The idempotency store as one list, most recently used first: what marking and
 looking up do to it, and what that guarantees over whole runs.
 */
module Lru {
  /** A processed key with its result. Text is counted in characters, each standing for one byte. */
  datatype Item = Item(key: string, result: string) {
    function Size(): nat {
      |key| + |result| + 64
    }
  }

  datatype Op = Mark(key: string, result: string) | Lookup(key: string)

  function Bytes(list: seq<Item>): nat {
    if list == [] then 0 else list[0].Size() + Bytes(list[1..])
  }

  function KeySet(list: seq<Item>): set<string> {
    if list == [] then {} else {list[0].key} + KeySet(list[1..])
  }

  ghost predicate Distinct(list: seq<Item>) {
    list == [] || (list[0].key !in KeySet(list[1..]) && Distinct(list[1..]))
  }

  function Without(list: seq<Item>, key: string): seq<Item> {
    if list == [] then []
    else if list[0].key == key then Without(list[1..], key)
    else [list[0]] + Without(list[1..], key)
  }

  function Find(list: seq<Item>, key: string): Item
    requires key in KeySet(list)
  {
    if list[0].key == key then list[0] else Find(list[1..], key)
  }

  /** The longest prefix that takes no more than `slots` entries and `bytes` bytes. */
  function Keep(list: seq<Item>, slots: int, bytes: int): seq<Item> {
    if list == [] || slots <= 0 || list[0].Size() > bytes then []
    else [list[0]] + Keep(list[1..], slots - 1, bytes - list[0].Size())
  }

  /** The list after `key` was marked: room is made first, and an entry that can never fit is not added. */
  function Marked(list: seq<Item>, key: string, result: string, capacity: nat, maxBytes: nat): seq<Item> {
    var item := Item(key, result);
    var kept := Keep(Without(list, key), capacity - 1, maxBytes - item.Size());
    if item.Size() > maxBytes then kept else [item] + kept
  }

  /** The list after `key` was looked up: a hit moves to the front, a miss changes nothing. */
  function Accessed(list: seq<Item>, key: string, capacity: nat, maxBytes: nat): seq<Item> {
    if key in KeySet(list) then Keep([Find(list, key)] + Without(list, key), capacity, maxBytes) else list
  }

  function Apply(list: seq<Item>, op: Op, capacity: nat, maxBytes: nat): seq<Item> {
    match op
    case Mark(key, result) => Marked(list, key, result, capacity, maxBytes)
    case Lookup(key) => Accessed(list, key, capacity, maxBytes)
  }

  function Run(list: seq<Item>, ops: seq<Op>, capacity: nat, maxBytes: nat): seq<Item>
    decreases |ops|
  {
    if ops == [] then list else Run(Apply(list, ops[0], capacity, maxBytes), ops[1..], capacity, maxBytes)
  }

  /** Both caps hold. A store of capacity 0 still takes one entry at a time. */
  ghost predicate Within(list: seq<Item>, capacity: nat, maxBytes: nat) {
    (|list| <= capacity || |list| <= 1) && Bytes(list) <= maxBytes
  }

  // ---------- lists ----------

  lemma {:induction false} WithoutFacts(list: seq<Item>, key: string)
    requires Distinct(list)
    ensures Distinct(Without(list, key)) && KeySet(Without(list, key)) == KeySet(list) - {key}
    ensures key !in KeySet(list) ==> Without(list, key) == list
    ensures key in KeySet(list) ==>
            && |Without(list, key)| + 1 == |list|
            && Find(list, key).key == key
            && Bytes(Without(list, key)) + Find(list, key).Size() == Bytes(list)
  {
    if list != [] {
      WithoutFacts(list[1..], key);
    }
  }

  lemma ConsFacts(item: Item, list: seq<Item>)
    ensures ([item] + list)[1..] == list
    ensures Bytes([item] + list) == item.Size() + Bytes(list)
    ensures KeySet([item] + list) == {item.key} + KeySet(list)
    ensures Distinct([item] + list) <==> item.key !in KeySet(list) && Distinct(list)
  {
    assert ([item] + list)[1..] == list;
  }

  /** All keys and results, one after the other. */
  ghost function AllText(list: seq<Item>): string {
    if list == [] then "" else list[0].key + list[0].result + AllText(list[1..])
  }

  /** The bytes counted are those of the texts, and 64 for each entry. */
  lemma {:induction false} BytesInFigures(list: seq<Item>)
    ensures Bytes(list) == |AllText(list)| + 64 * |list|
  {
    if list != [] {
      BytesInFigures(list[1..]);
    }
  }

  lemma NoBytes()
    ensures Bytes([]) == 0
  {
  }

  // ---------- making room ----------

  /** Keeping is the longest prefix that fits: what is dropped is the shortest recency suffix that makes room. */
  lemma {:induction false} KeepIsLongestFittingPrefix(list: seq<Item>, slots: int, bytes: int, n: nat)
    requires n <= |list|
    ensures var kept := Keep(list, slots, bytes);
            && |kept| <= |list| && kept == list[..|kept|]
            && (kept == [] || (|kept| <= slots && Bytes(kept) <= bytes))
            && (n <= slots && Bytes(list[..n]) <= bytes ==> n <= |kept|)
  {
    hide Bytes, KeySet, Distinct;
    NoBytes();
    if list != [] && slots > 0 && list[0].Size() <= bytes {
      var m := if n == 0 then 0 else n - 1;
      KeepIsLongestFittingPrefix(list[1..], slots - 1, bytes - list[0].Size(), m);
      ConsFacts(list[0], Keep(list[1..], slots - 1, bytes - list[0].Size()));
      if n > 0 {
        assert list[..n] == [list[0]] + list[1..][..m];
        ConsFacts(list[0], list[1..][..m]);
      }
    } else if n > 0 {
      assert list[..n] == [list[0]] + list[1..][..n - 1];
      ConsFacts(list[0], list[1..][..n - 1]);
    }
  }

  lemma KeepCons(item: Item, list: seq<Item>, slots: int, bytes: int)
    ensures Keep([item] + list, slots, bytes) ==
            if slots <= 0 || item.Size() > bytes then [] else [item] + Keep(list, slots - 1, bytes - item.Size())
  {
    assert ([item] + list)[1..] == list;
  }

  lemma {:induction false} KeepAll(list: seq<Item>, slots: int, bytes: int)
    requires |list| <= slots && Bytes(list) <= bytes
    ensures Keep(list, slots, bytes) == list
  {
    if list != [] {
      KeepAll(list[1..], slots - 1, bytes - list[0].Size());
    }
  }

  /** Dropping the last entry of a list that does not fit changes nothing to what is kept in the end. */
  lemma {:induction false} KeepDropsLast(list: seq<Item>, slots: int, bytes: int)
    requires list != [] && !(|list| <= slots && Bytes(list) <= bytes)
    ensures Keep(list[..|list| - 1], slots, bytes) == Keep(list, slots, bytes)
  {
    var front := list[..|list| - 1];
    if |list| > 1 && slots > 0 && list[0].Size() <= bytes {
      KeepDropsLast(list[1..], slots - 1, bytes - list[0].Size());
      assert front[1..] == list[1..][..|list[1..]| - 1];
    }
  }

  /** When bytes are plentiful only the slots count. */
  lemma {:induction false} KeepTakesSlots(list: seq<Item>, slots: nat, bytes: int)
    requires Bytes(list) <= bytes
    ensures Keep(list, slots, bytes) == if |list| <= slots then list else list[..slots]
  {
    if list != [] && slots > 0 {
      KeepTakesSlots(list[1..], slots - 1, bytes - list[0].Size());
    }
  }

  /** Keeping under a wide budget first does not change what a tighter budget keeps. */
  lemma {:induction false} KeepAbsorbs(list: seq<Item>, slots: int, bytes: int, slots': int, bytes': int)
    requires slots <= slots' && bytes <= bytes'
    ensures Keep(Keep(list, slots', bytes'), slots, bytes) == Keep(list, slots, bytes)
  {
    if list != [] && slots > 0 && list[0].Size() <= bytes {
      var size := list[0].Size();
      KeepAbsorbs(list[1..], slots - 1, bytes - size, slots' - 1, bytes' - size);
      ConsFacts(list[0], Keep(list[1..], slots' - 1, bytes' - size));
    }
  }

  lemma {:induction false} KeepStaysDistinct(list: seq<Item>, slots: int, bytes: int)
    requires Distinct(list)
    ensures Distinct(Keep(list, slots, bytes)) && KeySet(Keep(list, slots, bytes)) <= KeySet(list)
  {
    if list != [] && slots > 0 && list[0].Size() <= bytes {
      KeepStaysDistinct(list[1..], slots - 1, bytes - list[0].Size());
      ConsFacts(list[0], Keep(list[1..], slots - 1, bytes - list[0].Size()));
    }
  }

  lemma MarkKeepsInvariant(list: seq<Item>, key: string, result: string, capacity: nat, maxBytes: nat)
    requires Distinct(list)
    ensures var after := Marked(list, key, result, capacity, maxBytes);
            Distinct(after) && Within(after, capacity, maxBytes)
  {
    var item := Item(key, result);
    var rest := Without(list, key);
    WithoutFacts(list, key);
    KeepStaysDistinct(rest, capacity - 1, maxBytes - item.Size());
    KeepIsLongestFittingPrefix(rest, capacity - 1, maxBytes - item.Size(), 0);
    ConsFacts(item, Keep(rest, capacity - 1, maxBytes - item.Size()));
  }

  lemma AccessKeepsInvariant(list: seq<Item>, key: string, capacity: nat, maxBytes: nat)
    requires Distinct(list) && Within(list, capacity, maxBytes)
    ensures var after := Accessed(list, key, capacity, maxBytes);
            && Distinct(after) && Within(after, capacity, maxBytes)
            && (1 <= capacity && key in KeySet(list) ==> after == [Find(list, key)] + Without(list, key))
  {
    if key in KeySet(list) {
      var front := [Find(list, key)] + Without(list, key);
      WithoutFacts(list, key);
      ConsFacts(Find(list, key), Without(list, key));
      KeepStaysDistinct(front, capacity, maxBytes);
      KeepIsLongestFittingPrefix(front, capacity, maxBytes, 0);
      if 1 <= capacity {
        KeepAll(front, capacity, maxBytes);
      }
    }
  }

  lemma ApplyKeepsInvariant(list: seq<Item>, op: Op, capacity: nat, maxBytes: nat)
    requires Distinct(list) && Within(list, capacity, maxBytes)
    ensures var after := Apply(list, op, capacity, maxBytes);
            Distinct(after) && Within(after, capacity, maxBytes)
  {
    match op
    case Mark(key, result) => MarkKeepsInvariant(list, key, result, capacity, maxBytes);
    case Lookup(key) => AccessKeepsInvariant(list, key, capacity, maxBytes);
  }

  /** In every reachable state keys are distinct and both caps hold. */
  lemma {:induction false} RunKeepsInvariant(list: seq<Item>, ops: seq<Op>, capacity: nat, maxBytes: nat)
    requires Distinct(list) && Within(list, capacity, maxBytes)
    ensures var after := Run(list, ops, capacity, maxBytes);
            Distinct(after) && Within(after, capacity, maxBytes)
    decreases |ops|
  {
    if ops != [] {
      ApplyKeepsInvariant(list, ops[0], capacity, maxBytes);
      RunKeepsInvariant(Apply(list, ops[0], capacity, maxBytes), ops[1..], capacity, maxBytes);
    }
  }

  /**
   A mark leaves its key in the store exactly if the entry is no larger than the byte cap; a larger one empties the
   store.
   */
  lemma OversizedMarkEmptiesStore(list: seq<Item>, key: string, result: string, capacity: nat, maxBytes: nat)
    ensures var after := Marked(list, key, result, capacity, maxBytes);
            && (key in KeySet(after) <==> Item(key, result).Size() <= maxBytes)
            && (after == [] <==> Item(key, result).Size() > maxBytes)
  {
    ConsFacts(Item(key, result), Keep(Without(list, key), capacity - 1, maxBytes - Item(key, result).Size()));
  }

  /** The byte cap never binds during the run. */
  ghost predicate Roomy(list: seq<Item>, ops: seq<Op>, capacity: nat, maxBytes: nat)
    decreases |ops|
  {
    ops == [] ||
    (&& (ops[0].Mark? ==> Bytes(Without(list, ops[0].key)) + Item(ops[0].key, ops[0].result).Size() <= maxBytes)
     && Roomy(Apply(list, ops[0], capacity, maxBytes), ops[1..], capacity, maxBytes))
  }

  lemma RoomyMark(list: seq<Item>, key: string, result: string, capacity: nat, maxBytes: nat)
    requires 1 <= capacity && Bytes(Without(list, key)) + Item(key, result).Size() <= maxBytes
    ensures var rest := Without(list, key);
            Marked(list, key, result, capacity, maxBytes) ==
            [Item(key, result)] + if |rest| <= capacity - 1 then rest else rest[..capacity - 1]
  {
    KeepTakesSlots(Without(list, key), capacity - 1, maxBytes - Item(key, result).Size());
  }

  lemma {:induction false} RunSplit(list: seq<Item>, a: seq<Op>, b: seq<Op>, capacity: nat, maxBytes: nat)
    ensures Run(list, a + b, capacity, maxBytes) == Run(Run(list, a, capacity, maxBytes), b, capacity, maxBytes)
    ensures Roomy(list, a + b, capacity, maxBytes) <==>
            Roomy(list, a, capacity, maxBytes) && Roomy(Run(list, a, capacity, maxBytes), b, capacity, maxBytes)
    decreases |a|
  {
    if a == [] {
      assert a + b == b;
    } else {
      hide Apply;
      assert (a + b)[1..] == a[1..] + b;
      RunSplit(Apply(list, a[0], capacity, maxBytes), a[1..], b, capacity, maxBytes);
    }
  }

  lemma RunOne(list: seq<Item>, op: Op, capacity: nat, maxBytes: nat)
    ensures Run(list, [op], capacity, maxBytes) == Apply(list, op, capacity, maxBytes)
  {
    assert Run(Apply(list, op, capacity, maxBytes), [op][1..], capacity, maxBytes) ==
           Apply(list, op, capacity, maxBytes);
  }

  // ---------- inclusion ----------

  /** `a` can be had from `b` by leaving entries out. */
  ghost predicate Subsequence(a: seq<Item>, b: seq<Item>) {
    a == [] || (b != [] && ((a[0] == b[0] && Subsequence(a[1..], b[1..])) || Subsequence(a, b[1..])))
  }

  lemma {:induction false} SubsequenceReflexive(a: seq<Item>)
    ensures Subsequence(a, a)
  {
    if a != [] {
      SubsequenceReflexive(a[1..]);
    }
  }

  lemma {:induction false} SubsequenceFacts(a: seq<Item>, b: seq<Item>)
    requires Subsequence(a, b)
    ensures |a| <= |b| && Bytes(a) <= Bytes(b) && KeySet(a) <= KeySet(b)
  {
    if a != [] {
      if a[0] == b[0] && Subsequence(a[1..], b[1..]) {
        SubsequenceFacts(a[1..], b[1..]);
      } else {
        SubsequenceFacts(a, b[1..]);
      }
    }
  }

  lemma {:induction false} SubsequenceFind(a: seq<Item>, b: seq<Item>, key: string)
    requires Subsequence(a, b) && Distinct(b) && key in KeySet(a)
    ensures key in KeySet(b) && Find(a, key) == Find(b, key)
  {
    SubsequenceFacts(a, b);
    if a[0] == b[0] && Subsequence(a[1..], b[1..]) {
      if a[0].key != key {
        SubsequenceFind(a[1..], b[1..], key);
      }
    } else {
      SubsequenceFind(a, b[1..], key);
    }
  }

  lemma {:induction false} SubsequenceWithout(a: seq<Item>, b: seq<Item>, key: string)
    requires Subsequence(a, b)
    ensures Subsequence(Without(a, key), Without(b, key))
  {
    if a != [] {
      if a[0] == b[0] && Subsequence(a[1..], b[1..]) {
        SubsequenceWithout(a[1..], b[1..], key);
        SubsequenceCons(a[0], Without(a[1..], key), Without(b[1..], key));
      } else {
        SubsequenceWithout(a, b[1..], key);
        if b[0].key != key {
          assert Without(b, key)[1..] == Without(b[1..], key);
        }
      }
    }
  }

  lemma SubsequenceCons(item: Item, a: seq<Item>, b: seq<Item>)
    requires Subsequence(a, b)
    ensures Subsequence([item] + a, [item] + b)
  {
    assert ([item] + a)[1..] == a && ([item] + b)[1..] == b;
  }

  lemma {:induction false} SubsequenceDropLast(a: seq<Item>, b: seq<Item>)
    requires Subsequence(a, b) && a != []
    ensures b != []
    ensures Subsequence(a[..|a| - 1], b[..|b| - 1])
    ensures Subsequence(a[..|a| - 1], b)
  {
    var a', b' := a[..|a| - 1], b[..|b| - 1];
    if a[0] == b[0] && Subsequence(a[1..], b[1..]) {
      if |a| > 1 {
        SubsequenceDropLast(a[1..], b[1..]);
        assert a'[1..] == a[1..][..|a[1..]| - 1];
        assert b'[1..] == b[1..][..|b[1..]| - 1];
      }
    } else {
      SubsequenceDropLast(a, b[1..]);
      assert b'[1..] == b[1..][..|b[1..]| - 1];
    }
  }

  /** What the two stores of the inclusion theorem keep in common: equal until the smaller is full, included after. */
  ghost predicate Included(small: seq<Item>, large: seq<Item>, capacity: nat, capacity': nat, maxBytes: nat) {
    && Distinct(small) && Distinct(large)
    && |small| <= capacity && |large| <= capacity' && Bytes(large) <= maxBytes
    && Subsequence(small, large)
    && (small == large || |small| == capacity)
  }

  lemma {:induction false} InclusionMark(small: seq<Item>, large: seq<Item>, op: Op, capacity: nat, capacity': nat,
                                         maxBytes: nat)
    requires Included(small, large, capacity, capacity', maxBytes) && 1 <= capacity <= capacity'
    requires op.Mark? && Bytes(Without(large, op.key)) + Item(op.key, op.result).Size() <= maxBytes
    ensures Bytes(Without(small, op.key)) + Item(op.key, op.result).Size() <= maxBytes
    ensures Included(Apply(small, op, capacity, maxBytes), Apply(large, op, capacity', maxBytes),
                     capacity, capacity', maxBytes)
  {
    hide Without, Distinct, KeySet, Keep, Marked, Bytes, Subsequence;
    var item := Item(op.key, op.result);
    var a, b := Without(small, op.key), Without(large, op.key);
    SubsequenceWithout(small, large, op.key);
    SubsequenceFacts(a, b);
    SubsequenceFacts(small, large);
    WithoutFacts(small, op.key);
    WithoutFacts(large, op.key);
    RoomyMark(small, op.key, op.result, capacity, maxBytes);
    RoomyMark(large, op.key, op.result, capacity', maxBytes);
    MarkKeepsInvariant(small, op.key, op.result, capacity, maxBytes);
    MarkKeepsInvariant(large, op.key, op.result, capacity', maxBytes);
    if |a| == capacity {
      SubsequenceDropLast(a, b);
    }
    var a' := if |a| <= capacity - 1 then a else a[..capacity - 1];
    var b' := if |b| <= capacity' - 1 then b else b[..capacity' - 1];
    assert Subsequence(a', b');
    SubsequenceCons(item, a', b');
  }

  lemma InclusionLookup(small: seq<Item>, large: seq<Item>, op: Op, capacity: nat, capacity': nat, maxBytes: nat)
    requires Included(small, large, capacity, capacity', maxBytes) && 1 <= capacity <= capacity'
    requires op.Lookup?
    ensures Included(Apply(small, op, capacity, maxBytes), Apply(large, op, capacity', maxBytes),
                     capacity, capacity', maxBytes)
  {
    SubsequenceFacts(small, large);
    AccessKeepsInvariant(small, op.key, capacity, maxBytes);
    AccessKeepsInvariant(large, op.key, capacity', maxBytes);
    WithoutFacts(small, op.key);
    WithoutFacts(large, op.key);
    SubsequenceWithout(small, large, op.key);
    if op.key in KeySet(small) {
      SubsequenceFind(small, large, op.key);
      SubsequenceCons(Find(small, op.key), Without(small, op.key), Without(large, op.key));
    } else if op.key in KeySet(large) {
      var item := Find(large, op.key);
      ConsFacts(item, Without(large, op.key));
      assert Subsequence(small, [item] + Without(large, op.key));
    }
  }

  /** LRU inclusion: on any common run a smaller store holds, in recency order, a part of what a larger one holds. */
  lemma {:induction false} Inclusion(small: seq<Item>, large: seq<Item>, ops: seq<Op>,
                                     capacity: nat, capacity': nat, maxBytes: nat)
    requires Included(small, large, capacity, capacity', maxBytes) && 1 <= capacity <= capacity'
    requires Roomy(large, ops, capacity', maxBytes)
    ensures Included(Run(small, ops, capacity, maxBytes), Run(large, ops, capacity', maxBytes),
                     capacity, capacity', maxBytes)
    ensures Roomy(small, ops, capacity, maxBytes)
    decreases |ops|
  {
    if ops != [] {
      if ops[0].Mark? {
        InclusionMark(small, large, ops[0], capacity, capacity', maxBytes);
      } else {
        InclusionLookup(small, large, ops[0], capacity, capacity', maxBytes);
      }
      Inclusion(Apply(small, ops[0], capacity, maxBytes), Apply(large, ops[0], capacity', maxBytes), ops[1..],
                capacity, capacity', maxBytes);
    }
  }

  lemma SmallerStoreIsIncluded(ops: seq<Op>, capacity: nat, capacity': nat, maxBytes: nat)
    requires 1 <= capacity <= capacity' && Roomy([], ops, capacity', maxBytes)
    ensures Subsequence(Run([], ops, capacity, maxBytes), Run([], ops, capacity', maxBytes))
  {
    Inclusion([], [], ops, capacity, capacity', maxBytes);
  }

  // ---------- residency ----------

  /** The key an operation marks, or looks up and finds. */
  ghost function UsedBy(list: seq<Item>, op: Op): set<string> {
    if op.Mark? || op.key in KeySet(list) then {op.key} else {}
  }

  /** The keys that were marked, or looked up and found, during the run. */
  ghost function Used(list: seq<Item>, ops: seq<Op>, capacity: nat, maxBytes: nat): set<string>
    decreases |ops|
  {
    if ops == [] then {}
    else UsedBy(list, ops[0]) + Used(Apply(list, ops[0], capacity, maxBytes), ops[1..], capacity, maxBytes)
  }

  /** The keys used more recently than `key`. */
  ghost function Ahead(list: seq<Item>, key: string): set<string> {
    if list == [] || list[0].key == key then {} else {list[0].key} + Ahead(list[1..], key)
  }

  lemma {:induction false} AheadWithout(list: seq<Item>, key: string, other: string)
    requires key != other
    ensures Ahead(Without(list, other), key) == Ahead(list, key) - {other}
  {
    if list != [] {
      AheadWithout(list[1..], key, other);
      if list[0].key != other {
        ConsFacts(list[0], Without(list[1..], other));
      }
    }
  }

  lemma {:induction false} AheadOfTheDropped(list: seq<Item>, key: string, slots: nat)
    requires Distinct(list) && key in KeySet(list) && slots <= |list|
    ensures Ahead(list, key) <= KeySet(list)
    ensures key !in KeySet(list[..slots]) ==> slots <= |Ahead(list, key)|
    ensures key in KeySet(list[..slots]) ==> Ahead(list[..slots], key) == Ahead(list, key)
  {
    if list[0].key == key {
      if slots > 0 {
        ConsFacts(list[0], list[1..][..slots - 1]);
        assert list[..slots] == [list[0]] + list[1..][..slots - 1];
      }
    } else {
      AheadOfTheDropped(list[1..], key, if slots == 0 then 0 else slots - 1);
      if slots > 0 {
        ConsFacts(list[0], list[1..][..slots - 1]);
        assert list[..slots] == [list[0]] + list[1..][..slots - 1];
        assert list[0].key !in Ahead(list[1..], key);
      }
    }
  }

  lemma SetNoSmaller(a: set<string>, b: set<string>)
    requires a <= b
    ensures |a| <= |b|
  {
    assert b == a + (b - a);
  }

  lemma AheadCons(item: Item, list: seq<Item>, key: string)
    ensures Ahead([item] + list, key) == if item.key == key then {} else {item.key} + Ahead(list, key)
  {
    assert ([item] + list)[1..] == list;
  }

  /** What one operation does to the keys ahead of `key`, or that it pushed `key` off a full store. */
  ghost predicate Held(list: seq<Item>, key: string, used: set<string>, capacity: nat) {
    if key in KeySet(list) then Ahead(list, key) <= used else capacity <= |used|
  }

  lemma MarkHolds(list: seq<Item>, item: Item, key: string, used: set<string>, capacity: nat, maxBytes: nat)
    requires 1 <= capacity && Distinct(list) && key in KeySet(list) && Ahead(list, key) <= used
    requires Bytes(Without(list, item.key)) + item.Size() <= maxBytes
    ensures Held(Marked(list, item.key, item.result, capacity, maxBytes), key, used + ({item.key} - {key}), capacity)
  {
    hide Without, Distinct, Ahead, Keep, Bytes, Marked;
    var rest := Without(list, item.key);
    var slots := if |rest| <= capacity - 1 then |rest| else capacity - 1;
    WithoutFacts(list, item.key);
    RoomyMark(list, item.key, item.result, capacity, maxBytes);
    assert rest[..|rest|] == rest;
    ConsFacts(item, rest[..slots]);
    AheadCons(item, rest[..slots], key);
    if item.key != key {
      AheadWithout(list, key, item.key);
      AheadOfTheDropped(rest, key, slots);
      var pushed := Ahead(rest, key) + {item.key};
      assert |pushed| == |Ahead(rest, key)| + 1;
      SetNoSmaller(pushed, used + {item.key});
      assert used + ({item.key} - {key}) == used + {item.key};
    }
  }

  lemma LookupHolds(list: seq<Item>, other: string, key: string, used: set<string>, capacity: nat, maxBytes: nat)
    requires 1 <= capacity && Distinct(list) && Within(list, capacity, maxBytes)
    requires key in KeySet(list) && other in KeySet(list) && Ahead(list, key) <= used
    ensures Held(Accessed(list, other, capacity, maxBytes), key, used + ({other} - {key}), capacity)
  {
    hide Without, Distinct, Ahead, Keep, Bytes, Accessed;
    var item, rest := Find(list, other), Without(list, other);
    WithoutFacts(list, other);
    AccessKeepsInvariant(list, other, capacity, maxBytes);
    ConsFacts(item, rest);
    AheadCons(item, rest, key);
    if other != key {
      AheadWithout(list, key, other);
    }
  }

  lemma StepHolds(list: seq<Item>, op: Op, key: string, used: set<string>, capacity: nat, maxBytes: nat)
    requires 1 <= capacity && Distinct(list) && Within(list, capacity, maxBytes)
    requires key in KeySet(list) && Held(list, key, used, capacity)
    requires op.Mark? ==> Bytes(Without(list, op.key)) + Item(op.key, op.result).Size() <= maxBytes
    ensures Held(Apply(list, op, capacity, maxBytes), key, used + (UsedBy(list, op) - {key}), capacity)
  {
    hide Without, Distinct, Ahead, Keep, Bytes, Marked, KeySet;
    if op.Mark? {
      MarkHolds(list, Item(op.key, op.result), key, used, capacity, maxBytes);
    } else if op.key in KeySet(list) {
      LookupHolds(list, op.key, key, used, capacity, maxBytes);
    } else {
      assert used + (UsedBy(list, op) - {key}) == used;
    }
  }

  /** A key in the store leaves it only after `capacity` distinct other keys were used. */
  lemma {:induction false} EvictedOnlyByOthers(list: seq<Item>, ops: seq<Op>, key: string, used: set<string>,
                                               capacity: nat, maxBytes: nat)
    requires 1 <= capacity && Distinct(list) && Within(list, capacity, maxBytes)
    requires Held(list, key, used, capacity) && Roomy(list, ops, capacity, maxBytes)
    requires key !in KeySet(Run(list, ops, capacity, maxBytes))
    ensures capacity <= |used + (Used(list, ops, capacity, maxBytes) - {key})|
    decreases |ops|
  {
    hide Without, Distinct, Ahead, Keep, Bytes, Accessed, Marked, KeySet;
    if key !in KeySet(list) {
      SetNoSmaller(used, used + (Used(list, ops, capacity, maxBytes) - {key}));
    } else {
      var op := ops[0];
      var after := Apply(list, op, capacity, maxBytes);
      var used' := used + (UsedBy(list, op) - {key});
      StepHolds(list, op, key, used, capacity, maxBytes);
      ApplyKeepsInvariant(list, op, capacity, maxBytes);
      EvictedOnlyByOthers(after, ops[1..], key, used', capacity, maxBytes);
      assert used' + (Used(after, ops[1..], capacity, maxBytes) - {key}) ==
             used + (Used(list, ops, capacity, maxBytes) - {key});
    }
  }

  /** Between a mark of a key and a later miss of it, at least `capacity` distinct other keys were marked or found. */
  lemma {:induction false} MissNeedsCapacityOthers(list: seq<Item>, key: string, result: string, ops: seq<Op>,
                                                   capacity: nat, maxBytes: nat)
    requires 1 <= capacity && Distinct(list)
    requires Roomy(list, [Mark(key, result)] + ops, capacity, maxBytes)
    requires key !in KeySet(Run(Marked(list, key, result, capacity, maxBytes), ops, capacity, maxBytes))
    ensures capacity <= |Used(Marked(list, key, result, capacity, maxBytes), ops, capacity, maxBytes) - {key}|
  {
    var marked := Marked(list, key, result, capacity, maxBytes);
    assert ([Mark(key, result)] + ops)[1..] == ops;
    MarkKeepsInvariant(list, key, result, capacity, maxBytes);
    RoomyMark(list, key, result, capacity, maxBytes);
    ConsFacts(Item(key, result), marked[1..]);
    EvictedOnlyByOthers(marked, ops, key, {}, capacity, maxBytes);
    assert {} + (Used(marked, ops, capacity, maxBytes) - {key}) == Used(marked, ops, capacity, maxBytes) - {key};
  }
}
