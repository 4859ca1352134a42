/**
 The idempotency store as it is kept: a hash map, a recency deque, a byte counter
 and an append-only log. The class is proved to be the list of module `Lru`, and
 reloading the log is proved to rebuild it, exactly when no key was logged twice.
 */
module Idempotency {
  import opened Lru
  import opened Numbers
  import opened Text

  const DEFAULT_MAX_MEMORY_BYTES: nat := 8 * 1024 * 1024

  /** The three fields as they stand, consistent or not. */
  datatype Raw = Raw(processed: map<string, string>, order: seq<string>, bytes: nat)

  function KeysOf(list: seq<Item>): seq<string> {
    if list == [] then [] else [list[0].key] + KeysOf(list[1..])
  }

  function ToMap(list: seq<Item>): map<string, string> {
    if list == [] then map[] else ToMap(list[1..])[list[0].key := list[0].result]
  }

  /** Deque, map and counter all describe the same list. */
  ghost predicate Represents(raw: Raw, list: seq<Item>) {
    Distinct(list) && raw == Raw(ToMap(list), KeysOf(list), Bytes(list))
  }

  /** Drops the least recently used key, and its entry when the map still has one. */
  function PopBack(raw: Raw): Raw
    requires raw.order != []
  {
    var key := raw.order[|raw.order| - 1];
    var order := raw.order[..|raw.order| - 1];
    if key in raw.processed then
      Raw(raw.processed - {key}, order, SaturatingSub(raw.bytes, Item(key, raw.processed[key]).Size()))
    else
      raw.(order := order)
  }

  function Evict(raw: Raw, slots: int, bytes: int): Raw
    decreases |raw.order|
  {
    if (|raw.processed| > slots || raw.bytes > bytes) && raw.order != [] then Evict(PopBack(raw), slots, bytes) else raw
  }

  /** The deque without `key`, which `retain` and a removal at the first position both yield when it occurs once. */
  function Retain(order: seq<string>, key: string): seq<string> {
    if order == [] then []
    else if order[0] == key then Retain(order[1..], key)
    else [order[0]] + Retain(order[1..], key)
  }

  function RemoveFirst(order: seq<string>, key: string): seq<string> {
    if order == [] then []
    else if order[0] == key then order[1..]
    else [order[0]] + RemoveFirst(order[1..], key)
  }

  // ---------- the representation ----------

  lemma {:induction false} MapFacts(list: seq<Item>)
    requires Distinct(list)
    ensures ToMap(list).Keys == KeySet(list) && |ToMap(list)| == |list| == |KeysOf(list)|
    ensures forall key :: key in KeySet(list) ==>
              ToMap(list)[key] == Find(list, key).result && Find(list, key).key == key
  {
    if list != [] {
      MapFacts(list[1..]);
      assert |ToMap(list)| == |ToMap(list[1..])| + 1 by {
        assert ToMap(list).Keys == ToMap(list[1..]).Keys + {list[0].key};
        assert |ToMap(list).Keys| == |ToMap(list)|;
        assert |ToMap(list[1..]).Keys| == |ToMap(list[1..])|;
      }
    }
  }

  lemma ConsRepresents(item: Item, list: seq<Item>)
    ensures ToMap([item] + list) == ToMap(list)[item.key := item.result]
    ensures KeysOf([item] + list) == [item.key] + KeysOf(list)
  {
    assert ([item] + list)[1..] == list;
  }

  lemma WithoutRepresents(list: seq<Item>, key: string)
    requires Distinct(list)
    ensures ToMap(Without(list, key)) == ToMap(list) - {key}
    ensures KeysOf(Without(list, key)) == Retain(KeysOf(list), key) == RemoveFirst(KeysOf(list), key)
  {
    MapWithout(list, key);
    KeysWithout(list, key);
  }

  lemma {:induction false} MapWithout(list: seq<Item>, key: string)
    ensures ToMap(Without(list, key)) == ToMap(list) - {key}
  {
    if list != [] {
      MapWithout(list[1..], key);
      if list[0].key != key {
        ConsRepresents(list[0], Without(list[1..], key));
      }
    }
  }

  lemma {:induction false} KeysWithout(list: seq<Item>, key: string)
    requires Distinct(list)
    ensures KeysOf(Without(list, key)) == Retain(KeysOf(list), key) == RemoveFirst(KeysOf(list), key)
  {
    hide Retain, RemoveFirst;
    RetainNothing(key);
    if list != [] {
      KeysWithout(list[1..], key);
      RetainCons(list[0].key, KeysOf(list[1..]), key);
      if list[0].key != key {
        ConsRepresents(list[0], Without(list[1..], key));
      } else {
        WithoutFacts(list[1..], key);
      }
    }
  }

  lemma RetainNothing(key: string)
    ensures Retain([], key) == RemoveFirst([], key) == []
  {
  }

  lemma RetainCons(first: string, order: seq<string>, key: string)
    ensures Retain([first] + order, key) == (if first == key then [] else [first]) + Retain(order, key)
    ensures RemoveFirst([first] + order, key) == if first == key then order else [first] + RemoveFirst(order, key)
  {
    assert ([first] + order)[1..] == order;
  }

  lemma {:induction false} LastOf(list: seq<Item>)
    requires list != [] && Distinct(list)
    ensures var last, front := list[|list| - 1], list[..|list| - 1];
            && Without(list, last.key) == front && last.key in KeySet(list) && Find(list, last.key) == last
            && KeysOf(list) == KeysOf(front) + [last.key]
  {
    var front := list[..|list| - 1];
    if |list| > 1 {
      LastOf(list[1..]);
      assert front == [list[0]] + list[1..][..|list| - 2];
      assert front[1..] == list[1..][..|list| - 2];
    }
  }

  /** Popping the back while the caps are exceeded leaves the longest prefix that fits; the counter never saturates. */
  lemma {:induction false} EvictIsKeep(raw: Raw, list: seq<Item>, slots: int, bytes: int)
    requires Represents(raw, list)
    ensures Represents(Evict(raw, slots, bytes), Keep(list, slots, bytes))
    decreases |list|
  {
    MapFacts(list);
    if list == [] || (|list| <= slots && Bytes(list) <= bytes) {
      if list != [] {
        KeepAll(list, slots, bytes);
      }
    } else {
      var last, front := list[|list| - 1], list[..|list| - 1];
      LastOf(list);
      WithoutFacts(list, last.key);
      WithoutRepresents(list, last.key);
      assert PopBack(raw) == Raw(ToMap(front), KeysOf(front), Bytes(front));
      EvictIsKeep(PopBack(raw), front, slots, bytes);
      KeepDropsLast(list, slots, bytes);
    }
  }

  lemma RepresentsDistinct(raw: Raw, list: seq<Item>)
    requires Represents(raw, list)
    ensures Distinct(list) && raw.processed.Keys == KeySet(list)
  {
    MapFacts(list);
  }

  /** Taking an entry out of map, deque and counter takes it out of the list; the counter does not saturate. */
  lemma DropRepresents(raw: Raw, list: seq<Item>, key: string)
    requires Represents(raw, list) && key in raw.processed
    ensures Represents(Raw(raw.processed - {key}, Retain(raw.order, key),
                           SaturatingSub(raw.bytes, Item(key, raw.processed[key]).Size())),
                       Without(list, key))
  {
    MapFacts(list);
    WithoutFacts(list, key);
    WithoutRepresents(list, key);
  }

  lemma AddRepresents(raw: Raw, list: seq<Item>, item: Item)
    requires Represents(raw, list) && item.key !in KeySet(list)
    ensures Represents(LoadItem(raw, item), [item] + list)
  {
    ConsFacts(item, list);
    ConsRepresents(item, list);
  }

  lemma MoveRepresents(raw: Raw, list: seq<Item>, key: string)
    requires Represents(raw, list) && key in raw.processed
    ensures key in KeySet(list)
    ensures Represents(raw.(order := [key] + RemoveFirst(raw.order, key)), [Find(list, key)] + Without(list, key))
  {
    hide Without, Find, Distinct, KeySet, Bytes, KeysOf, ToMap, Retain, RemoveFirst;
    MapFacts(list);
    WithoutFacts(list, key);
    WithoutRepresents(list, key);
    ConsFacts(Find(list, key), Without(list, key));
    ConsRepresents(Find(list, key), Without(list, key));
    assert ToMap([Find(list, key)] + Without(list, key)) == ToMap(list);
  }

  // ---------- what the operations do to the fields ----------

  function TouchedRaw(raw: Raw, key: string, capacity: nat, maxBytes: nat): Raw {
    Evict(raw.(order := [key] + RemoveFirst(raw.order, key)), capacity, maxBytes)
  }

  function DroppedRaw(raw: Raw, key: string): Raw {
    if key in raw.processed then
      Raw(raw.processed - {key}, Retain(raw.order, key), SaturatingSub(raw.bytes, Item(key, raw.processed[key]).Size()))
    else raw
  }

  function MarkedRaw(raw: Raw, item: Item, capacity: nat, maxBytes: nat): Raw {
    var roomy := Evict(DroppedRaw(raw, item.key), capacity - 1, maxBytes - item.Size());
    if item.Size() > maxBytes then roomy else LoadItem(roomy, item)
  }

  function ApplyRaw(raw: Raw, op: Op, capacity: nat, maxBytes: nat): Raw {
    match op
    case Mark(key, result) => MarkedRaw(raw, Item(key, result), capacity, maxBytes)
    case Lookup(key) => if key in raw.processed then TouchedRaw(raw, key, capacity, maxBytes) else raw
  }

  function RunRaw(raw: Raw, ops: seq<Op>, capacity: nat, maxBytes: nat): Raw
    decreases |ops|
  {
    if ops == [] then raw else RunRaw(ApplyRaw(raw, ops[0], capacity, maxBytes), ops[1..], capacity, maxBytes)
  }

  lemma {:induction false} RunRawAppend(raw: Raw, ops: seq<Op>, op: Op, capacity: nat, maxBytes: nat)
    ensures RunRaw(raw, ops + [op], capacity, maxBytes) ==
            ApplyRaw(RunRaw(raw, ops, capacity, maxBytes), op, capacity, maxBytes)
    decreases |ops|
  {
    hide ApplyRaw;
    if ops == [] {
      assert RunRaw(ApplyRaw(raw, op, capacity, maxBytes), [op][1..], capacity, maxBytes) ==
             ApplyRaw(raw, op, capacity, maxBytes);
      assert [] + [op] == [op];
    } else {
      assert (ops + [op])[1..] == ops[1..] + [op];
      RunRawAppend(ApplyRaw(raw, ops[0], capacity, maxBytes), ops[1..], op, capacity, maxBytes);
    }
  }

  /** On fields that agree every operation does what it does to the list. */
  lemma ApplyRepresents(raw: Raw, list: seq<Item>, op: Op, capacity: nat, maxBytes: nat)
    requires Represents(raw, list)
    ensures Represents(ApplyRaw(raw, op, capacity, maxBytes), Apply(list, op, capacity, maxBytes))
  {
    hide Keep, Evict, Without, Represents, Find, Retain, RemoveFirst, LoadItem, KeySet, Distinct;
    RepresentsDistinct(raw, list);
    match op
    case Mark(key, result) =>
      var item, rest := Item(key, result), Without(list, key);
      WithoutFacts(list, key);
      if key in raw.processed {
        DropRepresents(raw, list, key);
      }
      EvictIsKeep(DroppedRaw(raw, key), rest, capacity - 1, maxBytes - item.Size());
      KeepStaysDistinct(rest, capacity - 1, maxBytes - item.Size());
      if item.Size() <= maxBytes {
        AddRepresents(Evict(DroppedRaw(raw, key), capacity - 1, maxBytes - item.Size()),
                      Keep(rest, capacity - 1, maxBytes - item.Size()), item);
      }
    case Lookup(key) =>
      if key in raw.processed {
        MoveRepresents(raw, list, key);
        EvictIsKeep(raw.(order := [key] + RemoveFirst(raw.order, key)), [Find(list, key)] + Without(list, key),
                    capacity, maxBytes);
      }
  }

  /** The class on its three fields refines the list of module `Lru`, over every run. */
  lemma {:induction false} RunRepresents(raw: Raw, list: seq<Item>, ops: seq<Op>, capacity: nat, maxBytes: nat)
    requires Represents(raw, list)
    ensures Represents(RunRaw(raw, ops, capacity, maxBytes), Run(list, ops, capacity, maxBytes))
    decreases |ops|
  {
    if ops != [] {
      hide Represents, ApplyRaw, Apply;
      ApplyRepresents(raw, list, ops[0], capacity, maxBytes);
      RunRepresents(ApplyRaw(raw, ops[0], capacity, maxBytes), Apply(list, ops[0], capacity, maxBytes), ops[1..],
                    capacity, maxBytes);
    }
  }

  // ---------- the log ----------

  function LogLine(item: Item): string {
    item.key + " " + item.result
  }

  function ParseLogLine(line: string): Option<Item> {
    var trimmed := Trim(line);
    if trimmed == "" then None
    else
      var parts := SplitN(trimmed, ' ', 2);
      if |parts| != 2 then None else Some(Item(parts[0], parts[1]))
  }

  /** The items of the lines that parse, oldest first. */
  function ReadLines(lines: seq<string>): seq<Item> {
    if lines == [] then []
    else
      var line := lines[|lines| - 1];
      ReadLines(lines[..|lines| - 1]) + if ParseLogLine(line).Some? then [ParseLogLine(line).value] else []
  }

  ghost function WrittenLog(items: seq<Item>): string {
    if items == [] then "" else LogLine(items[0]) + "\n" + WrittenLog(items[1..])
  }

  lemma {:induction false} WrittenLogAppend(items: seq<Item>, item: Item)
    ensures WrittenLog(items + [item]) == WrittenLog(items) + LogLine(item) + "\n"
  {
    hide LogLine;
    if items == [] {
      assert [item][1..] == [] && [] + [item] == [item];
    } else {
      WrittenLogAppend(items[1..], item);
      assert (items + [item])[1..] == items[1..] + [item];
    }
  }

  /** What a persistent store has appended: the marks that can fit. */
  ghost function Logged(ops: seq<Op>, maxBytes: nat): seq<Item> {
    if ops == [] then []
    else
      var op := ops[|ops| - 1];
      Logged(ops[..|ops| - 1], maxBytes) +
      if op.Mark? && Item(op.key, op.result).Size() <= maxBytes then [Item(op.key, op.result)] else []
  }

  lemma LogGrows(ops: seq<Op>, op: Op, maxBytes: nat)
    ensures WrittenLog(Logged(ops + [op], maxBytes)) == WrittenLog(Logged(ops, maxBytes)) +
            if op.Mark? && Item(op.key, op.result).Size() <= maxBytes then LogLine(Item(op.key, op.result)) + "\n"
              else ""
  {
    hide LogLine, WrittenLog;
    assert (ops + [op])[..|ops|] == ops;
    if op.Mark? && Item(op.key, op.result).Size() <= maxBytes {
      WrittenLogAppend(Logged(ops, maxBytes), Item(op.key, op.result));
    } else {
      assert Logged(ops, maxBytes) + [] == Logged(ops, maxBytes);
    }
  }

  lemma ReadNextLine(lines: seq<string>, i: nat)
    requires i < |lines|
    ensures ReadLines(lines[..i + 1]) ==
            match ParseLogLine(lines[i])
            case None => ReadLines(lines[..i])
            case Some(item) => ReadLines(lines[..i]) + [item]
  {
    assert lines[..i + 1][..i] == lines[..i];
  }

  lemma NothingLoaded()
    ensures ReadLines([]) == [] && LoadItems([]) == Raw(map[], [], 0)
  {
  }

  lemma LoadNextItem(items: seq<Item>, item: Item)
    ensures LoadItems(items + [item]) == LoadItem(LoadItems(items), item)
  {
    assert (items + [item])[..|items|] == items;
  }

  /** What a key and a result must look like for their line to read back as themselves. */
  ghost predicate LogClean(item: Item) {
    && item.key != "" && ' ' !in item.key && !IsWhite(item.key[0])
    && item.result != "" && !IsWhite(item.result[|item.result| - 1])
  }

  lemma SplitTwoJoins(s: string)
    requires |SplitN(s, ' ', 2)| == 2
    ensures var parts := SplitN(s, ' ', 2); s == parts[0] + [' '] + parts[1] && ' ' !in parts[0]
  {
  }

  lemma EndsOfLogLine(item: Item)
    ensures var line := LogLine(item);
            && line == item.key + [' '] + item.result
            && line[0] == (if item.key == "" then ' ' else item.key[0])
            && line[|line| - 1] == if item.result == "" then ' ' else item.result[|item.result| - 1]
  {
  }

  /** A log line reads back exactly when key and result are clean. */
  lemma LogLineReadsBack(item: Item)
    ensures ParseLogLine(LogLine(item)) == Some(item) <==> LogClean(item)
  {
    hide SplitN, Trim, LogLine, IsWhite;
    assert IsWhite(' ') by { WhiteSpace(); }
    var line := LogLine(item);
    EndsOfLogLine(item);
    TrimLeavesAlone(line);
    if LogClean(item) {
      SplitNField(item.key, ' ', item.result, 2);
      SplitNCuts(item.result, ' ', 1);
    }
    if ParseLogLine(line) == Some(item) {
      SplitTwoJoins(Trim(line));
    }
  }

  /** A line reads as an item exactly if, trimmed, it is key, space and result, with no space in the key. */
  lemma LinesThatRead(line: string, item: Item)
    ensures ParseLogLine(line) == Some(item) <==> Trim(line) == item.key + " " + item.result && ' ' !in item.key
  {
    hide SplitN, Trim;
    var t := Trim(line);
    if t == item.key + " " + item.result && ' ' !in item.key {
      assert t == item.key + [' '] + item.result;
      SplitNField(item.key, ' ', item.result, 2);
      SplitNCuts(item.result, ' ', 1);
    }
    if ParseLogLine(line) == Some(item) {
      SplitTwoJoins(t);
    }
  }

  lemma WhiteSpace()
    ensures IsWhite(' ') && IsWhite('\r')
  {
  }

  lemma {:induction false} ReadLinesFirst(line: string, lines: seq<string>)
    ensures ReadLines([line] + lines) ==
            (if ParseLogLine(line).Some? then [ParseLogLine(line).value] else []) + ReadLines(lines)
  {
    hide ParseLogLine;
    var all := [line] + lines;
    if lines == [] {
      assert all[..0] == [];
    } else {
      ReadLinesFirst(line, lines[..|lines| - 1]);
      assert all[..|all| - 1] == [line] + lines[..|lines| - 1];
    }
  }

  /** Reading the log gives back what was appended, in order. */
  lemma {:induction false} ReadWrittenLog(items: seq<Item>)
    requires forall i :: 0 <= i < |items| ==>
               LogClean(items[i]) && '\n' !in items[i].key && '\n' !in items[i].result
    ensures ReadLines(Lines(WrittenLog(items))) == items
  {
    if items != [] {
      hide Lines, ParseLogLine, IsWhite;
      var item, rest := items[0], items[1..];
      var line := LogLine(item);
      FirstLine(line, WrittenLog(rest));
      EndsOfLogLine(item);
      WhiteSpace();
      LogLineReadsBack(item);
      ReadLinesFirst(line, Lines(WrittenLog(rest)));
      ReadWrittenLog(rest);
    }
  }

  // ---------- loading ----------

  function LoadItem(raw: Raw, item: Item): Raw {
    Raw(raw.processed[item.key := item.result], [item.key] + raw.order, raw.bytes + item.Size())
  }

  function LoadItems(items: seq<Item>): Raw {
    if items == [] then Raw(map[], [], 0) else LoadItem(LoadItems(items[..|items| - 1]), items[|items| - 1])
  }

  /** The fields after loading a log with this content. */
  function Loaded(content: string, capacity: nat, maxBytes: nat): Raw {
    Evict(LoadItems(ReadLines(Lines(content))), capacity, maxBytes)
  }

  /** The last logged entry of every key, newest first. */
  ghost function Latest(items: seq<Item>): seq<Item> {
    if items == [] then []
    else
      var item := items[|items| - 1];
      [item] + Without(Latest(items[..|items| - 1]), item.key)
  }

  /** The bytes of the entries that a later line for the same key replaced. */
  ghost function Overwritten(items: seq<Item>): nat {
    if items == [] then 0
    else
      var item := items[|items| - 1];
      var before := Latest(items[..|items| - 1]);
      Overwritten(items[..|items| - 1]) + if item.key in KeySet(before) then Find(before, item.key).Size() else 0
  }

  ghost predicate NoKeyTwice(items: seq<Item>) {
    forall i, j :: 0 <= i < j < |items| ==> items[i].key != items[j].key
  }

  lemma {:induction false} LatestFacts(items: seq<Item>)
    ensures Distinct(Latest(items))
    ensures forall key :: key in KeySet(Latest(items)) <==> exists i :: 0 <= i < |items| && items[i].key == key
    ensures Overwritten(items) == 0 <==> NoKeyTwice(items)
  {
    hide Without, Find, Distinct, KeySet;
    if items == [] {
      NoneHeld();
    } else {
      var front, item := items[..|items| - 1], items[|items| - 1];
      LatestFacts(front);
      WithoutFacts(Latest(front), item.key);
      ConsFacts(item, Without(Latest(front), item.key));
      assert forall i :: 0 <= i < |front| ==> items[i] == front[i];
      if item.key in KeySet(Latest(front)) {
        assert Overwritten(items) > 0;
        assert !NoKeyTwice(items);
      } else {
        assert NoKeyTwice(items) <==> NoKeyTwice(front);
      }
    }
  }

  lemma NoneHeld()
    ensures Distinct([]) && KeySet([]) == {} && Bytes([]) == 0 && ToMap([]) == map[]
  {
  }

  /** After the lines were read, and before eviction, the counter is over by what was overwritten. */
  lemma {:induction false} LoadOvercounts(items: seq<Item>)
    ensures LoadItems(items).processed == ToMap(Latest(items))
    ensures LoadItems(items).bytes == Bytes(Latest(items)) + Overwritten(items)
  {
    hide Without, Find, Distinct, KeySet, Bytes, ToMap;
    if items == [] {
      NoneHeld();
    } else {
      var front, item := items[..|items| - 1], items[|items| - 1];
      LoadOvercounts(front);
      LatestFacts(front);
      WithoutFacts(Latest(front), item.key);
      MapWithout(Latest(front), item.key);
      ConsFacts(item, Without(Latest(front), item.key));
      ConsRepresents(item, Without(Latest(front), item.key));
      assert (ToMap(Latest(front)) - {item.key})[item.key := item.result] ==
             ToMap(Latest(front))[item.key := item.result];
    }
  }

  lemma {:induction false} LoadsInOrder(items: seq<Item>)
    requires NoKeyTwice(items)
    ensures LoadItems(items).order == KeysOf(Latest(items))
  {
    hide Without, Distinct, KeySet, Overwritten;
    if items != [] {
      var front, item := items[..|items| - 1], items[|items| - 1];
      LoadsInOrder(front);
      LatestFacts(front);
      WithoutFacts(Latest(front), item.key);
      ConsRepresents(item, Latest(front));
    }
  }

  lemma EvictStep(raw: Raw, slots: int, bytes: int)
    ensures Evict(raw, slots, bytes) ==
            if (|raw.processed| > slots || raw.bytes > bytes) && raw.order != [] then Evict(PopBack(raw), slots, bytes)
              else raw
  {
  }

  /** One pop takes an entry's bytes off the counter, or nothing if its key was gone. */
  lemma PopKeepsExcess(raw: Raw, list: seq<Item>) returns (rest: seq<Item>)
    requires raw.order != [] && Distinct(list) && raw.processed == ToMap(list) && Bytes(list) <= raw.bytes
    ensures Distinct(rest) && PopBack(raw).processed == ToMap(rest)
    ensures PopBack(raw).bytes - Bytes(rest) == raw.bytes - Bytes(list) && |PopBack(raw).order| < |raw.order|
  {
    hide Without, Find, Distinct, KeySet, Bytes, ToMap;
    var key := raw.order[|raw.order| - 1];
    MapFacts(list);
    WithoutFacts(list, key);
    MapWithout(list, key);
    rest := if key in raw.processed then Without(list, key) else list;
  }

  /** Eviction never changes by how much the counter is over. */
  lemma {:induction false} EvictKeepsExcess(raw: Raw, list: seq<Item>, slots: int, bytes: int) returns (rest: seq<Item>)
    requires Distinct(list) && raw.processed == ToMap(list) && Bytes(list) <= raw.bytes
    ensures Distinct(rest) && Evict(raw, slots, bytes).processed == ToMap(rest)
    ensures Evict(raw, slots, bytes).bytes - Bytes(rest) == raw.bytes - Bytes(list)
    decreases |raw.order|
  {
    hide Evict, PopBack, Distinct, Bytes, ToMap;
    EvictStep(raw, slots, bytes);
    rest := list;
    if (|raw.processed| > slots || raw.bytes > bytes) && raw.order != [] {
      rest := PopKeepsExcess(raw, list);
      rest := EvictKeepsExcess(PopBack(raw), rest, slots, bytes);
    }
  }

  /** The bytes of a map do not depend on the order its entries are listed in. */
  lemma {:induction false} BytesOfMap(a: seq<Item>, b: seq<Item>)
    requires Distinct(a) && Distinct(b) && ToMap(a) == ToMap(b)
    ensures Bytes(a) == Bytes(b)
    decreases |a|
  {
    MapFacts(a);
    MapFacts(b);
    if a != [] {
      var key := a[0].key;
      assert KeySet(a) == KeySet(b);
      WithoutFacts(b, key);
      WithoutRepresents(a, key);
      WithoutRepresents(b, key);
      WithoutFacts(a, key);
      assert Find(a, key) == Find(b, key);
      BytesOfMap(Without(a, key), Without(b, key));
    }
  }

  /**
   For every log, the loaded counter is over by exactly the overwritten bytes: it is right just when no key was logged
   twice.
   */
  lemma LoadedCounter(content: string, capacity: nat, maxBytes: nat, list: seq<Item>)
    requires Distinct(list) && Loaded(content, capacity, maxBytes).processed == ToMap(list)
    ensures var items := ReadLines(Lines(content));
            && Loaded(content, capacity, maxBytes).bytes == Bytes(list) + Overwritten(items)
            && (Loaded(content, capacity, maxBytes).bytes == Bytes(list) <==> NoKeyTwice(items))
  {
    var items := ReadLines(Lines(content));
    LatestFacts(items);
    LoadOvercounts(items);
    var rest := EvictKeepsExcess(LoadItems(items), Latest(items), capacity, maxBytes);
    BytesOfMap(rest, list);
  }

  // ---------- stores loaded from a log that repeats keys ----------

  /** Every key held has a place in the deque; what is held lists as `list`, and the counter is over by `excess`. */
  ghost predicate Over(raw: Raw, list: seq<Item>, excess: nat) {
    && Distinct(list) && raw.processed == ToMap(list) && raw.bytes == Bytes(list) + excess
    && (forall key :: key in raw.processed ==> key in raw.order)
  }

  /** Eviction stops when both budgets are met or nothing is held, whatever repeats the deque holds. */
  lemma {:induction false} EvictMakesRoom(raw: Raw, slots: int, bytes: int)
    requires forall key :: key in raw.processed ==> key in raw.order
    ensures var rest := Evict(raw, slots, bytes);
            && (forall key :: key in rest.processed ==> key in rest.order && key in raw.processed)
            && ((|rest.processed| <= slots && rest.bytes <= bytes) || rest.processed == map[])
    decreases |raw.order|
  {
    if (|raw.processed| > slots || raw.bytes > bytes) && raw.order != [] {
      EvictMakesRoom(PopBack(raw), slots, bytes);
    }
  }

  lemma EvictOver(raw: Raw, list: seq<Item>, slots: int, bytes: int, excess: nat) returns (rest: seq<Item>)
    requires Over(raw, list, excess)
    ensures Over(Evict(raw, slots, bytes), rest, excess) && KeySet(rest) <= KeySet(list)
    ensures rest == [] || (|rest| <= slots && Bytes(rest) + excess <= bytes)
  {
    hide Evict, Distinct, KeySet, Bytes, ToMap, KeysOf;
    EvictMakesRoom(raw, slots, bytes);
    rest := EvictKeepsExcess(raw, list, slots, bytes);
    MapFacts(rest);
    MapFacts(list);
    EmptyFacts(rest);
  }

  lemma EmptyFacts(list: seq<Item>)
    ensures ToMap(list) == map[] ==> list == []
    ensures list == [] ==> Bytes(list) == 0
  {
    assert list != [] ==> list[0].key in ToMap(list);
  }

  lemma {:induction false} PlacesAfterRemoval(order: seq<string>, removed: string, key: string)
    requires key != removed && key in order
    ensures key in Retain(order, removed) && key in RemoveFirst(order, removed)
  {
    if order[0] == key {
    } else {
      PlacesAfterRemoval(order[1..], removed, key);
      RetainCons(order[0], order[1..], removed);
    }
  }

  lemma DropOver(raw: Raw, list: seq<Item>, key: string, excess: nat)
    requires Over(raw, list, excess)
    ensures Over(DroppedRaw(raw, key), Without(list, key), excess) && key !in KeySet(Without(list, key))
  {
    hide Retain, Without, Distinct, KeySet, Bytes, ToMap, Find;
    MapFacts(list);
    WithoutFacts(list, key);
    MapWithout(list, key);
    forall other | other in raw.processed && other != key
      ensures other in Retain(raw.order, key)
    {
      PlacesAfterRemoval(raw.order, key, other);
    }
  }

  lemma AddOver(raw: Raw, list: seq<Item>, item: Item, excess: nat)
    requires Over(raw, list, excess) && item.key !in KeySet(list)
    ensures Over(LoadItem(raw, item), [item] + list, excess)
  {
    hide Distinct, KeySet, Bytes, ToMap;
    ConsFacts(item, list);
    ConsRepresents(item, list);
  }

  lemma MoveOver(raw: Raw, list: seq<Item>, key: string, excess: nat)
    requires Over(raw, list, excess)
    ensures Over(raw.(order := [key] + RemoveFirst(raw.order, key)), list, excess)
  {
    hide RemoveFirst, Distinct, KeySet, Bytes, ToMap;
    forall other | other in raw.processed && other != key
      ensures other in RemoveFirst(raw.order, key)
    {
      PlacesAfterRemoval(raw.order, key, other);
    }
  }

  /** Every operation keeps the excess, and both caps on what is really held. */
  lemma ApplyOver(raw: Raw, list: seq<Item>, op: Op, capacity: nat, maxBytes: nat, excess: nat)
      returns (after: seq<Item>)
    requires Over(raw, list, excess) && Within(list, capacity, maxBytes)
    ensures Over(ApplyRaw(raw, op, capacity, maxBytes), after, excess) && Within(after, capacity, maxBytes)
  {
    hide Over, Evict, LoadItem, DroppedRaw, RemoveFirst, Without, KeySet, Bytes;
    match op
    case Mark(key, result) =>
      var item := Item(key, result);
      DropOver(raw, list, key, excess);
      var rest := EvictOver(DroppedRaw(raw, key), Without(list, key), capacity - 1, maxBytes - item.Size(), excess);
      EmptyFacts(rest);
      after := rest;
      if item.Size() <= maxBytes {
        AddOver(Evict(DroppedRaw(raw, key), capacity - 1, maxBytes - item.Size()), rest, item, excess);
        ConsFacts(item, rest);
        after := [item] + rest;
      }
    case Lookup(key) =>
      after := list;
      if key in raw.processed {
        MoveOver(raw, list, key, excess);
        after := EvictOver(raw.(order := [key] + RemoveFirst(raw.order, key)), list, capacity, maxBytes, excess);
        EmptyFacts(after);
      }
  }

  lemma {:induction false} RunOver(raw: Raw, list: seq<Item>, ops: seq<Op>, capacity: nat, maxBytes: nat, excess: nat)
      returns (after: seq<Item>)
    requires Over(raw, list, excess) && Within(list, capacity, maxBytes)
    ensures Over(RunRaw(raw, ops, capacity, maxBytes), after, excess) && Within(after, capacity, maxBytes)
    decreases |ops|
  {
    after := list;
    if ops != [] {
      hide Over, Within, ApplyRaw;
      var next := ApplyOver(raw, list, ops[0], capacity, maxBytes, excess);
      after := RunOver(ApplyRaw(raw, ops[0], capacity, maxBytes), next, ops[1..], capacity, maxBytes, excess);
    }
  }

  lemma {:induction false} EveryKeyHasAPlace(items: seq<Item>, key: string)
    requires key in LoadItems(items).processed
    ensures key in LoadItems(items).order
  {
    if items[|items| - 1].key != key {
      EveryKeyHasAPlace(items[..|items| - 1], key);
    }
  }

  /**
   Whatever log a store was loaded from, and whatever was marked and looked up since: what is
   held keeps both caps, and the counter is over by the bytes of the overwritten lines, for good.
   */
  lemma LoadedStaysOver(content: string, ops: seq<Op>, capacity: nat, maxBytes: nat) returns (list: seq<Item>)
    ensures Distinct(list) && Within(list, capacity, maxBytes)
    ensures var raw := RunRaw(Loaded(content, capacity, maxBytes), ops, capacity, maxBytes);
            && Over(raw, list, Overwritten(ReadLines(Lines(content))))
            && raw.processed == ToMap(list) && raw.bytes == Bytes(list) + Overwritten(ReadLines(Lines(content)))
  {
    var items := ReadLines(Lines(content));
    hide RunRaw, Evict, Lines, ReadLines, LoadItems, Latest, Overwritten, Distinct, ToMap, Bytes, KeySet;
    LatestFacts(items);
    LoadOvercounts(items);
    forall key | key in LoadItems(items).processed
      ensures key in LoadItems(items).order
    {
      EveryKeyHasAPlace(items, key);
    }
    var loaded := EvictOver(LoadItems(items), Latest(items), capacity, maxBytes, Overwritten(items));
    EmptyFacts(loaded);
    list := RunOver(Loaded(content, capacity, maxBytes), loaded, ops, capacity, maxBytes, Overwritten(items));
  }

  /** The fields after `k` pops. */
  function Popped(raw: Raw, k: nat): Raw
    requires k <= |raw.order|
    decreases k
  {
    if k == 0 then raw else Popped(PopBack(raw), k - 1)
  }

  /** What pops take: the last places of the deque, and the entries of all keys that have a place there. */
  lemma {:induction false} PoppedHolds(raw: Raw, k: nat, key: string)
    requires k <= |raw.order|
    ensures Popped(raw, k).order == raw.order[..|raw.order| - k]
    ensures key in Popped(raw, k).processed <==> key in raw.processed && key !in raw.order[|raw.order| - k..]
    ensures key in Popped(raw, k).processed ==> Popped(raw, k).processed[key] == raw.processed[key]
    decreases k
  {
    if k > 0 {
      PopHolds(raw, key);
      hide PopBack;
      PoppedHolds(PopBack(raw), k - 1, key);
      var n := |raw.order|;
      assert raw.order[n - k..] == raw.order[..n - 1][n - k..] + [raw.order[n - 1]];
      assert raw.order[..n - 1][..n - k] == raw.order[..n - k];
    }
  }

  lemma PopHolds(raw: Raw, key: string)
    requires raw.order != []
    ensures PopBack(raw).order == raw.order[..|raw.order| - 1]
    ensures key in PopBack(raw).processed <==> key in raw.processed && key != raw.order[|raw.order| - 1]
    ensures key in PopBack(raw).processed ==> PopBack(raw).processed[key] == raw.processed[key]
  {
  }

  /** Eviction pops as few places as make room, or all. */
  lemma {:induction false} EvictPopsFewest(raw: Raw, slots: int, bytes: int) returns (k: nat)
    ensures k <= |raw.order| && Evict(raw, slots, bytes) == Popped(raw, k)
    ensures forall j: nat :: j < k ==> |Popped(raw, j).processed| > slots || Popped(raw, j).bytes > bytes
    decreases |raw.order|
  {
    k := 0;
    if (|raw.processed| > slots || raw.bytes > bytes) && raw.order != [] {
      var k' := EvictPopsFewest(PopBack(raw), slots, bytes);
      k := k' + 1;
      forall j: nat | j < k
        ensures |Popped(raw, j).processed| > slots || Popped(raw, j).bytes > bytes
      {
        if j > 0 {
          assert Popped(raw, j) == Popped(PopBack(raw), j - 1);
        }
      }
    }
  }

  lemma {:induction false} LoadedPlaces(items: seq<Item>, i: nat)
    requires i < |items|
    ensures |LoadItems(items).order| == |items| && LoadItems(items).order[|items| - 1 - i] == items[i].key
    decreases |items|
  {
    var front := items[..|items| - 1];
    if i < |front| {
      LoadedPlaces(front, i);
    } else if front != [] {
      LoadedPlaces(front, 0);
    }
  }

  /**
   A loaded key is ranked by its first line, although it holds the result of its last: for
   some number of oldest lines, what is lost is every key that has one of them.
   */
  lemma LoadedRanksByFirstLine(content: string, capacity: nat, maxBytes: nat) returns (n: nat)
    ensures var items := ReadLines(Lines(content));
            && n <= |items|
            && (forall key :: key in Loaded(content, capacity, maxBytes).processed <==>
                  key in ToMap(Latest(items)) && (forall i :: 0 <= i < n ==> items[i].key != key))
            && (forall key :: key in Loaded(content, capacity, maxBytes).processed ==>
                  Loaded(content, capacity, maxBytes).processed[key] == ToMap(Latest(items))[key])
            && |LoadItems(items).order| == |items|
            && Loaded(content, capacity, maxBytes).order == LoadItems(items).order[..|items| - n]
            && (n == 0 <==> Loaded(content, capacity, maxBytes) == LoadItems(items))
  {
    var items := ReadLines(Lines(content));
    var raw := LoadItems(items);
    hide Evict, Lines, ReadLines, LoadItems, Latest, ToMap, Popped;
    LoadOvercounts(items);
    PlaceCount(items);
    n := EvictPopsFewest(raw, capacity, maxBytes);
    PopNothing(raw);
    PoppedHolds(raw, n, "");
    forall key
      ensures key in Popped(raw, n).processed <==>
                key in raw.processed && (forall i :: 0 <= i < n ==> items[i].key != key)
      ensures key in Popped(raw, n).processed ==> Popped(raw, n).processed[key] == raw.processed[key]
    {
      PoppedHolds(raw, n, key);
      OldestLines(items, n, key);
    }
  }

  lemma PopNothing(raw: Raw)
    ensures Popped(raw, 0) == raw
  {
  }

  lemma PlaceCount(items: seq<Item>)
    ensures |LoadItems(items).order| == |items|
  {
    if items != [] {
      LoadedPlaces(items, 0);
    }
  }

  /** The last `n` places of the deque are those of the first `n` lines. */
  lemma OldestLines(items: seq<Item>, n: nat, key: string)
    requires n <= |items| == |LoadItems(items).order|
    ensures key in LoadItems(items).order[|items| - n..] <==> exists i :: 0 <= i < n && items[i].key == key
  {
    hide LoadItems;
    var order := LoadItems(items).order;
    forall i | 0 <= i < |items|
      ensures order[|items| - 1 - i] == items[i].key
    {
      LoadedPlaces(items, i);
    }
    if key in order[|items| - n..] {
      var j :| 0 <= j < n && order[|items| - n..][j] == key;
      assert order[|items| - 1 - (n - 1 - j)] == items[n - 1 - j].key;
    }
    if i :| 0 <= i < n && items[i].key == key {
      assert order[|items| - n..][n - 1 - i] == key;
    }
  }

  /**
   Three lines, the first and the last for one key, and room for one: the key logged last is lost, and its bytes stay
   counted.
   */
  lemma NewestKeyLost()
    ensures var items := [Item("a", "x"), Item("b", "x"), Item("a", "y")];
            && Loaded(WrittenLog(items), 1, DEFAULT_MAX_MEMORY_BYTES) ==
               Raw(map["b" := "x"], ["a", "b"], 2 * Item("b", "x").Size())
            && Run([], Marks(items), 1, DEFAULT_MAX_MEMORY_BYTES) == [Item("a", "y")]
  {
    var a, b, c := Item("a", "x"), Item("b", "x"), Item("a", "y");
    var items := [a, b, c];
    assert !IsWhite('a') && !IsWhite('b') && !IsWhite('x') && !IsWhite('y');
    hide Lines, ReadLines, IsWhite, WrittenLog;
    ReadWrittenLog(items);
    LoadThree(a, b, c);
    MarkThree(a, b, c);
  }

  lemma LoadThree(a: Item, b: Item, c: Item)
    requires a.key == c.key != b.key && a.Size() == b.Size() == c.Size() == 66
    ensures Evict(LoadItems([a, b, c]), 1, DEFAULT_MAX_MEMORY_BYTES) == Raw(map[b.key := b.result], [a.key, b.key], 132)
  {
    hide Evict, LoadItems, PopBack;
    LoadNextItem([], a);
    LoadNextItem([a], b);
    LoadNextItem([a, b], c);
    NothingLoaded();
    assert [] + [a] == [a] && [a] + [b] == [a, b] && [a, b] + [c] == [a, b, c];
    assert map[][a.key := a.result][b.key := b.result][a.key := c.result] == map[a.key := c.result, b.key := b.result];
    assert LoadItems([a]) == Raw(map[a.key := a.result], [a.key], 66);
    assert LoadItems([a, b]).order == [b.key, a.key];
    assert LoadItems([a, b, c]).order == [a.key, b.key, a.key];
    PopOfTwo(a.key, b.key, c.result, b.result);
  }

  lemma PopOfTwo(a: string, b: string, x: string, y: string)
    requires a != b && Item(a, x).Size() == Item(b, y).Size() == 66
    ensures Evict(Raw(map[a := x, b := y], [a, b, a], 198), 1, DEFAULT_MAX_MEMORY_BYTES) ==
            Raw(map[b := y], [a, b], 132)
  {
    var raw, rest := Raw(map[a := x, b := y], [a, b, a], 198), Raw(map[b := y], [a, b], 132);
    assert PopBack(raw) == rest by {
      assert raw.order[..2] == [a, b];
      assert raw.processed - {a} == map[b := y];
    }
    assert |raw.processed| == 2 && |rest.processed| == 1;
  }

  lemma MarkThree(a: Item, b: Item, c: Item)
    requires a.Size() == b.Size() == c.Size() == 66
    ensures Run([], Marks([a, b, c]), 1, DEFAULT_MAX_MEMORY_BYTES) == [c]
  {
    var m := DEFAULT_MAX_MEMORY_BYTES;
    hide Run, Marked, Keep;
    MarksAppend([], a);
    MarksAppend([a], b);
    MarksAppend([a, b], c);
    assert [] + [a] == [a] && [a] + [b] == [a, b] && [a, b] + [c] == [a, b, c];
    var ops := [Mark(a.key, a.result), Mark(b.key, b.result), Mark(c.key, c.result)];
    assert Marks([]) == [];
    assert Marks([a, b, c]) == ops == ops[..2] + [ops[2]];
    RunSplit([], ops[..2], [ops[2]], 1, m);
    RunOne(Run([], ops[..2], 1, m), ops[2], 1, m);
    MarkInOne(Run([], ops[..2], 1, m), c, m);
  }

  lemma MarkInOne(list: seq<Item>, item: Item, maxBytes: nat)
    requires item.Size() <= maxBytes
    ensures Marked(list, item.key, item.result, 1, maxBytes) == [item]
  {
  }

  /**
   A log without repeated keys loads into a consistent store: the longest prefix of its entries, newest first, that
   fits.
   */
  lemma LoadedRepresents(content: string, capacity: nat, maxBytes: nat)
    requires NoKeyTwice(ReadLines(Lines(content)))
    ensures Represents(Loaded(content, capacity, maxBytes), Keep(Latest(ReadLines(Lines(content))), capacity, maxBytes))
  {
    var items := ReadLines(Lines(content));
    LatestFacts(items);
    LoadOvercounts(items);
    LoadsInOrder(items);
    EvictIsKeep(LoadItems(items), Latest(items), capacity, maxBytes);
  }

  /** Consistent exactly if no key was logged twice. */
  lemma LoadedAgrees(content: string, capacity: nat, maxBytes: nat)
    ensures var items := ReadLines(Lines(content));
            var kept := Keep(Latest(items), capacity, maxBytes);
            && Within(kept, capacity, maxBytes)
            && (Represents(Loaded(content, capacity, maxBytes), kept) <==> NoKeyTwice(items))
  {
    hide Loaded, Lines, ReadLines, Keep, Latest, NoKeyTwice, Distinct, ToMap, KeysOf, Bytes;
    var kept := Keep(Latest(ReadLines(Lines(content))), capacity, maxBytes);
    KeepIsLongestFittingPrefix(Latest(ReadLines(Lines(content))), capacity, maxBytes, 0);
    assert Bytes([]) == 0 by { EmptyFacts([]); }
    if NoKeyTwice(ReadLines(Lines(content))) {
      LoadedRepresents(content, capacity, maxBytes);
    } else if Represents(Loaded(content, capacity, maxBytes), kept) {
      LoadedCounter(content, capacity, maxBytes, kept);
    }
  }

  // ---------- reloading what was marked ----------

  ghost function Marks(items: seq<Item>): seq<Op> {
    if items == [] then [] else [Mark(items[0].key, items[0].result)] + Marks(items[1..])
  }

  lemma {:induction false} MarksAppend(items: seq<Item>, item: Item)
    ensures Marks(items + [item]) == Marks(items) + [Mark(item.key, item.result)]
  {
    if items != [] {
      MarksAppend(items[1..], item);
      assert (items + [item])[1..] == items[1..] + [item];
    } else {
      assert ([] + [item])[1..] == [];
    }
  }

  lemma MarkOnKept(list: seq<Item>, item: Item, capacity: nat, maxBytes: nat)
    requires 1 <= capacity && Distinct(list) && item.key !in KeySet(list) && item.Size() <= maxBytes
    ensures Marked(Keep(list, capacity, maxBytes), item.key, item.result, capacity, maxBytes) ==
            Keep([item] + list, capacity, maxBytes)
  {
    hide Keep, Distinct, KeySet, Without;
    KeepStaysDistinct(list, capacity, maxBytes);
    WithoutFacts(Keep(list, capacity, maxBytes), item.key);
    KeepAbsorbs(list, capacity - 1, maxBytes - item.Size(), capacity, maxBytes);
    KeepCons(item, list, capacity, maxBytes);
  }

  lemma LatestAppend(items: seq<Item>, item: Item)
    requires NoKeyTwice(items + [item])
    ensures Latest(items + [item]) == [item] + Latest(items)
    ensures NoKeyTwice(items) && Distinct(Latest(items)) && item.key !in KeySet(Latest(items))
  {
    hide Without;
    var all := items + [item];
    assert all[..|items|] == items;
    assert forall i :: 0 <= i < |items| ==> all[i] == items[i];
    LatestFacts(items);
    WithoutFacts(Latest(items), item.key);
  }

  /** Evicting at every mark keeps what one eviction at the end would keep. */
  lemma {:induction false} MarkingIsOneEviction(items: seq<Item>, capacity: nat, maxBytes: nat)
    requires 1 <= capacity && NoKeyTwice(items)
    requires forall i :: 0 <= i < |items| ==> items[i].Size() <= maxBytes
    ensures Run([], Marks(items), capacity, maxBytes) == Keep(Latest(items), capacity, maxBytes)
  {
    if items != [] {
      hide Run, Marks, Latest, NoKeyTwice, Distinct, KeySet, Keep, Marked;
      var front, item := items[..|items| - 1], items[|items| - 1];
      assert items == front + [item];
      LatestAppend(front, item);
      MarkingIsOneEviction(front, capacity, maxBytes);
      MarksAppend(front, item);
      RunSplit([], Marks(front), [Mark(item.key, item.result)], capacity, maxBytes);
      RunOne(Run([], Marks(front), capacity, maxBytes), Mark(item.key, item.result), capacity, maxBytes);
      MarkOnKept(Latest(front), item, capacity, maxBytes);
    }
  }

  /** Marks that leave a line which reads back. */
  ghost predicate Durable(items: seq<Item>, maxBytes: nat) {
    forall i :: 0 <= i < |items| ==>
      && items[i].Size() <= maxBytes && LogClean(items[i])
      && '\n' !in items[i].key && '\n' !in items[i].result
  }

  /**
   Reload: the log of such marks rebuilds contents, recency order and byte count exactly if no key was marked twice.
   */
  lemma ReloadRebuilds(items: seq<Item>, capacity: nat, maxBytes: nat)
    requires 1 <= capacity && Durable(items, maxBytes)
    ensures Represents(Loaded(WrittenLog(items), capacity, maxBytes), Run([], Marks(items), capacity, maxBytes)) <==>
            NoKeyTwice(items)
  {
    hide Loaded, Run, Lines, ReadLines, WrittenLog, LogClean;
    ReadWrittenLog(items);
    if NoKeyTwice(items) {
      LoadedRepresents(WrittenLog(items), capacity, maxBytes);
      MarkingIsOneEviction(items, capacity, maxBytes);
    }
    if Represents(Loaded(WrittenLog(items), capacity, maxBytes), Run([], Marks(items), capacity, maxBytes)) {
      LoadedCounter(WrittenLog(items), capacity, maxBytes, Run([], Marks(items), capacity, maxBytes));
    }
  }

  lemma {:induction false} LoggedMarks(items: seq<Item>, maxBytes: nat)
    requires Durable(items, maxBytes)
    ensures Logged(Marks(items), maxBytes) == items
  {
    if items != [] {
      hide Marks, LogClean;
      var front, item := items[..|items| - 1], items[|items| - 1];
      assert items == front + [item];
      LoggedMarks(front, maxBytes);
      MarksAppend(front, item);
      assert (Marks(front) + [Mark(item.key, item.result)])[..|Marks(front)|] == Marks(front);
    } else {
      assert Marks(items) == [];
    }
  }

  lemma NothingInLog(capacity: nat, maxBytes: nat)
    ensures Loaded("", capacity, maxBytes) == Raw(map[], [], 0) && NoKeyTwice(ReadLines(Lines("")))
  {
    NothingLoaded();
    assert Lines("") == [];
  }

  // ---------- the store ----------

  class IdempotencyStore {
    var processed: map<string, string>
    var accessOrder: seq<string>
    var currentMemoryBytes: nat
    const capacity: nat
    const maxMemoryBytes: nat
    const persistent: bool
    var disk: string
    ghost var items: seq<Item>
    ghost var origin: string
    ghost var ops: seq<Op>

    function Fields(): Raw
      reads this
    {
      Raw(processed, accessOrder, currentMemoryBytes)
    }

    /**
     The fields are where the operations lead from the log it was opened on, and the log has a line for every mark
     that fits.
     */
    ghost predicate Recorded()
      reads this
    {
      && Fields() == RunRaw(Loaded(origin, capacity, maxMemoryBytes), ops, capacity, maxMemoryBytes)
      && (persistent ==> disk == origin + WrittenLog(Logged(ops, maxMemoryBytes)))
    }

    /** Moreover map, deque and counter agree, and both caps hold. */
    ghost predicate Valid()
      reads this
    {
      Recorded() && Represents(Fields(), items) && Within(items, capacity, maxMemoryBytes)
    }

    lemma ValidIsRecorded()
      requires Valid()
      ensures Recorded()
    {
    }

    constructor WithLimits(capacity: nat, maxMemoryBytes: nat)
      ensures Valid() && items == [] && !persistent && origin == "" && ops == []
      ensures this.capacity == capacity && this.maxMemoryBytes == maxMemoryBytes
    {
      processed, accessOrder, currentMemoryBytes := map[], [], 0;
      this.capacity, this.maxMemoryBytes, persistent := capacity, maxMemoryBytes, false;
      disk, items, origin, ops := "", [], "", [];
      new;
      NothingInLog(capacity, maxMemoryBytes);
    }

    /** Opens a store on a log with this content. */
    constructor NewWithPath(capacity: nat, content: string)
      ensures this.capacity == capacity && maxMemoryBytes == 8_388_608 && persistent && disk == content
      ensures Recorded() && origin == content && ops == [] && Fields() == Loaded(content, capacity, maxMemoryBytes)
      ensures items == Keep(Latest(ReadLines(Lines(content))), capacity, maxMemoryBytes)
      ensures Valid() <==> NoKeyTwice(ReadLines(Lines(content)))
    {
      processed, accessOrder, currentMemoryBytes := map[], [], 0;
      this.capacity, maxMemoryBytes, persistent := capacity, DEFAULT_MAX_MEMORY_BYTES, true;
      disk, items, origin, ops := content, [], content, [];
      new;
      hide Loaded, Lines, ReadLines, Keep, Latest, NoKeyTwice, Represents, Within, Recorded;
      LoadFromDisk();
      items := Keep(Latest(ReadLines(Lines(content))), capacity, maxMemoryBytes);
      AsOpened(content);
      LoadedAgrees(content, capacity, maxMemoryBytes);
    }

    lemma AsOpened(content: string)
      requires Fields() == Loaded(content, capacity, maxMemoryBytes) && origin == disk == content && ops == []
      ensures Recorded()
    {
      hide Loaded;
      NothingDone(content, capacity, maxMemoryBytes);
    }

    method LoadFromDisk()
      requires Fields() == Raw(map[], [], 0)
      modifies this`processed, this`accessOrder, this`currentMemoryBytes
      ensures Fields() == Loaded(disk, capacity, maxMemoryBytes)
    {
      hide Lines, ReadLines, LoadItems, Trim, SplitN, Evict;
      assert ReadLines([]) == [] && LoadItems([]) == Raw(map[], [], 0) by { NothingLoaded(); }
      var lines := Lines(disk);
      assert lines[..0] == [];
      for i := 0 to |lines|
        invariant Fields() == LoadItems(ReadLines(lines[..i]))
      {
        ReadNextLine(lines, i);
        var line := Trim(lines[i]);
        if line == "" {
          continue;
        }
        var parts := SplitN(line, ' ', 2);
        if |parts| != 2 {
          continue;
        }
        var item := Item(parts[0], parts[1]);
        LoadNextItem(ReadLines(lines[..i]), item);
        currentMemoryBytes := currentMemoryBytes + item.Size();
        processed := processed[item.key := item.result];
        accessOrder := [item.key] + accessOrder;
      }
      assert lines[..|lines|] == lines;
      EvictUntilUnderCap(0, 0);
    }

    method EvictUntilUnderCap(reserveSlots: nat, reserveBytes: nat)
      modifies this`processed, this`accessOrder, this`currentMemoryBytes
      ensures Fields() == Evict(old(Fields()), capacity - reserveSlots, maxMemoryBytes - reserveBytes)
    {
      while (|processed| + reserveSlots > capacity || currentMemoryBytes + reserveBytes > maxMemoryBytes) &&
        accessOrder != []
        invariant Evict(Fields(), capacity - reserveSlots, maxMemoryBytes - reserveBytes) ==
                  Evict(old(Fields()), capacity - reserveSlots, maxMemoryBytes - reserveBytes)
        decreases |accessOrder|
      {
        var lruKey := accessOrder[|accessOrder| - 1];
        accessOrder := accessOrder[..|accessOrder| - 1];
        if lruKey in processed {
          var evicted := processed[lruKey];
          processed := processed - {lruKey};
          currentMemoryBytes := SaturatingSub(currentMemoryBytes, Item(lruKey, evicted).Size());
        }
      }
    }

    /** One operation on the fields, and its line in the log, extend the record. */
    twostate lemma Extends(op: Op)
      requires old(Recorded()) && origin == old(origin) && ops == old(ops) + [op]
      requires Fields() == ApplyRaw(old(Fields()), op, capacity, maxMemoryBytes)
      requires persistent ==>
                 disk == old(disk) + if op.Mark? && Item(op.key, op.result).Size() <= maxMemoryBytes
                                     then LogLine(Item(op.key, op.result)) + "\n" else ""
      requires items == Apply(old(items), op, capacity, maxMemoryBytes)
      ensures Recorded() && (old(Valid()) ==> Valid())
    {
      hide RunRaw, Loaded, WrittenLog, Logged, ApplyRaw, LogLine, Represents, Apply, Within;
      RunRawAppend(Loaded(origin, capacity, maxMemoryBytes), old(ops), op, capacity, maxMemoryBytes);
      LogGrows(old(ops), op, maxMemoryBytes);
      if old(Valid()) {
        RepresentsDistinct(old(Fields()), old(items));
        ApplyRepresents(old(Fields()), old(items), op, capacity, maxMemoryBytes);
        ApplyKeepsInvariant(old(items), op, capacity, maxMemoryBytes);
      }
    }

    /** Moves a key that is present to the front. */
    method Touch(key: string)
      requires key in processed
      modifies this`processed, this`accessOrder, this`currentMemoryBytes
      ensures Fields() == TouchedRaw(old(Fields()), key, capacity, maxMemoryBytes)
    {
      hide Evict, RemoveFirst;
      accessOrder := [key] + RemoveFirst(accessOrder, key);
      EvictUntilUnderCap(0, 0);
    }

    method IsProcessed(key: string) returns (found: bool)
      requires Recorded()
      modifies this
      ensures Recorded() && (old(Valid()) ==> Valid())
      ensures disk == old(disk) && origin == old(origin) && ops == old(ops) + [Lookup(key)]
      ensures found <==> key in old(processed)
      ensures Fields() == ApplyRaw(old(Fields()), Lookup(key), capacity, maxMemoryBytes)
      ensures items == Accessed(old(items), key, capacity, maxMemoryBytes)
      ensures old(Valid()) ==> (found <==> key in KeySet(old(items)))
    {
      hide RunRaw, Loaded, WrittenLog, Logged, TouchedRaw, Distinct, KeySet, Accessed, Within;
      if Valid() {
        MapFacts(items);
      }
      found := key in processed;
      if found {
        Touch(key);
      }
      items, ops := Accessed(items, key, capacity, maxMemoryBytes), ops + [Lookup(key)];
      Extends(Lookup(key));
    }

    method GetResult(key: string) returns (result: Option<string>)
      requires Recorded()
      modifies this
      ensures Recorded() && (old(Valid()) ==> Valid())
      ensures disk == old(disk) && origin == old(origin) && ops == old(ops) + [Lookup(key)]
      ensures result == if key in old(processed) then Some(old(processed)[key]) else None
      ensures Fields() == ApplyRaw(old(Fields()), Lookup(key), capacity, maxMemoryBytes)
      ensures items == Accessed(old(items), key, capacity, maxMemoryBytes)
      ensures old(Valid()) ==> result == if key in KeySet(old(items)) then Some(Find(old(items), key).result) else None
    {
      hide RunRaw, Loaded, WrittenLog, Logged, TouchedRaw, Distinct, KeySet, Find, Accessed, Within;
      if Valid() {
        MapFacts(items);
      }
      result := None;
      if key in processed {
        result := Some(processed[key]);
        Touch(key);
      }
      items, ops := Accessed(items, key, capacity, maxMemoryBytes), ops + [Lookup(key)];
      Extends(Lookup(key));
    }

    method MarkProcessed(key: string, result: string)
      requires Recorded()
      modifies this
      ensures Recorded() && (old(Valid()) ==> Valid())
      ensures origin == old(origin) && ops == old(ops) + [Mark(key, result)]
      ensures Fields() == ApplyRaw(old(Fields()), Mark(key, result), capacity, maxMemoryBytes)
      ensures items == Marked(old(items), key, result, capacity, maxMemoryBytes)
      ensures disk == if persistent && Item(key, result).Size() <= maxMemoryBytes
                      then old(disk) + LogLine(Item(key, result)) + "\n" else old(disk)
    {
      hide RunRaw, Loaded, WrittenLog, Logged, Evict, Retain, Valid, Marked, LogLine;
      if key in processed {
        var existing := processed[key];
        processed := processed - {key};
        currentMemoryBytes := SaturatingSub(currentMemoryBytes, Item(key, existing).Size());
        accessOrder := Retain(accessOrder, key);
      }
      var newEntryBytes := Item(key, result).Size();
      EvictUntilUnderCap(1, newEntryBytes);
      items, ops := Marked(items, key, result, capacity, maxMemoryBytes), ops + [Mark(key, result)];
      if newEntryBytes > maxMemoryBytes {
        Extends(Mark(key, result));
        return;
      }
      processed := processed[key := result];
      accessOrder := [key] + accessOrder;
      currentMemoryBytes := currentMemoryBytes + newEntryBytes;
      if persistent {
        disk := disk + LogLine(Item(key, result)) + "\n";
      }
      Extends(Mark(key, result));
    }

    /** A store that is cleared is as good as new, whatever it was. */
    method Clear()
      modifies this
      ensures Valid() && items == [] && origin == "" && ops == [] && disk == if persistent then "" else old(disk)
    {
      processed, accessOrder, currentMemoryBytes, items := map[], [], 0, [];
      origin, ops := "", [];
      if persistent {
        disk := "";
      }
      NothingInLog(capacity, maxMemoryBytes);
    }

    /**
     What a store holds keeps both caps, and its counter is right exactly if the log it was opened on repeats no key.
     */
    lemma CounterForGood() returns (held: seq<Item>)
      requires Recorded()
      ensures Distinct(held) && processed == ToMap(held) && Within(held, capacity, maxMemoryBytes)
      ensures currentMemoryBytes == Bytes(held) + Overwritten(ReadLines(Lines(origin)))
      ensures currentMemoryBytes == Bytes(held) <==> NoKeyTwice(ReadLines(Lines(origin)))
    {
      hide RunRaw, Loaded, WrittenLog, Logged, Lines, ReadLines, Overwritten, ToMap, Bytes, Within, Distinct, Latest;
      held := LoadedStaysOver(origin, ops, capacity, maxMemoryBytes);
      LatestFacts(ReadLines(Lines(origin)));
    }

    /**
     Reopening a store that started empty and was only marked gives it back field by field
     exactly if no key was marked twice.
     */
    lemma ReopeningRebuilds(marked: seq<Item>)
      requires Recorded() && persistent && 1 <= capacity
      requires origin == "" && ops == Marks(marked) && Durable(marked, maxMemoryBytes)
      ensures Loaded(disk, capacity, maxMemoryBytes) == Fields() <==> NoKeyTwice(marked)
    {
      hide RunRaw, Loaded, WrittenLog, Logged, Marks, Run, NoKeyTwice, Durable, ToMap, KeysOf, Bytes, Distinct;
      NothingInLog(capacity, maxMemoryBytes);
      LoggedMarks(marked, maxMemoryBytes);
      assert "" + WrittenLog(marked) == WrittenLog(marked);
      assert Represents(Raw(map[], [], 0), []) by { NothingHeld(); }
      RunRepresents(Raw(map[], [], 0), [], ops, capacity, maxMemoryBytes);
      ReloadRebuilds(marked, capacity, maxMemoryBytes);
    }
  }

  lemma NothingHeld()
    ensures Represents(Raw(map[], [], 0), [])
  {
  }

  lemma NothingDone(content: string, capacity: nat, maxBytes: nat)
    ensures content + WrittenLog(Logged([], maxBytes)) == content
    ensures RunRaw(Loaded(content, capacity, maxBytes), [], capacity, maxBytes) == Loaded(content, capacity, maxBytes)
  {
    hide Loaded;
  }
}
