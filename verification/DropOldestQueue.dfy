/**
 A bounded channel with one producer that evicts the oldest message when it is full, and a consumer that may step in
 anywhere.
 */
module DropOldest {
  import opened Numbers
  import opened Text
  import opened Windows

  /** A message and whether it was lost: handed back when it was sent, or evicted when it left the queue. */
  datatype Marked<T> = Marked(msg: T, lost: bool)

  ghost function Messages<T>(s: seq<Marked<T>>): seq<T> {
    if s == [] then [] else Messages(s[..|s| - 1]) + [s[|s| - 1].msg]
  }

  ghost function Kept<T>(s: seq<Marked<T>>): seq<T> {
    if s == [] then []
    else Kept(s[..|s| - 1]) + if s[|s| - 1].lost then [] else [s[|s| - 1].msg]
  }

  ghost function Lost<T>(s: seq<Marked<T>>): seq<T> {
    if s == [] then []
    else Lost(s[..|s| - 1]) + if s[|s| - 1].lost then [s[|s| - 1].msg] else []
  }

  lemma OneMore<T>(s: seq<Marked<T>>, m: Marked<T>)
    ensures Messages(s + [m]) == Messages(s) + [m.msg]
    ensures Kept(s + [m]) == (if m.lost then Kept(s) else Kept(s) + [m.msg])
    ensures Lost(s + [m]) == if m.lost then Lost(s) + [m.msg] else Lost(s)
  {
    assert (s + [m])[..|s|] == s;
    assert Kept(s) + [] == Kept(s) && Lost(s) + [] == Lost(s);
  }

  lemma {:induction false} KeptOrLost<T>(s: seq<Marked<T>>)
    ensures multiset(Messages(s)) == multiset(Kept(s)) + multiset(Lost(s))
    ensures Lost(s) == [] ==> Kept(s) == Messages(s)
  {
    hide *;
    NothingMarked<T>();
    if s != [] {
      var before, last := s[..|s| - 1], s[|s| - 1];
      KeptOrLost(before);
      assert s == before + [last];
      OneMore(before, last);
      BagGrows(Messages(before), last.msg);
      BagGrows(Kept(before), last.msg);
      BagGrows(Lost(before), last.msg);
      assert |Lost(before) + [last.msg]| != 0;
    }
  }

  lemma NothingMarked<T>()
    ensures Messages<T>([]) == [] && Kept<T>([]) == [] && Lost<T>([]) == []
  {
  }

  lemma BagGrows<T>(s: seq<T>, x: T)
    ensures multiset(s + [x]) == multiset(s) + multiset{x}
  {
  }

  /** What a consumer that takes the first message does to the two histories. */
  lemma TakeFirst<T>(queue: seq<T>, k: nat)
    requires k < |queue|
    ensures queue[k..][0] == queue[k] && queue[k..][1..] == queue[k + 1..]
    ensures queue[..k + 1] == queue[..k] + [queue[k]]
  {
  }

  class Queue<T> {
    var queue: seq<T>
    const capacity: nat
    var dropped: nat
    /** Everything sent, marked lost where it was handed back. */
    ghost var sends: seq<Marked<T>>
    /** Everything that left at the front, marked lost where it was evicted and not delivered. */
    ghost var popped: seq<Marked<T>>

    /** What was accepted leaves in the same order, and the drop counter counts the evictions. */
    ghost predicate Ordered()
      reads this
    {
      && |queue| <= capacity
      && Messages(popped) + queue == Kept(sends)
      && dropped == |Lost(popped)|
    }

    /** Without a delivery nothing was handed back and the queue is the last messages sent, if it can hold any. */
    ghost predicate FreshestWhenUnread()
      reads this
    {
      1 <= capacity && Kept(popped) == [] ==> Lost(sends) == [] && queue == LastN(Messages(sends), capacity)
    }

    ghost predicate Valid()
      reads this
    {
      Ordered() && FreshestWhenUnread()
    }

    constructor (capacity: nat)
      ensures Valid() && sends == [] && popped == [] && queue == [] && this.capacity == capacity
    {
      this.capacity := capacity;
      queue, dropped, sends, popped := [], 0, [], [];
    }

    /** A channel of capacity 0 has no room: it hands the message to a consumer that is waiting for one, or refuses. */
    method TrySend(msg: T, waiting: bool) returns (ok: bool)
      requires |queue| <= capacity
      modifies `queue, `popped
      ensures ok <==> if capacity == 0 then waiting else |old(queue)| < capacity
      ensures queue == if ok && capacity != 0 then old(queue) + [msg] else old(queue)
      ensures popped == if ok && capacity == 0 then old(popped) + [Marked(msg, false)] else old(popped)
    {
      if capacity == 0 {
        ok := waiting;
        if ok {
          popped := popped + [Marked(msg, false)];
        }
        return;
      }
      ok := |queue| < capacity;
      if ok {
        queue := queue + [msg];
      }
    }

    method TryRecv() returns (msg: Option<T>)
      modifies `queue
      ensures if old(queue) == [] then msg == None && queue == []
              else msg == Some(old(queue)[0]) && queue == old(queue)[1..]
    {
      if queue == [] {
        return None;
      }
      msg := Some(queue[0]);
      queue := queue[1..];
    }

    /** One step of the consumer. */
    method Take() returns (msg: Option<T>)
      requires Ordered()
      modifies `queue, `popped
      ensures Ordered() && Lost(popped) == Lost(old(popped))
      ensures if old(queue) == [] then msg == None && queue == [] && popped == old(popped)
              else && msg == Some(old(queue)[0]) && queue == old(queue)[1..]
                   && Kept(popped) == Kept(old(popped)) + [msg.value]
    {
      hide Messages, Kept, Lost;
      msg := TryRecv();
      if msg.Some? {
        OneMore(popped, Marked(msg.value, false));
        popped := popped + [Marked(msg.value, false)];
      }
    }

    /** The consumer asks `steps` times. */
    method Consume(steps: nat)
      requires Ordered()
      modifies `queue, `popped
      ensures Ordered() && queue == old(queue)[MinNat(steps, |old(queue)|)..]
      ensures Lost(popped) == Lost(old(popped))
      ensures Kept(popped) == Kept(old(popped)) + old(queue)[..MinNat(steps, |old(queue)|)]
    {
      hide Messages, Kept, Lost, Ordered, MinNat;
      ghost var start := queue;
      for i := 0 to steps
        invariant Ordered() && Lost(popped) == Lost(old(popped))
        invariant queue == start[MinNat(i, |start|)..]
        invariant Kept(popped) == Kept(old(popped)) + start[..MinNat(i, |start|)]
      {
        if i < |start| {
          TakeFirst(start, i);
        }
        var _ := Take();
      }
    }

    /** A consumer step between two sends. */
    method Receive() returns (msg: Option<T>)
      requires Valid()
      modifies `queue, `popped
      ensures Valid()
      ensures if old(queue) == [] then msg == None && queue == [] && popped == old(popped)
              else && msg == Some(old(queue)[0]) && queue == old(queue)[1..]
                   && Kept(popped) == Kept(old(popped)) + [msg.value]
    {
      hide Ordered, Messages, Kept, Lost;
      msg := Take();
    }

    /**
     The producer's send, with the consumer asking `gap1` times after the first refusal and
     `gap2` times after the eviction. The message is handed back exactly when the consumer
     emptied a full queue in the first gap; the second attempt never finds the queue full.
     On a channel of capacity 0 it is handed back exactly when no consumer is waiting.
     */
    method TrySendDropOldest(msg: T, waiting: bool, gap1: nat, gap2: nat) returns (handedBack: bool)
      requires Valid()
      modifies this
      ensures Valid() && sends == old(sends) + [Marked(msg, handedBack)]
      ensures handedBack <==> if capacity == 0 then !waiting else |old(queue)| == capacity <= gap1
      ensures dropped == old(dropped) + if |old(queue)| == capacity && gap1 < capacity then 1 else 0
      ensures |old(queue)| < capacity ==> queue == old(queue) + [msg] && popped == old(popped)
      ensures handedBack ==> queue == [] && Kept(popped) == Kept(old(popped)) + old(queue)
      ensures capacity == 0 && waiting ==> queue == [] && Kept(popped) == Kept(old(popped)) + [msg]
      ensures |old(queue)| == capacity && gap1 < capacity ==>
                queue == old(queue)[gap1 + 1 + MinNat(gap2, capacity - gap1 - 1)..] + [msg]
    {
      hide Messages, Kept, Lost, LastN, MinNat;
      if capacity != 0 {
        LastNGrows(Messages(sends), msg, capacity);
      }
      OneMore(popped, Marked(msg, false));
      var ok := TrySend(msg, waiting);
      if ok {
        OneMore(sends, Marked(msg, false));
        sends := sends + [Marked(msg, false)];
        return false;
      }
      Consume(gap1);
      var oldest := TryRecv();
      if oldest.None? {
        OneMore(sends, Marked(msg, true));
        sends := sends + [Marked(msg, true)];
        return true;
      }
      handedBack := EvictAndSend(oldest.value, msg, gap2);
    }

    /** The oldest message counts as dropped, and the second attempt finds room. */
    method EvictAndSend(oldest: T, msg: T, gap: nat) returns (handedBack: bool)
      requires 1 <= capacity && |queue| < capacity
      requires Messages(popped) + [oldest] + queue == Kept(sends) && dropped == |Lost(popped)|
      modifies this
      ensures Ordered() && !handedBack && sends == old(sends) + [Marked(msg, false)]
      ensures queue == old(queue)[MinNat(gap, |old(queue)|)..] + [msg] && dropped == old(dropped) + 1
      ensures Kept(popped) == Kept(old(popped)) + old(queue)[..MinNat(gap, |old(queue)|)]
      ensures Messages(sends) == Messages(old(sends)) + [msg] && Lost(sends) == Lost(old(sends))
    {
      hide Messages, Kept, Lost;
      OneMore(popped, Marked(oldest, true));
      popped := popped + [Marked(oldest, true)];
      dropped := dropped + 1;
      Consume(gap);
      var ok := TrySend(msg, false);
      assert ok;
      OneMore(sends, Marked(msg, false));
      sends := sends + [Marked(msg, false)];
      handedBack := !ok;
    }

    /** Every message sent is exactly one of delivered, still queued, evicted or handed back. */
    lemma AllAccountedFor()
      requires Valid()
      ensures multiset(Messages(sends)) ==
              multiset(Kept(popped)) + multiset(queue) + multiset(Lost(popped)) + multiset(Lost(sends))
    {
      KeptOrLost(sends);
      KeptOrLost(popped);
      assert multiset(Kept(sends)) == multiset(Messages(popped)) + multiset(queue);
    }
  }
}
