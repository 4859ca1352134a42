/** The tracker: orders, their state machines and a per-symbol index, three maps that must agree. */
module Tracking {
  import opened Text
  import OM = OrderMachine

  datatype Status =
    | Pending
    | Submitted
    | PartiallyFilled(filledQty: real)
    | Filled
    | Cancelled
    | Rejected(reason: string)

  datatype Order = Order(
    orderId: string, symbol: string, side: string, quantity: real, filledQuantity: real,
    limitPrice: Option<real>, status: Status, submittedNs: nat, correlationId: string)

  datatype Outcome = Moved(state: OM.State) | NotFound | InvalidTransition(from: OM.State, to: OM.State)

  /** An id and the symbol it was created for. */
  datatype Creation = Creation(id: string, symbol: string)

  /** The status a machine shows. */
  function Image(m: OM.Machine): Status {
    match m.state
    case Pending => Pending
    case Submitted => Submitted
    case PartiallyFilled => PartiallyFilled(m.filled)
    case Filled => Filled
    case Cancelled => Cancelled
    case Rejected => Rejected(if m.reason.Some? then m.reason.value else "")
    case Expired => Cancelled
    case Replaced => Cancelled
  }

  predicate IsOpen(o: Order) {
    o.status.Submitted? || o.status.PartiallyFilled?
  }

  /** After any run of a machine the status tells its last accepted event, the quantity filled and the reason given. */
  lemma ImageTellsLastEvent(events: seq<OM.Timed>)
    ensures var m := OM.Run(events);
            && (Image(m) == Pending <==> m.log == [])
            && (m.log != [] ==>
                  var e := m.log[|m.log| - 1].event;
                  && (Image(m) == Submitted <==> e.Submit?)
                  && (Image(m).PartiallyFilled? <==> e.PartialFill?)
                  && (e.PartialFill? ==> Image(m) == PartiallyFilled(OM.FilledIn(m.log)))
                  && (Image(m) == Filled <==> e.FullFill?)
                  && (Image(m) == Cancelled <==> e.Cancel?)
                  && (Image(m).Rejected? <==> e.Reject?)
                  && (e.Reject? ==> Image(m) == Rejected(e.reason)))
  {
    hide OM.Run, OM.FilledIn, OM.Applied;
    OM.LogIsChain(events);
    OM.LogTellsState(events);
    var m := OM.Run(events);
    if m.log != [] {
      assert OM.Linked(m.log, |m.log| - 1);
    }
  }

  /** A machine that was expired or replaced from outside shows as cancelled. */
  lemma ImageOfEnded(m: OM.Machine)
    ensures m.state.Expired? || m.state.Replaced? ==> Image(m).Cancelled?
    ensures m.state.Rejected? && m.reason.None? ==> Image(m) == Rejected("")
  {
  }

  /** What an order shows after an event its machine accepts. */
  lemma TransitionShows(o: Order, m: OM.Machine, e: OM.Event, ns: nat)
    requires OM.CanTransition(m.state, OM.Target(e))
    ensures var o' := OrderTracker.Shown(o, OM.Applied(m, e, ns));
            && o' == o.(status := o'.status, filledQuantity := o'.filledQuantity)
            && o'.filledQuantity == m.filled + (if e.PartialFill? || e.FullFill? then e.qty else 0.0)
            && (e.Submit? ==> o'.status == Submitted) && (e.Cancel? ==> o'.status == Cancelled)
            && (e.PartialFill? ==> o'.status == PartiallyFilled(m.filled + e.qty))
            && (e.FullFill? ==> o'.status == Filled)
            && (e.Reject? ==> o'.status == Rejected(e.reason))
  {
    hide OM.AverageAfter;
  }

  /** The ids created for a symbol, in the order they were created. */
  ghost function IdsFor(created: seq<Creation>, symbol: string): seq<string> {
    if created == [] then []
    else
      var last := created[|created| - 1];
      IdsFor(created[..|created| - 1], symbol) + if last.symbol == symbol then [last.id] else []
  }

  ghost function Ids(created: seq<Creation>): set<string> {
    if created == [] then {} else Ids(created[..|created| - 1]) + {created[|created| - 1].id}
  }

  ghost predicate NoIdTwice(created: seq<Creation>) {
    created == [] ||
    (NoIdTwice(created[..|created| - 1]) && created[|created| - 1].id !in Ids(created[..|created| - 1]))
  }

  /** Every order is listed, once, under its own symbol, in creation order; nothing else is. */
  ghost predicate IndexAgrees(orders: map<string, Order>, index: map<string, seq<string>>, created: seq<Creation>) {
    && NoIdTwice(created)
    && orders.Keys == Ids(created)
    && (forall c :: c in created ==> c.id in orders && orders[c.id].symbol == c.symbol)
    && (forall symbol :: Listed(index, symbol) == IdsFor(created, symbol))
  }

  function Listed(index: map<string, seq<string>>, symbol: string): seq<string> {
    if symbol in index then index[symbol] else []
  }

  lemma CreatedGrows(created: seq<Creation>, c: Creation, symbol: string)
    ensures var longer := created + [c];
            && Ids(longer) == Ids(created) + {c.id}
            && (NoIdTwice(longer) <==> NoIdTwice(created) && c.id !in Ids(created))
            && IdsFor(longer, symbol) == IdsFor(created, symbol) + (if c.symbol == symbol then [c.id] else [])
  {
    assert (created + [c])[..|created|] == created;
  }

  /** Adding an order keeps the index right exactly if its id is new: a known id is listed once more. */
  lemma IndexGrows(orders: map<string, Order>, index: map<string, seq<string>>, created: seq<Creation>, order: Order)
    requires IndexAgrees(orders, index, created)
    ensures IndexAgrees(orders[order.orderId := order],
                        index[order.symbol := Listed(index, order.symbol) + [order.orderId]],
                        created + [Creation(order.orderId, order.symbol)])
            <==> order.orderId !in orders
  {
    hide Ids, NoIdTwice, IdsFor;
    var c := Creation(order.orderId, order.symbol);
    forall symbol
      ensures Listed(index[order.symbol := Listed(index, order.symbol) + [order.orderId]], symbol) ==
              IdsFor(created + [c], symbol)
    {
      CreatedGrows(created, c, symbol);
      assert IdsFor(created, symbol) + [] == IdsFor(created, symbol);
    }
    CreatedGrows(created, c, order.symbol);
  }

  /** Replacing an order by one of the same symbol leaves the index right. */
  lemma IndexKeeps(orders: map<string, Order>, index: map<string, seq<string>>, created: seq<Creation>, id: string,
                   order: Order)
    requires IndexAgrees(orders, index, created) && id in orders && order.symbol == orders[id].symbol
    ensures IndexAgrees(orders[id := order], index, created)
  {
    hide Ids, NoIdTwice, IdsFor;
    assert orders[id := order].Keys == orders.Keys;
  }

  lemma {:induction false} IdsAreCreated(created: seq<Creation>, symbol: string, id: string)
    ensures id in IdsFor(created, symbol) <==> Creation(id, symbol) in created
    ensures Creation(id, symbol) in created ==> id in Ids(created)
  {
    if created != [] {
      IdsAreCreated(created[..|created| - 1], symbol, id);
      assert created == created[..|created| - 1] + [created[|created| - 1]];
    }
  }

  /** The listing of a symbol has no repeats and holds exactly the ids created for it. */
  lemma {:induction false} ListedOnceEach(created: seq<Creation>, symbol: string)
    requires NoIdTwice(created)
    ensures var ids := IdsFor(created, symbol);
            && (forall i, j :: 0 <= i < j < |ids| ==> ids[i] != ids[j])
            && (forall id :: id in ids <==> Creation(id, symbol) in created)
  {
    if created != [] {
      var before, last := created[..|created| - 1], created[|created| - 1];
      ListedOnceEach(before, symbol);
      IdsAreCreated(before, symbol, last.id);
    }
    forall id
      ensures id in IdsFor(created, symbol) <==> Creation(id, symbol) in created
    {
      IdsAreCreated(created, symbol, id);
    }
  }

  class OrderTracker {
    var orders: map<string, Order>
    var stateMachines: map<string, OM.OrderStateMachine>
    var ordersBySymbol: map<string, seq<string>>
    ghost var created: seq<Creation>

    /** One machine per order, none shared. */
    ghost predicate MachinesValid()
      reads this, stateMachines.Values
    {
      && orders.Keys == stateMachines.Keys
      && (forall id :: id in stateMachines ==> stateMachines[id] in stateMachines.Values && stateMachines[id].Valid())
      && (forall a, b :: a in stateMachines && b in stateMachines && a != b ==> stateMachines[a] != stateMachines[b])
    }

    /** The order shows what its machine holds. */
    ghost predicate Mirrors(id: string)
      requires id in orders && id in stateMachines
      reads this, stateMachines.Values
    {
      var m := stateMachines[id];
      && m in stateMachines.Values
      && orders[id].orderId == id
      && orders[id].status == Image(m.Fields())
      && orders[id].filledQuantity == m.totalFilledQty
    }

    ghost predicate Mirrored()
      requires orders.Keys == stateMachines.Keys
      reads this, stateMachines.Values
    {
      forall id :: id in orders ==> Mirrors(id)
    }

    ghost predicate Indexed()
      reads `orders, `ordersBySymbol, `created
    {
      IndexAgrees(orders, ordersBySymbol, created)
    }

    ghost predicate Valid()
      reads this, stateMachines.Values
    {
      MachinesValid() && Mirrored() && Indexed()
    }

    constructor ()
      ensures Valid() && created == []
    {
      orders, stateMachines, ordersBySymbol, created := map[], map[], map[], [];
    }

    method AddOrder(order: Order)
      modifies `orders, `ordersBySymbol, `created
      ensures orders == old(orders)[order.orderId := order]
      ensures created == old(created) + [Creation(order.orderId, order.symbol)]
      ensures ordersBySymbol ==
              old(ordersBySymbol)[order.symbol := Listed(old(ordersBySymbol), order.symbol) + [order.orderId]]
      ensures old(Indexed()) ==> (Indexed() <==> order.orderId !in old(orders))
    {
      hide IndexAgrees;
      if Indexed() {
        IndexGrows(orders, ordersBySymbol, created, order);
      }
      ordersBySymbol := ordersBySymbol[order.symbol := Listed(ordersBySymbol, order.symbol) + [order.orderId]];
      orders := orders[order.orderId := order];
      created := created + [Creation(order.orderId, order.symbol)];
    }

    /** Creates a pending order under an id not used before. */
    method CreateOrder(freshId: string, symbol: string, side: string, quantity: real, limitPrice: Option<real>,
                       correlationId: string, now: nat)
      requires Valid() && freshId !in orders
      modifies this
      ensures Valid() && created == old(created) + [Creation(freshId, symbol)]
      ensures var order := Order(freshId, symbol, side, quantity, 0.0, limitPrice, Pending, now, correlationId);
              orders == old(orders)[freshId := order]
      ensures freshId in stateMachines && fresh(stateMachines[freshId])
      ensures stateMachines == old(stateMachines)[freshId := stateMachines[freshId]]
    {
      hide Indexed, MachinesValid, Mirrored, Mirrors, OM.OrderStateMachine.Valid, Image, Listed;
      AddOrder(Order(freshId, symbol, side, quantity, 0.0, limitPrice, Pending, now, correlationId));
      var sm := new OM.OrderStateMachine();
      stateMachines := stateMachines[freshId := sm];
      MachineAdded(freshId, sm);
    }

    /** A new order with a new machine of its own leaves the machines unshared and every order in line. */
    twostate lemma MachineAdded(id: string, new sm: OM.OrderStateMachine)
      requires old(MachinesValid()) && old(Mirrored()) && id !in old(orders) && fresh(sm)
      requires stateMachines == old(stateMachines)[id := sm] && sm.Valid() && sm.Fields() == OM.NEW_MACHINE
      requires id in orders && orders == old(orders)[id := orders[id]]
      requires orders[id].orderId == id && orders[id].status.Pending? && orders[id].filledQuantity == 0.0
      requires forall m :: m in old(stateMachines.Values) ==> unchanged(m)
      ensures MachinesValid() && Mirrored()
    {
      hide OM.OrderStateMachine.Valid, Image;
      ImageOfNew();
      forall other | other in orders
        ensures Mirrors(other)
      {
        if other != id {
          assert old(Mirrors(other));
        }
      }
    }

    /** What an order looks like after its machine moved to `m`. */
    static function Shown(o: Order, m: OM.Machine): Order {
      o.(status := Image(m), filledQuantity := m.filled)
    }

    /** Brings one order in line with its machine when all others already are. */
    method Show(id: string)
      requires MachinesValid() && Indexed() && id in orders && orders[id].orderId == id
      requires forall other :: other in orders && other != id ==> Mirrors(other)
      modifies `orders
      ensures Valid() && orders == old(orders)[id := Shown(old(orders[id]), stateMachines[id].Fields())]
    {
      hide IndexAgrees, OM.OrderStateMachine.Valid, Image;
      var sm := stateMachines[id];
      var order := orders[id].(status := Image(sm.Fields()), filledQuantity := sm.totalFilledQty);
      IndexKeeps(orders, ordersBySymbol, created, id, order);
      orders := orders[id := order];
      forall other | other in orders
        ensures Mirrors(other)
      {
        assert other != id ==> old(Mirrors(other));
      }
    }

    /** Applies an event to one machine; the orders that show other machines stay in line. */
    method ApplyToMachine(id: string, event: OM.Event, ns: nat) returns (result: OM.Result)
      requires Valid() && id in orders
      modifies stateMachines[id]
      ensures MachinesValid() && Indexed() && orders[id].orderId == id
      ensures forall other :: other in orders && other != id ==> Mirrors(other)
      ensures var m := old(stateMachines[id].Fields());
              && stateMachines[id].Fields() == OM.Applied(m, event, ns)
              && result == (if OM.CanTransition(m.state, OM.Target(event)) then OM.Ok(OM.Target(event))
                            else OM.Err(m.state, OM.Target(event), event))
              && (stateMachines[id].Fields() == m ==> Mirrors(id))
      ensures forall other :: other in stateMachines && other != id ==>
                stateMachines[other].Fields() == old(stateMachines[other].Fields())
    {
      hide Indexed, OM.OrderStateMachine.Valid, Image, OM.Applied, OM.CanTransition, OM.Target;
      var sm := stateMachines[id];
      assert Mirrors(id);
      result := sm.ApplyEvent(event, ns);
      forall other | other in orders && other != id
        ensures Mirrors(other)
      {
        assert old(Mirrors(other)) && stateMachines[other] != sm;
      }
    }

    /**
     Applies an event to the machine of an order and shows the result in the order; an unknown
     id or a refused event changes no order.
     */
    method TransitionOrder(id: string, event: OM.Event, ns: nat) returns (outcome: Outcome)
      requires Valid()
      modifies this, stateMachines.Values
      ensures Valid() && created == old(created) && stateMachines == old(stateMachines)
      ensures id !in orders ==> outcome == NotFound && orders == old(orders)
      ensures id in orders ==>
                var m := old(stateMachines[id].Fields());
                && stateMachines[id].Fields() == OM.Applied(m, event, ns)
                && (if OM.CanTransition(m.state, OM.Target(event)) then
                      && outcome == Moved(OM.Target(event))
                      && orders == old(orders)[id := Shown(old(orders[id]), OM.Applied(m, event, ns))]
                    else
                      outcome == InvalidTransition(m.state, OM.Target(event)) && orders == old(orders))
      ensures forall other :: other in stateMachines && other != id ==>
                stateMachines[other].Fields() == old(stateMachines[other].Fields())
    {
      hide Indexed, Mirrors, OM.OrderStateMachine.Valid, Image, OM.Applied, OM.CanTransition, OM.Target;
      if id !in stateMachines {
        return NotFound;
      }
      RefusedChangesNothing(stateMachines[id].Fields(), event, ns);
      var result := ApplyToMachine(id, event, ns);
      if result.Err? {
        return InvalidTransition(result.from, result.to);
      }
      Show(id);
      outcome := Moved(result.state);
    }

    /**
     A fill reported without a price: it is booked at the limit price, and a large one is cut to the order's quantity.
     */
    method UpdateFill(id: string, filledQty: real, now: nat)
      requires Valid()
      modifies this, stateMachines.Values
      ensures Valid() && created == old(created) && stateMachines == old(stateMachines)
      ensures id !in orders ==> orders == old(orders)
      ensures id in orders ==>
                stateMachines[id].Fields() ==
                  OM.Applied(old(stateMachines[id].Fields()), FillEvent(old(orders[id]), filledQty), now)
      ensures forall other :: other in stateMachines && other != id ==>
                && stateMachines[other].Fields() == old(stateMachines[other].Fields())
                && orders[other] == old(orders[other])
    {
      hide Indexed, Mirrors, OM.OrderStateMachine.Valid, Image, OM.Applied, OM.CanTransition, OM.Target;
      if id !in orders {
        return;
      }
      var order := orders[id];
      var fillPrice := if order.limitPrice.Some? then order.limitPrice.value else 0.0;
      if filledQty >= order.quantity {
        var _ := TransitionOrder(id, OM.FullFill(order.quantity, fillPrice), now);
      } else {
        var _ := TransitionOrder(id, OM.PartialFill(filledQty, fillPrice), now);
      }
    }

    /**
     Overwrites the status past the machine: the tracker stays right exactly when the status is the one the machine
     shows.
     */
    method UpdateStatus(id: string, status: Status)
      requires Valid()
      modifies `orders
      ensures orders == if id in old(orders) then old(orders)[id := old(orders[id]).(status := status)] else old(orders)
      ensures Valid() <==> id !in orders || status == Image(stateMachines[id].Fields())
    {
      hide IndexAgrees, OM.OrderStateMachine.Valid, Image;
      if id in orders {
        var order := orders[id].(status := status);
        IndexKeeps(orders, ordersBySymbol, created, id, order);
        orders := orders[id := order];
        forall other | other in orders
          ensures other != id ==> Mirrors(other)
          ensures other == id ==> (Mirrors(other) <==> status == Image(stateMachines[id].Fields()))
        {
          assert old(Mirrors(other));
        }
      }
    }

    /** The orders of a symbol, each once, in creation order. */
    method GetOrdersBySymbol(symbol: string) returns (found: seq<Order>)
      requires Valid()
      ensures var ids := IdsFor(created, symbol);
              && |found| == |ids|
              && forall i :: 0 <= i < |ids| ==>
                   ids[i] in orders && found[i] == orders[ids[i]] && found[i].symbol == symbol
    {
      hide OM.OrderStateMachine.Valid, Image;
      found := [];
      var ids := Listed(ordersBySymbol, symbol);
      for k := 0 to |ids|
        invariant |found| == k
        invariant forall i :: 0 <= i < k ==> ids[i] in orders && found[i] == orders[ids[i]] && found[i].symbol == symbol
      {
        IdsAreCreated(created, symbol, ids[k]);
        assert Creation(ids[k], symbol) in created;
        if ids[k] in orders {
          found := found + [orders[ids[k]]];
        }
      }
    }

    /** The ids whose machine is submitted or partly filled. */
    ghost function OpenIds(): set<string>
      reads this, stateMachines.Values
    {
      set id | id in stateMachines && stateMachines[id] in stateMachines.Values &&
               (stateMachines[id].currentState.Submitted? || stateMachines[id].currentState.PartiallyFilled?)
    }

    method OpenOrdersCount() returns (count: nat)
      requires Valid()
      ensures count == |OpenIds()|
    {
      hide Valid, OpenIds, IsOpen;
      OpenIsOpen();
      ghost var open := OpenOf(orders);
      count := 0;
      var rest := orders.Keys;
      ghost var counted: set<string> := {};
      while rest != {}
        invariant rest <= orders.Keys && count == |counted|
        invariant counted == open - rest
      {
        var id :| id in rest;
        if IsOpen(orders[id]) {
          count := count + 1;
          counted := counted + {id};
        }
        rest := rest - {id};
      }
      assert counted == open;
    }

    lemma OpenIsOpen()
      requires Valid()
      ensures OpenOf(orders) == OpenIds()
    {
      hide Indexed, OM.OrderStateMachine.Valid;
      forall id | id in orders
        ensures IsOpen(orders[id]) <==> id in OpenIds()
      {
        assert Mirrors(id);
      }
    }
  }

  ghost function OpenOf(orders: map<string, Order>): set<string> {
    set id | id in orders && IsOpen(orders[id])
  }

  /** The event a reported fill stands for. */
  function FillEvent(o: Order, filledQty: real): OM.Event {
    var price := if o.limitPrice.Some? then o.limitPrice.value else 0.0;
    if filledQty >= o.quantity then OM.FullFill(o.quantity, price) else OM.PartialFill(filledQty, price)
  }

  /**
   What a reported fill does to a machine: a working order is filled for no more than its quantity, at its limit price
   if it has one; any other order ignores the report.
   */
  lemma FillInFigures(o: Order, m: OM.Machine, filledQty: real, ns: nat)
    ensures var m' := OM.Applied(m, FillEvent(o, filledQty), ns);
            if m.state.Submitted? || m.state.PartiallyFilled? then
              var done := o.quantity <= filledQty;
              var qty := if done then o.quantity else filledQty;
              && m'.state == (if done then OM.Filled else OM.PartiallyFilled)
              && m'.filled == m.filled + qty && |m'.log| == |m.log| + 1
              && m'.log[|m.log|].event.IsFill() && m'.log[|m.log|].event.qty == qty
              && m'.log[|m.log|].event.price == match o.limitPrice case Some(p) => p case None => 0.0
            else m' == m
  {
    hide OM.AverageAfter;
  }

  lemma ImageOfNew()
    ensures Image(OM.NEW_MACHINE) == Pending && OM.NEW_MACHINE.filled == 0.0
  {
  }

  lemma RefusedChangesNothing(m: OM.Machine, e: OM.Event, ns: nat)
    ensures !OM.CanTransition(m.state, OM.Target(e)) ==> OM.Applied(m, e, ns) == m
  {
  }
}
