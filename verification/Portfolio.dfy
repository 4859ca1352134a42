/**
 The portfolio ledger: average-cost positions, equity and peak equity, and how far
 the booked equity can be from a plain account of cash paid and received.
 */
module Portfolio {
  import opened MapSums
  import opened Numbers

  const FLAT := 0.0001

  function Signum(x: real): real {
    if x < 0.0 then -1.0 else 1.0
  }

  datatype Position = Position(
    net: real, avg: real, current: real, realized: real, bought: real, sold: real)
  {
    predicate IsFlat() {
      Abs(net) < FLAT
    }

    function UnrealizedPnl(): real {
      if net == 0.0 then 0.0 else (current - avg) * net
    }
  }

  const NEW_POSITION := Position(0.0, 0.0, 0.0, 0.0, 0.0, 0.0)

  datatype State = State(positions: map<string, Position>, peak: real, current: real, initial: real) {
    function At(symbol: string): Position {
      if symbol in positions then positions[symbol] else NEW_POSITION
    }
  }

  datatype Metrics = Metrics(
    netExposure: real, grossExposure: real, leverage: real,
    unrealized: real, realized: real, peak: real, current: real, drawdownPct: real)

  // ---------- what the sums run over ----------

  function Gross(p: Position): real { Abs(p.net) * p.current }
  function Exposure(p: Position): real { p.net * p.current }
  function Unrealized(p: Position): real { p.UnrealizedPnl() }
  function OpenPnl(p: Position): real { p.net * (p.current - p.avg) }
  function Realized(p: Position): real { p.realized }

  /** What the ledger books for a position. */
  function Booked(p: Position): real { OpenPnl(p) + Realized(p) }

  /** Received less paid. */
  function CashOf(p: Position): real { p.sold - p.bought }

  /** What the cash account says of it: received, less paid, plus what is held at its mark. */
  function CashAndHoldings(p: Position): real { CashOf(p) + p.net * p.current }

  /** How far the booked value is off the cash account. */
  function Discrepancy(p: Position): real { p.realized - p.net * p.avg - CashOf(p) }

  // ---------- steps ----------

  function Delta(quantity: real, isBuy: bool): real {
    if isBuy then quantity else -quantity
  }

  predicate Adds(net: real, delta: real) {
    (net >= 0.0 && delta > 0.0) || (net <= 0.0 && delta < 0.0)
  }

  function Notional(price: real, quantity: real): real {
    price * quantity
  }

  /** The average price after adding to a position. */
  function AddedAverage(p: Position, price: real, delta: real): real
    requires Adds(p.net, delta)
  {
    (p.avg * Abs(p.net) + price * Abs(delta)) / (Abs(p.net) + Abs(delta))
  }

  /** The profit of closing as much of a position as the fill covers. */
  function ClosedPnl(p: Position, price: real, delta: real): real {
    Min(Abs(delta), Abs(p.net)) * (price - p.avg) * Signum(p.net)
  }

  /** A position after a fill, before a flat one forgets its average price. */
  function Traded(p: Position, price: real, quantity: real, isBuy: bool): Position {
    var delta := Delta(quantity, isBuy);
    var p' :=
      if Adds(p.net, delta) then
        p.(avg := AddedAverage(p, price, delta))
      else
        p.(realized := p.realized + ClosedPnl(p, price, delta));
    p'.(net := p.net + delta, current := price,
        bought := if isBuy then p.bought + Notional(price, quantity) else p.bought,
        sold := if isBuy then p.sold else p.sold + Notional(price, quantity))
  }

  function Filled(p: Position, price: real, quantity: real, isBuy: bool): Position {
    var p' := Traded(p, price, quantity, isBuy);
    if p'.IsFlat() then p'.(avg := 0.0) else p'
  }

  ghost function Recalculated(s: State): State {
    var equity := s.initial + Sum(s.positions, OpenPnl) + Sum(s.positions, Realized);
    s.(current := equity, peak := if equity > s.peak then equity else s.peak)
  }

  datatype Event =
    | Fill(symbol: string, price: real, quantity: real, isBuy: bool)
    | Price(symbol: string, price: real)
    | SetAverage(symbol: string, price: real)

  /** The positions after an event. */
  function Moved(s: State, e: Event): State {
    match e
    case Fill(symbol, price, quantity, isBuy) =>
      s.(positions := s.positions[symbol := Filled(s.At(symbol), price, quantity, isBuy)])
    case Price(symbol, price) =>
      if symbol in s.positions then s.(positions := s.positions[symbol := s.positions[symbol].(current := price)])
        else s
    case SetAverage(symbol, price) =>
      if symbol in s.positions then s.(positions := s.positions[symbol := s.positions[symbol].(avg := price)]) else s
  }

  ghost function Step(s: State, e: Event): State {
    Recalculated(Moved(s, e))
  }

  ghost function Run(initial: real, events: seq<Event>): State {
    if events == [] then State(map[], initial, initial, initial)
    else Step(Run(initial, events[..|events| - 1]), events[|events| - 1])
  }

  // ---------- what an event costs in exactness ----------

  /** The fill takes the position through zero and out on the other side. */
  predicate Crosses(p: Position, delta: real) {
    !Adds(p.net, delta) && Abs(delta) > Abs(p.net)
  }

  /** The part of a fill that went through zero keeps the old average price. */
  function CrossingCost(p: Position, price: real, delta: real): real {
    if Crosses(p, delta) then (p.net + delta) * (price - p.avg) else 0.0
  }

  /** A position that counts as flat without being empty forgets what it paid. */
  function DustCost(p: Position): real {
    if p.IsFlat() then p.net * p.avg else 0.0
  }

  /** What overwriting the average price moves. */
  function RestatingCost(p: Position, avg: real): real {
    p.net * (p.avg - avg)
  }

  ghost function Cost(s: State, e: Event): real {
    match e
    case Fill(symbol, price, quantity, isBuy) =>
      CrossingCost(s.At(symbol), price, Delta(quantity, isBuy)) + DustCost(Traded(s.At(symbol), price, quantity, isBuy))
    case Price(_, _) => 0.0
    case SetAverage(symbol, price) => if symbol in s.positions then RestatingCost(s.At(symbol), price) else 0.0
  }

  ghost function Costs(initial: real, events: seq<Event>): real {
    if events == [] then 0.0
    else
      var before := events[..|events| - 1];
      Costs(initial, before) + Cost(Run(initial, before), events[|events| - 1])
  }

  lemma Distributes(x: real, y: real, z: real)
    ensures (x + y) * z == x * z + y * z
    ensures z * (x - y) == z * x - z * y
    ensures z * -x == -(z * x)
  {
  }

  lemma AverageTimesQuantity(p: Position, price: real, delta: real)
    requires Adds(p.net, delta)
    ensures (p.net + delta) * AddedAverage(p, price, delta) == p.net * p.avg + Notional(price, delta)
  {
    var total := Abs(p.net) + Abs(delta);
    var avg := AddedAverage(p, price, delta);
    assert total * avg == p.avg * Abs(p.net) + price * Abs(delta);
    if delta > 0.0 {
      assert total == p.net + delta;
    } else {
      assert total == -(p.net + delta);
      assert (p.net + delta) * avg == -(total * avg);
    }
  }

  lemma ClosingPnl(p: Position, price: real, delta: real)
    requires !Adds(p.net, delta)
    ensures ClosedPnl(p, price, delta) + delta * (price - p.avg) == CrossingCost(p, price, delta)
  {
    var gain := price - p.avg;
    var closed := Min(Abs(delta), Abs(p.net));
    var sign := Signum(p.net);
    assert closed * gain * sign == (closed * sign) * gain;
    if Abs(delta) > Abs(p.net) {
      assert closed * sign == p.net;
      assert p.net * gain + delta * gain == (p.net + delta) * gain;
    } else {
      assert closed * sign == -delta;
    }
  }

  lemma NotionalOfSale(price: real, quantity: real)
    ensures Notional(price, -quantity) == -Notional(price, quantity)
  {
  }

  /** What every fill does to the position, whichever way it goes. */
  lemma TradedFields(p: Position, price: real, quantity: real, isBuy: bool)
    ensures var delta, p' := Delta(quantity, isBuy), Traded(p, price, quantity, isBuy);
            && p'.net == p.net + delta && p'.current == price
            && p'.avg == (if Adds(p.net, delta) then AddedAverage(p, price, delta) else p.avg)
            && p'.realized == (if Adds(p.net, delta) then p.realized else p.realized + ClosedPnl(p, price, delta))
            && CashOf(p') == CashOf(p) - Notional(price, delta)
            && CashOf(Filled(p, price, quantity, isBuy)) == CashOf(p')
            && Filled(p, price, quantity, isBuy).net == p'.net
            && Filled(p, price, quantity, isBuy).current == price
  {
    hide Notional, AddedAverage, ClosedPnl;
    NotionalOfSale(price, quantity);
  }

  lemma AddingIsFree(p: Position, p': Position, price: real, delta: real)
    requires p'.net * p'.avg == p.net * p.avg + Notional(price, delta) && p'.realized == p.realized
    requires CashOf(p') == CashOf(p) - Notional(price, delta)
    ensures Discrepancy(p') == Discrepancy(p)
  {
  }

  lemma ClosingCosts(p: Position, p': Position, price: real, delta: real, pnl: real)
    requires p'.net == p.net + delta && p'.avg == p.avg && p'.realized == p.realized + pnl
    requires CashOf(p') == CashOf(p) - Notional(price, delta)
    ensures Discrepancy(p') == Discrepancy(p) + pnl + delta * (price - p.avg)
  {
    Distributes(p.net, delta, p.avg);
    Distributes(price, p.avg, delta);
  }

  lemma TradeCost(p: Position, price: real, quantity: real, isBuy: bool)
    ensures Discrepancy(Traded(p, price, quantity, isBuy)) ==
            Discrepancy(p) + CrossingCost(p, price, Delta(quantity, isBuy))
  {
    hide Traded, Notional, AddedAverage, ClosedPnl, Discrepancy, Delta, Filled;
    var delta := Delta(quantity, isBuy);
    var p' := Traded(p, price, quantity, isBuy);
    TradedFields(p, price, quantity, isBuy);
    if Adds(p.net, delta) {
      AverageTimesQuantity(p, price, delta);
      AddingIsFree(p, p', price, delta);
    } else {
      ClosingPnl(p, price, delta);
      ClosingCosts(p, p', price, delta, ClosedPnl(p, price, delta));
    }
  }

  lemma ForgettingCost(p: Position)
    ensures Discrepancy(p.(avg := 0.0)) == Discrepancy(p) + p.net * p.avg
  {
  }

  /** One fill moves the discrepancy by exactly its crossing cost and its dust cost. */
  lemma FillCost(p: Position, price: real, quantity: real, isBuy: bool)
    ensures Discrepancy(Filled(p, price, quantity, isBuy)) ==
            Discrepancy(p) + CrossingCost(p, price, Delta(quantity, isBuy)) +
              DustCost(Traded(p, price, quantity, isBuy))
  {
    hide Traded, Discrepancy, CrossingCost;
    TradeCost(p, price, quantity, isBuy);
    ForgettingCost(Traded(p, price, quantity, isBuy));
  }

  lemma BookedIsCashPlusDiscrepancy(p: Position)
    ensures Booked(p) == CashAndHoldings(p) + Discrepancy(p)
  {
    assert p.net * (p.current - p.avg) == p.net * p.current - p.net * p.avg;
  }

  /** The equity is what the positions make it, and the peak is no lower. */
  ghost predicate Consistent(s: State) {
    s.current == s.initial + Sum(s.positions, Booked) && s.current <= s.peak
  }

  lemma RecalculatedIsConsistent(s: State)
    ensures Consistent(Recalculated(s))
  {
    SumAdds(s.positions, OpenPnl, Realized, Booked);
  }

  lemma EquityOverCash(s: State)
    requires Consistent(s)
    ensures s.current == s.initial + Sum(s.positions, CashAndHoldings) + Sum(s.positions, Discrepancy)
  {
    forall p: Position
      ensures CashAndHoldings(p) + Discrepancy(p) == Booked(p)
    {
      BookedIsCashPlusDiscrepancy(p);
    }
    SumAdds(s.positions, CashAndHoldings, Discrepancy, Booked);
  }

  lemma AverageCost(p: Position, price: real)
    ensures Discrepancy(p.(avg := price)) == Discrepancy(p) + RestatingCost(p, price)
    ensures Discrepancy(p.(current := price)) == Discrepancy(p)
  {
    Distributes(p.avg, price, p.net);
  }

  lemma NewPositionIsWorthNothing()
    ensures Discrepancy(NEW_POSITION) == 0.0 && CashAndHoldings(NEW_POSITION) == 0.0
  {
  }

  /** The position an event leaves behind. */
  function After(p: Position, e: Event): Position {
    match e
    case Fill(_, price, quantity, isBuy) => Filled(p, price, quantity, isBuy)
    case Price(_, price) => p.(current := price)
    case SetAverage(_, price) => p.(avg := price)
  }

  lemma StepMoves(s: State, e: Event)
    ensures Step(s, e).positions ==
            if e.Fill? || e.symbol in s.positions then s.positions[e.symbol := After(s.At(e.symbol), e)]
              else s.positions
    ensures !e.Fill? && e.symbol !in s.positions ==> Cost(s, e) == 0.0
    ensures s.At(e.symbol) == if e.symbol in s.positions then s.positions[e.symbol] else NEW_POSITION
  {
  }

  lemma FillMoves(s: State, symbol: string, price: real, quantity: real, isBuy: bool)
    ensures var s', p' := Step(s, Fill(symbol, price, quantity, isBuy)), Filled(s.At(symbol), price, quantity, isBuy);
            && s'.positions == s.positions[symbol := p'] && s'.At(symbol) == p'
            && p'.net == s.At(symbol).net + Delta(quantity, isBuy) && p'.current == price
            && s.At(symbol) == if symbol in s.positions then s.positions[symbol] else NEW_POSITION
  {
    TradedFields(s.At(symbol), price, quantity, isBuy);
    hide Traded, Filled;
  }

  lemma AfterCosts(s: State, e: Event)
    requires e.Fill? || e.symbol in s.positions
    ensures Discrepancy(After(s.At(e.symbol), e)) == Discrepancy(s.At(e.symbol)) + Cost(s, e)
  {
    hide Discrepancy, Filled, Traded, CrossingCost, DustCost, RestatingCost, Delta;
    match e
    case Fill(symbol, price, quantity, isBuy) => FillCost(s.At(symbol), price, quantity, isBuy);
    case Price(symbol, price) => AverageCost(s.At(symbol), price);
    case SetAverage(symbol, price) => AverageCost(s.At(symbol), price);
  }

  lemma StepCost(s: State, e: Event)
    ensures Sum(Step(s, e).positions, Discrepancy) == Sum(s.positions, Discrepancy) + Cost(s, e)
  {
    hide *;
    StepMoves(s, e);
    NewPositionIsWorthNothing();
    if e.Fill? || e.symbol in s.positions {
      SumUpdate(s.positions, Discrepancy, e.symbol, After(s.At(e.symbol), e));
      AfterCosts(s, e);
    }
  }

  lemma {:induction false} RunDiscrepancy(initial: real, events: seq<Event>)
    ensures var s := Run(initial, events);
            && Consistent(s) && s.initial == initial
            && Sum(s.positions, Discrepancy) == Costs(initial, events)
  {
    if events != [] {
      var before, e := events[..|events| - 1], events[|events| - 1];
      RunDiscrepancy(initial, before);
      StepCost(Run(initial, before), e);
      RecalculatedIsConsistent(Moved(Run(initial, before), e));
    }
  }

  // ---------- the account kept apart from the positions ----------

  /** Cash received less cash paid. */
  ghost function Cash(events: seq<Event>): real {
    if events == [] then 0.0
    else
      var e := events[|events| - 1];
      Cash(events[..|events| - 1]) - if e.Fill? then Notional(e.price, Delta(e.quantity, e.isBuy)) else 0.0
  }

  /** Units held of a symbol: bought less sold. */
  ghost function Held(events: seq<Event>, symbol: string): real {
    if events == [] then 0.0
    else
      var e := events[|events| - 1];
      Held(events[..|events| - 1], symbol) + if e.Fill? && e.symbol == symbol then Delta(e.quantity, e.isBuy) else 0.0
  }

  ghost predicate EverFilled(events: seq<Event>, symbol: string) {
    exists i :: 0 <= i < |events| && events[i].Fill? && events[i].symbol == symbol
  }

  /** The last price of a symbol, among those from its first fill on. */
  ghost function Mark(events: seq<Event>, symbol: string): real {
    if events == [] then 0.0
    else
      var before, e := events[..|events| - 1], events[|events| - 1];
      if e.symbol == symbol && (e.Fill? || (e.Price? && EverFilled(before, symbol))) then e.price
        else Mark(before, symbol)
  }

  lemma {:induction false} PositionsFollowEvents(initial: real, events: seq<Event>, symbol: string)
    ensures var s := Run(initial, events);
            && (symbol in s.positions <==> EverFilled(events, symbol))
            && s.At(symbol).net == Held(events, symbol) && s.At(symbol).current == Mark(events, symbol)
  {
    if events != [] {
      var before, e := events[..|events| - 1], events[|events| - 1];
      PositionsFollowEvents(initial, before, symbol);
      assert forall i :: 0 <= i < |before| ==> events[i] == before[i];
      if e.Fill? && e.symbol == symbol {
        assert EverFilled(events, symbol);
      } else {
        assert EverFilled(events, symbol) <==> EverFilled(before, symbol);
      }
    }
  }

  lemma {:induction false} CashFollowsEvents(initial: real, events: seq<Event>)
    ensures Sum(Run(initial, events).positions, CashOf) == Cash(events)
  {
    if events != [] {
      var before, e := events[..|events| - 1], events[|events| - 1];
      hide Step, Notional;
      CashFollowsEvents(initial, before);
      StepCash(Run(initial, before), e);
    }
  }

  lemma StepCash(s: State, e: Event)
    ensures Sum(Step(s, e).positions, CashOf) ==
            Sum(s.positions, CashOf) - if e.Fill? then Notional(e.price, Delta(e.quantity, e.isBuy)) else 0.0
  {
    hide Traded, Filled, Delta, Notional;
    match e
    case Fill(symbol, price, quantity, isBuy) =>
      TradedFields(s.At(symbol), price, quantity, isBuy);
      SumUpdate(s.positions, CashOf, symbol, Filled(s.At(symbol), price, quantity, isBuy));
    case Price(symbol, price) =>
      if symbol in s.positions {
        SumUpdate(s.positions, CashOf, symbol, s.positions[symbol].(current := price));
      }
    case SetAverage(symbol, price) =>
      if symbol in s.positions {
        SumUpdate(s.positions, CashOf, symbol, s.positions[symbol].(avg := price));
      }
  }

  /**
   Ledger exactness, for every run: booked equity is the cash account plus holdings at their marks, plus the costs.
   */
  lemma LedgerExact(initial: real, events: seq<Event>)
    ensures var s := Run(initial, events);
            && s.current == initial + Cash(events) + Sum(s.positions, Exposure) + Costs(initial, events)
            && forall symbol :: s.At(symbol).net == Held(events, symbol) && s.At(symbol).current == Mark(events, symbol)
  {
    var s := Run(initial, events);
    RunDiscrepancy(initial, events);
    EquityOverCash(s);
    CashFollowsEvents(initial, events);
    SumAdds(s.positions, CashOf, Exposure, CashAndHoldings);
    forall symbol
      ensures s.At(symbol).net == Held(events, symbol) && s.At(symbol).current == Mark(events, symbol)
    {
      PositionsFollowEvents(initial, events, symbol);
    }
  }

  // ---------- when the ledger is exact ----------

  function Lots(n: int, lot: real): real {
    n as real * lot
  }

  /** Fills in whole lots that never take a position through zero, and no reconciled averages. */
  ghost predicate WholeLots(initial: real, events: seq<Event>, lot: real) {
    events == [] ||
    var before, e := events[..|events| - 1], events[|events| - 1];
    && WholeLots(initial, before, lot)
    && !e.SetAverage?
    && (e.Fill? ==>
          && (exists n: int :: e.quantity == Lots(n, lot))
          && !Crosses(Run(initial, before).At(e.symbol), Delta(e.quantity, e.isBuy)))
  }

  lemma LotsAdd(n: int, k: int, lot: real)
    ensures Lots(n, lot) + Lots(k, lot) == Lots(n + k, lot) && -Lots(n, lot) == Lots(-n, lot) && Lots(0, lot) == 0.0
  {
  }

  lemma {:induction false} HoldsWholeLots(initial: real, events: seq<Event>, lot: real, symbol: string) returns (n: int)
    requires WholeLots(initial, events, lot)
    ensures Held(events, symbol) == Lots(n, lot)
  {
    hide Run, Lots, Crosses;
    if events == [] {
      n := 0;
      LotsAdd(0, 0, lot);
    } else {
      var before, e := events[..|events| - 1], events[|events| - 1];
      n := HoldsWholeLots(initial, before, lot, symbol);
      if e.Fill? && e.symbol == symbol {
        var k: int :| e.quantity == Lots(k, lot);
        LotsAdd(k, 0, lot);
        LotsAdd(n, if e.isBuy then k else -k, lot);
        n := n + if e.isBuy then k else -k;
      }
    }
  }

  lemma NoDustInLots(n: int, lot: real)
    requires FLAT <= lot
    ensures Abs(Lots(n, lot)) < FLAT ==> Lots(n, lot) == 0.0
  {
    if n > 0 {
      assert (n - 1) as real * lot >= 0.0;
      assert Lots(n, lot) >= lot;
    } else if n < 0 {
      assert (-n - 1) as real * lot >= 0.0;
      assert Lots(n, lot) <= -lot;
    }
  }

  /**
   With lots no smaller than the flat threshold and no crossing, the ledger is the cash account, to the last digit.
   */
  lemma {:induction false} NoCostInLots(initial: real, events: seq<Event>, lot: real)
    requires FLAT <= lot && WholeLots(initial, events, lot)
    ensures Costs(initial, events) == 0.0
  {
    if events != [] {
      hide Run, Lots, Crosses, CrossingCost, DustCost;
      var before, e := events[..|events| - 1], events[|events| - 1];
      NoCostInLots(initial, before, lot);
      if e.Fill? {
        var n := HoldsWholeLots(initial, events, lot, e.symbol);
        NoDustInLots(n, lot);
        PositionsFollowEvents(initial, before, e.symbol);
        NothingLeftIsFree(Run(initial, before).At(e.symbol), e.price, e.quantity, e.isBuy);
      }
    }
  }

  lemma NothingLeftIsFree(p: Position, price: real, quantity: real, isBuy: bool)
    requires !Crosses(p, Delta(quantity, isBuy))
    requires var net := p.net + Delta(quantity, isBuy); Abs(net) < FLAT ==> net == 0.0
    ensures CrossingCost(p, price, Delta(quantity, isBuy)) == 0.0 && DustCost(Traded(p, price, quantity, isBuy)) == 0.0
  {
    TradedFields(p, price, quantity, isBuy);
    hide Traded;
  }

  /**
   Long one at 100, then two sold at 110: the short unit keeps the price the long one was bought at, and ten is
   missing.
   */
  lemma CrossingIsInexact(initial: real)
    ensures Costs(initial, [Fill("A", 100.0, 1.0, true), Fill("A", 110.0, 2.0, false)]) == -10.0
  {
    var buy, sell := Fill("A", 100.0, 1.0, true), Fill("A", 110.0, 2.0, false);
    var held := Filled(NEW_POSITION, 100.0, 1.0, true);
    assert held.net == 1.0 && held.avg == 100.0;
    assert CrossingCost(held, 110.0, -2.0) == -10.0;
    CostsAppend(initial, [], buy);
    CostsAppend(initial, [buy], sell);
    AppendEvent(initial, [], buy);
    assert [] + [buy] == [buy] && [buy] + [sell] == [buy, sell];
    assert Run(initial, [buy]).At("A") == held;
  }

  /**
   One bought at 100, and all but 0.00005 of it sold at 100: what is left counts as flat, and what it cost is booked
   as a gain.
   */
  lemma DustIsInexact(initial: real)
    ensures Costs(initial, [Fill("A", 100.0, 1.0, true), Fill("A", 100.0, 0.99995, false)]) == 0.005
  {
    var buy, sell := Fill("A", 100.0, 1.0, true), Fill("A", 100.0, 0.99995, false);
    hide Filled, Traded, CrossingCost, DustCost, Costs, Sum;
    BoughtOne();
    SoldMost();
    CostsAppend(initial, [], buy);
    CostsAppend(initial, [buy], sell);
    AppendEvent(initial, [], buy);
    assert [] + [buy] == [buy] && [buy] + [sell] == [buy, sell];
    assert Run(initial, [buy]).At("A") == Filled(NEW_POSITION, 100.0, 1.0, true);
    NoCosts(initial);
  }

  lemma BoughtOne()
    ensures Filled(NEW_POSITION, 100.0, 1.0, true) == Position(1.0, 100.0, 100.0, 0.0, 100.0, 0.0)
    ensures CrossingCost(NEW_POSITION, 100.0, 1.0) == 0.0 && DustCost(Traded(NEW_POSITION, 100.0, 1.0, true)) == 0.0
  {
  }

  lemma SoldMost()
    ensures var held := Position(1.0, 100.0, 100.0, 0.0, 100.0, 0.0);
            CrossingCost(held, 100.0, -0.99995) == 0.0 && DustCost(Traded(held, 100.0, 0.99995, false)) == 0.005
  {
    hide Notional, ClosedPnl;
    var left := Traded(Position(1.0, 100.0, 100.0, 0.0, 100.0, 0.0), 100.0, 0.99995, false);
    assert left.net == 0.00005 && left.avg == 100.0;
  }

  lemma NoCosts(initial: real)
    ensures Costs(initial, []) == 0.0 && Run(initial, []).positions == map[]
  {
  }

  lemma CostsAppend(initial: real, events: seq<Event>, e: Event)
    ensures Costs(initial, events + [e]) == Costs(initial, events) + Cost(Run(initial, events), e)
  {
    assert (events + [e])[..|events|] == events;
  }

  // ---------- equity, peak, drawdown ----------

  lemma PeakSteps(s: State, e: Event)
    ensures var s' := Step(s, e);
            s'.peak == if s'.current > s.peak then s'.current else s.peak
  {
  }

  /** The peak is the highest equity there ever was. */
  lemma {:induction false} PeakIsHighest(initial: real, events: seq<Event>, n: nat)
    requires n <= |events|
    ensures Run(initial, events[..n]).current <= Run(initial, events).peak
    ensures exists k: nat :: k <= |events| && Run(initial, events[..k]).current == Run(initial, events).peak
  {
    hide Step;
    if events == [] {
      assert events[..0] == [];
      assert Run(initial, events[..0]).current == Run(initial, events).peak;
    } else {
      var before := events[..|events| - 1];
      PeakIsHighest(initial, before, if n < |events| then n else 0);
      PeakSteps(Run(initial, before), events[|events| - 1]);
      assert forall k: nat :: k <= |before| ==> events[..k] == before[..k];
      assert events[..|events|] == events;
      if Run(initial, events).peak == Run(initial, events).current {
        assert Run(initial, events[..|events|]).current == Run(initial, events).peak;
      } else {
        var k: nat :| k <= |before| && Run(initial, before[..k]).current == Run(initial, before).peak;
        assert Run(initial, events[..k]).current == Run(initial, events).peak;
      }
    }
  }

  ghost function MetricsOf(s: State): Metrics {
    var gross := Sum(s.positions, Gross);
    Metrics(
      Sum(s.positions, Exposure), gross,
      if s.current > 0.0 then gross / s.current else 0.0,
      Sum(s.positions, Unrealized), Sum(s.positions, Realized), s.peak, s.current,
      if s.peak > 0.0 then (s.peak - s.current) / s.peak * 100.0 else 0.0)
  }

  /** One event changes the two exposures by what it changes of its own symbol's. */
  lemma StepExposures(s: State, e: Event)
    ensures var p, p' := s.At(e.symbol), Step(s, e).At(e.symbol);
            && Sum(Step(s, e).positions, Gross) == Sum(s.positions, Gross) - Gross(p) + Gross(p')
            && Sum(Step(s, e).positions, Exposure) == Sum(s.positions, Exposure) - Exposure(p) + Exposure(p')
  {
    hide Sum, Step, After, Gross, Exposure;
    StepMoves(s, e);
    NewPositionExposes();
    AtAfterStep(s, e);
    if e.Fill? || e.symbol in s.positions {
      SumUpdate(s.positions, Gross, e.symbol, After(s.At(e.symbol), e));
      SumUpdate(s.positions, Exposure, e.symbol, After(s.At(e.symbol), e));
    }
  }

  lemma AtAfterStep(s: State, e: Event)
    ensures Step(s, e).At(e.symbol) ==
            if e.Fill? || e.symbol in s.positions then After(s.At(e.symbol), e) else s.At(e.symbol)
  {
    hide After;
    StepMoves(s, e);
  }

  lemma NewPositionExposes()
    ensures Gross(NEW_POSITION) == 0.0 && Exposure(NEW_POSITION) == 0.0
  {
  }

  /**
   The exposures of every run: nothing at the start, and each event moves them by the change in its symbol's holding
   at its mark, the gross exposure counting long and short alike.
   */
  lemma ExposuresFollowEvents(initial: real, events: seq<Event>, e: Event)
    ensures var first := MetricsOf(Run(initial, [])); first.grossExposure == 0.0 && first.netExposure == 0.0
    ensures var m, m', after := MetricsOf(Run(initial, events)), MetricsOf(Run(initial, events + [e])), events + [e];
            var held, held' := Held(events, e.symbol), Held(after, e.symbol);
            var mark, mark' := Mark(events, e.symbol), Mark(after, e.symbol);
            && m'.netExposure - m.netExposure == held' * mark' - held * mark
            && m'.grossExposure - m.grossExposure ==
               (if held' < 0.0 then -held' else held') * mark' - (if held < 0.0 then -held else held) * mark
  {
    hide Run, Step, Held, Mark, MetricsOf, EverFilled;
    AppendEvent(initial, events, e);
    PositionsFollowEvents(initial, events, e.symbol);
    PositionsFollowEvents(initial, events + [e], e.symbol);
    StepExposesHolding(Run(initial, events), e);
    NothingExposedAtFirst(initial);
  }

  lemma StepExposesHolding(s: State, e: Event)
    ensures var m, m', p, p' := MetricsOf(s), MetricsOf(Step(s, e)), s.At(e.symbol), Step(s, e).At(e.symbol);
            && m'.netExposure - m.netExposure == p'.net * p'.current - p.net * p.current
            && m'.grossExposure - m.grossExposure ==
               (if p'.net < 0.0 then -p'.net else p'.net) * p'.current
               - (if p.net < 0.0 then -p.net else p.net) * p.current
  {
    hide Step, Sum;
    StepExposures(s, e);
  }

  lemma NothingExposedAtFirst(initial: real)
    ensures var m := MetricsOf(Run(initial, [])); m.grossExposure == 0.0 && m.netExposure == 0.0
  {
    NothingExposed();
  }

  lemma NothingExposed()
    ensures Sum(map[], Gross) == 0.0 && Sum(map[], Exposure) == 0.0
  {
  }

  /** When only one symbol was ever filled, the exposures are those of what is held of it. */
  lemma {:induction false} OneSymbolExposure(initial: real, events: seq<Event>, symbol: string)
    requires forall i :: 0 <= i < |events| && events[i].Fill? ==> events[i].symbol == symbol
    ensures var m, held, mark := MetricsOf(Run(initial, events)), Held(events, symbol), Mark(events, symbol);
            && m.netExposure == held * mark
            && m.grossExposure == (if held < 0.0 then -held else held) * mark
  {
    hide MetricsOf, Run;
    if events == [] {
      ExposuresFollowEvents(initial, [], Price(symbol, 0.0));
      NoneHeld(symbol);
    } else {
      var before, e := events[..|events| - 1], events[|events| - 1];
      assert events == before + [e];
      OneSymbolExposure(initial, before, symbol);
      ExposuresFollowEvents(initial, before, e);
      if e.symbol != symbol {
        NeverHeld(before, e, symbol);
      }
    }
  }

  lemma NoneHeld(symbol: string)
    ensures Held([], symbol) * Mark([], symbol) == 0.0 && Held([], symbol) == 0.0
  {
  }

  lemma {:induction false} NeverHeld(before: seq<Event>, e: Event, symbol: string)
    requires forall i :: 0 <= i < |before| && before[i].Fill? ==> before[i].symbol == symbol
    requires !e.Fill? && e.symbol != symbol
    ensures Held(before, e.symbol) == Held(before + [e], e.symbol) == 0.0
    ensures Held(before + [e], symbol) == Held(before, symbol) && Mark(before + [e], symbol) == Mark(before, symbol)
  {
    assert (before + [e])[..|before|] == before;
    if before != [] {
      NeverHeld(before[..|before| - 1], e, symbol);
      assert (before[..|before| - 1] + [e])[..|before| - 1] == before[..|before| - 1];
    }
  }

  /**
   In every reachable state the snapshot adds up: equity is initial plus both profits, and drawdown is never negative.
   */
  lemma MetricsAddUp(initial: real, events: seq<Event>)
    ensures var m := MetricsOf(Run(initial, events));
            && m.current == initial + m.unrealized + m.realized
            && 0.0 <= m.drawdownPct
            && (m.peak > 0.0 ==> m.drawdownPct * m.peak == (m.peak - m.current) * 100.0)
            && (m.current > 0.0 ==> m.leverage * m.current == m.grossExposure && m.drawdownPct < 100.0)
            && (m.current <= 0.0 ==> m.leverage == 0.0) && (m.peak <= 0.0 ==> m.drawdownPct == 0.0)
  {
    hide Run, Sum;
    var s := Run(initial, events);
    RunDiscrepancy(initial, events);
    UnrealizedIsOpenPnl(s.positions);
    DrawdownRange(s.peak, s.current);
  }

  lemma UnrealizedIsOpenPnl(positions: map<string, Position>)
    ensures Sum(positions, Unrealized) + Sum(positions, Realized) == Sum(positions, Booked)
  {
    forall p: Position
      ensures Unrealized(p) + Realized(p) == Booked(p)
    {
      Distributes(p.current, p.avg, p.net);
    }
    SumAdds(positions, Unrealized, Realized, Booked);
  }

  lemma DrawdownRange(peak: real, current: real)
    requires current <= peak
    ensures peak > 0.0 ==> 0.0 <= (peak - current) / peak * 100.0
    ensures peak > 0.0 ==> (peak - current) / peak * 100.0 * peak == (peak - current) * 100.0
    ensures current > 0.0 ==> (peak - current) / peak * 100.0 < 100.0
  {
    if peak > 0.0 {
      var share := (peak - current) / peak;
      assert share * peak == peak - current;
      assert 0.0 <= share;
      assert share * 100.0 * peak == share * peak * 100.0;
      if current > 0.0 {
        assert share < 1.0;
      }
    }
  }

  /** A fill at the price its symbol is marked at moves equity by its costs and by nothing else. */
  lemma FillAtMark(s: State, symbol: string, price: real, quantity: real, isBuy: bool)
    requires Consistent(s) && (symbol in s.positions ==> s.positions[symbol].current == price)
    ensures var e := Fill(symbol, price, quantity, isBuy);
            Consistent(Step(s, e)) && Step(s, e).current == s.current + Cost(s, e)
  {
    hide Sum, Traded, Filled, Cost, RestatingCost, Delta, Notional, AddedAverage, ClosedPnl, CashAndHoldings;
    hide Discrepancy, CashOf;
    NewPositionIsWorthNothing();
    var e := Fill(symbol, price, quantity, isBuy);
    var p' := Filled(s.At(symbol), price, quantity, isBuy);
    RecalculatedIsConsistent(Moved(s, e));
    EquityOverCash(s);
    EquityOverCash(Step(s, e));
    StepCost(s, e);
    SumUpdate(s.positions, CashAndHoldings, symbol, p');
    TradedFields(s.At(symbol), price, quantity, isBuy);
    SameWorthAtMark(s.At(symbol), p', price, Delta(quantity, isBuy));
  }

  lemma SameWorthAtMark(p: Position, p': Position, price: real, delta: real)
    requires p.current == price || p.net == 0.0
    requires p'.net == p.net + delta && p'.current == price && CashOf(p') == CashOf(p) - Notional(price, delta)
    ensures CashAndHoldings(p') == CashAndHoldings(p)
  {
    Distributes(p.net, delta, price);
  }

  // ---------- the manager ----------

  lemma AppendEvent(initial: real, events: seq<Event>, e: Event)
    ensures Run(initial, events + [e]) == Step(Run(initial, events), e)
  {
    assert (events + [e])[..|events|] == events;
  }

  lemma StepsAre(s: State, e: Event)
    ensures Step(s, e) == Recalculated(Moved(s, e))
  {
  }

  class PortfolioManager {
    var positions: map<string, Position>
    var peakEquity: real
    var currentEquity: real
    const initialEquity: real
    ghost var events: seq<Event>

    function Fields(): State
      reads this
    {
      State(positions, peakEquity, currentEquity, initialEquity)
    }

    /** The fields are where the history of events leads. */
    ghost predicate Valid()
      reads this
    {
      Fields() == Run(initialEquity, events)
    }

    constructor (initialEquity: real)
      ensures Valid() && events == [] && this.initialEquity == initialEquity
    {
      positions := map[];
      peakEquity, currentEquity := initialEquity, initialEquity;
      this.initialEquity := initialEquity;
      events := [];
    }

    /** Adds up one figure over all positions, in whatever order the map yields them. */
    method Total(figure: Position -> real) returns (total: real)
      ensures total == Sum(positions, figure)
    {
      total := 0.0;
      var rest := positions;
      while rest != map[]
        invariant total + Sum(rest, figure) == Sum(positions, figure)
        decreases |rest|
      {
        var symbol :| symbol in rest;
        SumTakesAny(rest, figure, symbol);
        total := total + figure(rest[symbol]);
        rest := rest - {symbol};
      }
    }

    method RecalculateEquity()
      modifies this`currentEquity, this`peakEquity
      ensures Fields() == Recalculated(old(Fields()))
    {
      var unrealized := Total(OpenPnl);
      var realized := Total(Realized);
      currentEquity := initialEquity + unrealized + realized;
      if currentEquity > peakEquity {
        peakEquity := currentEquity;
      }
    }

    /** The three ways a fill can go, field by field. */
    method FillPosition(before: Position, price: real, quantity: real, isBuy: bool) returns (pos: Position)
      ensures pos == Filled(before, price, quantity, isBuy)
    {
      hide Notional, AddedAverage, ClosedPnl;
      pos := before;
      var delta := if isBuy then quantity else -quantity;
      if (pos.net >= 0.0 && delta > 0.0) || (pos.net <= 0.0 && delta < 0.0) {
        pos := pos.(avg := AddedAverage(pos, price, delta));
      } else {
        var pnl := ClosedPnl(pos, price, delta);
        pos := pos.(realized := pos.realized + pnl);
      }
      pos := pos.(net := pos.net + delta);
      pos := pos.(current := price);
      if isBuy {
        pos := pos.(bought := pos.bought + Notional(price, quantity));
      } else {
        pos := pos.(sold := pos.sold + Notional(price, quantity));
      }
      if pos.IsFlat() {
        pos := pos.(avg := 0.0);
      }
    }

    method OnFill(symbol: string, price: real, quantity: real, isBuy: bool)
      requires Valid()
      modifies this
      ensures Valid() && events == old(events) + [Fill(symbol, price, quantity, isBuy)]
    {
      hide Step, Run, Traded;
      var pos := if symbol in positions then positions[symbol] else NEW_POSITION;
      assert pos == Fields().At(symbol);
      pos := FillPosition(pos, price, quantity, isBuy);
      positions := positions[symbol := pos];
      ghost var e := Fill(symbol, price, quantity, isBuy);
      RecalculateEquity();
      AppendEvent(initialEquity, events, e);
      StepsAre(old(Fields()), e);
      events := events + [e];
    }

    method UpdatePrice(symbol: string, price: real)
      requires Valid()
      modifies this
      ensures Valid() && events == old(events) + [Price(symbol, price)]
    {
      hide Step, Run;
      ghost var e := Price(symbol, price);
      if symbol in positions {
        positions := positions[symbol := positions[symbol].(current := price)];
      }
      RecalculateEquity();
      AppendEvent(initialEquity, events, e);
      StepsAre(old(Fields()), e);
      events := events + [e];
    }

    method SetAvgEntryPrice(symbol: string, price: real)
      requires Valid()
      modifies this
      ensures Valid() && events == old(events) + [SetAverage(symbol, price)]
    {
      hide Step, Run;
      ghost var e := SetAverage(symbol, price);
      if symbol in positions {
        positions := positions[symbol := positions[symbol].(avg := price)];
      }
      RecalculateEquity();
      AppendEvent(initialEquity, events, e);
      StepsAre(old(Fields()), e);
      events := events + [e];
    }

    method GetMetrics() returns (m: Metrics)
      ensures m == MetricsOf(Fields())
    {
      var gross := Total(Gross);
      var net := Total(Exposure);
      var unrealized := Total(Unrealized);
      var realized := Total(Realized);
      var drawdown := if peakEquity > 0.0 then (peakEquity - currentEquity) / peakEquity * 100.0 else 0.0;
      var leverage := if currentEquity > 0.0 then gross / currentEquity else 0.0;
      m := Metrics(net, gross, leverage, unrealized, realized, peakEquity, currentEquity, drawdown);
    }

    /** Metrics and net positions, as one reading. */
    method GetRiskSnapshot() returns (m: Metrics, netPositions: map<string, real>)
      ensures m == MetricsOf(Fields())
      ensures netPositions == map symbol | symbol in positions :: positions[symbol].net
    {
      m := GetMetrics();
      netPositions := map symbol | symbol in positions :: positions[symbol].net;
    }
  }
}
