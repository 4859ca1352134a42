/** The pre-trade checks, in their order and with their severities, over one snapshot of the portfolio. */
module Risk {
  import opened Numbers
  import opened TokenBuckets
  import opened Text
  import P = Portfolio
  import MapSums

  datatype Severity = Veto | Advisory | Info

  datatype Config = Config(
    maxPositionPerSymbol: real, maxPortfolioExposure: real, maxLeverage: real, maxDrawdownPct: real,
    maxVolatility: real, maxSpreadBps: real, maxOrderRatePerSec: nat, stalenessNs: nat)

  datatype Request = Request(
    requestId: nat, symbolId: nat, intentId: nat, side: nat, quantity: real, price: real,
    timestampNs: nat, volatility: real, spreadBps: real, traceId: nat)

  datatype Snapshot = Snapshot(metrics: P.Metrics, netPositions: map<string, real>)

  datatype Decision = Decision(approved: bool, reason: Option<string>, warnings: seq<string>, checkIndex: nat,
                               request: Request)

  /** The checks by number: the name their severity is configured under. */
  function CheckName(check: nat): string {
    match check
    case 0 => "kill_switch"
    case 1 => "idempotency"
    case 2 => "staleness"
    case 3 => "order_rate"
    case 4 => "position_limit"
    case 5 => "portfolio_exposure"
    case 6 => "leverage"
    case 7 => "drawdown"
    case 8 => "volatility"
    case _ => "spread"
  }

  /** The reason a check gives. The figures that the last two print are left out. */
  function Reason(check: nat): string {
    match check
    case 0 => "Kill switch active"
    case 1 => "Duplicate intent_id"
    case 2 => "Intent expired"
    case 3 => "Order rate limit exceeded"
    case 4 => "Position limit exceeded"
    case 5 => "Portfolio exposure limit exceeded"
    case 6 => "Leverage limit exceeded"
    case 7 => "Drawdown limit exceeded"
    case 8 => "Volatility too high"
    case _ => "Spread too wide"
  }

  const APPROVED_INDEX := 14

  /** The key a symbol id has in the portfolio. */
  function SymbolKey(symbolId: nat): string {
    Decimal(symbolId)
  }

  // ---------- the checks that only compare ----------

  predicate Stale(r: Request, now: nat, config: Config) {
    SaturatingSub(now, r.timestampNs) > config.stalenessNs
  }

  predicate PositionWithin(net: real, price: real, limit: real) {
    Abs(net) * price <= limit
  }

  predicate PositionTooLarge(r: Request, s: Snapshot, config: Config) {
    var key := SymbolKey(r.symbolId);
    var current := if key in s.netPositions then s.netPositions[key] else 0.0;
    !PositionWithin(current + r.quantity, r.price, config.maxPositionPerSymbol)
  }

  predicate ExposureTooLarge(r: Request, s: Snapshot, config: Config) {
    s.metrics.grossExposure + r.quantity * r.price > config.maxPortfolioExposure
  }

  predicate LeverageTooHigh(r: Request, s: Snapshot, config: Config) {
    var exposure := s.metrics.grossExposure + r.quantity * r.price;
    (if s.metrics.current > 0.0 then exposure / s.metrics.current else 0.0) > config.maxLeverage
  }

  predicate DrawdownTooDeep(s: Snapshot, config: Config) {
    s.metrics.drawdownPct > config.maxDrawdownPct
  }

  // ---------- the limits after the trade ----------

  ghost function SnapshotOf(s: P.State): Snapshot {
    Snapshot(P.MetricsOf(s), map key | key in s.positions :: s.positions[key].net)
  }

  /** The four portfolio checks let the request through. */
  ghost predicate WithinLimitsBefore(r: Request, s: P.State, config: Config) {
    var snapshot := SnapshotOf(s);
    && !PositionTooLarge(r, snapshot, config) && !ExposureTooLarge(r, snapshot, config)
    && !LeverageTooHigh(r, snapshot, config) && !DrawdownTooDeep(snapshot, config)
  }

  /** The portfolio keeps the limits, with the position of `symbol` taken at its own mark. */
  ghost predicate KeepsLimits(s: P.State, symbol: string, config: Config) {
    var m := P.MetricsOf(s);
    && PositionWithin(s.At(symbol).net, s.At(symbol).current, config.maxPositionPerSymbol)
    && m.grossExposure <= config.maxPortfolioExposure
    && m.leverage <= config.maxLeverage
    && m.drawdownPct <= config.maxDrawdownPct
  }

  lemma GrossGrowsAtMost(net: real, quantity: real, delta: real, price: real)
    requires Abs(delta) == quantity && 0.0 <= price
    ensures Abs(net + delta) * price <= Abs(net) * price + quantity * price
  {
    assert (Abs(net) + quantity) * price == Abs(net) * price + quantity * price;
    assert (Abs(net) + quantity - Abs(net + delta)) * price >= 0.0;
  }

  lemma QuotientGrows(x: real, y: real, d: real)
    requires x <= y && 0.0 < d
    ensures x / d <= y / d
  {
    assert (y - x) / d >= 0.0;
  }

  /** What a fill of either side at the mark does to gross exposure, to the last digit. */
  lemma FillGrossExactly(s: P.State, symbol: string, price: real, quantity: real, isBuy: bool)
    requires symbol in s.positions ==> s.positions[symbol].current == price
    ensures var s', net := P.Step(s, P.Fill(symbol, price, quantity, isBuy)), s.At(symbol).net;
            var net' := if isBuy then net + quantity else net - quantity;
            P.MetricsOf(s').grossExposure ==
            P.MetricsOf(s).grossExposure +
              ((if net' < 0.0 then -net' else net') - (if net < 0.0 then -net else net)) * price
  {
    var e := P.Fill(symbol, price, quantity, isBuy);
    hide P.Step, P.Filled, MapSums.Sum;
    P.StepExposures(s, e);
    P.FillMoves(s, symbol, price, quantity, isBuy);
    var net, net' := s.At(symbol).net, P.Step(s, e).At(symbol).net;
    assert (Abs(net') - Abs(net)) * price == Abs(net') * price - Abs(net) * price;
  }

  /** A fill of either side at the mark raises gross exposure by no more than the checks add. */
  lemma FillGross(s: P.State, symbol: string, price: real, quantity: real, isBuy: bool)
    requires 0.0 <= quantity && 0.0 <= price
    requires symbol in s.positions ==> s.positions[symbol].current == price
    ensures var s' := P.Step(s, P.Fill(symbol, price, quantity, isBuy));
            && MapSums.Sum(s'.positions, P.Gross) <= MapSums.Sum(s.positions, P.Gross) + quantity * price
            && s'.At(symbol).net == s.At(symbol).net + P.Delta(quantity, isBuy) && s'.At(symbol).current == price
  {
    var p' := P.Filled(s.At(symbol), price, quantity, isBuy);
    hide *;
    P.FillMoves(s, symbol, price, quantity, isBuy);
    DeltaFacts(quantity, isBuy);
    MapSums.SumUpdate(s.positions, P.Gross, symbol, p');
    GrossOfFill(s.At(symbol), p', price, quantity, P.Delta(quantity, isBuy));
  }

  lemma DeltaFacts(quantity: real, isBuy: bool)
    requires 0.0 <= quantity
    ensures Abs(P.Delta(quantity, isBuy)) == quantity && P.Gross(P.NEW_POSITION) == 0.0
  {
  }

  lemma GrossOfFill(p: P.Position, p': P.Position, price: real, quantity: real, delta: real)
    requires Abs(delta) == quantity && 0.0 <= price
    requires p.current == price || p == P.NEW_POSITION
    requires p'.net == p.net + delta && p'.current == price
    ensures P.Gross(p') <= P.Gross(p) + quantity * price
  {
    GrossGrowsAtMost(p.net, quantity, delta, price);
  }

  /** The fill neither crosses zero nor leaves dust. */
  predicate Clean(p: P.Position, delta: real) {
    && !P.Crosses(p, delta)
    && (p.net + delta == 0.0 || P.FLAT <= Abs(p.net + delta))
  }

  /** What the position check assumes of the side: it always adds the quantity. */
  predicate Foreseen(net: real, quantity: real, isBuy: bool) {
    isBuy || 0.0 <= net * quantity
  }

  /**
   If the checks let a trade through, and it fills in full at the request price, with its
   symbol already marked there, without crossing zero or leaving dust, then equity, peak
   and drawdown stand still and the portfolio that results keeps all four limits. A buy
   always does; a sell if it does not go against what the position check foresees.
   */
  lemma ApprovedTradeKeepsLimits(r: Request, s: P.State, config: Config, isBuy: bool)
    requires P.Consistent(s) && s.current > 0.0 && 0.0 <= r.quantity && 0.0 <= r.price
    requires WithinLimitsBefore(r, s, config)
    requires var key := SymbolKey(r.symbolId);
             && (key in s.positions ==> s.positions[key].current == r.price)
             && Clean(s.At(key), P.Delta(r.quantity, isBuy)) && Foreseen(s.At(key).net, r.quantity, isBuy)
    ensures var key := SymbolKey(r.symbolId);
            var s' := P.Step(s, P.Fill(key, r.price, r.quantity, isBuy));
            && s'.current == s.current && s'.peak == s.peak
            && P.MetricsOf(s').drawdownPct == P.MetricsOf(s).drawdownPct
            && KeepsLimits(s', key, config)
  {
    var key := SymbolKey(r.symbolId);
    var e := P.Fill(key, r.price, r.quantity, isBuy);
    var s' := P.Step(s, e);
    hide *;
    TradeCostsNothing(s, key, r.price, r.quantity, isBuy);
    P.FillAtMark(s, key, r.price, r.quantity, isBuy);
    FillGross(s, key, r.price, r.quantity, isBuy);
    PeakStands(s, e);
    ForeseenIsNoLarger(s.At(key).net, r.quantity, isBuy);
    LimitsCarryOver(r, s, s', config);
  }

  lemma ForeseenIsNoLarger(net: real, quantity: real, isBuy: bool)
    requires Foreseen(net, quantity, isBuy)
    ensures Abs(net + P.Delta(quantity, isBuy)) <= Abs(net + quantity)
  {
    if !isBuy {
      SameSignSubtracts(net, quantity);
    }
  }

  lemma LimitsCarryOver(r: Request, s: P.State, s': P.State, config: Config)
    requires P.Consistent(s) && s.current > 0.0 && WithinLimitsBefore(r, s, config)
    requires s'.current == s.current && s'.peak == s.peak
    requires MapSums.Sum(s'.positions, P.Gross) <= MapSums.Sum(s.positions, P.Gross) + r.quantity * r.price
    requires var key := SymbolKey(r.symbolId);
             Abs(s'.At(key).net) <= Abs(s.At(key).net + r.quantity) && s'.At(key).current == r.price && 0.0 <= r.price
    ensures P.MetricsOf(s').drawdownPct == P.MetricsOf(s).drawdownPct
    ensures KeepsLimits(s', SymbolKey(r.symbolId), config)
  {
    hide MapSums.Sum, SymbolKey, P.Consistent, PositionWithin;
    var exposure := MapSums.Sum(s.positions, P.Gross) + r.quantity * r.price;
    QuotientGrows(MapSums.Sum(s'.positions, P.Gross), exposure, s.current);
    LargerIsWithin(s'.At(SymbolKey(r.symbolId)).net, s.At(SymbolKey(r.symbolId)).net + r.quantity, r.price,
                   config.maxPositionPerSymbol);
  }

  lemma LargerIsWithin(x: real, y: real, price: real, limit: real)
    requires Abs(x) <= Abs(y) && 0.0 <= price && PositionWithin(y, price, limit)
    ensures PositionWithin(x, price, limit)
  {
    assert (Abs(y) - Abs(x)) * price >= 0.0;
  }

  lemma TradeCostsNothing(s: P.State, symbol: string, price: real, quantity: real, isBuy: bool)
    requires Clean(s.At(symbol), P.Delta(quantity, isBuy))
    ensures P.Cost(s, P.Fill(symbol, price, quantity, isBuy)) == 0.0
  {
    hide P.Crosses, P.CrossingCost, P.DustCost;
    P.NothingLeftIsFree(s.At(symbol), price, quantity, isBuy);
  }

  lemma PeakStands(s: P.State, e: P.Event)
    requires P.Consistent(s) && P.Step(s, e).current == s.current
    ensures P.Step(s, e).peak == s.peak
  {
  }

  /** Whatever the limit, a request the position check lets through fills to a position that keeps it. */
  ghost predicate CheckSpeaksFor(r: Request, s: P.State, config: Config, isBuy: bool) {
    var key := SymbolKey(r.symbolId);
    var s' := P.Step(s, P.Fill(key, r.price, r.quantity, isBuy));
    forall limit :: !PositionTooLarge(r, SnapshotOf(s), config.(maxPositionPerSymbol := limit)) ==>
      PositionWithin(s'.At(key).net, r.price, limit)
  }

  /**
   The position check ignores the side, so it speaks for a sell only when selling shrinks
   the position it believes will grow: at a positive price, exactly if the position held
   and the quantity sold do not have opposite signs.
   */
  lemma PositionCheckSoundForSells(r: Request, s: P.State, config: Config)
    ensures CheckSpeaksFor(r, s, config, true)
    ensures CheckSpeaksFor(r, s, config, false) <==> 0.0 <= s.At(SymbolKey(r.symbolId)).net * r.quantity * r.price
  {
    var key := SymbolKey(r.symbolId);
    var net := s.At(key).net;
    hide CheckSpeaksFor;
    CheckSpeaks(r, s, config, true);
    CheckSpeaks(r, s, config, false);
    SoldIsNoLarger(net, r.quantity, r.price);
  }

  lemma SoldIsNoLarger(net: real, quantity: real, price: real)
    ensures Abs(net - quantity) * price <= Abs(net + quantity) * price <==> 0.0 <= net * quantity * price
  {
    var bought, sold := Abs(net + quantity), Abs(net - quantity);
    if net * quantity >= 0.0 {
      SameSignSubtracts(net, quantity);
    } else {
      OppositeSignAdds(net, quantity);
    }
    Scaled(bought - sold, net * quantity, price);
    assert (bought - sold) * price == bought * price - sold * price;
  }

  /** What a position is worth, without its sign. */
  function Worth(net: real, price: real): real {
    Abs(net) * price
  }

  /** The limit that is just met decides. */
  lemma CheckSpeaks(r: Request, s: P.State, config: Config, isBuy: bool)
    ensures var net := s.At(SymbolKey(r.symbolId)).net;
            CheckSpeaksFor(r, s, config, isBuy) <==>
            Worth(net + P.Delta(r.quantity, isBuy), r.price) <= Worth(net + r.quantity, r.price)
  {
    hide SymbolKey, P.Step, SnapshotOf, P.Delta, PositionTooLarge, P.Filled, P.State.At, P.MetricsOf, Worth;
    hide PositionWithin, Abs;
    var key := SymbolKey(r.symbolId);
    var checked, filled := s.At(key).net + r.quantity, s.At(key).net + P.Delta(r.quantity, isBuy);
    P.FillMoves(s, key, r.price, r.quantity, isBuy);
    forall limit
      ensures !PositionTooLarge(r, SnapshotOf(s), config.(maxPositionPerSymbol := limit)) <==>
              Worth(checked, r.price) <= limit
      ensures PositionWithin(filled, r.price, limit) <==> Worth(filled, r.price) <= limit
    {
      PositionCheck(r, s, config.(maxPositionPerSymbol := limit));
      WithinIs(checked, r.price, limit);
      WithinIs(filled, r.price, limit);
    }
    assert !PositionTooLarge(r, SnapshotOf(s), config.(maxPositionPerSymbol := Worth(checked, r.price)));
    if CheckSpeaksFor(r, s, config, isBuy) {
      assert PositionWithin(filled, r.price, Worth(checked, r.price));
    }
  }

  lemma WithinIs(net: real, price: real, limit: real)
    ensures PositionWithin(net, price, limit) <==> Worth(net, price) <= limit
  {
  }

  lemma PositionCheck(r: Request, s: P.State, config: Config)
    ensures PositionTooLarge(r, SnapshotOf(s), config) <==>
            !PositionWithin(s.At(SymbolKey(r.symbolId)).net + r.quantity, r.price, config.maxPositionPerSymbol)
  {
  }

  /** Two numbers of the same sign keep the same sign when scaled alike. */
  lemma Scaled(x: real, y: real, price: real)
    requires (0.0 < x <==> 0.0 < y) && (x < 0.0 <==> y < 0.0)
    ensures 0.0 <= x * price <==> 0.0 <= y * price
  {
  }

  lemma SameSignSubtracts(x: real, y: real)
    requires 0.0 <= x * y
    ensures Abs(x - y) <= Abs(x + y) && (Abs(x - y) == Abs(x + y) <==> x * y == 0.0)
  {
  }

  lemma OppositeSignAdds(x: real, y: real)
    requires x * y < 0.0
    ensures Abs(x + y) < Abs(x - y)
  {
  }

  /**
   A short of 100 sold at 10, and a request for 100 more: every portfolio check lets it through,
   as the position check sees nothing left; selling doubles the short, past the limit of 1500.
   */
  lemma SellPastTheLimit(r: Request, config: Config)
    requires r.quantity == 100.0 && r.price == 10.0
    requires config.maxPositionPerSymbol == 1500.0 && config.maxPortfolioExposure == 5000.0
    requires config.maxLeverage == 2.0 && config.maxDrawdownPct == 20.0
    ensures var key := SymbolKey(r.symbolId);
            var sale := P.Fill(key, 10.0, 100.0, false);
            && WithinLimitsBefore(r, P.Run(100000.0, [sale]), config)
            && !KeepsLimits(P.Run(100000.0, [sale, sale]), key, config)
  {
    var key := SymbolKey(r.symbolId);
    var sale := P.Fill(key, 10.0, 100.0, false);
    var s := P.Run(100000.0, [sale]);
    hide *;
    P.AppendEvent(100000.0, [sale], sale);
    assert [sale] + [sale] == [sale, sale];
    ShortOfHundred(key);
    SecondSale(r, s, config);
  }

  /** Selling 100 at 10 from nothing: a short of 100, and no change of equity. */
  lemma ShortOfHundred(key: string)
    ensures var s := P.Run(100000.0, [P.Fill(key, 10.0, 100.0, false)]);
            && s.At(key).net == -100.0 && s.current == s.peak == 100000.0
            && MapSums.Sum(s.positions, P.Gross) == 1000.0
  {
    var sale := P.Fill(key, 10.0, 100.0, false);
    var p := P.Filled(P.NEW_POSITION, 10.0, 100.0, false);
    NewManager();
    var s := P.Run(100000.0, []);
    hide *;
    P.AppendEvent(100000.0, [], sale);
    assert [] + [sale] == [sale];
    P.FillMoves(s, key, 10.0, 100.0, false);
    TradeCostsNothing(s, key, 10.0, 100.0, false);
    P.FillAtMark(s, key, 10.0, 100.0, false);
    PeakStands(s, sale);
    SumOfOne(P.Gross, key, p);
    GrossOfShort(p);
  }

  lemma NewManager()
    ensures var s := P.Run(100000.0, []);
            && s.positions == map[] && s.current == s.peak == 100000.0 && P.Consistent(s)
    ensures P.NEW_POSITION.net == 0.0 && P.Delta(100.0, false) == -100.0 && Clean(P.NEW_POSITION, -100.0)
  {
    hide P.Filled;
  }

  lemma GrossOfShort(p: P.Position)
    requires p.net == -100.0 && p.current == 10.0
    ensures P.Gross(p) == 1000.0
  {
  }

  lemma SecondSale(r: Request, s: P.State, config: Config)
    requires r.quantity == 100.0 && r.price == 10.0
    requires config.maxPositionPerSymbol == 1500.0 && config.maxPortfolioExposure == 5000.0
    requires config.maxLeverage == 2.0 && config.maxDrawdownPct == 20.0
    requires s.At(SymbolKey(r.symbolId)).net == -100.0 && s.current == s.peak == 100000.0
    requires MapSums.Sum(s.positions, P.Gross) == 1000.0
    ensures WithinLimitsBefore(r, s, config)
    ensures !KeepsLimits(P.Step(s, P.Fill(SymbolKey(r.symbolId), 10.0, 100.0, false)), SymbolKey(r.symbolId), config)
  {
    hide SymbolKey, MapSums.Sum, P.Step, PositionTooLarge;
    PositionCheck(r, s, config);
    P.FillMoves(s, SymbolKey(r.symbolId), 10.0, 100.0, false);
  }

  lemma SumOfOne(f: P.Position -> real, key: string, p: P.Position)
    ensures MapSums.Sum(map[key := p], f) == f(p)
  {
    MapSums.SumUpdate(map[], f, key, p);
    assert MapSums.Sum(map[], f) == 0.0;
    assert map[][key := p] == map[key := p];
  }

  // ---------- the engine ----------

  /** All that decides a request. */
  datatype Context = Context(
    r: Request, killSwitch: bool, seen: set<nat>, now: nat, rateFits: bool,
    snapshot: Snapshot, config: Config, severities: map<string, Severity>)
  {
    predicate Fires(check: nat) {
      match check
      case 0 => killSwitch
      case 1 => r.intentId in seen
      case 2 => Stale(r, now, config)
      case 3 => !rateFits
      case 4 => PositionTooLarge(r, snapshot, config)
      case 5 => ExposureTooLarge(r, snapshot, config)
      case 6 => LeverageTooHigh(r, snapshot, config)
      case 7 => DrawdownTooDeep(snapshot, config)
      case 8 => r.volatility > config.maxVolatility
      case _ => r.spreadBps > config.maxSpreadBps
    }

    predicate Vetoes(check: nat) {
      Fires(check) && SeverityOf(severities, check).Veto?
    }

    ghost predicate Passes(n: nat) {
      forall check: nat :: check < n ==> !Vetoes(check)
    }

    /** The reasons of the advisory checks among the first `n` that fired, in order. */
    ghost function Warnings(n: nat): seq<string> {
      if n == 0 then []
      else
        Warnings(n - 1) + if Fires(n - 1) && SeverityOf(severities, n - 1).Advisory? then [Reason(n - 1)] else []
    }

    /** Approval is the absence of a veto; a rejection names the first. */
    ghost predicate Decides(d: Decision) {
      && d.request == r
      && (d.approved <==> Passes(10))
      && (if d.approved then
            d == Decision(true, None, Warnings(10), APPROVED_INDEX, r)
          else
            && d == Decision(false, Some(Reason(d.checkIndex)), [], d.checkIndex, r)
            && d.checkIndex < 10 && Vetoes(d.checkIndex) && Passes(d.checkIndex))
    }
  }

  /** An approval with the portfolio checks at Veto means that none of them fired. */
  lemma ApprovalPassesPortfolioChecks(c: Context, d: Decision, s: P.State)
    requires c.Decides(d) && d.approved && c.snapshot == SnapshotOf(s)
    requires forall check: nat :: 4 <= check < 8 ==> SeverityOf(c.severities, check).Veto?
    ensures WithinLimitsBefore(c.r, s, c.config)
  {
    hide PositionTooLarge, ExposureTooLarge, LeverageTooHigh, DrawdownTooDeep, SnapshotOf;
    assert !c.Vetoes(4) && !c.Vetoes(5) && !c.Vetoes(6) && !c.Vetoes(7);
  }

  /**
   From decision to ledger, for every reachable portfolio with positive equity: a trade that was
   approved and fills in full at its price leaves equity and drawdown alone and keeps the limits.
   */
  lemma ApprovedFillKeepsLimits(c: Context, d: Decision, initial: real, events: seq<P.Event>, isBuy: bool)
    requires c.Decides(d) && d.approved && c.snapshot == SnapshotOf(P.Run(initial, events))
    requires forall check: nat :: 4 <= check < 8 ==> SeverityOf(c.severities, check).Veto?
    requires 0.0 < P.Run(initial, events).current && 0.0 <= c.r.quantity && 0.0 <= c.r.price
    requires var s, key := P.Run(initial, events), SymbolKey(c.r.symbolId);
             && (key in s.positions ==> s.positions[key].current == c.r.price)
             && Clean(s.At(key), P.Delta(c.r.quantity, isBuy)) && Foreseen(s.At(key).net, c.r.quantity, isBuy)
    ensures var key := SymbolKey(c.r.symbolId);
            var s, s' := P.Run(initial, events), P.Run(initial, events + [P.Fill(key, c.r.price, c.r.quantity, isBuy)]);
            var p, m := s'.At(key), P.MetricsOf(s');
            && s'.current == s.current && m.drawdownPct == P.MetricsOf(s).drawdownPct
            && (if p.net < 0.0 then -p.net else p.net) * p.current <= c.config.maxPositionPerSymbol
            && m.grossExposure <= c.config.maxPortfolioExposure
            && m.leverage <= c.config.maxLeverage && m.drawdownPct <= c.config.maxDrawdownPct
  {
    hide *;
    var s := P.Run(initial, events);
    P.RunDiscrepancy(initial, events);
    ApprovalPassesPortfolioChecks(c, d, s);
    ApprovedTradeKeepsLimits(c.r, s, c.config, isBuy);
    P.AppendEvent(initial, events, P.Fill(SymbolKey(c.r.symbolId), c.r.price, c.r.quantity, isBuy));
    var after := P.Run(initial, events + [P.Fill(SymbolKey(c.r.symbolId), c.r.price, c.r.quantity, isBuy)]);
    LimitsInFigures(after, SymbolKey(c.r.symbolId), c.config);
  }

  lemma LimitsInFigures(s: P.State, symbol: string, config: Config)
    requires KeepsLimits(s, symbol, config)
    ensures var p, m := s.At(symbol), P.MetricsOf(s);
            && (if p.net < 0.0 then -p.net else p.net) * p.current <= config.maxPositionPerSymbol
            && m.grossExposure <= config.maxPortfolioExposure
            && m.leverage <= config.maxLeverage && m.drawdownPct <= config.maxDrawdownPct
  {
    hide P.MetricsOf;
  }

  function SeverityOf(severities: map<string, Severity>, check: nat): Severity {
    if CheckName(check) in severities then severities[CheckName(check)] else Veto
  }

  function Rejected(r: Request, check: nat): Decision {
    Decision(false, Some(Reason(check)), [], check, r)
  }

  /** The ten findings in the figures of the request, the snapshot and the configuration. */
  lemma FindingsInFigures(c: Context)
    ensures var r, m, limits := c.r, c.snapshot.metrics, c.config;
            var key := Decimal(r.symbolId);
            var net := (if key in c.snapshot.netPositions then c.snapshot.netPositions[key] else 0.0) + r.quantity;
            var exposure := m.grossExposure + r.quantity * r.price;
            && (c.Fires(0) <==> c.killSwitch)
            && (c.Fires(1) <==> r.intentId in c.seen)
            && (c.Fires(2) <==> r.timestampNs + limits.stalenessNs < c.now)
            && (c.Fires(3) <==> !c.rateFits)
            && (c.Fires(4) <==> limits.maxPositionPerSymbol < (if net < 0.0 then -net else net) * r.price)
            && (c.Fires(5) <==> limits.maxPortfolioExposure < exposure)
            && (c.Fires(6) <==>
                if m.current > 0.0 then limits.maxLeverage * m.current < exposure else limits.maxLeverage < 0.0)
            && (c.Fires(7) <==> limits.maxDrawdownPct < m.drawdownPct)
            && (c.Fires(8) <==> limits.maxVolatility < r.volatility)
            && (c.Fires(9) <==> limits.maxSpreadBps < r.spreadBps)
  {
    hide Decimal;
    var m, exposure := c.snapshot.metrics, c.snapshot.metrics.grossExposure + c.r.quantity * c.r.price;
    if m.current > 0.0 {
      QuotientExceeds(exposure, m.current, c.config.maxLeverage);
    }
  }

  /** The names severities are configured under; a check that is not configured vetoes. */
  lemma SeveritiesByName(severities: map<string, Severity>)
    ensures var of := (name: string) => if name in severities then severities[name] else Veto;
            && SeverityOf(severities, 0) == of("kill_switch") && SeverityOf(severities, 1) == of("idempotency")
            && SeverityOf(severities, 2) == of("staleness") && SeverityOf(severities, 3) == of("order_rate")
            && SeverityOf(severities, 4) == of("position_limit")
            && SeverityOf(severities, 5) == of("portfolio_exposure")
            && SeverityOf(severities, 6) == of("leverage") && SeverityOf(severities, 7) == of("drawdown")
            && SeverityOf(severities, 8) == of("volatility") && SeverityOf(severities, 9) == of("spread")
  {
  }

  lemma VetoesInFigures(c: Context)
    ensures var veto := (name: string) => name in c.severities ==> c.severities[name].Veto?;
            var r, m, limits := c.r, c.snapshot.metrics, c.config;
            var key := Decimal(r.symbolId);
            var net := (if key in c.snapshot.netPositions then c.snapshot.netPositions[key] else 0.0) + r.quantity;
            var exposure := m.grossExposure + r.quantity * r.price;
            && (c.Vetoes(0) <==> veto("kill_switch") && c.killSwitch)
            && (c.Vetoes(1) <==> veto("idempotency") && r.intentId in c.seen)
            && (c.Vetoes(2) <==> veto("staleness") && r.timestampNs + limits.stalenessNs < c.now)
            && (c.Vetoes(3) <==> veto("order_rate") && !c.rateFits)
            && (c.Vetoes(4) <==> veto("position_limit") &&
                                 limits.maxPositionPerSymbol < (if net < 0.0 then -net else net) * r.price)
            && (c.Vetoes(5) <==> veto("portfolio_exposure") && limits.maxPortfolioExposure < exposure)
            && (c.Vetoes(6) <==> veto("leverage") &&
                                 if m.current > 0.0 then limits.maxLeverage * m.current < exposure
                                   else limits.maxLeverage < 0.0)
            && (c.Vetoes(7) <==> veto("drawdown") && limits.maxDrawdownPct < m.drawdownPct)
            && (c.Vetoes(8) <==> veto("volatility") && limits.maxVolatility < r.volatility)
            && (c.Vetoes(9) <==> veto("spread") && limits.maxSpreadBps < r.spreadBps)
  {
    hide Context.Fires, SeverityOf, Decimal;
    FindingsInFigures(c);
    SeveritiesByName(c.severities);
  }

  lemma QuotientExceeds(x: real, d: real, limit: real)
    requires 0.0 < d
    ensures x / d > limit <==> limit * d < x
  {
    assert (x / d) * d == x;
    assert (x / d - limit) * d == x - limit * d;
  }

  /**
   A decision names the first veto among the ten, or approves; written out in figures. `first` is the number of
   the first check that vetoes, 10 if none does.
   */
  lemma DecisionInFigures(c: Context, d: Decision)
    requires c.Decides(d)
    ensures var veto := (name: string) => name in c.severities ==> c.severities[name].Veto?;
            var r, m, limits := c.r, c.snapshot.metrics, c.config;
            var key := Decimal(r.symbolId);
            var net := (if key in c.snapshot.netPositions then c.snapshot.netPositions[key] else 0.0) + r.quantity;
            var exposure := m.grossExposure + r.quantity * r.price;
            var first :=
              if veto("kill_switch") && c.killSwitch then 0
              else if veto("idempotency") && r.intentId in c.seen then 1
              else if veto("staleness") && r.timestampNs + limits.stalenessNs < c.now then 2
              else if veto("order_rate") && !c.rateFits then 3
              else if veto("position_limit") &&
                      limits.maxPositionPerSymbol < (if net < 0.0 then -net else net) * r.price then 4
              else if veto("portfolio_exposure") && limits.maxPortfolioExposure < exposure then 5
              else if veto("leverage") &&
                      if m.current > 0.0 then limits.maxLeverage * m.current < exposure
                        else limits.maxLeverage < 0.0 then 6
              else if veto("drawdown") && limits.maxDrawdownPct < m.drawdownPct then 7
              else if veto("volatility") && limits.maxVolatility < r.volatility then 8
              else if veto("spread") && limits.maxSpreadBps < r.spreadBps then 9
              else 10;
            if first == 10 then d.approved && d.checkIndex == 14 else !d.approved && d.checkIndex == first
  {
    hide Context.Fires, Context.Vetoes, Context.Warnings, SeverityOf, Context.Decides, Context.Passes, Decimal;
    hide Reason;
    VetoesInFigures(c);
    FirstOfTen(c, d);
    DecidedBy(c, d);
  }

  /** The reason of a rejection goes with the number of its check; a rejection carries no warnings. */
  lemma ReasonInWords(c: Context, d: Decision)
    requires c.Decides(d)
    ensures d.approved ==> d.reason == None && d.checkIndex == 14
    ensures d.request == c.r
    ensures !d.approved ==>
              && d.checkIndex < 10 && d.warnings == []
              && d.reason ==
                 Some(["Kill switch active", "Duplicate intent_id", "Intent expired", "Order rate limit exceeded",
                       "Position limit exceeded", "Portfolio exposure limit exceeded", "Leverage limit exceeded",
                       "Drawdown limit exceeded", "Volatility too high", "Spread too wide"][d.checkIndex])
  {
    hide Reason;
    ReasonsByNumber();
    DecidedBy(c, d);
  }

  lemma ReasonsByNumber()
    ensures Reason(0) == "Kill switch active" && Reason(1) == "Duplicate intent_id" && Reason(2) == "Intent expired"
    ensures Reason(3) == "Order rate limit exceeded" && Reason(4) == "Position limit exceeded"
    ensures Reason(5) == "Portfolio exposure limit exceeded" && Reason(6) == "Leverage limit exceeded"
    ensures Reason(7) == "Drawdown limit exceeded" && Reason(8) == "Volatility too high"
    ensures Reason(9) == "Spread too wide"
  {
  }

  lemma DecidedBy(c: Context, d: Decision)
    requires c.Decides(d)
    ensures d.approved ==> d.reason == None && d.checkIndex == 14
    ensures d.request == c.r
    ensures !d.approved ==> d.reason == Some(Reason(d.checkIndex)) && d.checkIndex < 10 && d.warnings == []
  {
    hide Context.Passes, Context.Vetoes, Context.Warnings;
  }

  /** The first of ten, one by one. */
  lemma FirstOfTen(c: Context, d: Decision)
    requires c.Decides(d)
    ensures var first :=
              if c.Vetoes(0) then 0 else if c.Vetoes(1) then 1 else if c.Vetoes(2) then 2 else if c.Vetoes(3) then 3
              else if c.Vetoes(4) then 4 else if c.Vetoes(5) then 5 else if c.Vetoes(6) then 6
              else if c.Vetoes(7) then 7 else if c.Vetoes(8) then 8 else if c.Vetoes(9) then 9 else 10;
            (d.approved <==> first == 10) && (!d.approved ==> d.checkIndex == first)
  {
    hide Context.Fires, Context.Vetoes, Context.Warnings, Reason;
    if d.approved {
      assert c.Passes(10);
    } else {
      assert c.Passes(d.checkIndex) && c.Vetoes(d.checkIndex);
    }
  }

  /** The warnings of an approval: the advisory findings, in order and in figures. */
  lemma WarningsInFigures(c: Context, d: Decision)
    requires c.Decides(d) && d.approved
    ensures var advised := (name: string, found: bool, text: string) =>
              if name in c.severities && c.severities[name].Advisory? && found then [text] else [];
            var r, m, limits := c.r, c.snapshot.metrics, c.config;
            var key := Decimal(r.symbolId);
            var net := (if key in c.snapshot.netPositions then c.snapshot.netPositions[key] else 0.0) + r.quantity;
            var exposure := m.grossExposure + r.quantity * r.price;
            d.warnings ==
              advised("kill_switch", c.killSwitch, "Kill switch active")
              + advised("idempotency", r.intentId in c.seen, "Duplicate intent_id")
              + advised("staleness", r.timestampNs + limits.stalenessNs < c.now, "Intent expired")
              + advised("order_rate", !c.rateFits, "Order rate limit exceeded")
              + advised("position_limit", limits.maxPositionPerSymbol < (if net < 0.0 then -net else net) * r.price,
                        "Position limit exceeded")
              + advised("portfolio_exposure", limits.maxPortfolioExposure < exposure,
                        "Portfolio exposure limit exceeded")
              + advised("leverage",
                        if m.current > 0.0 then limits.maxLeverage * m.current < exposure
                        else limits.maxLeverage < 0.0,
                        "Leverage limit exceeded")
              + advised("drawdown", limits.maxDrawdownPct < m.drawdownPct, "Drawdown limit exceeded")
              + advised("volatility", limits.maxVolatility < r.volatility, "Volatility too high")
              + advised("spread", limits.maxSpreadBps < r.spreadBps, "Spread too wide")
  {
    hide Context.Fires, Context.Warnings, SeverityOf, Context.Decides, Context.Passes, Decimal, Reason;
    FindingsInFigures(c);
    SeveritiesByName(c.severities);
    WarningsAreAll(c, d);
    TenWarnings(c);
    ReasonsByNumber();
  }

  lemma WarningsAreAll(c: Context, d: Decision)
    requires c.Decides(d) && d.approved
    ensures d.warnings == c.Warnings(10)
  {
    hide Context.Passes, Context.Warnings;
  }

  /** The warning of one check, if it fires as an advisory. */
  ghost function Warned(c: Context, check: nat): seq<string> {
    if c.Fires(check) && SeverityOf(c.severities, check).Advisory? then [Reason(check)] else []
  }

  lemma WarningsStep(c: Context, n: nat)
    ensures c.Warnings(n + 1) == c.Warnings(n) + Warned(c, n)
  {
    hide Context.Fires, Reason, SeverityOf;
  }

  lemma TenWarnings(c: Context)
    ensures c.Warnings(10) ==
            Warned(c, 0) + Warned(c, 1) + Warned(c, 2) + Warned(c, 3) + Warned(c, 4)
            + Warned(c, 5) + Warned(c, 6) + Warned(c, 7) + Warned(c, 8) + Warned(c, 9)
  {
    hide Context.Warnings, Warned;
    NoWarningsYet(c);
    WarningsStep(c, 0);
    assert [] + Warned(c, 0) == Warned(c, 0);
    WarningsStep(c, 1);
    WarningsStep(c, 2);
    WarningsStep(c, 3);
    WarningsStep(c, 4);
    WarningsStep(c, 5);
    WarningsStep(c, 6);
    WarningsStep(c, 7);
    WarningsStep(c, 8);
    WarningsStep(c, 9);
  }

  class RiskEngine {
    const config: Config
    const portfolio: P.PortfolioManager
    const severities: map<string, Severity>
    var idempotencyStore: set<nat>
    var orderRateTokens: real
    var orderRateLastRefill: nat
    ghost var rateLog: seq<Admission>
    ghost var approvals: seq<nat>

    function Rate(): real {
      config.maxOrderRatePerSec as real
    }

    /** The engine's own bucket holds the level of the orders it has counted; its first reading finds it full. */
    ghost predicate RateValid()
      reads `orderRateTokens, `orderRateLastRefill, `rateLog
    {
      && Chronological(rateLog, orderRateLastRefill) && Legal(rateLog, Rate(), Rate())
      && orderRateTokens == Level(rateLog, orderRateLastRefill, Rate(), Rate())
      && (orderRateLastRefill == 0 ==> rateLog == [])
    }

    /** The ids remembered are those approved, and none was approved twice while repeats are vetoed. */
    ghost predicate ApprovalsValid()
      reads `idempotencyStore, `approvals
    {
      && (forall id :: id in idempotencyStore <==> id in approvals)
      && (SeverityOf(severities, 1).Veto? ==> forall i, j :: 0 <= i < j < |approvals| ==> approvals[i] != approvals[j])
    }

    ghost predicate Valid()
      reads this
    {
      RateValid() && ApprovalsValid()
    }

    constructor (config: Config, portfolio: P.PortfolioManager, severities: map<string, Severity>)
      ensures Valid() && approvals == [] && rateLog == []
      ensures this.config == config && this.portfolio == portfolio && this.severities == severities
    {
      this.config, this.portfolio, this.severities := config, portfolio, severities;
      idempotencyStore, orderRateTokens, orderRateLastRefill := {}, config.maxOrderRatePerSec as real, 0;
      rateLog, approvals := [], [];
    }

    /** Fires exactly when some window ending now has no room for one more order. */
    method CheckOrderRate(now: nat) returns (fired: bool)
      requires RateValid() && 0 < now && orderRateLastRefill <= now
      modifies this`orderRateTokens, this`orderRateLastRefill, this`rateLog
      ensures RateValid() && orderRateLastRefill == now
      ensures fired <==> !Fits(old(rateLog), now, 1.0, Rate(), Rate())
      ensures rateLog == if fired then old(rateLog) else old(rateLog) + [Admission(now, 1.0)]
    {
      hide Level, Legal, Fits, Earned, Min;
      LevelDecidesWindows(rateLog, now, 1.0, Rate(), Rate());
      if orderRateLastRefill > 0 {
        LevelAdvances(rateLog, orderRateLastRefill, now, Rate(), Rate());
        var elapsed := (now - orderRateLastRefill) as real / NS_PER_S;
        EarnedIs(Rate(), orderRateLastRefill, now);
        orderRateTokens := Min(orderRateTokens + Rate() * elapsed, Rate());
      } else {
        EmptyLevels(orderRateLastRefill, now, Rate());
      }
      orderRateLastRefill := now;
      fired := orderRateTokens < 1.0;
      if !fired {
        LogExtends(rateLog, Admission(now, 1.0), Rate(), Rate());
        orderRateTokens := orderRateTokens - 1.0;
        rateLog := rateLog + [Admission(now, 1.0)];
      }
    }

    /** What a finding leads to: a veto, a warning, or nothing. */
    method Weigh(check: nat, fired: bool, warnings: seq<string>, ghost c: Context)
        returns (veto: bool, warnings': seq<string>)
      requires c.severities == severities && fired == c.Fires(check)
      requires c.Passes(check) && warnings == c.Warnings(check)
      ensures veto <==> c.Vetoes(check)
      ensures veto ==> check < 10 ==> c.Decides(Rejected(c.r, check)) && forall n: nat :: check < n ==> !c.Passes(n)
      ensures !veto ==> c.Passes(check + 1) && warnings' == c.Warnings(check + 1)
    {
      hide Reason;
      veto, warnings' := false, warnings;
      if fired {
        match SeverityOf(severities, check)
        case Veto => veto := true;
        case Advisory => warnings' := warnings + [Reason(check)];
        case Info =>
      }
    }

    method Remember(intentId: nat)
      requires ApprovalsValid() && (SeverityOf(severities, 1).Veto? ==> intentId !in idempotencyStore)
      modifies `idempotencyStore, `approvals
      ensures ApprovalsValid() && approvals == old(approvals) + [intentId]
    {
      hide RateValid, SeverityOf;
      idempotencyStore := idempotencyStore + {intentId};
      approvals := approvals + [intentId];
    }

    /** The checks on the engine's own state; the order-rate token is taken only if the ones before it let pass. */
    method EngineChecks(r: Request, killSwitch: bool, now: nat, rateNow: nat, ghost c: Context)
      returns (rejected: Option<nat>, warnings': seq<string>)
      requires RateValid() && 0 < rateNow && orderRateLastRefill <= rateNow
      requires c.r == r && c.killSwitch == killSwitch && c.seen == idempotencyStore && c.now == now
      requires c.rateFits == Fits(rateLog, rateNow, 1.0, Rate(), Rate())
      requires c.config == config && c.severities == severities
      modifies `orderRateTokens, `orderRateLastRefill, `rateLog
      ensures RateValid()
      ensures rejected.Some? ==> rejected.value < 4 && c.Decides(Rejected(c.r, rejected.value))
      ensures rejected.None? ==> c.Passes(4) && warnings' == c.Warnings(4)
      ensures rateLog == if c.Passes(3) && c.rateFits then old(rateLog) + [Admission(rateNow, 1.0)] else old(rateLog)
    {
      hide Fits, RateValid, SeverityOf, Reason, Stale, Context.Warnings, Context.Passes, Context.Decides;
      var veto;
      warnings' := [];
      NoWarningsYet(c);
      veto, warnings' := Weigh(0, killSwitch, warnings', c);
      if veto {
        return Some(0), warnings';
      }
      veto, warnings' := Weigh(1, r.intentId in idempotencyStore, warnings', c);
      if veto {
        return Some(1), warnings';
      }
      veto, warnings' := Weigh(2, Stale(r, now, config), warnings', c);
      if veto {
        return Some(2), warnings';
      }
      var overRate := CheckOrderRate(rateNow);
      veto, warnings' := Weigh(3, overRate, warnings', c);
      if veto {
        return Some(3), warnings';
      }
      rejected := None;
    }

    /** The checks on the portfolio snapshot. */
    method PortfolioChecks(r: Request, s: Snapshot, warnings: seq<string>, ghost c: Context)
      returns (rejected: Option<nat>, warnings': seq<string>)
      requires c.r == r && c.snapshot == s
      requires c.config == config && c.severities == severities && c.Passes(4) && warnings == c.Warnings(4)
      ensures rejected.Some? ==> 4 <= rejected.value < 8 && c.Decides(Rejected(c.r, rejected.value))
      ensures rejected.None? ==> c.Passes(8) && warnings' == c.Warnings(8)
    {
      hide SeverityOf, Reason, Context.Warnings, Context.Passes, Context.Decides;
      hide PositionTooLarge, ExposureTooLarge, LeverageTooHigh, DrawdownTooDeep;
      var veto;
      warnings' := warnings;
      veto, warnings' := Weigh(4, PositionTooLarge(r, s, config), warnings', c);
      if veto {
        return Some(4), warnings';
      }
      veto, warnings' := Weigh(5, ExposureTooLarge(r, s, config), warnings', c);
      if veto {
        return Some(5), warnings';
      }
      veto, warnings' := Weigh(6, LeverageTooHigh(r, s, config), warnings', c);
      if veto {
        return Some(6), warnings';
      }
      veto, warnings' := Weigh(7, DrawdownTooDeep(s, config), warnings', c);
      if veto {
        return Some(7), warnings';
      }
      rejected := None;
    }

    /** The checks on the market, advisory unless configured otherwise. */
    method MarketChecks(r: Request, warnings: seq<string>, ghost c: Context)
      returns (rejected: Option<nat>, warnings': seq<string>)
      requires c.r == r
      requires c.config == config && c.severities == severities && c.Passes(8) && warnings == c.Warnings(8)
      ensures rejected.Some? ==> 8 <= rejected.value < 10 && c.Decides(Rejected(c.r, rejected.value))
      ensures rejected.None? ==> c.Passes(10) && warnings' == c.Warnings(10)
    {
      hide SeverityOf, Reason, Context.Warnings, Context.Passes, Context.Decides;
      var veto;
      warnings' := warnings;
      veto, warnings' := Weigh(8, r.volatility > config.maxVolatility, warnings', c);
      if veto {
        return Some(8), warnings';
      }
      veto, warnings' := Weigh(9, r.spreadBps > config.maxSpreadBps, warnings', c);
      if veto {
        return Some(9), warnings';
      }
      rejected := None;
    }

    /** Approves exactly when no check with severity Veto fires; otherwise names the first one that does. */
    method Check(r: Request, killSwitch: bool, now: nat, rateNow: nat) returns (d: Decision)
      requires Valid() && 0 < now <= rateNow && orderRateLastRefill <= rateNow
      modifies this
      ensures Valid()
      ensures var fits := Fits(old(rateLog), rateNow, 1.0, Rate(), Rate());
              var c := Context(r, killSwitch, old(idempotencyStore), now, fits, SnapshotOf(portfolio.Fields()), config,
                               severities);
              && c.Decides(d)
              && approvals == (if d.approved then old(approvals) + [r.intentId] else old(approvals))
              && rateLog == if c.Passes(3) && fits then old(rateLog) + [Admission(rateNow, 1.0)] else old(rateLog)
    {
      hide Fits, RateValid, ApprovalsValid, SeverityOf, Reason, P.MetricsOf;
      hide Context.Warnings, Context.Passes, Context.Decides, Context.Fires;
      var metrics, nets := portfolio.GetRiskSnapshot();
      var s := Snapshot(metrics, nets);
      ghost var c := Context(r, killSwitch, idempotencyStore, now, Fits(rateLog, rateNow, 1.0, Rate(), Rate()), s,
                             config, severities);
      var rejected, warnings := EngineChecks(r, killSwitch, now, rateNow, c);
      if rejected.None? {
        rejected, warnings := PortfolioChecks(r, s, warnings, c);
      }
      if rejected.None? {
        rejected, warnings := MarketChecks(r, warnings, c);
      }
      if rejected.Some? {
        return Rejected(r, rejected.value);
      }
      PassedMeansNotSeen(c);
      Remember(r.intentId);
      d := Decision(true, None, warnings, APPROVED_INDEX, r);
      ApprovalDecides(c);
    }

    /** Whatever the engine has checked: in no window did more orders pass the rate check than the rate allows. */
    lemma OrdersRationed(from: nat, to: nat)
      requires Valid() && from <= to
      ensures (AdmittedBetween(rateLog, from, to) - config.maxOrderRatePerSec as real) * 1_000_000_000.0 <=
              config.maxOrderRatePerSec as real * (to - from) as real
    {
      hide ApprovalsValid, Legal, Level, Earned, Chronological, AdmittedBetween;
      NoWindowOverflows(rateLog, from, to, orderRateLastRefill, Rate(), Rate());
      EarnedInFigures(Rate(), from, to);
    }

    /** With repeats at Veto, or the check not configured, no id was ever approved twice. */
    lemma ApprovedOnce(i: nat, j: nat)
      requires Valid() && i < j < |approvals|
      requires "idempotency" in severities ==> severities["idempotency"] == Veto
      ensures approvals[i] != approvals[j]
    {
      hide RateValid;
    }
  }

  lemma ApprovalDecides(c: Context)
    requires c.Passes(10)
    ensures c.Decides(Decision(true, None, c.Warnings(10), APPROVED_INDEX, c.r))
  {
  }

  lemma PassedMeansNotSeen(c: Context)
    requires c.Passes(10)
    ensures SeverityOf(c.severities, 1).Veto? ==> c.r.intentId !in c.seen
  {
    assert !c.Vetoes(1);
  }

  lemma NoWarningsYet(c: Context)
    ensures c.Warnings(0) == [] && c.Passes(0)
  {
  }

  lemma EmptyLevels(t: nat, now: nat, rate: real)
    ensures Level([], t, rate, rate) == Level([], now, rate, rate) == rate
  {
  }
}
