/** The simulated capital pool (internal/backtest/capital_pool_sim.go) with the pool state and
    rule helpers it uses (internal/propfirm/pool_base.go, internal/propfirm/rules.go). */
module CapitalPool {
  import opened Common

  datatype PoolState = PoolState(
    totalBalance: real, totalPeakBalance: real, dailyPnL: real, dailyPnLPct: real,
    halted: bool, haltReason: string, tradingDays: nat)

  datatype Profile = Profile(
    maxDailyLossPct: real, maxDrawdownPct: real, maxPositionPct: real, maxOpenPositions: int,
    regime0: real, regime1: real, regime2: real, regime3: real)

  datatype Strategy = Strategy(
    allocation: real, dailyPnL: real, peakBalance: real, openLong: map<string, real>, openShort: map<string, real>)

  datatype Signal = Signal(side: string, quantity: real)

  datatype Candle = Candle(symbol: string, close: real)

  function DefaultFTMOProfile(): Profile {
    Profile(5.0, 10.0, 2.0, 5, 1.0, 0.85, 0.75, 0.5)
  }

  function DrawdownPct(peak: real, current: real): real {
    if peak <= 0.0 then 0.0 else (peak - current) / peak * 100.0
  }

  function RecordPoolPnL(s: PoolState, pnl: real, startingBalance: real): PoolState {
    var total, daily := s.totalBalance + pnl, s.dailyPnL + pnl;
    s.(totalBalance := total, dailyPnL := daily,
       totalPeakBalance := if total > s.totalPeakBalance then total else s.totalPeakBalance,
       dailyPnLPct := if startingBalance > 0.0 then daily / startingBalance * 100.0 else s.dailyPnLPct)
  }

  function CheckDrawdownHalt(s: PoolState, profile: Option<Profile>): PoolState {
    if profile.None? || s.halted || profile.value.maxDrawdownPct <= 0.0 then s
    else if DrawdownPct(s.totalPeakBalance, s.totalBalance) > profile.value.maxDrawdownPct then
      s.(halted := true, haltReason := "max_drawdown")
    else s
  }

  // ---------------------------------------------------------------- open legs

  /** One open position: whose, on which side, in what. */
  datatype Leg = Leg(id: string, long: bool, symbol: string)

  type Strategies = map<string, Strategy>

  function LegsOf(id: string, s: Strategy): set<Leg> {
    (set symbol | symbol in s.openLong :: Leg(id, true, symbol))
    + (set symbol | symbol in s.openShort :: Leg(id, false, symbol))
  }

  function Legs(strategies: Strategies): set<Leg> {
    set id, leg | id in strategies && leg in LegsOf(id, strategies[id]) :: leg
  }

  function TotalOpen(strategies: Strategies): nat {
    |Legs(strategies)|
  }

  lemma {:induction false} SymbolLegs(id: string, long: bool, symbols: set<string>)
    ensures |set symbol | symbol in symbols :: Leg(id, long, symbol)| == |symbols|
    decreases |symbols|
  {
    if symbols != {} {
      var x :| x in symbols;
      SymbolLegs(id, long, symbols - {x});
      assert (set symbol | symbol in symbols :: Leg(id, long, symbol))
          == (set symbol | symbol in symbols - {x} :: Leg(id, long, symbol)) + {Leg(id, long, x)};
    }
  }

  lemma LegsOfCount(id: string, s: Strategy)
    ensures |LegsOf(id, s)| == |s.openLong| + |s.openShort|
    ensures forall leg :: leg in LegsOf(id, s) ==> leg.id == id
  {
    var longs := set symbol | symbol in s.openLong :: Leg(id, true, symbol);
    var shorts := set symbol | symbol in s.openShort :: Leg(id, false, symbol);
    SymbolLegs(id, true, s.openLong.Keys);
    SymbolLegs(id, false, s.openShort.Keys);
    assert longs == set symbol | symbol in s.openLong.Keys :: Leg(id, true, symbol);
    assert shorts == set symbol | symbol in s.openShort.Keys :: Leg(id, false, symbol);
    assert LegsOf(id, s) == longs + shorts && longs !! shorts;
  }

  predicate HasLeg(s: Strategy, leg: Leg) {
    leg.symbol in if leg.long then s.openLong else s.openShort
  }

  predicate IsLeg(strategies: Strategies, leg: Leg) {
    leg.id in strategies && HasLeg(strategies[leg.id], leg)
  }

  lemma LegsOfMembers(id: string, s: Strategy)
    ensures forall leg :: leg in LegsOf(id, s) <==> leg.id == id && HasLeg(s, leg)
  {}

  lemma LegMembers(strategies: Strategies)
    ensures forall leg :: leg in Legs(strategies) <==> IsLeg(strategies, leg)
  {
    forall leg: Leg
      ensures leg in Legs(strategies) <==> IsLeg(strategies, leg)
    {
      if leg in Legs(strategies) {
        var id :| id in strategies && leg in LegsOf(id, strategies[id]);
        LegsOfMembers(id, strategies[id]);
      }
      if IsLeg(strategies, leg) {
        LegsOfMembers(leg.id, strategies[leg.id]);
        assert leg in LegsOf(leg.id, strategies[leg.id]);
      }
    }
  }

  // ---------------------------------------------------------------- safety

  predicate Positive(legs: map<string, real>) {
    forall symbol :: symbol in legs ==> legs[symbol] > 0.0
  }

  predicate SafeStrategy(s: Strategy) {
    s.allocation >= 0.0 && Positive(s.openLong) && Positive(s.openShort)
  }

  /** What every run keeps: a bounded number of legs, all of positive size, and no negative
      allocation. */
  ghost predicate Safe(strategies: Strategies, maxOpen: int) {
    && TotalOpen(strategies) <= (if maxOpen < 0 then 0 else maxOpen)
    && forall id :: id in strategies ==> SafeStrategy(strategies[id])
  }

  function Held(legs: map<string, real>, symbol: string): real {
    if symbol in legs then legs[symbol] else 0.0
  }

  function Cost(quantity: real, price: real): real {
    quantity * price
  }

  function Added(legs: map<string, real>, symbol: string, quantity: real): map<string, real> {
    legs[symbol := Held(legs, symbol) + quantity]
  }

  /** An accepted signal: the buffered quantity is allocation and added to its leg. */
  function Booked(s: Strategy, candle: Candle, signal: Signal): Strategy {
    var t := s.(allocation := s.allocation + Cost(signal.quantity, candle.close));
    if signal.side == "BUY" then t.(openLong := Added(s.openLong, candle.symbol, signal.quantity))
    else t.(openShort := Added(s.openShort, candle.symbol, signal.quantity))
  }

  function Reduced(legs: map<string, real>, symbol: string, quantity: real): map<string, real> {
    var left := Held(legs, symbol) - quantity;
    if left <= 0.0 then legs - {symbol} else legs[symbol := left]
  }

  /** A fill reduces allocation, never below zero, and its leg, closing it at zero. */
  function Filled(s: Strategy, symbol: string, side: string, pnl: real, quantity: real): Strategy {
    var a := s.allocation - quantity;
    var t := s.(dailyPnL := s.dailyPnL + pnl, allocation := if a < 0.0 then 0.0 else a);
    if side == "BUY" then t.(openLong := Reduced(s.openLong, symbol, quantity))
    else t.(openShort := Reduced(s.openShort, symbol, quantity))
  }

  lemma BookingAddsOneLeg(strategies: Strategies, id: string, candle: Candle, signal: Signal)
    requires id in strategies
    ensures var after := strategies[id := Booked(strategies[id], candle, signal)];
            TotalOpen(strategies) <= TotalOpen(after) <= TotalOpen(strategies) + 1
  {
    var after := strategies[id := Booked(strategies[id], candle, signal)];
    var added := Leg(id, signal.side == "BUY", candle.symbol);
    LegMembers(strategies);
    LegMembers(after);
    hide Legs;
    BookedLegs(strategies[id], candle, signal);
    hide Booked, HasLeg;
    assert forall leg :: IsLeg(after, leg) <==> IsLeg(strategies, leg) || leg == added;
    assert Legs(after) == Legs(strategies) + {added};
    AddOne(Legs(strategies), added);
  }

  lemma AddOne<T>(s: set<T>, x: T)
    ensures |s| <= |s + {x}| <= |s| + 1
  {
    if x in s {
      assert s + {x} == s;
    }
  }

  lemma BookedLegs(s: Strategy, candle: Candle, signal: Signal)
    ensures forall leg :: HasLeg(Booked(s, candle, signal), leg) <==>
              HasLeg(s, leg) || (leg.long == (signal.side == "BUY") && leg.symbol == candle.symbol)
  {}

  lemma BookingSafe(s: Strategy, candle: Candle, signal: Signal)
    requires SafeStrategy(s) && signal.quantity > 0.0 && candle.close >= 0.0
    ensures SafeStrategy(Booked(s, candle, signal))
  {
    ProductNonNegative(signal.quantity, candle.close);
  }

  lemma ProductSign(q: real, x: real)
    requires q > 0.0
    ensures x < 0.0 <==> q * x < 0.0
    ensures x == 0.0 <==> q * x == 0.0
  {}

  /** A fill of the booked quantity restores the positions, but the allocation only at a price
      of 1, or below 1 when nothing was allocated: a booking counts money and a fill counts units. */
  lemma FillUndoesBooking(s: Strategy, candle: Candle, signal: Signal, pnl: real)
    requires SafeStrategy(s) && signal.quantity > 0.0
    ensures var t := Filled(Booked(s, candle, signal), candle.symbol, signal.side, pnl, signal.quantity);
            && t.openLong == s.openLong && t.openShort == s.openShort
            && (t.allocation == s.allocation <==> candle.close == 1.0 || (s.allocation == 0.0 && candle.close < 1.0))
  {
    var q := signal.quantity;
    ProductSign(q, candle.close - 1.0);
    assert Cost(q, candle.close) - q == q * (candle.close - 1.0);
    hide Cost;
    var legs := if signal.side == "BUY" then s.openLong else s.openShort;
    assert Reduced(legs[candle.symbol := Held(legs, candle.symbol) + q], candle.symbol, q) == legs;
  }

  lemma FillKeepsSafe(strategies: Strategies, maxOpen: int, id: string, t: Strategy,
                      symbol: string, side: string, pnl: real, quantity: real)
    requires Safe(strategies, maxOpen) && id in strategies && quantity >= 0.0
    requires var f := Filled(strategies[id], symbol, side, pnl, quantity);
             t.allocation == f.allocation && t.openLong == f.openLong && t.openShort == f.openShort
    ensures Safe(strategies[id := t], maxOpen)
  {
    LegMembers(strategies);
    LegMembers(strategies[id := t]);
    hide Legs;
    assert forall leg :: IsLeg(strategies[id := t], leg) ==> IsLeg(strategies, leg);
    SubsetCardinality(Legs(strategies[id := t]), Legs(strategies));
  }

  lemma NewStrategySafe(strategies: Strategies, maxOpen: int, id: string, peak: real)
    requires Safe(strategies, maxOpen)
    ensures Safe(strategies[id := Strategy(0.0, 0.0, peak, map[], map[])], maxOpen)
  {
    var s := Strategy(0.0, 0.0, peak, map[], map[]);
    LegMembers(strategies);
    LegMembers(strategies[id := s]);
    hide Legs;
    SubsetCardinality(Legs(strategies[id := s]), Legs(strategies));
  }

  // ---------------------------------------------------------------- the gates of EvaluateAll

  function RegimeMult(p: Profile, regime: int): real {
    match regime
    case 0 => p.regime0
    case 1 => p.regime1
    case 2 => p.regime2
    case 3 => p.regime3
    case _ => 1.0
  }

  /** Whether the position size, capped at the maximum, is at least one unit.  A zero price
      divides to an infinity or NaN, and a comparison with NaN is false. */
  predicate AtLeastOne(amount: real, maxSize: real, close: real) {
    if close == 0.0 then amount == 0.0 || (amount > 0.0 && maxSize >= 0.0)
    else
      var quantity, most := amount / close, maxSize / close;
      (if quantity > most then most else quantity) >= 1.0
  }

  /** The gates that look at this strategy alone: drawdown and size. */
  predicate PassesOwnGates(pool: PoolState, p: Profile, s: Strategy, candle: Candle, regime: int, signal: Signal) {
    && DrawdownPct(s.peakBalance, pool.totalBalance) <= p.maxDrawdownPct * 0.5
    && var opposing := (signal.side == "BUY" && Held(s.openShort, candle.symbol) > 0.0)
                       || (signal.side == "SELL" && Held(s.openLong, candle.symbol) > 0.0);
       AtLeastOne(Amount(pool, p, regime, if opposing then 0.5 else 1.0), MaxSize(pool, p), candle.close)
  }

  function Amount(pool: PoolState, p: Profile, regime: int, correlationMult: real): real {
    pool.totalBalance * (p.maxPositionPct / 100.0) * RegimeMult(p, regime) * correlationMult
  }

  /** The share of the balance, in percent, for one position. */
  function MaxSize(pool: PoolState, p: Profile): (size: real)
    ensures 100.0 * size == pool.totalBalance * p.maxPositionPct
  {
    pool.totalBalance * p.maxPositionPct / 100.0
  }

  lemma MaxSizeNonNegative(pool: PoolState, p: Profile)
    requires pool.totalBalance >= 0.0 && p.maxPositionPct >= 0.0
    ensures MaxSize(pool, p) >= 0.0
  {
    ProductNonNegative(pool.totalBalance, p.maxPositionPct);
  }

  predicate IsLeast(x: real, xs: set<real>) {
    x in xs && forall y :: y in xs ==> x <= y
  }

  predicate DailyLimitHit(pool: PoolState, p: Profile) {
    pool.dailyPnLPct <= -p.maxDailyLossPct
  }

  function Buffered(signal: Signal): Signal {
    signal.(quantity := signal.quantity * (1.0 - 0.002))
  }

  function Answer(evals: map<string, Signal>, id: string): Option<Signal> {
    if id in evals then Some(evals[id]) else None
  }

  /** One strategy before and after: a signal is issued, buffered and booked, only if it passes
      the gates, and one that passes them is dropped only if all positions are taken. */
  predicate Decision(before: Strategy, after: Strategy, wanted: Option<Signal>, issued: Option<Signal>, full: bool,
                     pool: PoolState, p: Profile, candle: Candle, regime: int) {
    match issued
    case Some(signal) =>
      && wanted.Some? && signal == Buffered(wanted.value)
      && PassesOwnGates(pool, p, before, candle, regime, wanted.value)
      && after == Booked(before, candle, signal)
    case None =>
      && after == before
      && (wanted.Some? && PassesOwnGates(pool, p, before, candle, regime, wanted.value) ==> full)
  }

  /** What an evaluation that has seen some of the strategies has done to all of them. */
  ghost predicate Evaluated(before: Strategies, after: Strategies, evals: map<string, Signal>,
                            issued: map<string, Signal>, seen: set<string>, pool: PoolState, p: Profile,
                            candle: Candle, regime: int) {
    && after.Keys == before.Keys
    && issued.Keys <= seen <= before.Keys
    && (forall id :: id in before && id !in seen ==> after[id] == before[id])
    && forall id :: id in seen ==>
         Decision(before[id], after[id], Answer(evals, id), Answer(issued, id), TotalOpen(after) >= p.maxOpenPositions,
                  pool, p, candle, regime)
  }

  /** What an evaluation past the daily loss limit does: nothing but halt, at the first signal. */
  ghost predicate Stopped(before: Strategies, after: Strategies, evals: map<string, Signal>,
                          issued: map<string, Signal>, seen: set<string>, pool0: PoolState, pool: PoolState) {
    && issued == map[] && after == before && pool.dailyPnLPct == pool0.dailyPnLPct
    && (pool.halted <==> pool0.halted || exists id :: id in seen && id in evals)
  }

  ghost predicate Progress(before: Strategies, after: Strategies, evals: map<string, Signal>,
                           issued: map<string, Signal>, seen: set<string>, pool0: PoolState, pool: PoolState,
                           p: Profile, candle: Candle, regime: int) {
    && pool.dailyPnLPct == pool0.dailyPnLPct
    && if DailyLimitHit(pool0, p) then Stopped(before, after, evals, issued, seen, pool0, pool)
       else pool == pool0 && Evaluated(before, after, evals, issued, seen, pool, p, candle, regime)
  }

  class CapitalPoolSim {
    var pool: PoolState
    const profile: Option<Profile>
    var strategies: Strategies

    function Limits(): Profile {
      if profile.None? then DefaultFTMOProfile() else profile.value
    }

    constructor (profile: Option<Profile>, startingBalance: real)
      ensures this.profile == profile && strategies == map[]
      ensures pool == PoolState(startingBalance, startingBalance, 0.0, 0.0, false, "", 0)
      ensures Safe(strategies, Limits().maxOpenPositions)
    {
      this.profile, strategies := profile, map[];
      pool := PoolState(startingBalance, startingBalance, 0.0, 0.0, false, "", 0);
      new;
      assert Legs(strategies) == {};
    }

    method AddStrategy(id: string)
      modifies `strategies
      ensures strategies == old(strategies)[id := Strategy(0.0, 0.0, pool.totalBalance, map[], map[])]
      ensures old(Safe(strategies, Limits().maxOpenPositions)) ==> Safe(strategies, Limits().maxOpenPositions)
    {
      if Safe(strategies, Limits().maxOpenPositions) {
        NewStrategySafe(strategies, Limits().maxOpenPositions, id, pool.totalBalance);
      }
      strategies := strategies[id := Strategy(0.0, 0.0, pool.totalBalance, map[], map[])];
    }

    method CountOpen() returns (totalOpen: nat)
      ensures totalOpen == TotalOpen(strategies)
    {
      totalOpen := 0;
      var remaining := strategies.Keys;
      ghost var seen := map[];
      assert Legs(seen) == {};
      while remaining != {}
        invariant remaining <= strategies.Keys
        invariant seen == map id | id in strategies && id !in remaining :: strategies[id]
        invariant totalOpen == TotalOpen(seen)
        decreases remaining
      {
        var id :| id in remaining;
        var s := strategies[id];
        remaining := remaining - {id};
        totalOpen := totalOpen + |s.openLong| + |s.openShort|;
        AddedLegs(seen, id, s);
        seen := seen[id := s];
      }
      assert seen == strategies;
    }

    /** The candidates come in any order.  `evals` holds what the runners answer; an id without
        an entry has no runner or no signal. */
    method EvaluateAll(candle: Candle, regime: int, evals: map<string, Signal>) returns (signals: map<string, Signal>)
      modifies `pool, `strategies
      ensures old(pool).halted ==> signals == map[] && pool == old(pool) && strategies == old(strategies)
      ensures !old(pool).halted && DailyLimitHit(old(pool), Limits()) ==>
                Stopped(old(strategies), strategies, evals, signals, strategies.Keys, old(pool), pool)
      ensures !old(pool).halted && !DailyLimitHit(old(pool), Limits()) ==>
                && pool == old(pool)
                && Evaluated(old(strategies), strategies, evals, signals, strategies.Keys, pool, Limits(), candle,
                             regime)
      ensures old(Safe(strategies, Limits().maxOpenPositions)) && candle.close >= 0.0
              && (forall id :: id in evals ==> evals[id].quantity > 0.0)
              ==> Safe(strategies, Limits().maxOpenPositions)
    {
      signals := map[];
      if pool.halted {
        return;
      }
      var p := Limits();
      ghost var before, pool0 := strategies, pool;
      var remaining := strategies.Keys;
      NothingEvaluated(strategies, evals, pool, p, candle, regime);
      hide Safe, Progress;
      while remaining != {}
        invariant remaining <= before.Keys == strategies.Keys
        invariant Progress(before, strategies, evals, signals, before.Keys - remaining, pool0, pool, p, candle, regime)
        invariant old(Safe(strategies, Limits().maxOpenPositions)) && candle.close >= 0.0
                  && (forall id :: id in evals ==> evals[id].quantity > 0.0)
                  ==> Safe(strategies, p.maxOpenPositions)
        decreases remaining
      {
        var id :| id in remaining;
        ghost var seen := before.Keys - remaining;
        signals := EvaluateNext(id, p, candle, regime, evals, signals, before, seen, pool0);
        remaining := remaining - {id};
        assert before.Keys - remaining == seen + {id};
      }
      assert before.Keys - remaining == strategies.Keys;
      Finished(before, strategies, evals, signals, pool0, pool, p, candle, regime);
    }

    /** The loop body: one strategy of the range over the map. */
    method EvaluateNext(id: string, p: Profile, candle: Candle, regime: int, evals: map<string, Signal>,
                        signals: map<string, Signal>,
                        ghost before: Strategies, ghost seen: set<string>, ghost pool0: PoolState)
      returns (issued: map<string, Signal>)
      requires id in strategies && id !in seen
      requires Progress(before, strategies, evals, signals, seen, pool0, pool, p, candle, regime)
      modifies `pool, `strategies
      ensures strategies.Keys == old(strategies).Keys
      ensures Progress(before, strategies, evals, issued, seen + {id}, pool0, pool, p, candle, regime)
      ensures old(Safe(strategies, p.maxOpenPositions)) && candle.close >= 0.0
              && (forall id :: id in evals ==> evals[id].quantity > 0.0)
              ==> Safe(strategies, p.maxOpenPositions)
    {
      hide Safe, Evaluated, Decision, TotalOpen, Stopped;
      ghost var sofar, was := strategies, pool;
      issued := signals;
      Untouched(before, strategies, evals, signals, seen, pool0, pool, p, candle, regime, id);
      if id in evals {
        var signal := EvaluateOne(id, p, candle, regime, evals[id]);
        if signal.Some? {
          issued := issued[id := signal.value];
        }
      } else {
        NoSignal(strategies[id], strategies, pool0, p, candle, regime);
      }
      if DailyLimitHit(pool0, p) {
        StoppedStep(before, sofar, evals, signals, seen, pool0, was, id, strategies, issued, pool);
      } else {
        EvaluatedStep(before, sofar, evals, signals, seen, pool0, p, candle, regime, id, strategies, issued);
      }
    }

    /** The loop body for one strategy with a signal. */
    method EvaluateOne(id: string, p: Profile, candle: Candle, regime: int, eval: Signal)
      returns (issued: Option<Signal>)
      requires id in strategies
      modifies `pool, `strategies
      ensures DailyLimitHit(old(pool), p) ==>
                && issued.None? && strategies == old(strategies)
                && pool == old(pool).(halted := true, haltReason := "daily_loss_limit")
      ensures !DailyLimitHit(old(pool), p) ==>
                && pool == old(pool) && id in strategies
                && Decision(old(strategies)[id], strategies[id], Some(eval), issued,
                            TotalOpen(strategies) >= p.maxOpenPositions,
                            pool, p, candle, regime)
      ensures id in strategies && strategies == old(strategies)[id := strategies[id]]
      ensures TotalOpen(old(strategies)) <= TotalOpen(strategies)
      ensures issued.Some? ==> TotalOpen(old(strategies)) < p.maxOpenPositions
      ensures old(Safe(strategies, p.maxOpenPositions)) && candle.close >= 0.0 && eval.quantity > 0.0
              ==> Safe(strategies, p.maxOpenPositions)
    {
      hide DrawdownPct, AtLeastOne, Amount, MaxSize, TotalOpen, Safe, Cost, Held;
      var strat := strategies[id];
      if pool.dailyPnLPct <= -p.maxDailyLossPct {
        pool := pool.(halted := true, haltReason := "daily_loss_limit");
        return None;
      }
      var stratDD := DrawdownPct(strat.peakBalance, pool.totalBalance);
      if stratDD > p.maxDrawdownPct * 0.5 {
        return None;
      }
      var totalOpen := CountOpen();
      if totalOpen >= p.maxOpenPositions {
        return None;
      }
      var correlationMult := 1.0;
      if eval.side == "BUY" && Held(strat.openShort, candle.symbol) > 0.0 {
        correlationMult := 0.5;
      }
      if eval.side == "SELL" && Held(strat.openLong, candle.symbol) > 0.0 {
        correlationMult := 0.5;
      }
      if !AtLeastOne(Amount(pool, p, regime, correlationMult), MaxSize(pool, p), candle.close) {
        return None;
      }
      var signal := eval.(quantity := eval.quantity * (1.0 - 0.002));
      strat := strat.(allocation := strat.allocation + Cost(signal.quantity, candle.close));
      if signal.side == "BUY" {
        strat := strat.(openLong := Added(strat.openLong, candle.symbol, signal.quantity));
      } else {
        strat := strat.(openShort := Added(strat.openShort, candle.symbol, signal.quantity));
      }
      assert strat == Booked(strategies[id], candle, signal);
      BookingAddsOneLeg(strategies, id, candle, signal);
      if Safe(strategies, p.maxOpenPositions) && candle.close >= 0.0 && eval.quantity > 0.0 {
        IssueKeepsSafe(strategies, p.maxOpenPositions, id, candle, eval);
      }
      strategies := strategies[id := strat];
      return Some(signal);
    }

    method RecordFill(strategyID: string, symbol: string, side: string, pnl: real, quantity: real)
      modifies `pool, `strategies
      ensures strategyID !in old(strategies) ==> strategies == old(strategies) && pool == old(pool)
      ensures strategyID in old(strategies) ==>
                && var f := Filled(old(strategies)[strategyID], symbol, side, pnl, quantity);
                   var q := RecordPoolPnL(old(pool), pnl, old(pool).totalBalance - old(pool).dailyPnL);
                   && strategies == old(strategies)[strategyID :=
                        f.(peakBalance := if q.totalBalance > f.peakBalance then q.totalBalance else f.peakBalance)]
                   && pool == CheckDrawdownHalt(q, profile)
      ensures old(Safe(strategies, Limits().maxOpenPositions)) && quantity >= 0.0
              ==> Safe(strategies, Limits().maxOpenPositions)
    {
      hide Safe, DrawdownPct;
      if strategyID !in strategies {
        return;
      }
      ghost var before := strategies;
      var s := strategies[strategyID];
      s := s.(dailyPnL := s.dailyPnL + pnl);
      s := s.(allocation := s.allocation - quantity);
      if s.allocation < 0.0 {
        s := s.(allocation := 0.0);
      }
      if side == "BUY" {
        s := s.(openLong := Reduced(s.openLong, symbol, quantity));
      } else {
        s := s.(openShort := Reduced(s.openShort, symbol, quantity));
      }
      pool := RecordPoolPnL(pool, pnl, pool.totalBalance - pool.dailyPnL);
      if pool.totalBalance > s.peakBalance {
        s := s.(peakBalance := pool.totalBalance);
      }
      strategies := strategies[strategyID := s];
      if Safe(before, Limits().maxOpenPositions) && quantity >= 0.0 {
        FillKeepsSafe(before, Limits().maxOpenPositions, strategyID, s, symbol, side, pnl, quantity);
      }
      pool := CheckDrawdownHalt(pool, profile);
    }

    /** Capital asked for outside EvaluateAll: never more than was asked, nothing while halted,
        and nothing new once the positions are taken. */
    method RequestCapital(strategyID: string, symbol: string, side: string, baseSize: real)
      returns (approvedSize: real, reason: string)
      ensures baseSize >= 0.0 && Limits().maxPositionPct >= 0.0 ==> 0.0 <= approvedSize <= baseSize
      ensures pool.halted ==> approvedSize == 0.0 && reason == "pool_halted"
      ensures !pool.halted && strategyID !in strategies ==> approvedSize == baseSize && reason == "ok"
      ensures !pool.halted && strategyID in strategies ==>
                var s, p := strategies[strategyID], Limits();
                if (side == "BUY" && Held(s.openLong, symbol) > 0.0)
                   || (side == "SELL" && Held(s.openShort, symbol) > 0.0)
                then approvedSize == baseSize * 0.5 && reason == "correlation_limit"
                else if TotalOpen(strategies) >= p.maxOpenPositions
                then approvedSize == 0.0 && reason == "max_open_positions"
                else if pool.totalBalance <= 0.0 then approvedSize == 0.0 && reason == "no_capital"
                else reason == "ok" && IsLeast(approvedSize, {baseSize, MaxSize(pool, p), pool.totalBalance * 0.25})
    {
      hide TotalOpen, MaxSize;
      if pool.halted {
        return 0.0, "pool_halted";
      }
      var p := Limits();
      if strategyID !in strategies {
        return baseSize, "ok";
      }
      var strat := strategies[strategyID];
      if side == "BUY" && Held(strat.openLong, symbol) > 0.0 {
        return baseSize * 0.5, "correlation_limit";
      }
      if side == "SELL" && Held(strat.openShort, symbol) > 0.0 {
        return baseSize * 0.5, "correlation_limit";
      }
      var totalOpen := CountOpen();
      if totalOpen >= p.maxOpenPositions {
        return 0.0, "max_open_positions";
      }
      if pool.totalBalance <= 0.0 {
        return 0.0, "no_capital";
      }
      approvedSize := baseSize;
      var maxSize := MaxSize(pool, p);
      if p.maxPositionPct >= 0.0 {
        MaxSizeNonNegative(pool, p);
      }
      if approvedSize > maxSize {
        approvedSize := maxSize;
      }
      if approvedSize > pool.totalBalance * 0.25 {
        approvedSize := pool.totalBalance * 0.25;
      }
      reason := "ok";
    }
  }

  lemma AddedLegs(seen: Strategies, id: string, s: Strategy)
    requires id !in seen
    ensures TotalOpen(seen[id := s]) == TotalOpen(seen) + |s.openLong| + |s.openShort|
  {
    LegMembers(seen);
    LegMembers(seen[id := s]);
    LegsOfMembers(id, s);
    LegsOfCount(id, s);
    hide Legs, LegsOf, HasLeg;
    assert Legs(seen[id := s]) == Legs(seen) + LegsOf(id, s) && Legs(seen) !! LegsOf(id, s);
  }

  lemma StoppedStep(before: Strategies, sofar: Strategies, evals: map<string, Signal>, issued: map<string, Signal>,
                    seen: set<string>, pool0: PoolState, was: PoolState, id: string,
                    after: Strategies, signals: map<string, Signal>, pool: PoolState)
    requires Stopped(before, sofar, evals, issued, seen, pool0, was)
    requires after == sofar && signals == issued
    requires pool == if id in evals then was.(halted := true, haltReason := "daily_loss_limit") else was
    ensures Stopped(before, after, evals, signals, seen + {id}, pool0, pool)
  {}

  lemma NoSignal(s: Strategy, strategies: Strategies, pool: PoolState, p: Profile, candle: Candle, regime: int)
    ensures Decision(s, s, None, None, TotalOpen(strategies) >= p.maxOpenPositions, pool, p, candle, regime)
  {}

  lemma NothingEvaluated(strategies: Strategies, evals: map<string, Signal>, pool: PoolState, p: Profile,
                         candle: Candle, regime: int)
    ensures Progress(strategies, strategies, evals, map[], strategies.Keys - strategies.Keys, pool, pool, p, candle,
                     regime)
  {}

  lemma Untouched(before: Strategies, after: Strategies, evals: map<string, Signal>, issued: map<string, Signal>,
                  seen: set<string>, pool0: PoolState, pool: PoolState, p: Profile, candle: Candle, regime: int,
                  id: string)
    requires Progress(before, after, evals, issued, seen, pool0, pool, p, candle, regime)
    requires id in after && id !in seen
    ensures after.Keys == before.Keys && after[id] == before[id] && id !in issued
  {}

  lemma Finished(before: Strategies, after: Strategies, evals: map<string, Signal>, issued: map<string, Signal>,
                 pool0: PoolState, pool: PoolState, p: Profile, candle: Candle, regime: int)
    requires Progress(before, after, evals, issued, after.Keys, pool0, pool, p, candle, regime)
    ensures DailyLimitHit(pool0, p) ==> Stopped(before, after, evals, issued, after.Keys, pool0, pool)
    ensures !DailyLimitHit(pool0, p)
            ==> pool == pool0 && Evaluated(before, after, evals, issued, after.Keys, pool, p, candle, regime)
  {}

  lemma IssueKeepsSafe(strategies: Strategies, maxOpen: int, id: string, candle: Candle, eval: Signal)
    requires Safe(strategies, maxOpen) && id in strategies && TotalOpen(strategies) < maxOpen
    requires eval.quantity > 0.0 && candle.close >= 0.0
    ensures Safe(strategies[id := Booked(strategies[id], candle, Buffered(eval))], maxOpen)
  {
    BookingAddsOneLeg(strategies, id, candle, Buffered(eval));
    BookingSafe(strategies[id], candle, Buffered(eval));
    hide TotalOpen, Booked, SafeStrategy;
  }

  lemma EvaluatedStep(before: Strategies, sofar: Strategies, evals: map<string, Signal>, issued: map<string, Signal>,
                      seen: set<string>, pool: PoolState, p: Profile, candle: Candle, regime: int,
                      id: string, after: Strategies, signals: map<string, Signal>)
    requires Evaluated(before, sofar, evals, issued, seen, pool, p, candle, regime)
    requires id in before && id !in seen && after.Keys == before.Keys
    requires forall i :: i in before && i != id ==> after[i] == sofar[i] && Answer(signals, i) == Answer(issued, i)
    requires signals.Keys <= issued.Keys + {id}
    requires TotalOpen(sofar) <= TotalOpen(after)
    requires Decision(before[id], after[id], Answer(evals, id), Answer(signals, id),
                      TotalOpen(after) >= p.maxOpenPositions,
                      pool, p, candle, regime)
    ensures Evaluated(before, after, evals, signals, seen + {id}, pool, p, candle, regime)
  {
    forall i | i in seen
      ensures Decision(before[i], after[i], Answer(evals, i), Answer(signals, i),
                       TotalOpen(after) >= p.maxOpenPositions,
                       pool, p, candle, regime)
    {
      hide PassesOwnGates, Booked, TotalOpen, Buffered, Answer;
    }
    hide Decision, TotalOpen, Answer;
  }
}
