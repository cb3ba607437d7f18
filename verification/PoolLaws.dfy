/** What the pool's arithmetic amounts to: the gates in balances and percentages, what an issued
    signal and a fill do to a strategy, and the balance, its peak and the halt over any run of
    fills (internal/backtest/capital_pool_sim.go, internal/propfirm/pool_base.go). */
module PoolLaws {
  import opened Common
  import opened CapitalPool

  // ---------------------------------------------------------------- the gates

  /** The balance has not fallen from the peak by more than this percentage of the peak. */
  predicate WithinDrawdown(peak: real, balance: real, pct: real) {
    if peak > 0.0 then 100.0 * (peak - balance) <= pct * peak else 0.0 <= pct
  }

  lemma DrawdownExactly(peak: real, balance: real, pct: real)
    ensures DrawdownPct(peak, balance) <= pct <==> WithinDrawdown(peak, balance, pct)
  {
    if peak > 0.0 {
      var q := (peak - balance) / peak;
      assert q * peak == peak - balance;
      OrderTimes(q * 100.0, pct, peak);
    }
  }

  lemma OrderTimes(x: real, y: real, z: real)
    requires z > 0.0
    ensures x <= y <==> x * z <= y * z
  {
    if x <= y {
      ProductNonNegative(y - x, z);
    } else {
      assert (x - y) * z > 0.0;
    }
  }

  /** A regime from 0 to 3 has a multiplier of its own. */
  predicate IsMultiplier(m: real, p: Profile, regime: int) {
    && (regime == 0 ==> m == p.regime0) && (regime == 1 ==> m == p.regime1)
    && (regime == 2 ==> m == p.regime2) && (regime == 3 ==> m == p.regime3)
    && (regime < 0 || regime > 3 ==> m == 1.0)
  }

  /** A hundred times the price is covered by this percentage of the balance, also when it is
      scaled; a price of 0 or below turns the comparisons round. */
  predicate CoversOneUnit(share: real, scaled: real, close: real) {
    if close > 0.0 then 100.0 * close <= share && 100.0 * close <= scaled
    else if close < 0.0 then share <= 100.0 * close && scaled <= 100.0 * close
    else scaled == 0.0 || (scaled > 0.0 && share >= 0.0)
  }

  lemma QuotientAtLeastOne(x: real, y: real)
    requires y != 0.0
    ensures x / y >= 1.0 <==> if y > 0.0 then x >= y else x <= y
  {
    var q := x / y;
    assert q * y == x;
    if y > 0.0 {
      OrderTimes(1.0, q, y);
    } else {
      OrderTimes(1.0, q, -y);
    }
  }

  lemma AtLeastOneExactly(amount: real, maxSize: real, close: real)
    ensures AtLeastOne(amount, maxSize, close) <==> CoversOneUnit(100.0 * maxSize, 100.0 * amount, close)
  {
    if close != 0.0 {
      QuotientAtLeastOne(amount, close);
      QuotientAtLeastOne(maxSize, close);
    }
  }

  /** A strategy's own gates: at most half the permitted drawdown from its peak, and the share of
      the balance for one position, as a whole and scaled by the regime and halved against an
      opposing leg, covers one unit. */
  lemma GatesExactly(pool: PoolState, p: Profile, s: Strategy, candle: Candle, regime: int, signal: Signal, m: real)
    requires IsMultiplier(m, p, regime)
    ensures var opposing := (if signal.side == "BUY" then Held(s.openShort, candle.symbol) else 0.0) > 0.0
                            || (if signal.side == "SELL" then Held(s.openLong, candle.symbol) else 0.0) > 0.0;
            var share := pool.totalBalance * p.maxPositionPct;
            PassesOwnGates(pool, p, s, candle, regime, signal) <==>
              && WithinDrawdown(s.peakBalance, pool.totalBalance, p.maxDrawdownPct / 2.0)
              && CoversOneUnit(share, share * m * (if opposing then 0.5 else 1.0), candle.close)
  {
    var k := if (signal.side == "BUY" && Held(s.openShort, candle.symbol) > 0.0)
                || (signal.side == "SELL" && Held(s.openLong, candle.symbol) > 0.0) then 0.5 else 1.0;
    DrawdownExactly(s.peakBalance, pool.totalBalance, p.maxDrawdownPct * 0.5);
    AtLeastOneExactly(Amount(pool, p, regime, k), MaxSize(pool, p), candle.close);
    ShareOfBalance(pool, p, regime, k, m);
    hide DrawdownPct, WithinDrawdown, AtLeastOne, CoversOneUnit, Amount, MaxSize, Held;
  }

  lemma ShareOfBalance(pool: PoolState, p: Profile, regime: int, k: real, m: real)
    requires IsMultiplier(m, p, regime)
    ensures 100.0 * MaxSize(pool, p) == pool.totalBalance * p.maxPositionPct
    ensures 100.0 * Amount(pool, p, regime, k) == pool.totalBalance * p.maxPositionPct * m * k
  {
    assert RegimeMult(p, regime) == m;
    var b, pct := pool.totalBalance, p.maxPositionPct;
    assert 100.0 * (b * (pct / 100.0)) == b * pct;
    var part, share := b * (pct / 100.0), b * pct;
    assert 100.0 * (part * m * k) == share * m * k by {
      assert 100.0 * (part * m) == (100.0 * part) * m;
      assert 100.0 * (part * m * k) == (100.0 * (part * m)) * k;
    }
  }

  /** Without a profile: five legs at most, 5% of the day's start lost at most, 5% below the peak at
      most, and a position is 2% of the balance times 1, 0.85, 0.75 or 0.5 by regime. */
  lemma DefaultGates(pool: PoolState, s: Strategy, candle: Candle, regime: int, signal: Signal)
    requires Held(s.openLong, candle.symbol) == Held(s.openShort, candle.symbol) == 0.0 && 0 <= regime <= 3
    ensures var p, m := DefaultFTMOProfile(), [1.0, 0.85, 0.75, 0.5][regime];
            && p.maxOpenPositions == 5 && (DailyLimitHit(pool, p) <==> pool.dailyPnLPct <= -5.0)
            && (PassesOwnGates(pool, p, s, candle, regime, signal) <==>
                  && WithinDrawdown(s.peakBalance, pool.totalBalance, 5.0)
                  && CoversOneUnit(2.0 * pool.totalBalance, 2.0 * pool.totalBalance * m, candle.close))
  {
    var p, m := DefaultFTMOProfile(), [1.0, 0.85, 0.75, 0.5][regime];
    GatesExactly(pool, p, s, candle, regime, signal, m);
    hide PassesOwnGates, WithinDrawdown, CoversOneUnit;
  }

  // ---------------------------------------------------------------- one strategy's positions

  /** What the strategy holds of a symbol on a side. */
  function Position(s: Strategy, long: bool, symbol: string): real {
    Held(if long then s.openLong else s.openShort, symbol)
  }

  /** An issued signal asks for 99.8% of the runner's quantity; that is added to its position and,
      at the closing price, to the allocation, and nothing else changes. */
  lemma IssuedExactly(s: Strategy, candle: Candle, wanted: Signal)
    ensures var t, q := Booked(s, candle, Buffered(wanted)), wanted.quantity * 998.0 / 1000.0;
            && Buffered(wanted) == Signal(wanted.side, q)
            && t.allocation == s.allocation + q * candle.close
            && t.dailyPnL == s.dailyPnL && t.peakBalance == s.peakBalance
            && forall long, symbol :: Position(t, long, symbol) == Position(s, long, symbol)
                 + if long == (wanted.side == "BUY") && symbol == candle.symbol then q else 0.0
  {}

  function OrNothing(x: real): real {
    if x > 0.0 then x else 0.0
  }

  /** A fill takes its quantity from the allocation and from the position, neither falling below
      0, and closes a position that comes to 0; nothing else but the day's result changes. */
  lemma FilledExactly(s: Strategy, symbol: string, side: string, pnl: real, quantity: real)
    requires SafeStrategy(s)
    ensures var t, buy := Filled(s, symbol, side, pnl, quantity), side == "BUY";
            && t.allocation == OrNothing(s.allocation - quantity)
            && t.dailyPnL == s.dailyPnL + pnl && t.peakBalance == s.peakBalance
            && Position(t, buy, symbol) == OrNothing(Position(s, buy, symbol) - quantity)
            && (HasLeg(t, Leg("", buy, symbol)) <==> Position(t, buy, symbol) > 0.0)
            && forall long, other :: long != buy || other != symbol ==>
                 && Position(t, long, other) == Position(s, long, other)
                 && (HasLeg(t, Leg("", long, other)) <==> HasLeg(s, Leg("", long, other)))
  {}

  // ---------------------------------------------------------------- the pool over a run of fills

  /** RecordFill's effect on the pool. */
  function NextPool(pool: PoolState, pnl: real, profile: Option<Profile>): PoolState {
    CheckDrawdownHalt(RecordPoolPnL(pool, pnl, pool.totalBalance - pool.dailyPnL), profile)
  }

  /** The pool after the first n fills of a run. */
  function AfterFills(pool: PoolState, pnls: seq<real>, n: nat, profile: Option<Profile>): PoolState
    requires n <= |pnls|
  {
    if n == 0 then pool else NextPool(AfterFills(pool, pnls, n - 1, profile), pnls[n - 1], profile)
  }

  function Balance(start: real, pnls: seq<real>, n: nat): real
    requires n <= |pnls|
  {
    start + Sum(pnls[..n])
  }

  /** Of the first n fills, the balance stood highest after j. */
  ghost predicate HighestAt(start: real, pnls: seq<real>, n: nat, j: nat) {
    j <= n <= |pnls| && forall k: nat :: k <= n ==> Balance(start, pnls, k) <= Balance(start, pnls, j)
  }

  /** After fill n the balance is off its highest so far by more than the percentage. */
  ghost predicate TooLow(start: real, pnls: seq<real>, n: nat, pct: real) {
    exists j: nat :: HighestAt(start, pnls, n, j)
                     && !WithinDrawdown(Balance(start, pnls, j), Balance(start, pnls, n), pct)
  }

  ghost predicate EverTooLow(start: real, pnls: seq<real>, n: nat, pct: real) {
    exists i: nat :: 0 < i <= n && TooLow(start, pnls, i, pct)
  }

  /** The share of the start in percent; of a start that is not positive there is none. */
  predicate IsPercentage(pct: real, pnl: real, start: real) {
    if start > 0.0 then pct * start == 100.0 * pnl else pct == 0.0
  }

  /** The pool after n fills: the balance is the start plus all results, the peak the highest it
      ever stood at, the day's result their sum and percentage, and it has halted exactly if after
      some fill the drawdown was over the limit. */
  ghost predicate IsAfter(pool: PoolState, start: real, pnls: seq<real>, n: nat, profile: Option<Profile>)
    requires n <= |pnls|
  {
    && pool.totalBalance == start + pool.dailyPnL == Balance(start, pnls, n)
    && IsPercentage(pool.dailyPnLPct, pool.dailyPnL, start)
    && IsHighest(pool.totalPeakBalance, start, pnls, n)
    && IsHalted(pool, start, pnls, n, profile)
  }

  ghost predicate IsHighest(peak: real, start: real, pnls: seq<real>, n: nat) {
    exists j: nat :: HighestAt(start, pnls, n, j) && peak == Balance(start, pnls, j)
  }

  ghost predicate IsHalted(pool: PoolState, start: real, pnls: seq<real>, n: nat, profile: Option<Profile>) {
    && (pool.halted <==> (profile.Some? && profile.value.maxDrawdownPct > 0.0
                          && EverTooLow(start, pnls, n, profile.value.maxDrawdownPct)))
    && pool.haltReason == if pool.halted then "max_drawdown" else ""
  }

  lemma BalanceNext(start: real, pnls: seq<real>, n: nat)
    requires n < |pnls|
    ensures Balance(start, pnls, n + 1) == Balance(start, pnls, n) + pnls[n]
  {
    assert pnls[..n + 1][..n] == pnls[..n];
  }

  lemma NextPoolExactly(p: PoolState, x: real, profile: Option<Profile>)
    ensures var q, start := NextPool(p, x, profile), p.totalBalance - p.dailyPnL;
            && q.totalBalance == p.totalBalance + x && q.dailyPnL == p.dailyPnL + x
            && q.totalPeakBalance == (if q.totalBalance > p.totalPeakBalance then q.totalBalance
                                      else p.totalPeakBalance)
            && (IsPercentage(p.dailyPnLPct, p.dailyPnL, start) ==> IsPercentage(q.dailyPnLPct, q.dailyPnL, start))
            && (q.halted <==> (p.halted || (profile.Some? && profile.value.maxDrawdownPct > 0.0
                  && !WithinDrawdown(q.totalPeakBalance, q.totalBalance, profile.value.maxDrawdownPct))))
            && q.haltReason == if q.halted && !p.halted then "max_drawdown" else p.haltReason
  {
    var start, daily := p.totalBalance - p.dailyPnL, p.dailyPnL + x;
    var q := RecordPoolPnL(p, x, start);
    if profile.Some? {
      DrawdownExactly(q.totalPeakBalance, q.totalBalance, profile.value.maxDrawdownPct);
    }
    hide DrawdownPct, WithinDrawdown;
    if start > 0.0 {
      assert daily / start * start == daily;
      assert daily / start * 100.0 * start == 100.0 * daily;
    }
  }

  /** The highest so far is the one before the last fill or what the balance is now. */
  lemma HighestNext(peak: real, start: real, pnls: seq<real>, n: nat)
    requires n < |pnls| && IsHighest(peak, start, pnls, n)
    ensures var now := Balance(start, pnls, n + 1); IsHighest(if now > peak then now else peak, start, pnls, n + 1)
  {
    hide Balance;
    var j: nat :| HighestAt(start, pnls, n, j) && peak == Balance(start, pnls, j);
    assert HighestAt(start, pnls, n + 1, if Balance(start, pnls, n + 1) > peak then n + 1 else j);
  }

  lemma TooLowExactly(peak: real, start: real, pnls: seq<real>, n: nat, pct: real)
    requires n <= |pnls| && IsHighest(peak, start, pnls, n)
    ensures TooLow(start, pnls, n, pct) <==> !WithinDrawdown(peak, Balance(start, pnls, n), pct)
  {
    hide Balance, WithinDrawdown;
  }

  lemma EverTooLowNext(start: real, pnls: seq<real>, n: nat, pct: real)
    ensures EverTooLow(start, pnls, n + 1, pct) <==>
              EverTooLow(start, pnls, n, pct) || TooLow(start, pnls, n + 1, pct)
  {
    hide TooLow;
  }

  lemma AfterNext(p: PoolState, start: real, pnls: seq<real>, n: nat, profile: Option<Profile>)
    requires n < |pnls| && IsAfter(p, start, pnls, n, profile)
    ensures IsAfter(NextPool(p, pnls[n], profile), start, pnls, n + 1, profile)
  {
    hide IsHighest, Balance, NextPool, WithinDrawdown, IsPercentage, IsHalted;
    HighestNext(p.totalPeakBalance, start, pnls, n);
    BalanceNext(start, pnls, n);
    NextPoolExactly(p, pnls[n], profile);
    HaltedNext(p, NextPool(p, pnls[n], profile), start, pnls, n, profile);
  }

  lemma HaltedNext(p: PoolState, q: PoolState, start: real, pnls: seq<real>, n: nat, profile: Option<Profile>)
    requires n < |pnls| && IsHalted(p, start, pnls, n, profile)
    requires q.totalBalance == Balance(start, pnls, n + 1) && IsHighest(q.totalPeakBalance, start, pnls, n + 1)
    requires q.halted <==> (p.halted || (profile.Some? && profile.value.maxDrawdownPct > 0.0
               && !WithinDrawdown(q.totalPeakBalance, q.totalBalance, profile.value.maxDrawdownPct)))
    requires q.haltReason == if q.halted && !p.halted then "max_drawdown" else p.haltReason
    ensures IsHalted(q, start, pnls, n + 1, profile)
  {
    hide IsHighest, Balance, WithinDrawdown, TooLow, EverTooLow;
    if profile.Some? {
      TooLowExactly(q.totalPeakBalance, start, pnls, n + 1, profile.value.maxDrawdownPct);
      EverTooLowNext(start, pnls, n, profile.value.maxDrawdownPct);
    }
  }

  lemma {:induction false} PoolAfterFills(start: real, pnls: seq<real>, n: nat, profile: Option<Profile>)
    requires n <= |pnls|
    ensures IsAfter(AfterFills(PoolState(start, start, 0.0, 0.0, false, "", 0), pnls, n, profile),
                    start, pnls, n, profile)
  {
    if n == 0 {
      assert pnls[..0] == [] && Balance(start, pnls, 0) == start;
      assert HighestAt(start, pnls, 0, 0);
    } else {
      PoolAfterFills(start, pnls, n - 1, profile);
      hide IsAfter, NextPool;
      AfterNext(AfterFills(PoolState(start, start, 0.0, 0.0, false, "", 0), pnls, n - 1, profile), start, pnls, n - 1,
                profile);
    }
  }
}
