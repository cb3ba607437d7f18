/** Delta bars from ticks, and their running sum (internal/analytics/cvd.go).  Instants and
    durations are integers; prices, like types.Price.Float64, are reals. */
module Cvd {
  import opened Common

  const MAX_COMPLETED: int := 10000
  const KEPT_COMPLETED: int := 5000
  const MAX_POINTS: int := 50000
  const KEPT_POINTS: int := 25000

  datatype Tick = Tick(timestamp: int, price: real, volume: real, buy: bool)

  datatype DeltaBar = DeltaBar(
    time: int, open: real, high: real, low: real, close: real,
    buyVolume: real, sellVolume: real, delta: real, numTrades: nat)

  datatype CVDPoint = CVDPoint(time: int, value: real, delta: real)

  function EmptyBar(time: int): DeltaBar {
    DeltaBar(time, 0.0, 0.0, 0.0, 0.0, 0.0, 0.0, 0.0, 0)
  }

  /** The instant lies in the interval of length d that starts at a multiple of d, `time`. */
  predicate InInterval(timestamp: int, time: int, d: int) {
    if d <= 0 then time == timestamp else time % d == 0 && time <= timestamp < time + d
  }

  /** time.Truncate: down to a multiple of d since the zero time; d <= 0 leaves it alone. */
  function Truncated(timestamp: int, d: int): (time: int)
    ensures InInterval(timestamp, time, d)
  {
    if d <= 0 then timestamp else
      RestDropped(timestamp, d);
      timestamp - timestamp % d
  }

  lemma RestDropped(t: int, d: int)
    requires d > 0
    ensures (t - t % d) % d == 0
  {
    var q := t / d;
    assert t - t % d == d * q;
    MultipleMod(d, q, d * q);
  }

  lemma MultipleMod(d: int, q: int, x: int)
    requires d > 0 && x == d * q
    ensures x % d == 0
  {
    var y, r := x / d, x % d;
    assert x == d * y + r;
    assert d * (q - y) == r;
    MultipleGrows(d, q - y);
  }

  lemma MultipleGrows(d: int, k: int)
    requires d > 0
    ensures (k >= 1 ==> d * k >= d) && (k <= -1 ==> d * k <= -d)
  {}

  /** The last `kept` entries once there are more than `limit`. */
  function Bounded<T>(xs: seq<T>, limit: int, kept: int): (ys: seq<T>)
    requires 0 <= kept <= limit
    ensures |ys| == if |xs| > limit then kept else |xs|
  {
    if |xs| > limit then xs[|xs| - kept..] else xs
  }

  ghost predicate Suffix<T>(xs: seq<T>, all: seq<T>) {
    |xs| <= |all| && xs == all[|all| - |xs|..]
  }

  lemma BoundedSuffix<T>(xs: seq<T>, all: seq<T>, x: T, limit: int, kept: int)
    requires 0 <= kept <= limit && Suffix(xs, all)
    ensures Suffix(Bounded(xs + [x], limit, kept), all + [x])
  {}

  lemma BoundedLast<T>(xs: seq<T>, x: T, limit: int, kept: int)
    requires 0 < kept <= limit
    ensures var ys := Bounded(xs + [x], limit, kept); ys != [] && ys[|ys| - 1] == x
  {}

  // ---------------------------------------------------------------- what the ticks amount to

  function Bought(ticks: seq<Tick>): real {
    if ticks == [] then 0.0
    else Bought(ticks[..|ticks| - 1]) + if ticks[|ticks| - 1].buy then ticks[|ticks| - 1].volume else 0.0
  }

  function Sold(ticks: seq<Tick>): real {
    if ticks == [] then 0.0
    else Sold(ticks[..|ticks| - 1]) + if ticks[|ticks| - 1].buy then 0.0 else ticks[|ticks| - 1].volume
  }

  /** The bar carries the volume of exactly these ticks. */
  ghost predicate Tallies(bar: DeltaBar, ticks: seq<Tick>) {
    && bar.buyVolume == Bought(ticks) && bar.sellVolume == Sold(ticks)
    && bar.delta == bar.buyVolume - bar.sellVolume && bar.numTrades == |ticks|
  }

  ghost predicate Positive(ticks: seq<Tick>) {
    forall i :: 0 <= i < |ticks| ==> ticks[i].price > 0.0
  }

  /** The bar's prices are the first, highest, lowest and last of its ticks. */
  ghost predicate PricesOf(bar: DeltaBar, ticks: seq<Tick>) {
    if ticks == [] then bar.open == bar.high == bar.low == bar.close == 0.0
    else
      && bar.open == ticks[0].price && bar.close == ticks[|ticks| - 1].price
      && (forall i :: 0 <= i < |ticks| ==> bar.low <= ticks[i].price <= bar.high)
      && (exists i :: 0 <= i < |ticks| && bar.high == ticks[i].price)
      && (exists i :: 0 <= i < |ticks| && bar.low == ticks[i].price)
  }

  /** Each bar describes its group of ticks, all of which fall into the bar's interval. */
  ghost predicate Describes(bar: DeltaBar, ticks: seq<Tick>, d: int) {
    && Tallies(bar, ticks) && (Positive(ticks) ==> PricesOf(bar, ticks))
    && forall i :: 0 <= i < |ticks| ==> InInterval(ticks[i].timestamp, bar.time, d)
  }

  function Flatten(groups: seq<seq<Tick>>): seq<Tick> {
    if groups == [] then [] else Flatten(groups[..|groups| - 1]) + groups[|groups| - 1]
  }

  function Counted(bar: DeltaBar, t: Tick): DeltaBar {
    var buy := bar.buyVolume + if t.buy then t.volume else 0.0;
    var sell := bar.sellVolume + if t.buy then 0.0 else t.volume;
    DeltaBar(
      bar.time,
      if bar.open == 0.0 then t.price else bar.open,
      if t.price > bar.high || bar.high == 0.0 then t.price else bar.high,
      if t.price < bar.low || bar.low == 0.0 then t.price else bar.low,
      t.price, buy, sell, buy - sell, bar.numTrades + 1)
  }

  lemma CountedDescribes(bar: DeltaBar, ticks: seq<Tick>, t: Tick, d: int)
    requires Describes(bar, ticks, d) && Truncated(t.timestamp, d) == bar.time
    ensures Describes(Counted(bar, t), ticks + [t], d)
  {
    CountedTallies(bar, ticks, t);
    hide Tallies, PricesOf, Counted;
    var next := ticks + [t];
    assert forall i :: 0 <= i < |ticks| ==> next[i] == ticks[i];
    if Positive(next) {
      assert next[|ticks|] == t;
      assert Positive(ticks) by {
        assert forall i :: 0 <= i < |ticks| ==> next[i].price > 0.0;
      }
      CountedPrices(bar, ticks, t);
    }
    CountedTime(bar, t);
  }

  lemma CountedTime(bar: DeltaBar, t: Tick)
    ensures Counted(bar, t).time == bar.time
  {}

  lemma CountedTallies(bar: DeltaBar, ticks: seq<Tick>, t: Tick)
    requires Tallies(bar, ticks)
    ensures Tallies(Counted(bar, t), ticks + [t])
  {
    assert (ticks + [t])[..|ticks|] == ticks;
  }

  lemma CountedPrices(bar: DeltaBar, ticks: seq<Tick>, t: Tick)
    requires PricesOf(bar, ticks) && t.price > 0.0 && Positive(ticks)
    ensures PricesOf(Counted(bar, t), ticks + [t])
  {
    var next, after := ticks + [t], Counted(bar, t);
    assert next[|ticks|] == t;
    if ticks != [] {
      var h :| 0 <= h < |ticks| && bar.high == ticks[h].price;
      var l :| 0 <= l < |ticks| && bar.low == ticks[l].price;
      assert next[h] == ticks[h] && next[l] == ticks[l];
    }
  }

  /** The accumulator's state, with every bar ever completed. */
  datatype Accumulator = Accumulator(current: DeltaBar, completed: seq<DeltaBar>, all: seq<DeltaBar>)

  /** A tick of another interval completes the current bar; only so many bars are kept. */
  function Ticked(a: Accumulator, t: Tick, d: int): Accumulator {
    var barTime := Truncated(t.timestamp, d);
    if barTime == a.current.time then a.(current := Counted(a.current, t))
    else
      Accumulator(Counted(EmptyBar(barTime), t),
                  Bounded(a.completed + [a.current], MAX_COMPLETED, KEPT_COMPLETED), a.all + [a.current])
  }

  class DeltaAccumulator {
    const barDuration: int
    var currentBar: DeltaBar
    var completed: seq<DeltaBar>
    /** Every bar ever completed, and the ticks of each; the ticks of the current bar. */
    ghost var allBars: seq<DeltaBar>
    ghost var groups: seq<seq<Tick>>
    ghost var open: seq<Tick>

    ghost predicate Valid()
      reads this
    {
      && |groups| == |allBars|
      && (forall i :: 0 <= i < |allBars| ==> Describes(allBars[i], groups[i], barDuration))
      && Describes(currentBar, open, barDuration)
      && Suffix(completed, allBars)
    }

    ghost function View(): Accumulator
      reads this
    {
      Accumulator(currentBar, completed, allBars)
    }

    /** All ticks added so far, in order. */
    ghost function History(): seq<Tick>
      reads this
    {
      Flatten(groups) + open
    }

    constructor (barDuration: int, now: int)
      ensures Valid() && History() == [] && this.barDuration == barDuration
      ensures View() == Accumulator(EmptyBar(Truncated(now, barDuration)), [], [])
    {
      this.barDuration := barDuration;
      currentBar := EmptyBar(Truncated(now, barDuration));
      completed, allBars, groups, open := [], [], [], [];
    }

    /** Lines 83-87: complete the current bar and start the one of barTime. */
    method StartBar(barTime: int)
      requires Valid()
      modifies this
      ensures Valid() && History() == old(History()) && allBars == old(allBars) + [old(currentBar)]
      ensures completed == Bounded(old(completed) + [old(currentBar)], 10000, 5000)
      ensures currentBar == EmptyBar(barTime)
    {
      hide Describes, Suffix;
      BoundedSuffix(completed, allBars, currentBar, MAX_COMPLETED, KEPT_COMPLETED);
      FlattenAppend(groups, open);
      EmptyDescribes(barTime, barDuration);
      completed := completed + [currentBar];
      if |completed| > MAX_COMPLETED {
        completed := completed[|completed| - KEPT_COMPLETED..];
      }
      allBars, groups, open := allBars + [currentBar], groups + [open], [];
      currentBar := EmptyBar(barTime);
    }

    /** Lines 90-107. */
    method CountTick(t: Tick)
      modifies `currentBar
      ensures currentBar == Counted(old(currentBar), t)
    {
      if currentBar.open == 0.0 {
        currentBar := currentBar.(open := t.price);
      }
      currentBar := currentBar.(close := t.price);
      if t.price > currentBar.high || currentBar.high == 0.0 {
        currentBar := currentBar.(high := t.price);
      }
      if t.price < currentBar.low || currentBar.low == 0.0 {
        currentBar := currentBar.(low := t.price);
      }
      if t.buy {
        currentBar := currentBar.(buyVolume := currentBar.buyVolume + t.volume);
      } else {
        currentBar := currentBar.(sellVolume := currentBar.sellVolume + t.volume);
      }
      currentBar := currentBar.(delta := currentBar.buyVolume - currentBar.sellVolume);
      currentBar := currentBar.(numTrades := currentBar.numTrades + 1);
    }

    /** No tick is lost or counted twice: the bars partition the tick history. */
    method AddTick(t: Tick)
      requires Valid()
      modifies this
      ensures Valid() && History() == old(History()) + [t]
      ensures View() == Ticked(old(View()), t, barDuration)
    {
      hide Describes, Suffix, Counted;
      var barTime := Truncated(t.timestamp, barDuration);
      if barTime != currentBar.time {
        StartBar(barTime);
      }
      CountedDescribes(currentBar, open, t, barDuration);
      CountedTime(currentBar, t);
      CountTick(t);
      open := open + [t];
    }
  }

  lemma FlattenAppend(groups: seq<seq<Tick>>, open: seq<Tick>)
    ensures Flatten(groups + [open]) == Flatten(groups) + open
  {
    assert (groups + [open])[..|groups|] == groups;
  }

  lemma EmptyDescribes(time: int, d: int)
    ensures Describes(EmptyBar(time), [], d)
  {}

  /** For positive prices a bar with trades has low <= open, close <= high. */
  lemma BarOrdered(bar: DeltaBar, ticks: seq<Tick>, d: int)
    requires Describes(bar, ticks, d) && bar.numTrades > 0
    requires forall i :: 0 <= i < |ticks| ==> ticks[i].price > 0.0
    ensures bar.low <= bar.open <= bar.high && bar.low <= bar.close <= bar.high
  {
    assert ticks[0].price <= bar.high && ticks[|ticks| - 1].price <= bar.high;
  }

  // ---------------------------------------------------------------- cumulative delta

  function DeltaSum(bars: seq<DeltaBar>): real {
    if bars == [] then 0.0 else DeltaSum(bars[..|bars| - 1]) + bars[|bars| - 1].delta
  }

  /** The point of each bar carries the sum of all deltas up to it. */
  function Points(bars: seq<DeltaBar>): (points: seq<CVDPoint>)
    ensures |points| == |bars|
  {
    if bars == [] then []
    else
      var bar := bars[|bars| - 1];
      Points(bars[..|bars| - 1]) + [CVDPoint(bar.time, DeltaSum(bars), bar.delta)]
  }

  lemma {:induction false} PointAt(bars: seq<DeltaBar>, i: nat)
    requires i < |bars|
    ensures Points(bars)[i] == CVDPoint(bars[i].time, DeltaSum(bars[..i + 1]), bars[i].delta)
  {
    if i == |bars| - 1 {
      assert bars[..i + 1] == bars;
    } else {
      PointAt(bars[..|bars| - 1], i);
      assert bars[..|bars| - 1][..i + 1] == bars[..i + 1];
    }
  }

  class CVDTracker {
    var bars: seq<CVDPoint>
    /** Every bar ever added. */
    ghost var added: seq<DeltaBar>

    /** The points kept are a suffix of the full running sum, never empty once a bar came. */
    ghost predicate Valid()
      reads this
    {
      Suffix(bars, Points(added)) && (added != [] ==> bars != [])
    }

    constructor ()
      ensures Valid() && added == []
    {
      bars, added := [], [];
    }

    method AddBar(bar: DeltaBar)
      requires Valid()
      modifies this
      ensures Valid() && added == old(added) + [bar]
      ensures bars == Bounded(old(bars) + [CVDPoint(bar.time, DeltaSum(added), bar.delta)], 50000, 25000)
      ensures bars[|bars| - 1].value == DeltaSum(added)
    {
      TrackStep(bars, added, bar);
      hide Points, DeltaSum, Suffix, Bounded;
      var point := CVDPoint(bar.time, bar.delta, bar.delta);
      if |bars| > 0 {
        point := point.(value := point.value + bars[|bars| - 1].value);
      }
      Append(point);
      added := added + [bar];
    }

    /** Lines 151-154. */
    method Append(point: CVDPoint)
      modifies `bars
      ensures bars == Bounded(old(bars) + [point], 50000, 25000)
    {
      bars := bars + [point];
      if |bars| > MAX_POINTS {
        bars := bars[|bars| - KEPT_POINTS..];
      }
    }

    /** None is a panic: a negative limit makes a slice of negative length. */
    method GetHistory(limit: int) returns (result: Option<seq<CVDPoint>>)
      requires Valid()
      ensures result.None? <==> limit < 0
      ensures result.Some? ==>
                && |result.value| == (if limit < |bars| then limit else |bars|)
                && Suffix(result.value, bars) && Suffix(result.value, Points(added))
    {
      var start := |bars| - limit;
      if start < 0 {
        start := 0;
      }
      if |bars| - start < 0 {
        return None;
      }
      result := Some(bars[start..]);
    }
  }

  lemma NextPoint(kept: seq<CVDPoint>, added: seq<DeltaBar>, bar: DeltaBar)
    requires Suffix(kept, Points(added)) && (added != [] ==> kept != [])
    ensures var value := bar.delta + if |kept| > 0 then kept[|kept| - 1].value else 0.0;
            && value == DeltaSum(added + [bar])
            && Points(added + [bar]) == Points(added) + [CVDPoint(bar.time, value, bar.delta)]
  {
    assert (added + [bar])[..|added|] == added;
    if added != [] {
      assert kept[|kept| - 1] == Points(added)[|added| - 1];
      assert Points(added)[|added| - 1].value == DeltaSum(added);
    }
  }

  lemma TrackStep(kept: seq<CVDPoint>, added: seq<DeltaBar>, bar: DeltaBar)
    requires Suffix(kept, Points(added)) && (added != [] ==> kept != [])
    ensures var value := bar.delta + if |kept| > 0 then kept[|kept| - 1].value else 0.0;
            var after := Bounded(kept + [CVDPoint(bar.time, value, bar.delta)], MAX_POINTS, KEPT_POINTS);
            && value == DeltaSum(added + [bar])
            && Suffix(after, Points(added + [bar])) && after != []
                && after[|after| - 1].value == DeltaSum(added + [bar])
  {
    hide Points, DeltaSum, Suffix, Bounded;
    NextPoint(kept, added, bar);
    var point := CVDPoint(bar.time, DeltaSum(added + [bar]), bar.delta);
    BoundedSuffix(kept, Points(added), point, MAX_POINTS, KEPT_POINTS);
    BoundedLast(kept, point, MAX_POINTS, KEPT_POINTS);
  }

  lemma {:induction false} BoughtConcat(x: seq<Tick>, y: seq<Tick>)
    ensures Bought(x + y) == Bought(x) + Bought(y) && Sold(x + y) == Sold(x) + Sold(y)
  {
    if y == [] {
      assert x + y == x;
    } else {
      assert (x + y)[..|x + y| - 1] == x + y[..|y| - 1];
      BoughtConcat(x, y[..|y| - 1]);
    }
  }

  /** The deltas of bars add up to the bought minus the sold volume of the ticks they describe. */
  lemma {:induction false} DeltasAreNetVolume(bars: seq<DeltaBar>, groups: seq<seq<Tick>>, d: int)
    requires |groups| == |bars| && forall i :: 0 <= i < |bars| ==> Describes(bars[i], groups[i], d)
    ensures DeltaSum(bars) == Bought(Flatten(groups)) - Sold(Flatten(groups))
  {
    if bars != [] {
      var n := |bars| - 1;
      DeltasAreNetVolume(bars[..n], groups[..n], d);
      BoughtConcat(Flatten(groups[..n]), groups[n]);
      assert Describes(bars[n], groups[n], d);
    }
  }

  /** Once every completed bar has been added to the tracker, each once and in order, its last
      value is the bought minus the sold volume of all ticks but those of the current bar, however
      much either buffer was truncated. */
  lemma CvdIsNetVolume(accumulator: DeltaAccumulator, tracker: CVDTracker)
    requires accumulator.Valid() && tracker.Valid() && tracker.added == accumulator.allBars != []
    ensures tracker.bars != []
    ensures var ticks := Flatten(accumulator.groups);
            && accumulator.History() == ticks + accumulator.open
            && tracker.bars[|tracker.bars| - 1].value == Bought(ticks) - Sold(ticks)
  {
    DeltasAreNetVolume(accumulator.allBars, accumulator.groups, accumulator.barDuration);
    LastPoint(tracker.bars, tracker.added);
  }

  /** The last of the kept points carries the sum of all deltas. */
  lemma LastPoint(kept: seq<CVDPoint>, added: seq<DeltaBar>)
    requires Suffix(kept, Points(added)) && added != [] && kept != []
    ensures kept[|kept| - 1].value == DeltaSum(added)
  {
    assert kept[|kept| - 1] == Points(added)[|added| - 1];
  }
}
