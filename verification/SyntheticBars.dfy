/** The synthetic intraday bars cut from a generated path (scripts/stooq_synthetic.py).  The
    path's prices are arbitrary. */
module SyntheticBars {
  import opened Common

  /** A daily bar, as far as the generator reads it; times are in seconds, the volume may be NULL. */
  datatype DailyBar = DailyBar(time: int, volume: Option<real>)

  datatype Bar = Bar(timeframe: string, time: int, open: int, high: int, low: int, close: int, volume: int)

  const PRICE_SCALE := 100000.0
  const N_MINUTES: nat := 390
  const DAY := 86400
  const SESSION := 48600  // 13:30

  function Date(time: int): int {
    time / DAY
  }

  // ---------------------------------------------------------------- rounding

  /** Python's round: to the nearest integer, halves to even. */
  function Round(x: real): (r: int)
    ensures -0.5 <= r as real - x <= 0.5
    ensures r as real - x == 0.5 || x - r as real == 0.5 ==> r % 2 == 0
  {
    var f := x.Floor;
    var d := x - f as real;
    if d < 0.5 then f else if d > 0.5 then f + 1 else if f % 2 == 0 then f else f + 1
  }

  lemma RoundIsNear(x: real)
    ensures -0.5 <= Round(x) as real - x <= 0.5
  {}

  lemma RoundMonotone(x: real, y: real)
    requires x <= y
    ensures Round(x) <= Round(y)
  {
    if x.Floor != y.Floor {
      assert x.Floor < y.Floor;
    }
  }

  function Scaled(price: real): int {
    Round(price * PRICE_SCALE)
  }

  lemma ScaledMonotone(p: real, q: real)
    requires p <= q
    ensures Scaled(p) <= Scaled(q)
  {
    RoundMonotone(p * PRICE_SCALE, q * PRICE_SCALE);
  }

  // ---------------------------------------------------------------- one bar

  function Max(s: seq<real>): (m: real)
    requires s != []
    ensures m in s && forall i :: 0 <= i < |s| ==> s[i] <= m
  {
    if |s| == 1 then s[0] else
      var rest := Max(s[1..]);
      if s[0] < rest then rest else s[0]
  }

  function Min(s: seq<real>): (m: real)
    requires s != []
    ensures m in s && forall i :: 0 <= i < |s| ==> m <= s[i]
  {
    if |s| == 1 then s[0] else
      var rest := Min(s[1..]);
      if rest < s[0] then rest else s[0]
  }

  /** A target timeframe: so many bars a day of so many minutes each. */
  datatype Target = Target(name: string, bars: nat, minutes: nat)

  /** The bars cover the path, the last one perhaps in part, and none starts after its end. */
  predicate Covers(t: Target) {
    0 < t.bars && 0 < t.minutes && (t.bars - 1) * t.minutes < N_MINUTES <= t.bars * t.minutes
  }

  function Start(t: Target, i: int): int {
    i * t.minutes
  }

  lemma Starts(t: Target, i: int, j: int)
    requires Covers(t) && 0 <= i <= j < t.bars
    ensures 0 <= Start(t, i) <= Start(t, j) < N_MINUTES
    ensures i < j ==> Start(t, i) + t.minutes <= Start(t, j)
    ensures Start(t, i + 1) == Start(t, i) + t.minutes
  {
    assert 0 <= i * t.minutes;
    assert i < j ==> (i + 1) * t.minutes <= j * t.minutes;
    assert j * t.minutes <= (t.bars - 1) * t.minutes;
  }

  /** Python's slice, cut off at the end of the path. */
  function Segment(path: seq<real>, start: nat, minutes: nat): seq<real> {
    if start >= |path| then []
    else if start + minutes <= |path| then path[start..start + minutes]
    else path[start..]
  }

  function ShareOf(volume: Option<real>, bars: nat): int
    requires bars > 0
  {
    Round((if volume.Some? then volume.value else 0.0) / bars as real)
  }

  function BarOf(t: Target, day: DailyBar, path: seq<real>, i: nat): Bar
    requires t.bars > 0 && Segment(path, Start(t, i), t.minutes) != []
  {
    var seg := Segment(path, Start(t, i), t.minutes);
    Bar(t.name, Date(day.time) * DAY + SESSION + 60 * Start(t, i),
        Scaled(seg[0]), Scaled(Max(seg)), Scaled(Min(seg)), Scaled(seg[|seg| - 1]), ShareOf(day.volume, t.bars))
  }

  predicate Ordered(b: Bar) {
    b.low <= b.open <= b.high && b.low <= b.close <= b.high
  }

  lemma BarOrdered(t: Target, day: DailyBar, path: seq<real>, i: nat)
    requires t.bars > 0 && Segment(path, Start(t, i), t.minutes) != []
    ensures Ordered(BarOf(t, day, path, i))
  {
    hide Round, Scaled, ShareOf;
    var seg := Segment(path, Start(t, i), t.minutes);
    ScaledMonotone(Min(seg), seg[0]);
    ScaledMonotone(seg[0], Max(seg));
    ScaledMonotone(Min(seg), seg[|seg| - 1]);
    ScaledMonotone(seg[|seg| - 1], Max(seg));
  }

  // ---------------------------------------------------------------- one day

  lemma SegmentNotEmpty(t: Target, path: seq<real>, i: nat)
    requires Covers(t) && |path| == N_MINUTES && i < t.bars
    ensures Start(t, i) >= 0 && Segment(path, Start(t, i), t.minutes) != []
  {
    Starts(t, i, i);
  }

  /** What a day contributes: one bar per segment, in order. */
  ghost predicate IsDay(t: Target, day: DailyBar, path: seq<real>, bars: seq<Bar>)
    requires Covers(t) && |path| == N_MINUTES
  {
    && |bars| == t.bars
    && forall i :: 0 <= i < t.bars ==>
         Start(t, i) >= 0 && Segment(path, Start(t, i), t.minutes) != [] && bars[i] == BarOf(t, day, path, i)
  }

  function Volume(bars: seq<Bar>): int {
    if bars == [] then 0 else Volume(bars[..|bars| - 1]) + bars[|bars| - 1].volume
  }

  lemma {:induction false} EqualShares(bars: seq<Bar>, share: int)
    requires forall i :: 0 <= i < |bars| ==> bars[i].volume == share
    ensures Volume(bars) == |bars| * share
  {
    if bars != [] {
      EqualShares(bars[..|bars| - 1], share);
    }
  }

  predicate WithinHalf(total: real, v: real, n: real) {
    -n / 2.0 <= total - v <= n / 2.0
  }

  /** Rounding loses or adds at most half a unit a bar. */
  lemma DayVolume(t: Target, day: DailyBar, path: seq<real>, bars: seq<Bar>)
    requires Covers(t) && |path| == N_MINUTES && IsDay(t, day, path, bars)
    ensures WithinHalf(Volume(bars) as real, if day.volume.Some? then day.volume.value else 0.0, t.bars as real)
  {
    DayShares(t, day, path, bars);
    var v := if day.volume.Some? then day.volume.value else 0.0;
    hide Volume, Covers, IsDay, Round, WithinHalf;
    SharesNear(t.bars, v);
  }

  lemma DayShares(t: Target, day: DailyBar, path: seq<real>, bars: seq<Bar>)
    requires Covers(t) && |path| == N_MINUTES && IsDay(t, day, path, bars)
    ensures Volume(bars) == t.bars * ShareOf(day.volume, t.bars)
  {
    hide ShareOf, Scaled;
    EqualShares(bars, ShareOf(day.volume, t.bars));
  }

  lemma SharesNear(n: nat, v: real)
    requires n > 0
    ensures WithinHalf((n * Round(v / n as real)) as real, v, n as real)
  {
    var m := n as real;
    var q := v / m;
    assert m * q == v;
    RoundIsNear(q);
    hide Round, WithinHalf;
    var r := Round(q);
    ShareError(m, q, r as real);
    RealProduct(n, r);
  }

  lemma {:induction false} RealProduct(n: nat, k: int)
    ensures (n * k) as real == n as real * k as real
  {
    if n > 0 {
      RealProduct(n - 1, k);
      assert n * k == (n - 1) * k + k;
      assert n as real * k as real == (n - 1) as real * k as real + k as real;
    }
  }

  lemma ShareError(n: real, q: real, r: real)
    requires n >= 0.0 && -0.5 <= r - q <= 0.5
    ensures WithinHalf(n * r, n * q, n)
  {
    assert n * r - n * q == n * (r - q);
  }

  /** The day opens where the path opens and closes where it closes. */
  lemma DayEnds(t: Target, day: DailyBar, path: seq<real>, bars: seq<Bar>)
    requires Covers(t) && |path| == N_MINUTES && IsDay(t, day, path, bars)
    ensures bars[0].open == Scaled(path[0]) && bars[t.bars - 1].close == Scaled(path[N_MINUTES - 1])
  {
    FirstBar(t, day, path);
    LastBar(t, day, path);
    hide Scaled, ShareOf, Max, Min, Segment, Covers, BarOf;
  }

  lemma FirstBar(t: Target, day: DailyBar, path: seq<real>)
    requires Covers(t) && |path| == N_MINUTES
    ensures Start(t, 0) >= 0 && Segment(path, Start(t, 0), t.minutes) != []
    ensures BarOf(t, day, path, 0).open == Scaled(path[0])
  {
    Starts(t, 0, 0);
    hide Scaled, ShareOf, Max, Min;
  }

  lemma LastBar(t: Target, day: DailyBar, path: seq<real>)
    requires Covers(t) && |path| == N_MINUTES
    ensures Start(t, t.bars - 1) >= 0 && Segment(path, Start(t, t.bars - 1), t.minutes) != []
    ensures BarOf(t, day, path, t.bars - 1).close == Scaled(path[N_MINUTES - 1])
  {
    LastSegment(t, path);
    hide Scaled, ShareOf, Max, Min, Segment, Start;
  }

  /** The bars' extremes are the path's: no minute is left out, and rounding keeps order. */
  lemma DayRange(t: Target, day: DailyBar, path: seq<real>, bars: seq<Bar>)
    requires Covers(t) && |path| == N_MINUTES && IsDay(t, day, path, bars)
    ensures forall i :: 0 <= i < t.bars ==> Scaled(Min(path)) <= bars[i].low && bars[i].high <= Scaled(Max(path))
    ensures exists i :: 0 <= i < t.bars && bars[i].high == Scaled(Max(path))
    ensures exists i :: 0 <= i < t.bars && bars[i].low == Scaled(Min(path))
  {
    hide Scaled, ShareOf, Max, Min, Covers, Segment, Start;
    forall i | 0 <= i < t.bars
      ensures Scaled(Min(path)) <= bars[i].low && bars[i].high <= Scaled(Max(path))
    {
      BarInPath(t, day, path, i);
    }
    var high, low := IndexOf(path, Max(path)), IndexOf(path, Min(path));
    var h := SegmentOf(t, path, high);
    var l := SegmentOf(t, path, low);
    BarInPath(t, day, path, h);
    BarInPath(t, day, path, l);
    assert bars[h].high == Scaled(Max(path));
    assert bars[l].low == Scaled(Min(path));
  }

  function IndexOf(path: seq<real>, x: real): (k: nat)
    requires x in path
    ensures k < |path| && path[k] == x
  {
    if path[0] == x then 0 else 1 + IndexOf(path[1..], x)
  }

  /** A bar stays within the path's range, and reaches its end when it holds the minute that does. */
  lemma BarInPath(t: Target, day: DailyBar, path: seq<real>, i: nat)
    requires Covers(t) && |path| == N_MINUTES && i < t.bars
    requires Start(t, i) >= 0 && Segment(path, Start(t, i), t.minutes) != []
    ensures var b, seg := BarOf(t, day, path, i), Segment(path, Start(t, i), t.minutes);
            && Scaled(Min(path)) <= b.low && b.high <= Scaled(Max(path))
            && (Max(path) in seg ==> b.high == Scaled(Max(path)))
            && (Min(path) in seg ==> b.low == Scaled(Min(path)))
  {
    var seg := Segment(path, Start(t, i), t.minutes);
    Starts(t, i, i);
    SegmentInPath(path, Start(t, i), t.minutes);
    ScaledMonotone(Min(path), Min(seg));
    ScaledMonotone(Max(seg), Max(path));
    hide Scaled, ShareOf;
    assert Max(path) in seg ==> Max(seg) == Max(path);
    assert Min(path) in seg ==> Min(seg) == Min(path);
  }

  lemma SegmentInPath(path: seq<real>, start: nat, minutes: nat)
    requires start < |path| && minutes > 0
    ensures Segment(path, start, minutes) != []
    ensures forall x :: x in Segment(path, start, minutes) ==> Min(path) <= x <= Max(path)
  {}

  lemma LastSegment(t: Target, path: seq<real>)
    requires Covers(t) && |path| == N_MINUTES
    ensures Start(t, t.bars - 1) >= 0
    ensures var seg := Segment(path, Start(t, t.bars - 1), t.minutes);
            seg != [] && seg[|seg| - 1] == path[N_MINUTES - 1]
  {
    Starts(t, t.bars - 1, t.bars - 1);
    assert Start(t, t.bars) == t.bars * t.minutes;
  }

  /** Every minute lies in some segment. */
  lemma SegmentOf(t: Target, path: seq<real>, k: nat) returns (i: nat)
    requires Covers(t) && |path| == N_MINUTES && k < N_MINUTES
    ensures i < t.bars && Start(t, i) >= 0 && path[k] in Segment(path, Start(t, i), t.minutes)
  {
    i := k / t.minutes;
    QuotientBounds(k, t.minutes, t.bars);
    Starts(t, i, i);
    var seg := Segment(path, Start(t, i), t.minutes);
    assert Start(t, i) <= k < Start(t, i) + t.minutes;
    assert seg[k - Start(t, i)] == path[k];
  }

  lemma QuotientBounds(k: nat, m: nat, n: nat)
    requires m > 0 && k < n * m
    ensures 0 <= k / m < n && (k / m) * m <= k < (k / m) * m + m
  {
    assert k == (k / m) * m + k % m;
    ProductMonotone(n, k / m, m);
  }

  lemma ProductMonotone(a: nat, b: nat, m: nat)
    ensures a <= b ==> a * m <= b * m
  {}

  // ---------------------------------------------------------------- distinct keys

  predicate DistinctDates(days: seq<DailyBar>) {
    forall i, j :: 0 <= i < j < |days| ==> Date(days[i].time) != Date(days[j].time)
  }

  ghost predicate DistinctTimes(bars: seq<Bar>) {
    forall i, j :: 0 <= i < j < |bars| ==> bars[i].time != bars[j].time
  }

  /** A bar stays on its day and bars of a day have times of their own. */
  lemma TimesOfDay(t: Target, day: DailyBar, path: seq<real>, bars: seq<Bar>)
    requires Covers(t) && |path| == N_MINUTES && IsDay(t, day, path, bars)
    ensures DistinctTimes(bars)
    ensures forall i :: 0 <= i < |bars| ==> Date(bars[i].time) == Date(day.time)
  {
    forall i | 0 <= i < |bars|
      ensures Date(bars[i].time) == Date(day.time)
    {
      Starts(t, i, i);
    }
    forall i, j | 0 <= i < j < |bars|
      ensures bars[i].time != bars[j].time
    {
      Starts(t, i, j);
    }
  }

  /** What generating a target up to a time makes of the daily bars: every bar is ordered, has a
      time of its own, on the day of one of them. */
  ghost predicate Layout(t: Target, days: seq<DailyBar>, end: int, bars: seq<Bar>) {
    && DistinctTimes(bars)
    && (forall i :: 0 <= i < |bars| ==> bars[i].timeframe == t.name && Ordered(bars[i]))
    && (forall i :: 0 <= i < |bars| ==> OnSomeDay(days, end, Date(bars[i].time)))
  }

  predicate OnSomeDay(days: seq<DailyBar>, end: int, date: int) {
    exists k :: 0 <= k < |days| && days[k].time < end && Date(days[k].time) == date
  }

  lemma OneMoreDay(days: seq<DailyBar>, k: nat, end: int, date: int)
    requires k < |days|
    ensures OnSomeDay(days[..k + 1], end, date) <==>
              OnSomeDay(days[..k], end, date) || (days[k].time < end && Date(days[k].time) == date)
  {
    var before, upto := days[..k], days[..k + 1];
    assert upto[k] == days[k] && forall j :: 0 <= j < k ==> upto[j] == before[j];
  }

  lemma LayoutNext(t: Target, days: seq<DailyBar>, k: nat, end: int, path: seq<real>, bars: seq<Bar>, more: seq<Bar>)
    requires Covers(t) && |path| == N_MINUTES && k < |days| && days[k].time < end && DistinctDates(days)
    requires Layout(t, days[..k], end, bars) && IsDay(t, days[k], path, more)
    ensures Layout(t, days[..k + 1], end, bars + more)
  {
    TimesOfDay(t, days[k], path, more);
    forall i | 0 <= i < |more|
      ensures Ordered(more[i])
    {
      BarOrdered(t, days[k], path, i);
    }
    var all := bars + more;
    forall i | 0 <= i < |all|
      ensures OnSomeDay(days[..k + 1], end, Date(all[i].time))
      ensures i < |bars| ==> Date(all[i].time) != Date(days[k].time)
    {
      OneMoreDay(days, k, end, Date(all[i].time));
    }
  }

  lemma LayoutSkips(t: Target, days: seq<DailyBar>, k: nat, end: int, bars: seq<Bar>)
    requires k < |days| && Layout(t, days[..k], end, bars)
    ensures Layout(t, days[..k + 1], end, bars)
  {
    forall i | 0 <= i < |bars|
      ensures OnSomeDay(days[..k + 1], end, Date(bars[i].time))
    {
      OneMoreDay(days, k, end, Date(bars[i].time));
    }
  }

  /** The bars of the days before the end, day after day. */
  function AllBars(t: Target, days: seq<DailyBar>, end: int, paths: nat -> seq<real>): seq<Bar>
    requires Covers(t) && forall k :: |paths(k)| == N_MINUTES
  {
    if days == [] then [] else
      var n := |days| - 1;
      AllBars(t, days[..n], end, paths) + if days[n].time < end then DayBars(t, days[n], paths(n)) else []
  }

  function DayBars(t: Target, day: DailyBar, path: seq<real>): (bars: seq<Bar>)
    requires Covers(t) && |path| == N_MINUTES
    ensures IsDay(t, day, path, bars)
  {
    SegmentsNotEmpty(t, path);
    seq(t.bars, i requires 0 <= i < t.bars => BarOf(t, day, path, i))
  }

  lemma SegmentsNotEmpty(t: Target, path: seq<real>)
    requires Covers(t) && |path| == N_MINUTES
    ensures forall i: nat :: i < t.bars ==> Start(t, i) >= 0 && Segment(path, Start(t, i), t.minutes) != []
  {
    forall i: nat | i < t.bars
      ensures Start(t, i) >= 0 && Segment(path, Start(t, i), t.minutes) != []
    {
      SegmentNotEmpty(t, path, i);
    }
  }

  lemma {:induction false} AllBarsLayout(t: Target, days: seq<DailyBar>, end: int, paths: nat -> seq<real>)
    requires Covers(t) && (forall k :: |paths(k)| == N_MINUTES) && DistinctDates(days)
    ensures Layout(t, days, end, AllBars(t, days, end, paths))
  {
    if days != [] {
      var n := |days| - 1;
      AllBarsLayout(t, days[..n], end, paths);
      hide Layout, IsDay, DistinctDates;
      assert days[..n + 1] == days;
      if days[n].time < end {
        LayoutNext(t, days, n, end, paths(n), AllBars(t, days[..n], end, paths), DayBars(t, days[n], paths(n)));
      } else {
        LayoutSkips(t, days, n, end, AllBars(t, days[..n], end, paths));
        assert AllBars(t, days, end, paths) == AllBars(t, days[..n], end, paths);
      }
    }
  }

  // ---------------------------------------------------------------- one bar a date

  predicate HasDate(days: seq<DailyBar>, date: int) {
    exists i :: 0 <= i < |days| && Date(days[i].time) == date
  }

  function FirstOfEachDate(daily: seq<DailyBar>): seq<DailyBar> {
    if daily == [] then [] else
      var n := |daily| - 1;
      FirstOfEachDate(daily[..n]) + if HasDate(daily[..n], Date(daily[n].time)) then [] else [daily[n]]
  }

  predicate InOrder(days: seq<DailyBar>) {
    forall i, j :: 0 <= i < j < |days| ==> days[i].time <= days[j].time
  }

  lemma FirstStays(front: seq<DailyBar>, bar: DailyBar, next: DailyBar)
    requires IsFirst(front, bar)
    ensures IsFirst(front + [next], bar)
  {
    hide Date;
    var i :| 0 <= i < |front| && front[i] == bar && forall j :: 0 <= j < i ==> Date(front[j].time) != Date(bar.time);
    var daily := front + [next];
    assert daily[i] == bar && forall j :: 0 <= j < i ==> daily[j] == front[j];
  }

  lemma FirstAdded(front: seq<DailyBar>, next: DailyBar)
    requires !HasDate(front, Date(next.time))
    ensures IsFirst(front + [next], next)
  {
    hide Date;
    var daily := front + [next];
    assert daily[|front|] == next && forall j :: 0 <= j < |front| ==> daily[j] == front[j];
  }

  /** Every date is kept once, by its first bar. */
  lemma {:induction false} KeepsFirstOfEachDate(daily: seq<DailyBar>)
    ensures var kept := FirstOfEachDate(daily);
            && DistinctDates(kept)
            && (forall date :: HasDate(kept, date) <==> HasDate(daily, date))
            && (forall k :: 0 <= k < |kept| ==> IsFirst(daily, kept[k]))
            && (InOrder(daily) ==> InOrder(kept))
  {
    if daily != [] {
      var n := |daily| - 1;
      var last, front := daily[n], FirstOfEachDate(daily[..n]);
      KeepsFirstOfEachDate(daily[..n]);
      KeepsDates(daily[..n], front, last);
      assert daily == daily[..n] + [last];
      forall k | 0 <= k < |front|
        ensures IsFirst(daily, front[k])
        ensures HasDate(front, Date(front[k].time))
        ensures InOrder(daily) ==> front[k].time <= last.time
      {
        FirstStays(daily[..n], front[k], last);
        EarlierBar(daily[..n], front[k], last);
      }
      if !HasDate(daily[..n], Date(last.time)) {
        FirstAdded(daily[..n], last);
      }
      hide HasDate, IsFirst, Date, FirstOfEachDate;
      assert front + [] == front;
    }
  }

  lemma EarlierBar(front: seq<DailyBar>, bar: DailyBar, next: DailyBar)
    requires IsFirst(front, bar)
    ensures InOrder(front + [next]) ==> bar.time <= next.time
  {
    var i :| 0 <= i < |front| && front[i] == bar && forall j :: 0 <= j < i ==> Date(front[j].time) != Date(bar.time);
    var daily := front + [next];
    assert daily[i] == bar && daily[|front|] == next;
  }

  /** The first bar of its date. */
  ghost predicate IsFirst(daily: seq<DailyBar>, bar: DailyBar) {
    exists i :: 0 <= i < |daily| && daily[i] == bar && forall j :: 0 <= j < i ==> Date(daily[j].time) != Date(bar.time)
  }

  lemma KeepsDates(daily: seq<DailyBar>, front: seq<DailyBar>, bar: DailyBar)
    requires forall date :: HasDate(front, date) <==> HasDate(daily, date)
    ensures var kept := front + if HasDate(daily, Date(bar.time)) then [] else [bar];
            forall date :: HasDate(kept, date) <==> HasDate(daily + [bar], date)
  {
    DatesOfLast(daily, bar);
    DatesOfLast(front, bar);
    hide HasDate;
    assert front + [] == front;
  }

  lemma DatesOfLast(days: seq<DailyBar>, bar: DailyBar)
    ensures forall date :: HasDate(days + [bar], date) <==> HasDate(days, date) || date == Date(bar.time)
  {
    var all := days + [bar];
    assert all[|days|] == bar && forall i :: 0 <= i < |days| ==> all[i] == days[i];
  }

  // ---------------------------------------------------------------- the generator

  method Deduplicate(daily: seq<DailyBar>) returns (deduped: seq<DailyBar>)
    ensures deduped == FirstOfEachDate(daily)
    ensures DistinctDates(deduped)
  {
    var seenDates := {};
    deduped := [];
    assert daily[..0] == [];
    for k := 0 to |daily|
      invariant deduped == FirstOfEachDate(daily[..k])
      invariant forall date :: date in seenDates <==> HasDate(daily[..k], date)
    {
      var d := Date(daily[k].time);
      assert daily[..k + 1] == daily[..k] + [daily[k]];
      DatesOfLast(daily[..k], daily[k]);
      assert daily[..k + 1][..k] == daily[..k];
      if d in seenDates {
        continue;
      }
      seenDates := seenDates + {d};
      deduped := deduped + [daily[k]];
    }
    assert daily[..|daily|] == daily;
    KeepsFirstOfEachDate(daily);
  }

  /** The bars of one target.  Each day draws a path of its own. */
  method GenerateTarget(t: Target, days: seq<DailyBar>, end: int, paths: nat -> seq<real>) returns (rows: seq<Bar>)
    requires Covers(t) && forall k :: |paths(k)| == N_MINUTES
    ensures rows == AllBars(t, days, end, paths)
  {
    rows := [];
    for k := 0 to |days|
      invariant rows == AllBars(t, days[..k], end, paths)
    {
      var bar, path := days[k], paths(k);
      assert days[..k + 1][..k] == days[..k];
      assert rows + [] == rows;
      if bar.time >= end {
        continue;
      }
      rows := AppendDay(rows, t, bar, path);
    }
    assert days[..|days|] == days;
  }

  /** The inner loop: one bar a segment. */
  method AppendDay(before: seq<Bar>, t: Target, bar: DailyBar, path: seq<real>) returns (rows: seq<Bar>)
    requires Covers(t) && |path| == N_MINUTES
    ensures rows == before + DayBars(t, bar, path)
  {
    hide Scaled, ShareOf, Covers, Segment, Date;
    rows := before;
    var base := Date(bar.time) * DAY + SESSION;
    ghost var day := DayBars(t, bar, path);
    for i := 0 to t.bars
      invariant rows == before + day[..i]
    {
      SegmentNotEmpty(t, path, i);
      var si := Start(t, i);
      var seg := Segment(path, si, t.minutes);
      if |seg| == 0 {
        continue;
      }
      var next := Bar(t.name, base + 60 * si, Scaled(seg[0]), Scaled(Max(seg)), Scaled(Min(seg)),
                      Scaled(seg[|seg| - 1]), ShareOf(bar.volume, t.bars));
      assert next == day[i];
      assert before + day[..i] + [day[i]] == before + day[..i + 1];
      rows := rows + [next];
    }
    assert day[..t.bars] == day;
  }

  function Targets(): (targets: seq<Target>)
    ensures |targets| == 4
  {
    [Target("1h", 7, 60), Target("5m", 78, 5), Target("15m", 26, 15), Target("30m", 13, 30)]
  }

  ghost predicate DistinctKeys(rows: seq<Bar>) {
    forall i, j :: 0 <= i < j < |rows| ==> rows[i].timeframe != rows[j].timeframe || rows[i].time != rows[j].time
  }

  /** All rows for a symbol: whatever the daily rows and the drawn paths, the keys are distinct
      and the bars ordered. */
  method GenerateForSymbol(daily: seq<DailyBar>, tier1End: int, tier2End: int, paths: nat -> nat -> seq<real>)
    returns (rows: seq<Bar>)
    requires forall n, k :: |paths(n)(k)| == N_MINUTES
    ensures DistinctKeys(rows)
    ensures forall i :: 0 <= i < |rows| ==> Ordered(rows[i])
    ensures rows == Rows(FirstOfEachDate(daily), tier1End, tier2End, paths, 4)
  {
    hide DistinctKeys, Ordered, Targets, AllBars, Covers, FirstOfEachDate, DistinctDates;
    var days := Deduplicate(daily);
    rows := [];
    for n := 0 to 4
      invariant rows == Rows(days, tier1End, tier2End, paths, n)
    {
      TargetsCover(n);
      var more := GenerateTarget(Targets()[n], days, if n == 0 then tier1End else tier2End, paths(n));
      rows := rows + more;
    }
    RowsSound(days, tier1End, tier2End, paths, 4);
  }

  lemma TargetsCover(n: nat)
    requires n < 4
    ensures Covers(Targets()[n])
  {}

  function Rows(days: seq<DailyBar>, tier1End: int, tier2End: int, paths: nat -> nat -> seq<real>, n: nat): seq<Bar>
    requires n <= 4 && forall n, k :: |paths(n)(k)| == N_MINUTES
  {
    if n == 0 then [] else
      TargetsCover(n - 1);
      Rows(days, tier1End, tier2End, paths, n - 1)
      + AllBars(Targets()[n - 1], days, if n == 1 then tier1End else tier2End, paths(n - 1))
  }

  lemma {:induction false} RowsSound(days: seq<DailyBar>, tier1End: int, tier2End: int, paths: nat -> nat -> seq<real>,
                                     n: nat)
    requires n <= 4 && (forall n, k :: |paths(n)(k)| == N_MINUTES) && DistinctDates(days)
    ensures var rows := Rows(days, tier1End, tier2End, paths, n);
            && DistinctKeys(rows)
            && forall i :: 0 <= i < |rows|
                ==> Ordered(rows[i]) && exists m :: 0 <= m < n && rows[i].timeframe == Targets()[m].name
  {
    if n > 0 {
      var t, end := Targets()[n - 1], if n == 1 then tier1End else tier2End;
      var before := Rows(days, tier1End, tier2End, paths, n - 1);
      RowsSound(days, tier1End, tier2End, paths, n - 1);
      TargetsCover(n - 1);
      AllBarsLayout(t, days, end, paths(n - 1));
      NamesDiffer();
      var more := AllBars(t, days, end, paths(n - 1));
      hide Ordered, AllBars, Rows, Targets, OnSomeDay, DistinctDates;
      forall i | 0 <= i < |before|
        ensures before[i].timeframe != t.name
      {
        var m :| 0 <= m < n - 1 && before[i].timeframe == Targets()[m].name;
      }
      JoinKeys(before, more, t.name);
      forall i | 0 <= i < |before + more|
        ensures Ordered((before + more)[i])
        ensures exists m :: 0 <= m < n && (before + more)[i].timeframe == Targets()[m].name
      {
      }
    }
  }

  lemma JoinKeys(before: seq<Bar>, more: seq<Bar>, name: string)
    requires DistinctKeys(before) && DistinctTimes(more)
    requires forall i :: 0 <= i < |before| ==> before[i].timeframe != name
    requires forall i :: 0 <= i < |more| ==> more[i].timeframe == name
    ensures DistinctKeys(before + more)
  {}

  lemma NamesDiffer()
    ensures forall m, n :: 0 <= m < n < 4 ==> Targets()[m].name != Targets()[n].name
  {
    assert "1h"[0] == '1' && "5m"[0] == '5' && |"15m"| == 3 && "15m"[0] == '1' && "30m"[0] == '3';
  }
}
