/** The generated rows read off the daily bars and the paths: which days each timeframe covers, and
    what each bar shows (scripts/stooq_synthetic.py). */
module SyntheticCoverage {
  import opened Common
  import opened SyntheticBars

  /** The day of a time starts at this midnight. */
  predicate IsMidnight(midnight: int, time: int) {
    midnight % 86400 == 0 && midnight <= time < midnight + 86400
  }

  /** A price in raw units, rounded. */
  predicate IsNear(raw: int, price: real) {
    -0.5 <= raw as real - 100000.0 * price <= 0.5
  }

  /** The minutes of bar i, up to the end of the 390. */
  function Minutes(path: seq<real>, minutes: nat, i: nat): seq<real> {
    if i * minutes + minutes <= |path| then path[i * minutes..i * minutes + minutes]
    else if i * minutes <= |path| then path[i * minutes..]
    else []
  }

  /** The bar opens, peaks, bottoms and closes as these minutes do. */
  ghost predicate ShowsMinutes(b: Bar, seg: seq<real>) {
    && seg != [] && IsNear(b.open, seg[0]) && IsNear(b.close, seg[|seg| - 1])
    && (exists k :: 0 <= k < |seg| && IsNear(b.high, seg[k]) && forall j :: 0 <= j < |seg| ==> seg[j] <= seg[k])
    && (exists k :: 0 <= k < |seg| && IsNear(b.low, seg[k]) && forall j :: 0 <= j < |seg| ==> seg[k] <= seg[j])
  }

  /** Bar i of a day: minutes * i minutes after 13:30 of its date, with an equal share of its volume. */
  ghost predicate IsBar(b: Bar, name: string, bars: nat, minutes: nat, day: DailyBar, path: seq<real>, i: nat) {
    && b.timeframe == name && IsMidnight(b.time - 60 * (13 * 60 + 30 + i * minutes), day.time)
    && ShowsMinutes(b, Minutes(path, minutes, i))
    && var v := if day.volume.Some? then day.volume.value else 0.0;
       bars > 0 && -0.5 <= b.volume as real - v / bars as real <= 0.5
  }

  /** Seven 1h bars a day up to the end of the first tier, and 5, 15 and 30 minute bars up to the
      end of the second. */
  predicate Planned(n: nat, name: string, bars: nat, minutes: nat, end: int, tier1End: int, tier2End: int) {
    || (n == 0 && name == "1h" && bars == 7 && minutes == 60 && end == tier1End)
    || (n == 1 && name == "5m" && bars == 78 && minutes == 5 && end == tier2End)
    || (n == 2 && name == "15m" && bars == 26 && minutes == 15 && end == tier2End)
    || (n == 3 && name == "30m" && bars == 13 && minutes == 30 && end == tier2End)
  }

  // ---------------------------------------------------------------- one bar

  lemma ScaledIsNear(price: real)
    ensures IsNear(Scaled(price), price)
  {
    RoundIsNear(price * SyntheticBars.PRICE_SCALE);
    hide Round;
  }

  lemma SegmentIsMinutes(t: Target, path: seq<real>, i: nat)
    requires Covers(t) && |path| == N_MINUTES && i < t.bars
    ensures Start(t, i) >= 0 && Segment(path, Start(t, i), t.minutes) == Minutes(path, t.minutes, i) != []
  {
    SegmentNotEmpty(t, path, i);
    Starts(t, i, i);
    hide Covers;
    assert Start(t, i) == i * t.minutes;
  }

  lemma BarShows(t: Target, day: DailyBar, path: seq<real>, i: nat)
    requires t.bars > 0 && Segment(path, Start(t, i), t.minutes) != []
    ensures ShowsMinutes(BarOf(t, day, path, i), Segment(path, Start(t, i), t.minutes))
  {
    hide Scaled, ShareOf, IsNear, Segment;
    var seg := Segment(path, Start(t, i), t.minutes);
    ScaledIsNear(seg[0]);
    ScaledIsNear(seg[|seg| - 1]);
    ScaledIsNear(Max(seg));
    ScaledIsNear(Min(seg));
    var high, low := IndexOf(seg, Max(seg)), IndexOf(seg, Min(seg));
    hide Max, Min;
    assert IsNear(BarOf(t, day, path, i).high, seg[high]) && IsNear(BarOf(t, day, path, i).low, seg[low]);
  }

  lemma BarIsBar(t: Target, day: DailyBar, path: seq<real>, i: nat)
    requires Covers(t) && |path| == N_MINUTES && i < t.bars
    ensures Start(t, i) >= 0 && Segment(path, Start(t, i), t.minutes) != []
    ensures IsBar(BarOf(t, day, path, i), t.name, t.bars, t.minutes, day, path, i)
  {
    SegmentIsMinutes(t, path, i);
    BarShows(t, day, path, i);
    RoundIsNear((if day.volume.Some? then day.volume.value else 0.0) / t.bars as real);
    hide ShowsMinutes, Segment, Minutes, Scaled, Round, Max, Min, Covers;
    assert Start(t, i) == i * t.minutes;
    MidnightOfDay(day.time);
  }

  lemma MidnightOfDay(time: int)
    ensures IsMidnight(Date(time) * DAY, time)
  {}

  // ---------------------------------------------------------------- all rows

  /** The row is a bar of this timeframe on one of the days before the end. */
  ghost predicate Cut(b: Bar, name: string, bars: nat, minutes: nat, days: seq<DailyBar>, end: int,
                      paths: nat -> seq<real>) {
    exists k: nat, i: nat :: IsCut(b, name, bars, minutes, days, end, paths, k, i)
  }

  ghost predicate IsCut(b: Bar, name: string, bars: nat, minutes: nat, days: seq<DailyBar>, end: int,
                        paths: nat -> seq<real>, k: nat, i: nat) {
    k < |days| && i < bars && days[k].time < end && IsBar(b, name, bars, minutes, days[k], paths(k), i)
  }

  /** The rows are cut from the days before the end, and each of these has all its bars. */
  ghost predicate AllCut(rows: seq<Bar>, name: string, bars: nat, minutes: nat, days: seq<DailyBar>, end: int,
                         paths: nat -> seq<real>) {
    && (forall b :: b in rows && b.timeframe == name ==> Cut(b, name, bars, minutes, days, end, paths))
    && forall k: nat, i: nat :: HasBar(rows, name, bars, minutes, days, end, paths, k, i)
  }

  ghost predicate HasBar(rows: seq<Bar>, name: string, bars: nat, minutes: nat, days: seq<DailyBar>, end: int,
                         paths: nat -> seq<real>, k: nat, i: nat) {
    k < |days| && i < bars && days[k].time < end ==>
      exists b :: b in rows && IsBar(b, name, bars, minutes, days[k], paths(k), i)
  }

  lemma DayBar(t: Target, day: DailyBar, path: seq<real>, i: nat)
    requires Covers(t) && |path| == N_MINUTES && i < t.bars
    ensures |DayBars(t, day, path)| == t.bars
            && IsBar(DayBars(t, day, path)[i], t.name, t.bars, t.minutes, day, path, i)
  {
    BarIsBar(t, day, path, i);
    hide Covers, IsBar, BarOf, Segment, Start;
  }

  lemma DayBarCount(t: Target, day: DailyBar, path: seq<real>)
    requires Covers(t) && |path| == N_MINUTES
    ensures |DayBars(t, day, path)| == t.bars
  {}

  lemma CutFromDay(own: seq<Bar>, name: string, bars: nat, minutes: nat, days: seq<DailyBar>, end: int,
                   paths: nat -> seq<real>, k: nat)
    requires |own| == bars && k < |days| && days[k].time < end
    requires forall i: nat :: i < bars ==> IsBar(own[i], name, bars, minutes, days[k], paths(k), i)
    ensures forall b :: b in own ==> Cut(b, name, bars, minutes, days, end, paths)
    ensures forall i: nat :: HasBar(own, name, bars, minutes, days, end, paths, k, i)
  {
    hide IsBar;
    forall b | b in own
      ensures Cut(b, name, bars, minutes, days, end, paths)
    {
      var i: nat :| i < |own| && own[i] == b;
      assert IsCut(b, name, bars, minutes, days, end, paths, k, i);
    }
    forall i: nat | i < bars
      ensures HasBar(own, name, bars, minutes, days, end, paths, k, i)
    {
      assert own[i] in own;
    }
  }

  lemma DayBarsCut(t: Target, days: seq<DailyBar>, k: nat, end: int, paths: nat -> seq<real>)
    requires Covers(t) && (forall k :: |paths(k)| == N_MINUTES) && k < |days| && days[k].time < end
    ensures forall b :: b in DayBars(t, days[k], paths(k)) ==> Cut(b, t.name, t.bars, t.minutes, days, end, paths)
    ensures forall i: nat :: HasBar(DayBars(t, days[k], paths(k)), t.name, t.bars, t.minutes, days, end, paths, k, i)
  {
    hide *;
    DayBarCount(t, days[k], paths(k));
    forall i: nat | i < t.bars
      ensures IsBar(DayBars(t, days[k], paths(k))[i], t.name, t.bars, t.minutes, days[k], paths(k), i)
    {
      DayBar(t, days[k], paths(k), i);
    }
    CutFromDay(DayBars(t, days[k], paths(k)), t.name, t.bars, t.minutes, days, end, paths, k);
  }

  lemma CutOfMore(b: Bar, name: string, bars: nat, minutes: nat, days: seq<DailyBar>, end: int, paths: nat -> seq<real>)
    requires days != [] && Cut(b, name, bars, minutes, days[..|days| - 1], end, paths)
    ensures Cut(b, name, bars, minutes, days, end, paths)
  {
    var k: nat, i: nat :| IsCut(b, name, bars, minutes, days[..|days| - 1], end, paths, k, i);
    hide IsBar;
    assert IsCut(b, name, bars, minutes, days, end, paths, k, i);
  }

  lemma HasBarMore(rows: seq<Bar>, more: seq<Bar>, t: Target, days: seq<DailyBar>, end: int, paths: nat -> seq<real>,
                   k: nat, i: nat)
    requires days != []
    requires k < |days| - 1 ==>
               HasBar(rows, t.name, t.bars, t.minutes, days[..|days| - 1], end, paths, k, i)
    requires k == |days| - 1 && days[k].time < end ==> HasBar(more, t.name, t.bars, t.minutes, days, end, paths, k, i)
    ensures HasBar(rows + more, t.name, t.bars, t.minutes, days, end, paths, k, i)
  {
    hide IsBar;
    assert forall b :: b in rows || b in more ==> b in rows + more;
  }

  lemma {:induction false} TargetCut(t: Target, days: seq<DailyBar>, end: int, paths: nat -> seq<real>)
    requires Covers(t) && (forall k :: |paths(k)| == N_MINUTES)
    ensures AllCut(AllBars(t, days, end, paths), t.name, t.bars, t.minutes, days, end, paths)
    ensures forall b :: b in AllBars(t, days, end, paths) ==> b.timeframe == t.name
  {
    if days != [] {
      var n := |days| - 1;
      TargetCut(t, days[..n], end, paths);
      var rows := AllBars(t, days[..n], end, paths);
      var more := if days[n].time < end then DayBars(t, days[n], paths(n)) else [];
      if days[n].time < end {
        DayBarsCut(t, days, n, end, paths);
      }
      hide Covers, IsBar, HasBar, IsCut, Cut, DayBars;
      forall b | b in rows + more
        ensures Cut(b, t.name, t.bars, t.minutes, days, end, paths) && b.timeframe == t.name
      {
        if b in rows {
          CutOfMore(b, t.name, t.bars, t.minutes, days, end, paths);
        } else {
          CutTimeframe(b, t.name, t.bars, t.minutes, days, end, paths);
        }
      }
      forall k: nat, i: nat
        ensures HasBar(rows + more, t.name, t.bars, t.minutes, days, end, paths, k, i)
      {
        HasBarMore(rows, more, t, days, end, paths, k, i);
      }
    } else {
      hide IsBar;
    }
  }

  lemma CutTimeframe(b: Bar, name: string, bars: nat, minutes: nat, days: seq<DailyBar>, end: int,
                     paths: nat -> seq<real>)
    requires Cut(b, name, bars, minutes, days, end, paths)
    ensures b.timeframe == name
  {}

  /** Of the rows of the first n targets those with the name of one of them are its bars. */
  lemma {:induction false} RowsOfTarget(days: seq<DailyBar>, tier1End: int, tier2End: int,
                                        paths: nat -> nat -> seq<real>, n: nat, m: nat)
    requires m < n <= 4 && forall n, k :: |paths(n)(k)| == N_MINUTES
    ensures Covers(Targets()[m])
    ensures var end := if m == 0 then tier1End else tier2End;
            forall b :: b in Rows(days, tier1End, tier2End, paths, n) && b.timeframe == Targets()[m].name
                        <==> b in AllBars(Targets()[m], days, end, paths(m))
  {
    TargetsCover(m);
    TargetsCover(n - 1);
    RowsLast(days, tier1End, tier2End, paths, n);
    NamesDiffer();
    hide *;
    var end := if m == 0 then tier1End else tier2End;
    var before := Rows(days, tier1End, tier2End, paths, n - 1);
    if m < n - 1 {
      var last := AllBars(Targets()[n - 1], days, if n == 1 then tier1End else tier2End, paths(n - 1));
      TargetCut(Targets()[n - 1], days, if n == 1 then tier1End else tier2End, paths(n - 1));
      RowsOfTarget(days, tier1End, tier2End, paths, n - 1, m);
      OthersAdded(before, last, AllBars(Targets()[m], days, end, paths(m)), Targets()[m].name, Targets()[n - 1].name);
    } else {
      TargetCut(Targets()[m], days, end, paths(m));
      RowsBefore(days, tier1End, tier2End, paths, m, m);
    }
  }

  lemma RowsLast(days: seq<DailyBar>, tier1End: int, tier2End: int, paths: nat -> nat -> seq<real>, n: nat)
    requires 0 < n <= 4 && forall n, k :: |paths(n)(k)| == N_MINUTES
    ensures Covers(Targets()[n - 1])
    ensures Rows(days, tier1End, tier2End, paths, n)
         == Rows(days, tier1End, tier2End, paths, n - 1)
            + AllBars(Targets()[n - 1], days, if n == 1 then tier1End else tier2End, paths(n - 1))
  {
    TargetsCover(n - 1);
    hide Covers, AllBars, Targets;
  }

  lemma OthersAdded(before: seq<Bar>, others: seq<Bar>, own: seq<Bar>, name: string, other: string)
    requires name != other && forall b :: b in others ==> b.timeframe == other
    requires forall b :: b in before && b.timeframe == name <==> b in own
    ensures forall b :: b in before + others && b.timeframe == name <==> b in own
  {}

  lemma {:induction false} RowsBefore(days: seq<DailyBar>, tier1End: int, tier2End: int,
                                      paths: nat -> nat -> seq<real>, n: nat, m: nat)
    requires n <= m < 4 && forall n, k :: |paths(n)(k)| == N_MINUTES
    ensures forall b :: b in Rows(days, tier1End, tier2End, paths, n) ==> b.timeframe != Targets()[m].name
  {
    if n > 0 {
      TargetsCover(n - 1);
      NamesDiffer();
      RowsBefore(days, tier1End, tier2End, paths, n - 1, m);
      TargetCut(Targets()[n - 1], days, if n == 1 then tier1End else tier2End, paths(n - 1));
      hide Covers, AllCut, Targets, AllBars;
    }
  }

  /** Whatever the daily bars and the paths: the rows of a timeframe are exactly its bars on the kept
      days before the end of its tier, each showing its own minutes of that day's path. */
  lemma RowsAreCut(days: seq<DailyBar>, tier1End: int, tier2End: int, paths: nat -> nat -> seq<real>, n: nat,
                   name: string, bars: nat, minutes: nat, end: int)
    requires (forall n, k :: |paths(n)(k)| == N_MINUTES) && Planned(n, name, bars, minutes, end, tier1End, tier2End)
    ensures AllCut(Rows(days, tier1End, tier2End, paths, 4), name, bars, minutes, days, end, paths(n))
  {
    assert n < 4 && Targets()[n] == Target(name, bars, minutes) && end == if n == 0 then tier1End else tier2End;
    hide Planned, Targets;
    RowsOfTarget(days, tier1End, tier2End, paths, 4, n);
    TargetCut(Targets()[n], days, end, paths(n));
    hide Covers, AllBars, Rows;
    AllCutOf(Rows(days, tier1End, tier2End, paths, 4), AllBars(Target(name, bars, minutes), days, end, paths(n)),
             name, bars, minutes, days, end, paths(n));
  }

  lemma AllCutOf(rows: seq<Bar>, own: seq<Bar>, name: string, bars: nat, minutes: nat, days: seq<DailyBar>, end: int,
                 paths: nat -> seq<real>)
    requires AllCut(own, name, bars, minutes, days, end, paths)
    requires forall b :: b in rows && b.timeframe == name <==> b in own
    ensures AllCut(rows, name, bars, minutes, days, end, paths)
  {
    hide IsBar, Cut;
    forall k: nat, i: nat
      ensures HasBar(rows, name, bars, minutes, days, end, paths, k, i)
    {
      assert HasBar(own, name, bars, minutes, days, end, paths, k, i);
    }
  }
}
