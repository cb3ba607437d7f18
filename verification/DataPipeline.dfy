/** The feeder of delta accumulator and CVD tracker (internal/monitor/datapipeline.go).  A waiting
    tick carries the time at which it is drained and the side it is classified as. */
module DataPipelines {
  import opened Common
  import opened Cvd

  const MAX_DRAINED: int := 1000

  /** The accumulator, and every bar fed to the tracker so far. */
  datatype Feed = Feed(acc: Accumulator, fed: seq<DeltaBar>)

  function TickAll(a: Accumulator, ticks: seq<Tick>, d: int): Accumulator {
    if ticks == [] then a else Ticked(TickAll(a, ticks[..|ticks| - 1], d), ticks[|ticks| - 1], d)
  }

  /** One drain: after its ticks, all completed bars the accumulator still keeps are fed. */
  function Drained(f: Feed, ticks: seq<Tick>, d: int): Feed {
    var a := TickAll(f.acc, ticks, d);
    Feed(a, f.fed + a.completed)
  }

  function Run(drains: seq<seq<Tick>>, now: int, d: int): Feed {
    if drains == [] then Feed(Accumulator(EmptyBar(Truncated(now, d)), [], []), [])
    else Drained(Run(drains[..|drains| - 1], now, d), drains[|drains| - 1], d)
  }

  class DataPipeline {
    var ring: seq<Tick>
    const accumulator: DeltaAccumulator
    const cvdTracker: CVDTracker
    var tickCount: int

    ghost predicate Valid()
      reads this, accumulator, cvdTracker
    {
      accumulator.Valid() && cvdTracker.Valid()
    }

    ghost function View(): Feed
      reads this, accumulator, cvdTracker
    {
      Feed(accumulator.View(), cvdTracker.added)
    }

    constructor (ring: seq<Tick>, barDuration: int, now: int)
      ensures Valid() && View() == Run([], now, barDuration) && accumulator.barDuration == barDuration
      ensures this.ring == ring && fresh(accumulator) && fresh(cvdTracker)
    {
      hide DeltaAccumulator.Valid, CVDTracker.Valid;
      this.ring, tickCount := ring, 0;
      accumulator := new DeltaAccumulator(barDuration, now);
      cvdTracker := new CVDTracker();
    }

    /** Takes up to 1000 ticks, then feeds all completed bars to the tracker: also those that an
        earlier drain has fed. */
    method DrainAndBroadcast()
      requires Valid()
      modifies this, accumulator, cvdTracker
      ensures Valid()
      ensures ring == old(ring)[Available(old(ring))..] && tickCount == old(tickCount) + Available(old(ring))
      ensures View() == Drained(old(View()), old(ring)[..Available(old(ring))], accumulator.barDuration)
    {
      hide DeltaAccumulator.Valid, CVDTracker.Valid, Ticked, TickAll;
      DrainTicks();
      FeedCompleted();
    }

    /** Lines 53-76. */
    method DrainTicks()
      requires Valid()
      modifies this, accumulator
      ensures Valid()
      ensures ring == old(ring)[Available(old(ring))..] && tickCount == old(tickCount) + Available(old(ring))
      ensures accumulator.View()
           == TickAll(old(accumulator.View()), old(ring)[..Available(old(ring))], accumulator.barDuration)
    {
      hide DeltaAccumulator.Valid, CVDTracker.Valid, Ticked;
      ghost var waiting := ring;
      var drained := 0;
      while drained < MAX_DRAINED
        invariant 0 <= drained <= MAX_DRAINED && drained <= |waiting|
        invariant ring == waiting[drained..] && tickCount == old(tickCount) + drained
        invariant Valid()
        invariant accumulator.View() == TickAll(old(accumulator.View()), waiting[..drained], accumulator.barDuration)
      {
        if ring == [] {
          break;
        }
        assert waiting[..drained + 1][..drained] == waiting[..drained];
        var tick := ring[0];
        ring := ring[1..];
        drained := drained + 1;
        tickCount := tickCount + 1;
        accumulator.AddTick(tick);
      }
    }

    /** Lines 78-95. */
    method FeedCompleted()
      requires Valid()
      modifies cvdTracker
      ensures Valid() && cvdTracker.added == old(cvdTracker.added) + accumulator.completed
    {
      hide DeltaAccumulator.Valid, CVDTracker.Valid, DeltaSum, Bounded;
      var completed := accumulator.completed;
      for i := 0 to |completed|
        invariant Valid()
        invariant cvdTracker.added == old(cvdTracker.added) + completed[..i]
      {
        cvdTracker.AddBar(completed[i]);
        assert completed[..i + 1] == completed[..i] + [completed[i]];
      }
      assert completed[..|completed|] == completed;
    }
  }

  /** How many of the waiting ticks one drain takes. */
  function Available(ring: seq<Tick>): (n: int)
    ensures 0 <= n <= |ring| && n <= 1000 && (n == |ring| || n == 1000)
  {
    if |ring| < MAX_DRAINED then |ring| else MAX_DRAINED
  }

  // ---------------------------------------------------------------- what is fed

  /** The accumulator keeps some last bars, at least one once there was one. */
  ghost predicate Keeps(a: Accumulator) {
    Suffix(a.completed, a.all) && (a.all != [] ==> a.completed != [])
  }

  lemma {:induction false} TickAllKeeps(a: Accumulator, ticks: seq<Tick>, d: int)
    requires Keeps(a)
    ensures var b := TickAll(a, ticks, d);
            && Keeps(b) && a.all <= b.all && |b.all| <= |a.all| + |ticks|
            && (|b.completed| >= KEPT_COMPLETED || |b.completed| == |a.completed| + |b.all| - |a.all|)
            && |b.completed| <= |a.completed| + |b.all| - |a.all|
            && (|a.completed| + |ticks| <= MAX_COMPLETED ==> |b.completed| == |a.completed| + |b.all| - |a.all|)
  {
    if ticks != [] {
      var n := |ticks| - 1;
      TickAllKeeps(a, ticks[..n], d);
      hide Counted, Truncated;
      var b := TickAll(a, ticks[..n], d);
      BoundedSuffix(b.completed, b.all, b.current, MAX_COMPLETED, KEPT_COMPLETED);
    }
  }

  /** Every completed bar has been fed at least once, and none before there was one. */
  lemma {:induction false} RunFeeds(drains: seq<seq<Tick>>, now: int, d: int)
    requires forall i :: 0 <= i < |drains| ==> |drains[i]| <= MAX_DRAINED
    ensures var f := Run(drains, now, d);
            && Keeps(f.acc) && |f.fed| >= |f.acc.all|
            && (f.acc.all == [] ==> f.fed == [])
  {
    if drains != [] {
      var front, ticks := drains[..|drains| - 1], drains[|drains| - 1];
      RunFeeds(front, now, d);
      TickAllKeeps(Run(front, now, d).acc, ticks, d);
      hide TickAll;
    }
  }

  /** Drains before the last have left no completed bar. */
  ghost predicate FirstBarsAtLast(drains: seq<seq<Tick>>, now: int, d: int) {
    forall i :: 0 <= i < |drains| ==> Run(drains[..i], now, d).acc.completed == []
  }

  /** The program feeds every completed bar exactly once, in order, exactly in the runs in which no
      bar had been completed before the last drain: every later drain feeds all kept bars again. */
  lemma FedOnceExactly(drains: seq<seq<Tick>>, now: int, d: int)
    requires forall i :: 0 <= i < |drains| ==> |drains[i]| <= MAX_DRAINED
    ensures var f := Run(drains, now, d); f.fed == f.acc.all <==> FirstBarsAtLast(drains, now, d)
  {
    if drains != [] {
      var n := |drains| - 1;
      var front, ticks := drains[..n], drains[n];
      var f := Run(front, now, d);
      RunFeeds(front, now, d);
      TickAllKeeps(f.acc, ticks, d);
      EarlierBars(drains, now, d);
      assert Run(drains, now, d) == Drained(f, ticks, d);
      hide TickAll, FirstBarsAtLast, Run, Suffix;
      MoreIsFed(f, TickAll(f.acc, ticks, d));
    }
  }

  lemma MoreIsFed(f: Feed, b: Accumulator)
    requires Keeps(f.acc) && Keeps(b) && f.acc.all <= b.all && |b.all| <= |f.acc.all| + MAX_DRAINED
    requires |b.completed| >= KEPT_COMPLETED || |b.completed| == |f.acc.completed| + |b.all| - |f.acc.all|
    requires |f.fed| >= |f.acc.all| && (f.acc.all == [] ==> f.fed == [])
    ensures f.fed + b.completed == b.all <==> f.acc.completed == []
  {
    if f.acc.completed == [] {
      assert f.fed + b.completed == b.completed;
      assert b.completed == b.all;
    } else {
      hide Suffix;
      assert |f.fed + b.completed| == |f.fed| + |b.completed| > |b.all|;
    }
  }

  lemma EarlierBars(drains: seq<seq<Tick>>, now: int, d: int)
    requires drains != [] && forall i :: 0 <= i < |drains| ==> |drains[i]| <= MAX_DRAINED
    ensures FirstBarsAtLast(drains, now, d) <==> Run(drains[..|drains| - 1], now, d).acc.completed == []
  {
    var n := |drains| - 1;
    if Run(drains[..n], now, d).acc.completed == [] {
      forall i | 0 <= i < |drains|
        ensures Run(drains[..i], now, d).acc.completed == []
      {
        BarsStay(drains[..n], now, d, i);
        assert drains[..n][..i] == drains[..i];
      }
    }
  }

  /** Once there is a completed bar there always is one. */
  lemma {:induction false} BarsStay(drains: seq<seq<Tick>>, now: int, d: int, i: nat)
    requires i <= |drains| && forall i :: 0 <= i < |drains| ==> |drains[i]| <= MAX_DRAINED
    ensures Run(drains, now, d).acc.completed == [] ==> Run(drains[..i], now, d).acc.completed == []
  {
    if i == |drains| {
      assert drains[..i] == drains;
    } else {
      var front := drains[..|drains| - 1];
      BarsStay(front, now, d, i);
      assert front[..i] == drains[..i];
      RunFeeds(front, now, d);
      TickAllKeeps(Run(front, now, d).acc, drains[|drains| - 1], d);
      hide TickAll;
    }
  }

  // ---------------------------------------------------------------- when the value is right

  lemma {:induction false} DeltaSumConcat(x: seq<DeltaBar>, y: seq<DeltaBar>)
    ensures DeltaSum(x + y) == DeltaSum(x) + DeltaSum(y)
  {
    if y == [] {
      assert x + y == x;
    } else {
      assert (x + y)[..|x + y| - 1] == x + y[..|y| - 1];
      DeltaSumConcat(x, y[..|y| - 1]);
    }
  }

  /** The tracker's value, the sum of all deltas fed, is the sum of the deltas of all bars. */
  ghost predicate ValueRight(f: Feed) {
    DeltaSum(f.fed) == DeltaSum(f.acc.all)
  }

  /** Of the bars kept before a drain, those that are kept after it, and so are fed again. */
  function FedAgain(a: Accumulator, b: Accumulator): seq<DeltaBar> {
    var more := |b.all| - |a.all|;
    if 0 <= more <= |b.completed| then b.completed[..|b.completed| - more] else []
  }

  /** A drain feeds its own bars once, and again the last of those kept before: all of them when
      none is truncated. */
  lemma DrainFeeds(a: Accumulator, ticks: seq<Tick>, d: int)
    requires Keeps(a) && |ticks| <= MAX_DRAINED
    ensures var b := TickAll(a, ticks, d);
            && a.all <= b.all && b.completed == FedAgain(a, b) + b.all[|a.all|..]
            && Suffix(FedAgain(a, b), a.completed)
            && (|a.completed| + |ticks| <= MAX_COMPLETED ==> FedAgain(a, b) == a.completed)
  {
    TickAllKeeps(a, ticks, d);
    hide TickAll;
    var b := TickAll(a, ticks, d);
    SplitSuffix(a.completed, a.all, b.completed, b.all);
    hide Suffix;
  }

  lemma SplitSuffix(kept: seq<DeltaBar>, all: seq<DeltaBar>, after: seq<DeltaBar>, allAfter: seq<DeltaBar>)
    requires Suffix(kept, all) && Suffix(after, allAfter) && all <= allAfter
    requires |allAfter| - |all| <= |after| <= |kept| + |allAfter| - |all|
    ensures var again := after[..|after| - (|allAfter| - |all|)];
            && after == again + allAfter[|all|..] && Suffix(again, kept)
            && (|again| == |kept| ==> again == kept)
  {
    var again := after[..|after| - (|allAfter| - |all|)];
    forall k | 0 <= k < |again|
      ensures again[k] == all[|all| - |again| + k] && again[k] == kept[|kept| - |again| + k]
    {
      assert again[k] == allAfter[|allAfter| - |after| + k];
    }
    assert after[|again|..] == allAfter[|all|..];
  }

  /** One drain moves the value off by the deltas of the bars it feeds again. */
  lemma DrainError(f: Feed, ticks: seq<Tick>, d: int)
    requires Keeps(f.acc) && |ticks| <= MAX_DRAINED
    ensures var g := Drained(f, ticks, d);
            DeltaSum(g.fed) - DeltaSum(g.acc.all)
            == DeltaSum(f.fed) - DeltaSum(f.acc.all) + DeltaSum(FedAgain(f.acc, g.acc))
  {
    DrainFeeds(f.acc, ticks, d);
    hide TickAll, FedAgain, DeltaSum;
    var a, b := f.acc, TickAll(f.acc, ticks, d);
    var own := b.all[|a.all|..];
    assert b.all == a.all + own;
    DeltaSumConcat(f.fed, b.completed);
    DeltaSumConcat(FedAgain(a, b), own);
    DeltaSumConcat(a.all, own);
  }

  /** When none of the bars is truncated: a right value is right after the drain if and only if
      the deltas of the bars completed before it cancel out. */
  lemma StaysRightExactly(f: Feed, ticks: seq<Tick>, d: int)
    requires Keeps(f.acc) && ValueRight(f) && |ticks| <= MAX_DRAINED
    requires |f.acc.completed| + |ticks| <= MAX_COMPLETED
    ensures ValueRight(Drained(f, ticks, d)) <==> DeltaSum(f.acc.completed) == 0.0
  {
    DrainError(f, ticks, d);
    DrainFeeds(f.acc, ticks, d);
    hide TickAll, FedAgain, DeltaSum;
  }

  /** In particular a drain without ticks adds the deltas of all kept bars once more. */
  lemma IdleDrainAddsAgain(f: Feed, d: int)
    ensures Drained(f, [], d).acc == f.acc
    ensures DeltaSum(Drained(f, [], d).fed) == DeltaSum(f.fed) + DeltaSum(f.acc.completed)
  {
    DeltaSumConcat(f.fed, f.acc.completed);
  }

  ghost predicate RightThroughout(drains: seq<seq<Tick>>, now: int, d: int) {
    forall i :: 0 <= i <= |drains| ==> ValueRight(Run(drains[..i], now, d))
  }

  /** What drain i feeds again. */
  function FedAgainAt(drains: seq<seq<Tick>>, i: nat, now: int, d: int): seq<DeltaBar>
    requires i < |drains|
  {
    FedAgain(Run(drains[..i], now, d).acc, Run(drains[..i + 1], now, d).acc)
  }

  ghost predicate AgainCancelsOut(drains: seq<seq<Tick>>, now: int, d: int) {
    forall i :: 0 <= i < |drains| ==> DeltaSum(FedAgainAt(drains, i, now, d)) == 0.0
  }

  /** The deltas of all bars fed again in the run, as often as they were. */
  function Excess(drains: seq<seq<Tick>>, now: int, d: int): real {
    if drains == [] then 0.0
    else Excess(drains[..|drains| - 1], now, d) + DeltaSum(FedAgainAt(drains, |drains| - 1, now, d))
  }

  /** After any run the value is off by exactly the deltas of the bars fed again. */
  lemma {:induction false} ValueOff(drains: seq<seq<Tick>>, now: int, d: int)
    requires forall i :: 0 <= i < |drains| ==> |drains[i]| <= MAX_DRAINED
    ensures var f := Run(drains, now, d); DeltaSum(f.fed) == DeltaSum(f.acc.all) + Excess(drains, now, d)
  {
    if drains != [] {
      var n := |drains| - 1;
      ValueOff(drains[..n], now, d);
      RunFeeds(drains[..n], now, d);
      assert drains[..n + 1] == drains;
      assert Run(drains, now, d) == Drained(Run(drains[..n], now, d), drains[n], d);
      hide DeltaSum, Run, TickAll, FedAgain;
      DrainError(Run(drains[..n], now, d), drains[n], d);
    }
  }

  lemma RightMeans(drains: seq<seq<Tick>>, now: int, d: int)
    requires forall i :: 0 <= i < |drains| ==> |drains[i]| <= MAX_DRAINED
    ensures ValueRight(Run(drains, now, d)) <==> Excess(drains, now, d) == 0.0
  {
    ValueOff(drains, now, d);
    hide Excess, DeltaSum, Run;
  }

  lemma ExcessLast(drains: seq<seq<Tick>>, now: int, d: int)
    requires drains != []
    ensures var n := |drains| - 1;
            Excess(drains, now, d) == Excess(drains[..n], now, d) + DeltaSum(FedAgainAt(drains, n, now, d))
  {}

  /** The value is right after every drain of a run if and only if at every drain the deltas of the
      bars it feeds again cancel out. */
  lemma {:induction false} RightThroughoutExactly(drains: seq<seq<Tick>>, now: int, d: int)
    requires forall i :: 0 <= i < |drains| ==> |drains[i]| <= MAX_DRAINED
    ensures RightThroughout(drains, now, d) <==> AgainCancelsOut(drains, now, d)
  {
    if drains == [] {
      assert drains[..0] == drains;
    } else {
      hide *;
      var n := |drains| - 1;
      RightThroughoutExactly(drains[..n], now, d);
      RightFront(drains, now, d);
      AgainFront(drains, now, d);
      RightMeans(drains, now, d);
      RightMeans(drains[..n], now, d);
      ExcessLast(drains, now, d);
    }
  }

  lemma RightFront(drains: seq<seq<Tick>>, now: int, d: int)
    requires drains != []
    ensures var n := |drains| - 1;
            && (RightThroughout(drains, now, d) <==>
                RightThroughout(drains[..n], now, d) && ValueRight(Run(drains, now, d)))
            && (RightThroughout(drains[..n], now, d) ==> ValueRight(Run(drains[..n], now, d)))
  {
    hide Run, ValueRight;
    var n := |drains| - 1;
    var front := drains[..n];
    assert drains[..|drains|] == drains && front[..n] == front;
    forall i | 0 <= i <= n
      ensures front[..i] == drains[..i]
    {
    }
  }

  lemma AgainFront(drains: seq<seq<Tick>>, now: int, d: int)
    requires drains != []
    ensures var n := |drains| - 1;
            AgainCancelsOut(drains, now, d) <==>
              AgainCancelsOut(drains[..n], now, d) && DeltaSum(FedAgainAt(drains, n, now, d)) == 0.0
  {
    var n := |drains| - 1;
    var front := drains[..n];
    forall i | 0 <= i < n
      ensures FedAgainAt(front, i, now, d) == FedAgainAt(drains, i, now, d)
    {
      assert front[..i] == drains[..i] && front[..i + 1] == drains[..i + 1];
    }
    hide FedAgainAt, DeltaSum;
  }

  /** As long as no more bars are completed than are kept, that means that before every drain the
      deltas of all bars completed so far cancel out. */
  lemma {:induction false} RightUntruncatedExactly(drains: seq<seq<Tick>>, now: int, d: int)
    requires forall i :: 0 <= i < |drains| ==> |drains[i]| <= MAX_DRAINED
    requires |Run(drains, now, d).acc.all| <= MAX_COMPLETED
    ensures Run(drains, now, d).acc.completed == Run(drains, now, d).acc.all
    ensures RightThroughout(drains, now, d) <==>
              forall i :: 0 <= i < |drains| ==> DeltaSum(Run(drains[..i], now, d).acc.completed) == 0.0
  {
    KeptAll(drains, now, d);
    RightThroughoutExactly(drains, now, d);
    forall i | 0 <= i < |drains|
      ensures FedAgainAt(drains, i, now, d) == Run(drains[..i], now, d).acc.completed
    {
      PrefixKeptAll(drains, now, d, i);
      PrefixKeptAll(drains, now, d, i + 1);
      NextDrain(drains, now, d, i);
      hide Run;
    }
    hide Run, DeltaSum, FedAgainAt;
  }

  lemma NextDrain(drains: seq<seq<Tick>>, now: int, d: int, i: nat)
    requires i < |drains| && forall i :: 0 <= i < |drains| ==> |drains[i]| <= MAX_DRAINED
    ensures Run(drains[..i], now, d).acc.all <= Run(drains[..i + 1], now, d).acc.all
  {
    assert drains[..i + 1][..i] == drains[..i];
    RunFeeds(drains[..i], now, d);
    TickAllKeeps(Run(drains[..i], now, d).acc, drains[i], d);
    hide TickAll;
  }

  /** Not more bars than are kept: none was dropped. */
  lemma {:induction false} TickAllKeptAll(a: Accumulator, ticks: seq<Tick>, d: int)
    requires a.completed == a.all && |TickAll(a, ticks, d).all| <= MAX_COMPLETED
    ensures TickAll(a, ticks, d).completed == TickAll(a, ticks, d).all
  {
    if ticks != [] {
      hide Counted, Truncated;
      TickAllKeptAll(a, ticks[..|ticks| - 1], d);
    }
  }

  lemma {:induction false} KeptAll(drains: seq<seq<Tick>>, now: int, d: int)
    requires forall i :: 0 <= i < |drains| ==> |drains[i]| <= MAX_DRAINED
    requires |Run(drains, now, d).acc.all| <= MAX_COMPLETED
    ensures Run(drains, now, d).acc.completed == Run(drains, now, d).acc.all
  {
    if drains != [] {
      var n := |drains| - 1;
      assert drains[..n + 1] == drains;
      NextDrain(drains, now, d, n);
      KeptAll(drains[..n], now, d);
      TickAllKeptAll(Run(drains[..n], now, d).acc, drains[n], d);
      hide TickAll;
    }
  }

  lemma {:induction false} PrefixKeptAll(drains: seq<seq<Tick>>, now: int, d: int, i: nat)
    requires i <= |drains| && forall i :: 0 <= i < |drains| ==> |drains[i]| <= MAX_DRAINED
    requires |Run(drains, now, d).acc.all| <= MAX_COMPLETED
    ensures Run(drains[..i], now, d).acc.completed == Run(drains[..i], now, d).acc.all
  {
    if i == |drains| {
      assert drains[..i] == drains;
      KeptAll(drains, now, d);
    } else {
      var n := |drains| - 1;
      assert drains[..n + 1] == drains && drains[..n][..i] == drains[..i];
      NextDrain(drains, now, d, n);
      hide Run;
      PrefixKeptAll(drains[..n], now, d, i);
    }
  }

  /** The tracker's last point shows the bought minus the sold volume of the ticks in completed
      bars if and only if the value is right in this sense. */
  lemma ValueIsNetVolumeExactly(pipeline: DataPipeline)
    requires pipeline.Valid() && pipeline.cvdTracker.added != []
    ensures var points := pipeline.cvdTracker.bars;
            var ticks := Flatten(pipeline.accumulator.groups);
            && pipeline.accumulator.History() == ticks + pipeline.accumulator.open
            && points != [] && points[|points| - 1].value == DeltaSum(pipeline.View().fed)
            && (points[|points| - 1].value == Bought(ticks) - Sold(ticks) <==> ValueRight(pipeline.View()))
  {
    var a := pipeline.accumulator;
    DeltasAreNetVolume(a.allBars, a.groups, a.barDuration);
    LastPoint(pipeline.cvdTracker.bars, pipeline.cvdTracker.added);
  }

  /** A bar of bought volume v, and a drain after the one that completes it: the value is 2v. */
  lemma CountedTwice(v: real, price: real)
    ensures var drains := [[Tick(5, price, v, true)], [Tick(10, price, v, true)], []];
            && ValueRight(Run(drains[..2], 0, 5)) && Run(drains[..2], 0, 5).fed != Run(drains[..2], 0, 5).acc.all
            && DeltaSum(Run(drains, 0, 5).acc.all) == v && DeltaSum(Run(drains, 0, 5).fed) == 2.0 * v
            && (ValueRight(Run(drains, 0, 5)) <==> v == 0.0)
  {
    var t1, t2 := Tick(5, price, v, true), Tick(10, price, v, true);
    var drains := [[t1], [t2], []];
    var first, bar, current := EmptyBar(0), Counted(EmptyBar(5), t1), Counted(EmptyBar(10), t2);
    OneTick(Accumulator(first, [], []), t1, 5);
    OneTick(Accumulator(bar, [first], [first]), t2, 5);
    var a := Accumulator(current, [first, bar], [first, bar]);
    assert bar.time == 5 && first.time == 0 && first.delta == 0.0 && bar.delta == v;
    assert Truncated(5, 5) == 5 && Truncated(10, 5) == 10 && Truncated(0, 5) == 0;
    RunStep(drains, 0);
    RunStep(drains, 1);
    RunStep(drains, 2);
    hide Counted, Truncated, DeltaSum;
    assert drains[..0] == [] && drains[..3] == drains;
    assert Run(drains[..1], 0, 5) == Feed(Accumulator(bar, [first], [first]), [first]);
    assert Run(drains[..2], 0, 5) == Feed(a, [first, first, bar]);
    assert TickAll(a, [], 5) == a;
    assert Run(drains, 0, 5) == Feed(a, [first, first, bar, first, bar]);
    hide Run, TickAll;
    SumsOfTwo(first, bar);
  }

  lemma RunStep(drains: seq<seq<Tick>>, n: nat)
    requires n < |drains|
    ensures Run(drains[..n + 1], 0, 5) == Drained(Run(drains[..n], 0, 5), drains[n], 5)
  {
    assert drains[..n + 1][..n] == drains[..n];
  }

  lemma SumsOfTwo(x: DeltaBar, y: DeltaBar)
    ensures DeltaSum([x, y]) == x.delta + y.delta
    ensures DeltaSum([x, x, y]) == 2.0 * x.delta + y.delta
    ensures DeltaSum([x, x, y, x, y]) == 3.0 * x.delta + 2.0 * y.delta
  {
    TwoBars(x, y);
    DeltaSumConcat([x], [x, y]);
    DeltaSumConcat([x, x, y], [x, y]);
    assert [x] + [x, y] == [x, x, y];
    assert [x, x, y] + [x, y] == [x, x, y, x, y];
  }

  lemma OneTick(a: Accumulator, t: Tick, d: int)
    ensures TickAll(a, [t], d) == Ticked(a, t, d)
  {
    assert [t][..0] == [];
  }

  lemma TwoBars(x: DeltaBar, y: DeltaBar)
    ensures DeltaSum([x]) == x.delta && DeltaSum([x, y]) == x.delta + y.delta
  {
    assert [x][..0] == [] && [x, y][..1] == [x];
  }
}
