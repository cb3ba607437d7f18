/** When the point of control lies inside the value area (internal/analytics/volume_profile.go).
    The ranking is whatever sort.Slice leaves, equal bins in any order. */
module ValueAreaPeak {
  import opened Common
  import opened VolumeProfile

  /** The bins with the same volume as bin f. */
  function Tied(levels: seq<VolumeLevel>, f: int): set<int>
    requires 0 <= f < |levels|
  {
    set b | 0 <= b < |levels| && levels[b].totalVolume == levels[f].totalVolume
  }

  /** The tied peaks come first in every ranking, and nothing else is among them. */
  lemma TiedComeFirst(levels: seq<VolumeLevel>, order: seq<int>, f: int)
    requires Ranking(levels, order) && Peak(levels, f)
    ensures |Tied(levels, f)| <= |order|
    ensures forall k :: 0 <= k < |order| ==> (order[k] in Tied(levels, f) <==> k < |Tied(levels, f)|)
  {
    var c := 0;
    while c < |order| && order[c] in Tied(levels, f)
      invariant c <= |order| && forall k :: 0 <= k < c ==> order[k] in Tied(levels, f)
    {
      c := c + 1;
    }
    forall k | c <= k < |order|
      ensures order[k] !in Tied(levels, f)
    {
      assert levels[order[c]].totalVolume >= levels[order[k]].totalVolume;
    }
    forall b | b in Tied(levels, f)
      ensures b in Elements(order[..c])
    {
      var j := PlaceOf(levels, order, b);
      assert order[..c][j] == b;
    }
    assert Elements(order[..c]) == Tied(levels, f);
    DistinctSize(order[..c]);
  }

  lemma {:induction false} EqualSum(levels: seq<VolumeLevel>, bins: seq<int>, v: real)
    requires forall i :: 0 <= i < |bins| ==> 0 <= bins[i] < |levels| && levels[bins[i]].totalVolume == v
    ensures SumOver(levels, bins) == Times(|bins| as real, v)
  {
    if bins != [] {
      EqualSum(levels, bins[..|bins| - 1], v);
    }
  }

  /** The first k bins of a ranking, while they are tied peaks, hold k times the peak volume. */
  lemma TiedSum(levels: seq<VolumeLevel>, order: seq<int>, f: int, k: nat)
    requires Ranking(levels, order) && Peak(levels, f) && k <= |Tied(levels, f)|
    ensures k <= |order| && SumOver(levels, order[..k]) == Times(k as real, levels[f].totalVolume)
  {
    TiedComeFirst(levels, order, f);
    forall i | 0 <= i < k
      ensures levels[order[..k][i]].totalVolume == levels[f].totalVolume
    {
      assert order[i] in Tied(levels, f);
    }
    EqualSum(levels, order[..k], levels[f].totalVolume);
  }

  /** If the other peaks fall short of the target, every value area takes all peaks. */
  lemma TakesAllPeaks(levels: seq<VolumeLevel>, f: int, target: real, area: Area)
    requires Peak(levels, f) && levels[f].totalVolume > 0.0 && IsValueArea(levels, target, area)
    requires Times((|Tied(levels, f)| - 1) as real, levels[f].totalVolume) < target
    ensures area.taken >= |Tied(levels, f)|
  {
    var m := |Tied(levels, f)|;
    TiedComeFirst(levels, area.order, f);
    if area.taken < m {
      TiedSum(levels, area.order, f, area.taken);
      TimesMonotone(area.taken as real, (m - 1) as real, levels[f].totalVolume);
      hide SumOver, Times, Tied, Spans, Descending;
      assert false;
    }
  }

  lemma PeaksTaken(levels: seq<VolumeLevel>, f: int, target: real, area: Area)
    requires Peak(levels, f) && levels[f].totalVolume > 0.0 && IsValueArea(levels, target, area)
    requires Times((|Tied(levels, f)| - 1) as real, levels[f].totalVolume) < target
    ensures area.minIdx <= f <= area.maxIdx
  {
    TakesAllPeaks(levels, f, target, area);
    TiedComeFirst(levels, area.order, f);
    var j := PlaceOf(levels, area.order, f);
    assert f in Tied(levels, f);
    AreaBounds(levels, target, area);
    hide SumOver, Times, Tied, Spans, Ranking, Descending;
    assert area.order[..area.taken][j] == f;
    assert f in area.order[..area.taken];
  }

  lemma TimesMonotone(x: real, y: real, v: real)
    requires x <= y && v >= 0.0
    ensures Times(x, v) <= Times(y, v)
  {
    ProductNonNegative(y - x, v);
  }

  /** If they reach it, a ranking with f last among the peaks leaves f out. */
  lemma PeakLeftOut(levels: seq<VolumeLevel>, f: int, target: real) returns (area: Area)
    requires FirstPeak(levels, f) && levels[f].totalVolume > 0.0 && target > 0.0
    requires Times((|Tied(levels, f)| - 1) as real, levels[f].totalVolume) >= target
    ensures IsValueArea(levels, target, area) && area.minIdx > f
  {
    var m, v := |Tied(levels, f)|, levels[f].totalVolume;
    var order := RankingWithLast(levels, f);
    var k := 0;
    assert Times(0.0, v) == 0.0;
    hide Times, Tied, Descending;
    TiedSum(levels, order, f, 0);
    while k < m - 1 && Times(k as real, v) < target
      invariant k <= m - 1 && forall i: nat :: i < k ==> SumOver(levels, order[..i]) < target
    {
      TiedSum(levels, order, f, k);
      k := k + 1;
    }
    TiedSum(levels, order, f, k);
    var lo, hi := SpanOf(order[..k]);
    area := Area(order, k, lo, hi);
    LaterPeaks(levels, order, f, k, lo);
  }

  lemma LaterPeaks(levels: seq<VolumeLevel>, order: seq<int>, f: int, k: nat, b: int)
    requires FirstPeak(levels, f) && Ranking(levels, order) && k < |Tied(levels, f)| <= |order|
    requires order[|Tied(levels, f)| - 1] == f && b in order[..k]
    ensures b > f
  {
    TiedComeFirst(levels, order, f);
    var i :| 0 <= i < k && order[i] == b;
    assert b in Tied(levels, f);
  }

  lemma {:induction false} SpanOf(bins: seq<int>) returns (lo: int, hi: int)
    requires bins != []
    ensures lo in bins && hi in bins && forall b :: b in bins ==> lo <= b <= hi
  {
    lo, hi := bins[0], bins[0];
    if |bins| > 1 {
      var l, h := SpanOf(bins[1..]);
      lo, hi := if l < lo then l else lo, if h > hi then h else hi;
      assert bins == [bins[0]] + bins[1..];
    }
  }

  /** Equal bins may stand in any order, so some ranking has f last among the peaks. */
  lemma RankingWithLast(levels: seq<VolumeLevel>, f: int) returns (order: seq<int>)
    requires Peak(levels, f)
    ensures Ranking(levels, order) && 0 < |Tied(levels, f)| <= |order| && order[|Tied(levels, f)| - 1] == f
  {
    var m := |Tied(levels, f)|;
    assert f in Tied(levels, f);
    var some := SomeRanking(levels, |levels|);
    TiedComeFirst(levels, some, f);
    var j := PlaceOf(levels, some, f);
    assert some[m - 1] in Tied(levels, f);
    order := some[j := some[m - 1]][m - 1 := f];
    SwapKeepsRanking(levels, some, j, m - 1);
  }

  lemma SwapKeepsRanking(levels: seq<VolumeLevel>, order: seq<int>, i: nat, j: nat)
    requires Ranking(levels, order) && i < |order| && j < |order|
    requires levels[order[i]].totalVolume == levels[order[j]].totalVolume
    ensures Ranking(levels, order[i := order[j]][j := order[i]])
  {
    var swapped := order[i := order[j]][j := order[i]];
    forall k | 0 <= k < |order|
      ensures swapped[k] == order[if k == i then j else if k == j then i else k]
      ensures levels[swapped[k]].totalVolume == levels[order[k]].totalVolume
    {
    }
  }

  /** There is a ranking: insertion, as in RankByVolume. */
  lemma {:induction false} SomeRanking(levels: seq<VolumeLevel>, n: nat) returns (order: seq<int>)
    requires n <= |levels|
    ensures |order| == n && Distinct(order) && (forall k :: 0 <= k < n ==> 0 <= order[k] < n)
    ensures Descending(levels, order)
  {
    order := [];
    if n > 0 {
      order := SomeRanking(levels, n - 1);
      var j := 0;
      while j < n - 1 && levels[order[j]].totalVolume >= levels[n - 1].totalVolume
        invariant j <= n - 1
        invariant forall k :: 0 <= k < j ==> levels[order[k]].totalVolume >= levels[n - 1].totalVolume
      {
        j := j + 1;
      }
      InsertRanked(levels, order, n - 1, j);
      order := order[..j] + [n - 1] + order[j..];
    }
  }

  // ---------------------------------------------------------------- the exact condition

  /** Bin f is inside the value area whatever the order of equal bins. */
  ghost predicate AlwaysInside(levels: seq<VolumeLevel>, target: real, f: int) {
    forall area :: IsValueArea(levels, target, area) ==> area.minIdx <= f <= area.maxIdx
  }

  /** The point of control is inside the value area under every ranking exactly when the peaks
      tied with it do not reach the target without it; an empty area has range 0 to 0. */
  lemma PeakInsideExactly(levels: seq<VolumeLevel>, target: real, f: int)
    requires FirstPeak(levels, f) && levels[f].totalVolume > 0.0
    ensures AlwaysInside(levels, target, f) <==>
              if target > 0.0 then Times((|Tied(levels, f)| - 1) as real, levels[f].totalVolume) < target
              else f == 0
  {
    if target <= 0.0 {
      EmptyArea(levels, target);
    } else if Times((|Tied(levels, f)| - 1) as real, levels[f].totalVolume) < target {
      forall area | IsValueArea(levels, target, area)
        ensures area.minIdx <= f <= area.maxIdx
      {
        PeaksTaken(levels, f, target, area);
      }
    } else {
      var area := PeakLeftOut(levels, f, target);
    }
  }

  // ---------------------------------------------------------------- ten trades

  const TEN: seq<nat> := [0, 1, 2, 4, 5, 6, 7, 8, 9, 12]

  /** Ten trades of volume 1 at these prices, put into 13 bins. */
  function TenPrices(): seq<real> {
    seq(|TEN|, i requires 0 <= i < |TEN| => TEN[i] as real)
  }

  /** The lowest price is 0, the highest 12. */
  lemma TenRange()
    ensures 0.0 in TenPrices() && 12.0 in TenPrices() && forall p :: p in TenPrices() ==> 0.0 <= p <= 12.0
  {
    assert TenPrices()[0] == 0.0 && TenPrices()[9] == 12.0;
  }

  function TenSamples(): (samples: seq<Sample>)
    ensures |samples| == 10 && forall i :: 0 <= i < 10 ==> samples[i].bin < 13
  {
    Samples(TenPrices(), [], [], 0.0, BinSize(0.0, 12.0, 13), 13)
  }

  /** The first n levels of their profile: no trade falls into the bins 3, 10 and 11. */
  function TenTrades(n: nat): (levels: seq<VolumeLevel>)
    ensures |levels| == n
    ensures forall b :: 0 <= b < n ==> levels[b].totalVolume == if b in {3, 10, 11} then 0.0 else 1.0
  {
    seq(n, b requires 0 <= b < n =>
      VolumeLevel(LevelPrice(0.0, 12.0 / 13.0, b), 0.0, 0.0, if b in {3, 10, 11} then 0.0 else 1.0, 0.0))
  }

  lemma BinOfTen(k: nat)
    requires k <= 12 && k != 11
    ensures BinSize(0.0, 12.0, 13) == 12.0 / 13.0 && BinOf(k as real, 0.0, 12.0 / 13.0, 13) == k
  {
    var size := 12.0 / 13.0;
    QuotientFloor(k as real, size, k);
    QuotientFloor(k as real, size, k + 1);
  }

  /** Samples of volume 1, one to a bin. */
  lemma {:induction false} OneToABin(samples: seq<Sample>, bin: nat)
    requires forall i :: 0 <= i < |samples| ==> samples[i].volume == 1.0
    requires forall i, j :: 0 <= i < j < |samples| ==> samples[i].bin != samples[j].bin
    ensures InBin(samples, bin) == if exists i :: 0 <= i < |samples| && samples[i].bin == bin then 1.0 else 0.0
  {
    if samples != [] {
      var n := |samples| - 1;
      OneToABin(samples[..n], bin);
      if i :| 0 <= i < n && samples[i].bin == bin {
        assert samples[..n][i].bin == bin;
      }
    }
  }

  lemma TenSample(i: nat)
    requires i < 10
    ensures TenSamples()[i].bin == TEN[i] && TenSamples()[i].volume == 1.0
  {
    BinOfTen(TEN[i]);
    hide BinOf, BinSize;
  }

  /** These levels are the ones the profile of the ten trades has. */
  lemma TenTradesTallied(b: nat)
    requires b < 13
    ensures BinSize(0.0, 12.0, 13) == 12.0 / 13.0
    ensures Tallies(TenTrades(13)[b], TenSamples(), b, false)
  {
    BinOfTen(0);
    hide BinOf, BinSize, LevelPrice, TenSamples;
    var samples := TenSamples();
    forall i | 0 <= i < 10
      ensures samples[i].bin == TEN[i] && samples[i].volume == 1.0
    {
      TenSample(i);
    }
    OneToABin(samples, b);
    hide InBin;
    if b !in {3, 10, 11} {
      var i := if b <= 2 then b else if b <= 9 then b - 1 else 9;
      assert TEN[i] == b;
      assert samples[i].bin == b;
    }
  }

  lemma {:induction false} TenTradesSum(n: nat)
    requires n <= 13
    ensures LevelSum(TenTrades(n)) == if n <= 3 then n as real else if n <= 10 then (n - 1) as real
                                      else if n <= 12 then 9.0 else 10.0
  {
    if n > 0 {
      TenTradesSum(n - 1);
      assert TenTrades(n)[..n - 1] == TenTrades(n - 1);
    }
  }

  lemma TenTied(n: nat)
    requires n > 11
    ensures |Tied(TenTrades(n), 0)| == n - 3
  {
    var all := UpTo(n);
    hide UpTo;
    forall b: int
      ensures b in Tied(TenTrades(n), 0) <==> b in all - {3, 10, 11}
    {
    }
    assert Tied(TenTrades(n), 0) == all - {3, 10, 11};
    DifferenceSize(all, {3, 10, 11});
  }

  lemma HigherLevel(b: nat)
    requires 0 < b < 13
    ensures Float64(LevelPrice(0.0, 12.0 / 13.0, 0)) < Float64(LevelPrice(0.0, 12.0 / 13.0, b))
  {
    var size := 12.0 / 13.0;
    assert b as real * size >= size;
  }

  /** So the profile of the ten trades can have its point of control below its value area of 70%:
      nine peaks reach the target, 7, without bin 0. */
  lemma PeakOutsideArea() returns (vp: Profile, area: Area)
    ensures 0.0 in TenPrices() && 12.0 in TenPrices() && forall p :: p in TenPrices() ==> 0.0 <= p <= 12.0
    ensures vp.levels == TenTrades(13) && IsProfile(vp, TenSamples(), false, area) && vp.poc < vp.val
    ensures !AlwaysInside(vp.levels, Target(vp.levels, AREA_PCT), 0)
  {
    var levels := TenTrades(13);
    TenPeaks();
    TenRange();
    hide *;
    area := PeakLeftOut(levels, 0, 7.0);
    PeakInsideExactly(levels, 7.0, 0);
    AreaBounds(levels, 7.0, area);
    vp := TenProfile(area);
  }

  lemma TenPeaks()
    ensures FirstPeak(TenTrades(13), 0) && Target(TenTrades(13), AREA_PCT) == 7.0
    ensures TenTrades(13)[0].totalVolume == 1.0
    ensures Times((|Tied(TenTrades(13), 0)| - 1) as real, 1.0) >= 7.0
  {
    TenTradesSum(13);
    TenTied(13);
    hide LevelSum, Tied;
    assert Times(9.0, 1.0) == 9.0;
  }

  lemma TenProfile(area: Area) returns (vp: Profile)
    requires IsValueArea(TenTrades(13), 7.0, area) && 0 < area.minIdx <= area.maxIdx < 13
    ensures vp.levels == TenTrades(13) && IsProfile(vp, TenSamples(), false, area) && vp.poc < vp.val
  {
    var levels := TenTrades(13);
    HigherLevel(area.minIdx);
    TenPeaks();
    hide IsValueArea, LevelSum, InBin, Float64, BinOf, LevelPrice, Target, TenSamples, FirstPeak;
    var val, vah := Float64(levels[area.minIdx].price), Float64(levels[area.maxIdx].price);
    vp := Profile(levels, Float64(levels[0].price), vah, val, vah - val, LevelSum(levels));
    forall b | 0 <= b < 13
      ensures Tallies(levels[b], TenSamples(), b, false)
    {
      TenTradesTallied(b);
    }
    VolumeConserved(levels, TenSamples());
  }

  lemma EmptyArea(levels: seq<VolumeLevel>, target: real)
    requires levels != [] && target <= 0.0
    ensures exists area :: IsValueArea(levels, target, area)
    ensures forall area :: IsValueArea(levels, target, area) ==> area.minIdx == area.maxIdx == 0
  {
    var order := SomeRanking(levels, |levels|);
    assert order[..0] == [] && SumOver(levels, order[..0]) == 0.0;
    assert IsValueArea(levels, target, Area(order, 0, 0, 0));
    forall area | IsValueArea(levels, target, area)
      ensures area.minIdx == area.maxIdx == 0
    {
      SumOverNone(levels, area.order);
    }
  }
}
