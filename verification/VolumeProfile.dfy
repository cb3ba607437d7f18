/** Volume profile, value area and VWAP (internal/analytics/volume_profile.go), over reals;
    level prices are the raw fixed-point integers of types.Price (internal/types/price.go). */
module VolumeProfile {
  import opened Common

  const AREA_PCT: real := 0.70

  datatype VolumeLevel = VolumeLevel(
    price: int, buyVolume: real, sellVolume: real, totalVolume: real, delta: real)

  datatype Profile = Profile(
    levels: seq<VolumeLevel>, poc: real, vah: real, val: real, vaRange: real, totalVolume: real)

  /** math.Round: the nearest integer, halves away from zero. */
  function Round(x: real): (r: int)
    ensures -0.5 <= r as real - x <= 0.5
    ensures r as real - x == 0.5 ==> x > 0.0
    ensures r as real - x == -0.5 ==> x < 0.0
  {
    if x >= 0.0 then (x + 0.5).Floor else -(0.5 - x).Floor
  }

  function FromFloat64(f: real): int {
    Round(f * PRICE_SCALE as real)
  }

  /** Go's int(x) on a float drops the fraction. */
  function Truncate(x: real): int {
    if x >= 0.0 then x.Floor else -(-x).Floor
  }

  function BinOf(p: real, minPrice: real, binSize: real, numBins: nat): (bin: nat)
    requires binSize != 0.0 && numBins > 0
    ensures bin < numBins
  {
    var bin := Truncate((p - minPrice) / binSize);
    if bin < 0 then 0 else if bin >= numBins then numBins - 1 else bin
  }

  // ---------------------------------------------------------------- sums over samples

  /** One trade: where it is counted, how much, and whether as a buy. */
  datatype Sample = Sample(bin: nat, volume: real, buy: bool)

  function Total(samples: seq<Sample>): real {
    if samples == [] then 0.0 else Total(samples[..|samples| - 1]) + samples[|samples| - 1].volume
  }

  function InBin(samples: seq<Sample>, bin: nat): real {
    if samples == [] then 0.0
    else
      var s := samples[|samples| - 1];
      InBin(samples[..|samples| - 1], bin) + if s.bin == bin then s.volume else 0.0
  }

  function BoughtInBin(samples: seq<Sample>, bin: nat): real {
    if samples == [] then 0.0
    else
      var s := samples[|samples| - 1];
      BoughtInBin(samples[..|samples| - 1], bin) + if s.bin == bin && s.buy then s.volume else 0.0
  }

  /** The volume sample i carries: the given one, or 1 past the end of a short volume list. */
  function VolumeAt(volumes: seq<real>, i: nat): real {
    if i < |volumes| then volumes[i] else 1.0
  }

  function Samples(prices: seq<real>, volumes: seq<real>, sides: seq<int>, minPrice: real, binSize: real, numBins: nat)
    : (samples: seq<Sample>)
    requires binSize != 0.0 && numBins > 0
    ensures |samples| == |prices|
  {
    seq(|prices|, i requires 0 <= i < |prices| =>
      Sample(BinOf(prices[i], minPrice, binSize, numBins), VolumeAt(volumes, i), i < |sides| && sides[i] == 1))
  }

  function LevelSum(levels: seq<VolumeLevel>): real {
    if levels == [] then 0.0 else LevelSum(levels[..|levels| - 1]) + levels[|levels| - 1].totalVolume
  }

  /** The level holds exactly the samples of its bin, split by side when sides are known. */
  predicate Tallies(level: VolumeLevel, samples: seq<Sample>, bin: nat, sided: bool) {
    && level.totalVolume == InBin(samples, bin)
    && level.buyVolume == (if sided then BoughtInBin(samples, bin) else 0.0)
    && level.sellVolume == (if sided then InBin(samples, bin) - BoughtInBin(samples, bin) else 0.0)
    && level.delta == level.buyVolume - level.sellVolume
  }

  function BinSum(samples: seq<Sample>, bins: nat): real {
    if bins == 0 then 0.0 else BinSum(samples, bins - 1) + InBin(samples, bins - 1)
  }

  lemma {:induction false} BinSumStep(samples: seq<Sample>, bins: nat)
    requires samples != []
    ensures var last := samples[|samples| - 1];
            BinSum(samples, bins)
            == BinSum(samples[..|samples| - 1], bins) + if last.bin < bins then last.volume else 0.0
  {
    if bins > 0 {
      BinSumStep(samples, bins - 1);
    }
  }

  lemma {:induction false} NoBinsNoSamples(bins: nat)
    ensures BinSum([], bins) == 0.0
  {
    if bins > 0 {
      NoBinsNoSamples(bins - 1);
    }
  }

  lemma {:induction false} BinsHoldEverything(samples: seq<Sample>, bins: nat)
    requires forall i :: 0 <= i < |samples| ==> samples[i].bin < bins
    ensures BinSum(samples, bins) == Total(samples)
  {
    if samples == [] {
      NoBinsNoSamples(bins);
    } else {
      BinsHoldEverything(samples[..|samples| - 1], bins);
      BinSumStep(samples, bins);
    }
  }

  lemma {:induction false} LevelSumIsBinSum(levels: seq<VolumeLevel>, samples: seq<Sample>)
    requires forall b :: 0 <= b < |levels| ==> levels[b].totalVolume == InBin(samples, b)
    ensures LevelSum(levels) == BinSum(samples, |levels|)
  {
    if levels != [] {
      LevelSumIsBinSum(levels[..|levels| - 1], samples);
    }
  }

  /** Binning loses no volume. */
  lemma VolumeConserved(levels: seq<VolumeLevel>, samples: seq<Sample>)
    requires forall b :: 0 <= b < |levels| ==> levels[b].totalVolume == InBin(samples, b)
    requires forall i :: 0 <= i < |samples| ==> samples[i].bin < |levels|
    ensures LevelSum(levels) == Total(samples)
  {
    LevelSumIsBinSum(levels, samples);
    BinsHoldEverything(samples, |levels|);
  }

  lemma QuotientFloor(x: real, size: real, b: int)
    requires size > 0.0
    ensures b as real <= x / size <==> b as real * size <= x
    ensures x / size < b as real <==> x < b as real * size
  {
    var q := x / size;
    assert q * size == x;
    if b as real <= q {
      assert (q - b as real) * size >= 0.0;
    } else {
      assert (b as real - q) * size > 0.0;
    }
  }

  /** A price between the extremes lies in the price interval of its bin; when all prices are the
      same they are the lower end of bin 0. */
  lemma BinHoldsPrice(p: real, minPrice: real, maxPrice: real, numBins: nat)
    requires numBins > 0 && minPrice <= p <= maxPrice
    ensures var binSize := BinSize(minPrice, maxPrice, numBins);
            var bin := BinOf(p, minPrice, binSize, numBins);
            if minPrice == maxPrice then bin == 0 && p == minPrice
            else && minPrice + bin as real * binSize <= p <= minPrice + (bin + 1) as real * binSize
                 && (p == minPrice + (bin + 1) as real * binSize ==> p == maxPrice)
  {
    var binSize := BinSize(minPrice, maxPrice, numBins);
    if minPrice == maxPrice {
      assert (p - minPrice) / binSize == 0.0;
    } else {
      assert (maxPrice - minPrice) / numBins as real > 0.0;
      BinHolds(p, minPrice, maxPrice, numBins);
    }
  }

  lemma BinHolds(p: real, minPrice: real, maxPrice: real, numBins: nat)
    requires numBins > 0 && minPrice <= p <= maxPrice && minPrice < maxPrice
    ensures (maxPrice - minPrice) / numBins as real > 0.0
    ensures var binSize := (maxPrice - minPrice) / numBins as real;
            var bin := BinOf(p, minPrice, binSize, numBins);
            && minPrice + bin as real * binSize <= p <= minPrice + (bin + 1) as real * binSize
            && (p == minPrice + (bin + 1) as real * binSize ==> p == maxPrice)
  {
    var binSize := (maxPrice - minPrice) / numBins as real;
    assert binSize * numBins as real == maxPrice - minPrice;
    var x := p - minPrice;
    var q := x / binSize;
    QuotientFloor(x, binSize, 0);
    var f := q.Floor;
    QuotientFloor(x, binSize, f);
    QuotientFloor(x, binSize, f + 1);
    QuotientFloor(x, binSize, numBins);
    QuotientFloor(x, binSize, numBins - 1);
  }

  // ---------------------------------------------------------------- the profile

  method Extremes(prices: seq<real>) returns (minPrice: real, maxPrice: real)
    requires prices != []
    ensures minPrice in prices && maxPrice in prices
    ensures forall i :: 0 <= i < |prices| ==> minPrice <= prices[i] <= maxPrice
  {
    minPrice, maxPrice := prices[0], prices[0];
    for i := 0 to |prices|
      invariant minPrice in prices && maxPrice in prices
      invariant forall k :: 0 <= k < i ==> minPrice <= prices[k] <= maxPrice
    {
      if prices[i] < minPrice {
        minPrice := prices[i];
      }
      if prices[i] > maxPrice {
        maxPrice := prices[i];
      }
    }
  }

  function BinSize(minPrice: real, maxPrice: real, numBins: nat): (size: real)
    requires numBins > 0
    ensures size != 0.0
  {
    var top := if minPrice == maxPrice then minPrice * 1.01 else maxPrice;
    var size := (top - minPrice) / numBins as real;
    if size == 0.0 then 0.01 else size
  }

  function LevelPrice(minPrice: real, binSize: real, b: nat): int {
    FromFloat64(minPrice + b as real * binSize + binSize / 2.0)
  }

  /** A numBins-th of the range; of a single price, of 1% of it, or 0.01 at price 0. */
  predicate IsBinWidth(size: real, minPrice: real, maxPrice: real, numBins: nat) {
    if minPrice < maxPrice then numBins as real * size == maxPrice - minPrice
    else if minPrice == 0.0 then size == 0.01
    else numBins as real * size * 100.0 == minPrice
  }

  lemma BinSizeIsWidth(minPrice: real, maxPrice: real, numBins: nat)
    requires numBins > 0 && minPrice <= maxPrice
    ensures IsBinWidth(BinSize(minPrice, maxPrice, numBins), minPrice, maxPrice, numBins)
  {
    var width := (if minPrice == maxPrice then minPrice * 1.01 else maxPrice) - minPrice;
    var size := width / numBins as real;
    assert numBins as real * size == width;
  }

  /** The raw price is within half a unit of the mean of the bounds of bin b. */
  predicate IsMiddle(price: int, minPrice: real, size: real, b: nat) {
    var low, high := minPrice + b as real * size, minPrice + (b + 1) as real * size;
    -0.5 <= price as real - 100000.0 * ((low + high) / 2.0) <= 0.5
  }

  lemma LevelPriceIsMiddle(minPrice: real, size: real, b: nat)
    ensures IsMiddle(LevelPrice(minPrice, size, b), minPrice, size, b)
  {
    hide Round;
    NextBound(b, size);
    var below := b as real * size;
    assert LevelPrice(minPrice, size, b) == Round((minPrice + below + size / 2.0) * 100000.0);
    assert (minPrice + below + (minPrice + below + size)) / 2.0 == minPrice + below + size / 2.0;
  }

  lemma NextBound(b: nat, size: real)
    ensures (b + 1) as real * size == b as real * size + size
  {
    assert (b + 1) as real == b as real + 1.0;
  }

  function Counted(level: VolumeLevel, s: Sample, sided: bool): VolumeLevel {
    var total := level.totalVolume + s.volume;
    if !sided then level.(totalVolume := total)
    else
      var buy := level.buyVolume + if s.buy then s.volume else 0.0;
      var sell := level.sellVolume + if s.buy then 0.0 else s.volume;
      level.(totalVolume := total, buyVolume := buy, sellVolume := sell, delta := buy - sell)
  }

  lemma TallyStep(levels: seq<VolumeLevel>, samples: seq<Sample>, i: nat, bin: nat, sided: bool)
    requires i < |samples| && samples[i].bin == bin < |levels|
    requires forall k :: 0 <= k < |levels| ==> Tallies(levels[k], samples[..i], k, sided)
    ensures forall k :: 0 <= k < |levels| && k != bin ==> Tallies(levels[k], samples[..i + 1], k, sided)
    ensures Tallies(Counted(levels[bin], samples[i], sided), samples[..i + 1], bin, sided)
  {
    assert samples[..i + 1][..i] == samples[..i];
  }

  method BlankLevels(minPrice: real, binSize: real, numBins: nat) returns (levels: array<VolumeLevel>)
    ensures fresh(levels) && levels.Length == numBins
    ensures forall k :: 0 <= k < numBins ==>
              levels[k] == VolumeLevel(LevelPrice(minPrice, binSize, k), 0.0, 0.0, 0.0, 0.0)
  {
    hide LevelPrice;
    levels := new VolumeLevel[numBins](_ => VolumeLevel(0, 0.0, 0.0, 0.0, 0.0));
    for b := 0 to numBins
      invariant forall k :: 0 <= k < b ==>
                  levels[k] == VolumeLevel(LevelPrice(minPrice, binSize, k), 0.0, 0.0, 0.0, 0.0)
      invariant forall k :: b <= k < numBins ==> levels[k] == VolumeLevel(0, 0.0, 0.0, 0.0, 0.0)
    {
      levels[b] := levels[b].(price := LevelPrice(minPrice, binSize, b));
    }
  }

  /** The loop body: counts one sample into its level. */
  method CountSample(levels: array<VolumeLevel>, bin: nat, v: real, buy: bool, sided: bool)
    requires bin < levels.Length
    modifies levels
    ensures levels[..] == old(levels[..])[bin := Counted(old(levels[bin]), Sample(bin, v, buy), sided)]
  {
    levels[bin] := levels[bin].(totalVolume := levels[bin].totalVolume + v);
    if sided {
      if buy {
        levels[bin] := levels[bin].(buyVolume := levels[bin].buyVolume + v);
      } else {
        levels[bin] := levels[bin].(sellVolume := levels[bin].sellVolume + v);
      }
      levels[bin] := levels[bin].(delta := levels[bin].buyVolume - levels[bin].sellVolume);
    }
  }

  method FillLevels(prices: seq<real>, volumes: seq<real>, sides: seq<int>, minPrice: real, binSize: real, numBins: nat)
    returns (levels: seq<VolumeLevel>)
    requires binSize != 0.0 && numBins > 0
    ensures |levels| == numBins
    ensures forall b :: 0 <= b < numBins ==> levels[b].price == LevelPrice(minPrice, binSize, b)
    ensures forall b :: 0 <= b < numBins ==>
              Tallies(levels[b], Samples(prices, volumes, sides, minPrice, binSize, numBins), b,
                      |volumes| == |prices| && |sides| == |prices|)
  {
    ghost var samples := Samples(prices, volumes, sides, minPrice, binSize, numBins);
    var sided := |volumes| == |prices| && |sides| == |prices|;
    var a := BlankLevels(minPrice, binSize, numBins);
    assert forall k :: 0 <= k < numBins ==> Tallies(a[k], [], k, sided);
    hide BinOf, LevelPrice, Counted, Tallies;
    assert samples[..0] == [];
    for i := 0 to |prices|
      invariant forall k :: 0 <= k < numBins ==> a[k].price == LevelPrice(minPrice, binSize, k)
      invariant forall k :: 0 <= k < numBins ==> Tallies(a[k], samples[..i], k, sided)
    {
      var bin := BinOf(prices[i], minPrice, binSize, numBins);
      TallyStep(a[..], samples, i, bin, sided);
      CountedKeepsPrice(a[bin], samples[i], sided);
      CountSample(a, bin, VolumeAt(volumes, i), i < |sides| && sides[i] == 1, sided);
    }
    assert samples[..|prices|] == samples;
    levels := a[..];
  }

  lemma CountedKeepsPrice(level: VolumeLevel, s: Sample, sided: bool)
    ensures Counted(level, s, sided).price == level.price
  {}

  // ---------------------------------------------------------------- the value area

  function SumOver(levels: seq<VolumeLevel>, bins: seq<int>): real
    requires forall i :: 0 <= i < |bins| ==> 0 <= bins[i] < |levels|
  {
    if bins == [] then 0.0 else SumOver(levels, bins[..|bins| - 1]) + levels[bins[|bins| - 1]].totalVolume
  }

  /** Some of the bins, none twice. */
  ghost predicate Selection(levels: seq<VolumeLevel>, bins: seq<int>) {
    Distinct(bins) && forall i :: 0 <= i < |bins| ==> 0 <= bins[i] < |levels|
  }

  /** All bins, largest volume first; bins of equal volume in any order. */
  ghost predicate Ranking(levels: seq<VolumeLevel>, order: seq<int>) {
    && Selection(levels, order) && |order| == |levels|
    && Descending(levels, order)
  }

  /** Of more distinct bins than `few` has, one is not in `few`. */
  lemma Pigeonhole(many: seq<int>, few: seq<int>) returns (i: nat)
    requires Distinct(many) && Distinct(few) && |few| < |many|
    ensures i < |many| && many[i] !in few
  {
    if forall k :: 0 <= k < |many| ==> many[k] in few {
      DistinctSize(many);
      DistinctSize(few);
      SubsetCardinality(Elements(many), Elements(few));
      assert false;
    }
    i :| 0 <= i < |many| && many[i] !in few;
  }

  function Without(bins: seq<int>, i: nat): seq<int>
    requires i < |bins|
  {
    bins[..i] + bins[i + 1..]
  }

  lemma {:induction false} SumConcat(levels: seq<VolumeLevel>, a: seq<int>, b: seq<int>)
    requires forall k :: 0 <= k < |a| ==> 0 <= a[k] < |levels|
    requires forall k :: 0 <= k < |b| ==> 0 <= b[k] < |levels|
    ensures SumOver(levels, a + b) == SumOver(levels, a) + SumOver(levels, b)
  {
    if b == [] {
      assert a + b == a;
    } else {
      assert (a + b)[..|a + b| - 1] == a + b[..|b| - 1];
      SumConcat(levels, a, b[..|b| - 1]);
    }
  }

  lemma SumAppend(levels: seq<VolumeLevel>, bins: seq<int>, bin: int)
    requires (forall k :: 0 <= k < |bins| ==> 0 <= bins[k] < |levels|) && 0 <= bin < |levels|
    ensures SumOver(levels, bins + [bin]) == SumOver(levels, bins) + levels[bin].totalVolume
  {
    assert (bins + [bin])[..|bins|] == bins;
  }

  lemma SumWithout(levels: seq<VolumeLevel>, bins: seq<int>, i: nat)
    requires i < |bins| && forall k :: 0 <= k < |bins| ==> 0 <= bins[k] < |levels|
    ensures forall k :: 0 <= k < |bins| - 1 ==> 0 <= Without(bins, i)[k] < |levels|
    ensures SumOver(levels, bins) == SumOver(levels, Without(bins, i)) + levels[bins[i]].totalVolume
  {
    hide SumOver;
    var front, back := bins[..i], bins[i + 1..];
    assert bins == front + [bins[i]] + back;
    SumConcat(levels, front + [bins[i]], back);
    SumAppend(levels, front, bins[i]);
    SumConcat(levels, front, back);
  }

  /** Exchange argument: no k bins hold more than the first k of a ranking. */
  lemma {:induction false} TopIsBest(levels: seq<VolumeLevel>, order: seq<int>, bins: seq<int>)
    requires Ranking(levels, order) && Selection(levels, bins) && |bins| <= |order|
    ensures SumOver(levels, bins) <= SumOver(levels, order[..|bins|])
    decreases |bins|
  {
    if bins != [] {
      var k: nat := |bins| - 1;
      var i := Pigeonhole(bins, order[..k]);
      var j := PlaceOf(levels, order, bins[i]);
      assert j >= k;
      SumWithout(levels, bins, i);
      TopIsBest(levels, order, Without(bins, i));
      assert order[..|bins|][..k] == order[..k];
      assert levels[order[k]].totalVolume >= levels[order[j]].totalVolume;
    }
  }

  /** A ranking contains every bin. */
  lemma PlaceOf(levels: seq<VolumeLevel>, order: seq<int>, bin: int) returns (j: nat)
    requires Ranking(levels, order) && 0 <= bin < |levels|
    ensures j < |order| && order[j] == bin
  {
    if bin !in order {
      DistinctSize(order);
      SubsetCardinality(Elements(order), UpTo(|levels|) - {bin});
      assert false;
    }
    j :| 0 <= j < |order| && order[j] == bin;
  }

  /** The outcome of the accumulation: the first `taken` bins of a ranking, and their range. */
  datatype Area = Area(order: seq<int>, taken: nat, minIdx: nat, maxIdx: nat)

  ghost predicate IsValueArea(levels: seq<VolumeLevel>, target: real, area: Area) {
    && Ranking(levels, area.order) && area.taken <= |levels|
    && area.minIdx < |levels| && area.maxIdx < |levels|
    && (forall k :: 0 <= k < area.taken ==> SumOver(levels, area.order[..k]) < target)
    && (area.taken == |levels| || SumOver(levels, area.order[..area.taken]) >= target)
    && Spans(area.order[..area.taken], area.minIdx, area.maxIdx)
  }

  /** The least and the greatest of the bins, or 0 and 0 when there are none. */
  ghost predicate Spans(bins: seq<int>, minIdx: nat, maxIdx: nat) {
    if bins == [] then minIdx == maxIdx == 0
    else minIdx in bins && maxIdx in bins && forall b :: b in bins ==> minIdx <= b <= maxIdx
  }

  /** The value area takes as few bins as any selection that reaches the target, and reaches
      the target whenever some selection does. */
  lemma FewestBins(levels: seq<VolumeLevel>, target: real, area: Area, bins: seq<int>)
    requires IsValueArea(levels, target, area)
    requires Selection(levels, bins) && SumOver(levels, bins) >= target
    ensures area.taken <= |bins|
    ensures SumOver(levels, area.order[..area.taken]) >= target
  {
    hide SumOver, Descending, Spans, UpTo;
    DistinctSize(bins);
    SubsetCardinality(Elements(bins), UpTo(|levels|));
    TopIsBest(levels, area.order, bins);
  }

  function Target(levels: seq<VolumeLevel>, areaPct: real): real {
    LevelSum(levels) * areaPct
  }

  ghost predicate NonNegative(levels: seq<VolumeLevel>) {
    forall b :: 0 <= b < |levels| ==> levels[b].totalVolume >= 0.0
  }

  function AllBins(n: nat): (bins: seq<int>)
    ensures |bins| == n && forall i :: 0 <= i < n ==> bins[i] == i
  {
    seq(n, i => i)
  }

  lemma {:induction false} SumOverAll(levels: seq<VolumeLevel>)
    ensures SumOver(levels, AllBins(|levels|)) == LevelSum(levels)
  {
    if levels != [] {
      var n := |levels| - 1;
      SumOverAll(levels[..n]);
      assert AllBins(|levels|)[..n] == AllBins(n);
      SumOverFront(levels, AllBins(n));
    }
  }

  lemma {:induction false} SumOverFront(levels: seq<VolumeLevel>, bins: seq<int>)
    requires levels != [] && forall i :: 0 <= i < |bins| ==> 0 <= bins[i] < |levels| - 1
    ensures SumOver(levels[..|levels| - 1], bins) == SumOver(levels, bins)
  {
    if bins != [] {
      SumOverFront(levels, bins[..|bins| - 1]);
    }
  }

  lemma WithoutSelects(levels: seq<VolumeLevel>, bins: seq<int>, i: nat)
    requires Selection(levels, bins) && i < |bins|
    ensures Selection(levels, Without(bins, i))
    ensures forall b :: b in Without(bins, i) ==> b in bins && b != bins[i]
  {}

  lemma LevelSumLast(levels: seq<VolumeLevel>, lo: nat, hi: nat)
    requires lo < hi <= |levels|
    ensures LevelSum(levels[lo..hi]) == LevelSum(levels[lo..hi - 1]) + levels[hi - 1].totalVolume
  {
    assert levels[lo..hi][..hi - lo - 1] == levels[lo..hi - 1];
  }

  lemma NothingBetween(bins: seq<int>, lo: int)
    requires Distinct(bins) && forall b :: b in bins ==> lo <= b < lo
    ensures bins == []
  {
    assert forall b :: b !in bins;
    assert Elements(bins) == {};
    DistinctSize(bins);
  }

  lemma InLevels(levels: seq<VolumeLevel>, bins: seq<int>)
    requires Selection(levels, bins)
    ensures forall k :: 0 <= k < |bins| ==> 0 <= bins[k] < |levels|
  {}

  /** Distinct bins inside a range hold no more than the range does. */
  lemma {:induction false} RangeHolds(levels: seq<VolumeLevel>, bins: seq<int>, lo: nat, hi: nat)
    requires NonNegative(levels) && Selection(levels, bins) && lo <= hi <= |levels|
    requires forall b :: b in bins ==> lo <= b < hi
    ensures SumOver(levels, bins) <= LevelSum(levels[lo..hi])
    decreases hi - lo
  {
    if lo == hi {
      NothingBetween(bins, lo);
    } else {
      var last: nat := hi - 1;
      LevelSumLast(levels, lo, hi);
      assert levels[last].totalVolume >= 0.0;
      hide LevelSum, SumOver, NonNegative, Distinct, Without, Selection;
      if last in bins {
        var i :| 0 <= i < |bins| && bins[i] == last;
        InLevels(levels, bins);
        SumWithout(levels, bins, i);
        WithoutSelects(levels, bins, i);
        RangeHolds(levels, Without(bins, i), lo, last);
      } else {
        RangeHolds(levels, bins, lo, last);
      }
    }
  }

  /** With non-negative volumes and a share of at most the whole, the range between the value
      area's ends holds at least that share. */
  lemma AreaCoversShare(levels: seq<VolumeLevel>, areaPct: real, area: Area)
    requires NonNegative(levels) && areaPct <= 1.0
    requires IsValueArea(levels, Target(levels, areaPct), area)
    ensures SumOver(levels, area.order[..area.taken]) >= Target(levels, areaPct)
    ensures area.minIdx <= area.maxIdx < |levels|
    ensures LevelSum(levels[area.minIdx..area.maxIdx + 1]) >= Target(levels, areaPct)
  {
    hide Target, LevelSum, SumOver;
    var target := Target(levels, areaPct);
    WholeReaches(levels, areaPct);
    FewestBins(levels, target, area, AllBins(|levels|));
    AreaBounds(levels, target, area);
    hide IsValueArea, Selection;
    RangeHolds(levels, area.order[..area.taken], area.minIdx, area.maxIdx + 1);
  }

  lemma AreaBounds(levels: seq<VolumeLevel>, target: real, area: Area)
    requires IsValueArea(levels, target, area)
    ensures area.minIdx <= area.maxIdx < |levels| && area.taken <= |area.order|
    ensures Selection(levels, area.order[..area.taken])
    ensures forall b :: b in area.order[..area.taken] ==> area.minIdx <= b <= area.maxIdx
  {
    hide SumOver;
    PrefixSelects(levels, area.order, area.taken);
  }

  lemma PrefixSelects(levels: seq<VolumeLevel>, order: seq<int>, k: nat)
    requires Selection(levels, order) && k <= |order|
    ensures Selection(levels, order[..k])
  {}

  lemma WholeReaches(levels: seq<VolumeLevel>, areaPct: real)
    requires NonNegative(levels) && areaPct <= 1.0
    ensures Selection(levels, AllBins(|levels|))
    ensures SumOver(levels, AllBins(|levels|)) >= Target(levels, areaPct)
  {
    SumOverAll(levels);
    RangeHolds(levels, [], 0, |levels|);
    assert SumOver(levels, []) == 0.0;
    hide SumOver, LevelSum, NonNegative;
    assert levels[0..|levels|] == levels;
    ShareAtMostWhole(LevelSum(levels), areaPct);
  }

  lemma ShareAtMostWhole(total: real, share: real)
    requires total >= 0.0 && share <= 1.0
    ensures total * share <= total
  {
    assert total * (1.0 - share) >= 0.0;
  }

  ghost predicate Peak(levels: seq<VolumeLevel>, b: int) {
    0 <= b < |levels| && forall c :: 0 <= c < |levels| ==> levels[c].totalVolume <= levels[b].totalVolume
  }

  /** A positive target puts a bin of maximal volume into the value area; when only one bin is
      maximal, that bin. */
  lemma AreaHasPeak(levels: seq<VolumeLevel>, target: real, area: Area)
    requires IsValueArea(levels, target, area) && levels != [] && target > 0.0
    ensures exists b :: area.minIdx <= b <= area.maxIdx && Peak(levels, b)
    ensures forall b :: Peak(levels, b) && (forall c :: Peak(levels, c) ==> c == b) ==> area.minIdx <= b <= area.maxIdx
  {
    assert area.taken > 0 by {
      assert SumOver(levels, area.order[..0]) == 0.0;
    }
    var b := area.order[0];
    assert b == area.order[..area.taken][0];
    assert b in area.order[..area.taken];
    forall c | 0 <= c < |levels|
      ensures levels[c].totalVolume <= levels[b].totalVolume
    {
      var j := PlaceOf(levels, area.order, c);
    }
    assert Peak(levels, b);
  }

  method RankByVolume(levels: seq<VolumeLevel>) returns (order: seq<int>)
    ensures Ranking(levels, order)
  {
    order := [];
    for i := 0 to |levels|
      invariant |order| == i && Distinct(order)
      invariant forall k :: 0 <= k < i ==> 0 <= order[k] < i
      invariant Descending(levels, order)
    {
      var j := 0;
      while j < i && levels[order[j]].totalVolume >= levels[i].totalVolume
        invariant 0 <= j <= i
        invariant forall k :: 0 <= k < j ==> levels[order[k]].totalVolume >= levels[i].totalVolume
      {
        j := j + 1;
      }
      InsertRanked(levels, order, i, j);
      order := order[..j] + [i] + order[j..];
    }
  }

  ghost predicate Descending(levels: seq<VolumeLevel>, order: seq<int>)
    requires forall k :: 0 <= k < |order| ==> 0 <= order[k] < |levels|
  {
    forall k, l :: 0 <= k <= l < |order| ==> levels[order[k]].totalVolume >= levels[order[l]].totalVolume
  }

  lemma InsertRanked(levels: seq<VolumeLevel>, order: seq<int>, i: nat, j: nat)
    requires |order| == i < |levels| && j <= i && Distinct(order)
    requires forall k :: 0 <= k < i ==> 0 <= order[k] < i
    requires Descending(levels, order)
    requires forall k :: 0 <= k < j ==> levels[order[k]].totalVolume >= levels[i].totalVolume
    requires j < i ==> levels[order[j]].totalVolume <= levels[i].totalVolume
    ensures var next := order[..j] + [i] + order[j..];
            && |next| == i + 1 && Distinct(next) && (forall k :: 0 <= k <= i ==> 0 <= next[k] <= i)
            && Descending(levels, next)
  {
    var next := order[..j] + [i] + order[j..];
    forall k | 0 <= k <= i
      ensures next[k] == if k < j then order[k] else if k == j then i else order[k - 1]
    {
    }
  }

  lemma SpansBelow(levels: seq<VolumeLevel>, order: seq<int>, k: nat, minIdx: nat, maxIdx: nat)
    requires Ranking(levels, order) && k <= |order|
    ensures |order| == |levels|
    ensures k > 0 && Spans(order[..k], minIdx, maxIdx) ==> minIdx <= maxIdx < |levels|
    ensures k == 0 ==> Spans(order[..k], 0, 0)
  {}

  lemma SumOverNone(levels: seq<VolumeLevel>, order: seq<int>)
    requires Selection(levels, order)
    ensures SumOver(levels, order[..0]) == 0.0
  {}

  lemma AccumulateStep(levels: seq<VolumeLevel>, order: seq<int>, k: nat, minIdx: nat, maxIdx: nat)
    requires k < |order| && forall i :: 0 <= i < |order| ==> 0 <= order[i] < |levels|
    requires if k == 0 then minIdx == |levels| && maxIdx == 0 else Spans(order[..k], minIdx, maxIdx)
    ensures SumOver(levels, order[..k + 1]) == SumOver(levels, order[..k]) + levels[order[k]].totalVolume
    ensures Spans(order[..k + 1], if order[k] < minIdx then order[k] else minIdx,
                  if order[k] > maxIdx then order[k] else maxIdx)
  {
    hide SumOver;
    assert order[..k + 1] == order[..k] + [order[k]];
    SumAppend(levels, order[..k], order[k]);
    SpansAppend(order[..k], order[k], minIdx, maxIdx, |levels|);
  }

  lemma SpansAppend(bins: seq<int>, b: nat, minIdx: nat, maxIdx: nat, n: nat)
    requires b < n && if bins == [] then minIdx == n && maxIdx == 0 else Spans(bins, minIdx, maxIdx)
    ensures Spans(bins + [b], if b < minIdx then b else minIdx, if b > maxIdx then b else maxIdx)
  {
    assert forall c :: c in bins + [b] <==> c in bins || c == b;
  }

  /** Lines 143-157: take bins in rank order until the target is reached. */
  method Accumulate(levels: seq<VolumeLevel>, sorted: seq<int>, targetVol: real)
    returns (k: nat, minIdx: nat, maxIdx: nat)
    requires Ranking(levels, sorted) && levels != []
    ensures k <= |sorted|
    ensures forall i :: 0 <= i < k ==> SumOver(levels, sorted[..i]) < targetVol
    ensures k == |sorted| || SumOver(levels, sorted[..k]) >= targetVol
    ensures if k == 0 then minIdx == |levels| && maxIdx == 0 else Spans(sorted[..k], minIdx, maxIdx)
  {
    hide SumOver, Spans, Descending;
    SumOverNone(levels, sorted);
    var accumulatedVol := 0.0;
    minIdx, maxIdx := |levels|, 0;
    k := 0;
    while k < |sorted| && accumulatedVol < targetVol
      invariant 0 <= k <= |sorted|
      invariant accumulatedVol == SumOver(levels, sorted[..k])
      invariant forall i :: 0 <= i < k ==> SumOver(levels, sorted[..i]) < targetVol
      invariant if k == 0 then minIdx == |levels| && maxIdx == 0 else Spans(sorted[..k], minIdx, maxIdx)
    {
      var idx := sorted[k];
      AccumulateStep(levels, sorted, k, minIdx, maxIdx);
      accumulatedVol := accumulatedVol + levels[idx].totalVolume;
      if idx < minIdx {
        minIdx := idx;
      }
      if idx > maxIdx {
        maxIdx := idx;
      }
      k := k + 1;
    }
  }

  /** Greedy accumulation over the bins by descending volume. */
  method ComputeValueArea(levels: seq<VolumeLevel>, areaPct: real) returns (vah: real, val: real, ghost area: Area)
    ensures levels == [] ==> vah == val == 0.0
    ensures levels != [] ==>
              && IsValueArea(levels, Target(levels, areaPct), area)
              && vah == Float64(levels[area.maxIdx].price) && val == Float64(levels[area.minIdx].price)
  {
    hide SumOver, Spans, Ranking, Target;
    if |levels| == 0 {
      area := Area([], 0, 0, 0);
      return 0.0, 0.0, area;
    }
    var sorted := RankByVolume(levels);
    var targetVol := TargetVolume(levels, areaPct);
    var k, minIdx, maxIdx := Accumulate(levels, sorted, targetVol);
    SpansBelow(levels, sorted, k, minIdx, maxIdx);
    if minIdx == |levels| {
      minIdx := 0;
    }
    if maxIdx < minIdx {
      maxIdx := minIdx;
    }
    area := Area(sorted, k, minIdx, maxIdx);
    vah, val := Float64(levels[maxIdx].price), Float64(levels[minIdx].price);
  }

  method TargetVolume(levels: seq<VolumeLevel>, areaPct: real) returns (target: real)
    ensures target == Target(levels, areaPct)
  {
    var totalVol := SumLevels(levels);
    target := totalVol * areaPct;
  }

  method SumLevels(levels: seq<VolumeLevel>) returns (total: real)
    ensures total == LevelSum(levels)
  {
    total := 0.0;
    for i := 0 to |levels|
      invariant total == LevelSum(levels[..i])
    {
      assert levels[..i + 1][..i] == levels[..i];
      total := total + levels[i].totalVolume;
    }
    assert levels[..|levels|] == levels;
  }

  // ---------------------------------------------------------------- point of control

  /** A maximal bin, and the first one. */
  ghost predicate FirstPeak(levels: seq<VolumeLevel>, b: int) {
    Peak(levels, b) && forall c :: 0 <= c < b ==> levels[c].totalVolume < levels[b].totalVolume
  }

  /** The point of control is the price of the first maximal bin, or 0 when no bin holds a
      positive volume. */
  method PointOfControl(levels: seq<VolumeLevel>) returns (total: real, poc: real, ghost peak: int)
    ensures total == LevelSum(levels)
    ensures if exists b :: 0 <= b < |levels| && levels[b].totalVolume > 0.0
            then FirstPeak(levels, peak) && poc == Float64(levels[peak].price)
            else poc == 0.0
  {
    hide LevelSum, Float64;
    total, poc, peak := 0.0, 0.0, -1;
    LevelSumSteps(levels);
    var maxVol := 0.0;
    for i := 0 to |levels|
      invariant total == LevelSum(levels[..i])
      invariant forall k :: 0 <= k < i ==> levels[k].totalVolume <= maxVol
      invariant peak == -1 ==> maxVol == 0.0 && poc == 0.0
      invariant peak != -1 ==>
                  && 0 <= peak < i && maxVol == levels[peak].totalVolume > 0.0 && poc == Float64(levels[peak].price)
                  && forall c :: 0 <= c < peak ==> levels[c].totalVolume < maxVol
    {
      total := total + levels[i].totalVolume;
      if levels[i].totalVolume > maxVol {
        maxVol := levels[i].totalVolume;
        poc := Float64(levels[i].price);
        peak := i;
      }
    }
    assert levels[..|levels|] == levels;
  }

  lemma LevelSumSteps(levels: seq<VolumeLevel>)
    ensures LevelSum(levels[..0]) == 0.0
    ensures forall i :: 0 <= i < |levels| ==> LevelSum(levels[..i + 1]) == LevelSum(levels[..i]) + levels[i].totalVolume
  {
    forall i | 0 <= i < |levels|
      ensures LevelSum(levels[..i + 1]) == LevelSum(levels[..i]) + levels[i].totalVolume
    {
      assert levels[..i + 1][..i] == levels[..i];
    }
  }

  /** The profile of a non-empty price list: every sample is counted in exactly one level, the
      total is the volume given, and the reported prices are those of POC and value area. */
  ghost predicate IsProfile(vp: Profile, samples: seq<Sample>, sided: bool, area: Area) {
    && vp.levels != [] && (forall b :: 0 <= b < |vp.levels| ==> Tallies(vp.levels[b], samples, b, sided))
    && vp.totalVolume == LevelSum(vp.levels) == Total(samples)
    && IsValueArea(vp.levels, Target(vp.levels, AREA_PCT), area)
    && vp.vah == Float64(vp.levels[area.maxIdx].price) && vp.val == Float64(vp.levels[area.minIdx].price)
    && vp.vaRange == vp.vah - vp.val
    && (if exists b :: 0 <= b < |vp.levels| && vp.levels[b].totalVolume > 0.0
        then exists b :: FirstPeak(vp.levels, b) && vp.poc == Float64(vp.levels[b].price)
        else vp.poc == 0.0)
  }

  method ComputeVolumeProfile(prices: seq<real>, volumes: seq<real>, sides: seq<int>, numBins: int)
    returns (vp: Profile, ghost minPrice: real, ghost maxPrice: real, ghost area: Area)
    ensures prices == [] || numBins <= 0 ==> vp == Profile([], 0.0, 0.0, 0.0, 0.0, 0.0)
    ensures prices != [] && numBins > 0 ==>
              && |vp.levels| == numBins && minPrice in prices && maxPrice in prices
              && IsBinWidth(BinSize(minPrice, maxPrice, numBins), minPrice, maxPrice, numBins)
              && (forall b :: 0 <= b < numBins ==>
                    IsMiddle(vp.levels[b].price, minPrice, BinSize(minPrice, maxPrice, numBins), b))
              && (forall i :: 0 <= i < |prices| ==> minPrice <= prices[i] <= maxPrice)
              && var samples := Samples(prices, volumes, sides, minPrice, BinSize(minPrice, maxPrice, numBins),
                                        numBins);
                 IsProfile(vp, samples, |volumes| == |prices| && |sides| == |prices|, area)
  {
    hide IsValueArea, Target, LevelSum, Total, Float64, BinSize, BinOf, Peak, IsMiddle, IsBinWidth;
    minPrice, maxPrice, area := 0.0, 0.0, Area([], 0, 0, 0);
    if |prices| == 0 || numBins <= 0 {
      vp := Profile([], 0.0, 0.0, 0.0, 0.0, 0.0);
      return;
    }
    var lo, hi := Extremes(prices);
    minPrice, maxPrice := lo, hi;
    var binSize := BinSize(lo, hi, numBins);
    var levels := FillLevels(prices, volumes, sides, lo, binSize, numBins);
    ghost var samples := Samples(prices, volumes, sides, lo, binSize, numBins);
    VolumeConserved(levels, samples);
    BinSizeIsWidth(lo, hi, numBins);
    forall b | 0 <= b < numBins
      ensures IsMiddle(levels[b].price, lo, binSize, b)
    {
      LevelPriceIsMiddle(lo, binSize, b);
    }
    var total, poc, peak := PointOfControl(levels);
    var vah, val, found := ComputeValueArea(levels, AREA_PCT);
    area := found;
    vp := Profile(levels, poc, vah, val, vah - val, total);
  }

  // ---------------------------------------------------------------- what was traded

  /** The volume of the trades of side 1, or of all others. */
  function SideVolume(volumes: seq<real>, sides: seq<int>, buys: bool): real
    requires |volumes| == |sides|
  {
    if volumes == [] then 0.0
    else
      var n := |volumes| - 1;
      SideVolume(volumes[..n], sides[..n], buys) + if (sides[n] == 1) == buys then volumes[n] else 0.0
  }

  /** The level's bought, or sold, volume as its total. */
  function OneSide(levels: seq<VolumeLevel>, buys: bool): (ls: seq<VolumeLevel>)
    ensures |ls| == |levels|
    ensures forall b :: 0 <= b < |ls| ==>
              ls[b].totalVolume == if buys then levels[b].buyVolume else levels[b].sellVolume
  {
    seq(|levels|, b requires 0 <= b < |levels| =>
      levels[b].(totalVolume := if buys then levels[b].buyVolume else levels[b].sellVolume))
  }

  function SamplesOfSide(samples: seq<Sample>, buys: bool): (ss: seq<Sample>)
    ensures |ss| == |samples|
    ensures forall i :: 0 <= i < |ss| ==>
              ss[i].bin == samples[i].bin && ss[i].volume == if samples[i].buy == buys then samples[i].volume else 0.0
  {
    seq(|samples|, i requires 0 <= i < |samples| =>
      samples[i].(volume := if samples[i].buy == buys then samples[i].volume else 0.0))
  }

  lemma {:induction false} SideInBin(samples: seq<Sample>, bin: nat)
    ensures InBin(SamplesOfSide(samples, true), bin) == BoughtInBin(samples, bin)
    ensures InBin(SamplesOfSide(samples, false), bin) == InBin(samples, bin) - BoughtInBin(samples, bin)
  {
    if samples != [] {
      var n := |samples| - 1;
      SideInBin(samples[..n], bin);
      assert SamplesOfSide(samples, true)[..n] == SamplesOfSide(samples[..n], true);
      assert SamplesOfSide(samples, false)[..n] == SamplesOfSide(samples[..n], false);
    }
  }

  lemma {:induction false} SideTotal(samples: seq<Sample>, volumes: seq<real>, sides: seq<int>, buys: bool)
    requires |samples| == |volumes| == |sides|
    requires forall i :: 0 <= i < |samples| ==> samples[i].volume == volumes[i] && (samples[i].buy <==> sides[i] == 1)
    ensures Total(SamplesOfSide(samples, buys)) == SideVolume(volumes, sides, buys)
  {
    if samples != [] {
      var n := |samples| - 1;
      SideTotal(samples[..n], volumes[..n], sides[..n], buys);
      assert SamplesOfSide(samples, buys)[..n] == SamplesOfSide(samples[..n], buys);
    }
  }

  /** A trade past the end of the volume list counts 1. */
  lemma {:induction false} GivenTotal(samples: seq<Sample>, volumes: seq<real>)
    requires forall i :: 0 <= i < |samples| ==> samples[i].volume == if i < |volumes| then volumes[i] else 1.0
    ensures Total(samples) == if |samples| <= |volumes| then Sum(volumes[..|samples|])
                              else Sum(volumes) + (|samples| - |volumes|) as real
  {
    if samples != [] {
      var n := |samples| - 1;
      GivenTotal(samples[..n], volumes);
      if n < |volumes| {
        assert volumes[..n + 1][..n] == volumes[..n];
      } else if n == |volumes| {
        assert volumes[..n] == volumes;
      }
    } else {
      assert volumes[..0] == [];
    }
  }

  /** In every profile the total is the volume given, and with sides the levels together have
      bought what was traded on side 1 and sold the rest. */
  lemma TradesConserved(vp: Profile, prices: seq<real>, volumes: seq<real>, sides: seq<int>, minPrice: real,
                        binSize: real, area: Area)
    requires prices != [] && binSize != 0.0 && vp.levels != []
    requires IsProfile(vp, Samples(prices, volumes, sides, minPrice, binSize, |vp.levels|),
                       |volumes| == |prices| && |sides| == |prices|, area)
    ensures vp.totalVolume == if |prices| <= |volumes| then Sum(volumes[..|prices|])
                              else Sum(volumes) + (|prices| - |volumes|) as real
    ensures |volumes| == |prices| && |sides| == |prices| ==>
              && LevelSum(OneSide(vp.levels, true)) == SideVolume(volumes, sides, true)
              && LevelSum(OneSide(vp.levels, false)) == SideVolume(volumes, sides, false)
  {
    var samples := Samples(prices, volumes, sides, minPrice, binSize, |vp.levels|);
    hide IsValueArea, LevelSum, Total, InBin, BoughtInBin, Sum, SideVolume, BinOf;
    GivenTotal(samples, volumes);
    if |volumes| == |prices| && |sides| == |prices| {
      SideConserved(vp.levels, samples, volumes, sides, true);
      SideConserved(vp.levels, samples, volumes, sides, false);
    }
  }

  lemma SideConserved(levels: seq<VolumeLevel>, samples: seq<Sample>, volumes: seq<real>, sides: seq<int>, buys: bool)
    requires |samples| == |volumes| == |sides|
    requires forall i :: 0 <= i < |samples| ==> samples[i].volume == volumes[i] && (samples[i].buy <==> sides[i] == 1)
    requires forall i :: 0 <= i < |samples| ==> samples[i].bin < |levels|
    requires forall b :: 0 <= b < |levels| ==> Tallies(levels[b], samples, b, true)
    ensures LevelSum(OneSide(levels, buys)) == SideVolume(volumes, sides, buys)
  {
    hide LevelSum, Total, InBin, BoughtInBin, SideVolume;
    forall b | 0 <= b < |levels|
      ensures OneSide(levels, buys)[b].totalVolume == InBin(SamplesOfSide(samples, buys), b)
    {
      SideInBin(samples, b);
    }
    VolumeConserved(OneSide(levels, buys), SamplesOfSide(samples, buys));
    SideTotal(samples, volumes, sides, buys);
  }

  lemma {:induction false} InBinNonNegative(samples: seq<Sample>, bin: nat)
    requires forall i :: 0 <= i < |samples| ==> samples[i].volume >= 0.0
    ensures InBin(samples, bin) >= 0.0
  {
    if samples != [] {
      InBinNonNegative(samples[..|samples| - 1], bin);
    }
  }

  /** With non-negative volumes the levels between VAL and VAH hold at least 70% of all volume. */
  lemma ProfileCoversShare(vp: Profile, samples: seq<Sample>, sided: bool, area: Area)
    requires IsProfile(vp, samples, sided, area)
    requires forall i :: 0 <= i < |samples| ==> samples[i].volume >= 0.0
    ensures area.minIdx <= area.maxIdx < |vp.levels|
    ensures LevelSum(vp.levels[area.minIdx..area.maxIdx + 1]) >= 0.70 * Total(samples)
  {
    hide LevelSum, Total, InBin, IsValueArea;
    forall b | 0 <= b < |vp.levels|
      ensures vp.levels[b].totalVolume >= 0.0
    {
      InBinNonNegative(samples, b);
    }
    AreaCoversShare(vp.levels, AREA_PCT, area);
  }

  // ---------------------------------------------------------------- VWAP

  function Times(x: real, y: real): real {
    x * y
  }

  function Value(prices: seq<real>, volumes: seq<real>): real {
    if prices == [] then 0.0
    else
      var n := |prices| - 1;
      Value(prices[..n], volumes) + Times(prices[n], VolumeAt(volumes, n))
  }

  function Volume(n: nat, volumes: seq<real>): real {
    if n == 0 then 0.0 else Volume(n - 1, volumes) + VolumeAt(volumes, n - 1)
  }

  /** The volume-weighted mean; for non-negative volumes it lies between the extreme prices. */
  method CalculateVWAP(prices: seq<real>, volumes: seq<real>) returns (vwap: real)
    ensures prices == [] || volumes == [] || Volume(|prices|, volumes) == 0.0 ==> vwap == 0.0
    ensures prices != [] && volumes != [] && Volume(|prices|, volumes) != 0.0 ==>
              Times(vwap, Volume(|prices|, volumes)) == Value(prices, volumes)
  {
    hide Value, Volume;
    ValueNone(prices, volumes);
    if |prices| == 0 || |volumes| == 0 {
      return 0.0;
    }
    var totalValue, totalVolume := 0.0, 0.0;
    for i := 0 to |prices|
      invariant totalValue == Value(prices[..i], volumes) && totalVolume == Volume(i, volumes)
    {
      ValueStep(prices, volumes, i);
      totalValue := totalValue + prices[i] * VolumeAt(volumes, i);
      VolumeStep(volumes, i);
      totalVolume := totalVolume + VolumeAt(volumes, i);
    }
    assert prices[..|prices|] == prices;
    if totalVolume == 0.0 {
      return 0.0;
    }
    vwap := totalValue / totalVolume;
  }

  lemma ValueStep(prices: seq<real>, volumes: seq<real>, i: nat)
    requires i < |prices|
    ensures Value(prices[..i + 1], volumes) == Value(prices[..i], volumes) + Times(prices[i], VolumeAt(volumes, i))
  {
    hide Times;
    assert prices[..i + 1][..i] == prices[..i];
  }

  lemma VolumeStep(volumes: seq<real>, i: nat)
    ensures Volume(i + 1, volumes) == Volume(i, volumes) + VolumeAt(volumes, i)
  {}

  lemma ValueNone(prices: seq<real>, volumes: seq<real>)
    ensures Value(prices[..0], volumes) == 0.0 == Volume(0, volumes)
  {}

  lemma WeightOrder(v: real, lo: real, p: real, hi: real)
    requires v >= 0.0 && lo <= p <= hi
    ensures Times(lo, v) <= Times(p, v) <= Times(hi, v)
  {
    assert (p - lo) * v >= 0.0;
    assert (hi - p) * v >= 0.0;
  }

  lemma TimesSum(x: real, v: real, w: real)
    ensures Times(x, v + w) == Times(x, v) + Times(x, w)
  {}

  lemma TimesZero(x: real)
    ensures Times(x, 0.0) == 0.0
  {}

  lemma {:induction false} ValueBounds(prices: seq<real>, volumes: seq<real>, lo: real, hi: real)
    requires forall i :: 0 <= i < |prices| ==> lo <= prices[i] <= hi
    requires forall i :: 0 <= i < |volumes| ==> volumes[i] >= 0.0
    ensures Volume(|prices|, volumes) >= 0.0
    ensures Times(lo, Volume(|prices|, volumes)) <= Value(prices, volumes) <= Times(hi, Volume(|prices|, volumes))
  {
    hide Times;
    if prices == [] {
      TimesZero(lo);
      TimesZero(hi);
    } else {
      var n := |prices| - 1;
      ValueBounds(prices[..n], volumes, lo, hi);
      WeightOrder(VolumeAt(volumes, n), lo, prices[n], hi);
      TimesSum(lo, Volume(n, volumes), VolumeAt(volumes, n));
      TimesSum(hi, Volume(n, volumes), VolumeAt(volumes, n));
    }
  }

  lemma BetweenFactors(lo: real, x: real, hi: real, w: real)
    requires w > 0.0 && Times(lo, w) <= Times(x, w) <= Times(hi, w)
    ensures lo <= x <= hi
  {
    assert (x - lo) * w >= 0.0 && (hi - x) * w >= 0.0;
    FactorNonNegative(x - lo, w);
    FactorNonNegative(hi - x, w);
  }

  lemma FactorNonNegative(x: real, w: real)
    requires w > 0.0 && x * w >= 0.0
    ensures x >= 0.0
  {}

  lemma VWAPBetweenExtremes(prices: seq<real>, volumes: seq<real>, lo: real, hi: real, vwap: real)
    requires forall i :: 0 <= i < |prices| ==> lo <= prices[i] <= hi
    requires forall i :: 0 <= i < |volumes| ==> volumes[i] >= 0.0
    requires Volume(|prices|, volumes) != 0.0
    requires Times(vwap, Volume(|prices|, volumes)) == Value(prices, volumes)
    ensures lo <= vwap <= hi
  {
    hide Times, Value, Volume;
    ValueBounds(prices, volumes, lo, hi);
    BetweenFactors(lo, vwap, hi, Volume(|prices|, volumes));
  }
}
