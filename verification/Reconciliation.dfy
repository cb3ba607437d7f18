/** Matching internal executions against broker fills (internal/api/reconciliation_matcher.go).

    Instants are nanoseconds since Go's zero time, so the zero time is 0; prices are the raw
    fixed-point integers of types.Price (internal/types/price.go). */
module Reconciliation {
  import opened Common

  const PRICE_TOLERANCE_BPS: real := 5.0
  const TIME_TOLERANCE: int := 1_000_000_000
  const MAX_DURATION: int := 0x7fff_ffff_ffff_ffff
  const MIN_DURATION: int := -0x8000_0000_0000_0000

  datatype Execution = Execution(
    id: string, symbol: string, side: string, quantity: real, price: int, executedAt: int)

  datatype Fill = Fill(symbol: string, side: string, quantity: real, fillPrice: int, fillTime: int)

  /** diffBps is None where the code computes 0/0, which Go leaves as NaN. */
  datatype Discrepancy = Discrepancy(orderID: string, ours: real, theirs: real, diffBps: Option<real>)

  /** The date is the instant whose day is printed. */
  datatype Report = Report(
    date: Option<int>, internalCount: nat, matched: nat, missing: nat, extra: nat,
    priceDiscrepancies: nat, discrepancies: seq<Discrepancy>)

  // ---------------------------------------------------------------- the four predicates

  predicate SymbolsMatch(ours: string, theirs: string) {
    if ours == "" || theirs == "" then true else ours == theirs
  }

  predicate SidesMatch(ours: string, theirs: string) {
    ours == theirs || ours == "" || theirs == ""
  }

  predicate QuantitiesMatch(ours: real, theirs: real) {
    Abs(ours - theirs) < 0.01
  }

  /** time.Time.Sub saturates at the ends of the 64-bit Duration range. */
  function Sub(t: int, u: int): int {
    if t - u > MAX_DURATION then MAX_DURATION else if t - u < MIN_DURATION then MIN_DURATION else t - u
  }

  /** Negation of a Duration wraps around: the least value is its own negative. */
  function Negate(d: int): int {
    if d == MIN_DURATION then MIN_DURATION else -d
  }

  predicate TimesClose(ours: int, theirs: int) {
    if ours == 0 || theirs == 0 then true
    else
      var diff := Sub(ours, theirs);
      (if diff < 0 then Negate(diff) else diff) <= TIME_TOLERANCE
  }

  /** Set times are close when at most a second apart, and also, because the saturated
      difference does not negate, when ours is 2^63 ns or more before theirs. */
  lemma TimesCloseExact(ours: int, theirs: int)
    ensures TimesClose(ours, theirs) <==>
            || ours == 0 || theirs == 0
            || -TIME_TOLERANCE <= ours - theirs <= TIME_TOLERANCE
            || ours - theirs <= MIN_DURATION
  {}

  predicate Compatible(e: Execution, f: Fill) {
    && SymbolsMatch(e.symbol, f.symbol)
    && SidesMatch(e.side, f.side)
    && QuantitiesMatch(e.quantity, f.quantity)
    && TimesClose(e.executedAt, f.fillTime)
  }

  /** Each text agrees or is left open on one side, the quantities differ by less than a
      hundredth, and the times are close. */
  predicate SameTrade(e: Execution, f: Fill) {
    && (e.symbol == f.symbol || e.symbol == "" || f.symbol == "")
    && (e.side == f.side || e.side == "" || f.side == "")
    && e.quantity - f.quantity < 0.01 && f.quantity - e.quantity < 0.01
    && (|| e.executedAt == 0 || f.fillTime == 0
        || -1_000_000_000 <= e.executedAt - f.fillTime <= 1_000_000_000
        || e.executedAt - f.fillTime <= -0x8000_0000_0000_0000)
  }

  lemma CompatibleExact(e: Execution, f: Fill)
    ensures Compatible(e, f) <==> SameTrade(e, f)
  {
    TimesCloseExact(e.executedAt, f.fillTime);
  }

  function Max(x: real, y: real): real {
    if x < y then y else x
  }

  function DiffBps(e: Execution, f: Fill): Option<real> {
    var p, q := Float64(e.price), Float64(f.fillPrice);
    var base := Max(Abs(p), Abs(q));
    if base == 0.0 then None else Some(Abs(p - q) / base * 10000.0)
  }

  /** A comparison with NaN is false. */
  predicate PriceAgrees(e: Execution, f: Fill) {
    var diff := DiffBps(e, f);
    diff.Some? && diff.value <= PRICE_TOLERANCE_BPS
  }

  function AbsInt(x: int): int {
    if x < 0 then -x else x
  }

  function MaxInt(x: int, y: int): int {
    if x < y then y else x
  }

  /** In integers: the raw prices differ by at most 1/2000 of the larger, and are not both zero
      (two zero prices are reported as a discrepancy). */
  lemma PriceAgreesExact(e: Execution, f: Fill)
    ensures PriceAgrees(e, f) <==>
            && (e.price != 0 || f.fillPrice != 0)
            && 2000 * AbsInt(e.price - f.fillPrice) <= MaxInt(AbsInt(e.price), AbsInt(f.fillPrice))
  {
    var s := PRICE_SCALE as real;
    var p, q := Float64(e.price), Float64(f.fillPrice);
    var d, m := AbsInt(e.price - f.fillPrice), MaxInt(AbsInt(e.price), AbsInt(f.fillPrice));
    assert p * s == e.price as real && q * s == f.fillPrice as real;
    assert Abs(p - q) == d as real / s;
    assert Max(Abs(p), Abs(q)) == m as real / s;
    if m > 0 {
      QuotientBound(d as real / s, m as real / s);
    }
  }

  lemma QuotientBound(x: real, y: real)
    requires y > 0.0
    ensures x / y * 10000.0 <= PRICE_TOLERANCE_BPS <==> 2000.0 * x <= y
  {
    var q := x / y;
    assert q * y == x;
    if q <= 0.0005 {
      assert q * y <= 0.0005 * y;
    } else {
      assert q * y > 0.0005 * y;
    }
  }

  // ---------------------------------------------------------------- pairings

  /** pairing[i] is the fill of execution i, or -1. */
  type Pairing = seq<int>

  predicate Takes(pairing: Pairing, j: int) {
    j >= 0 && j in pairing
  }

  /** The first fill from j on that is free and compatible. */
  function FirstFree(e: Execution, fills: seq<Fill>, pairing: Pairing, j: nat): (k: int)
    requires j <= |fills|
    ensures k == -1 || (j <= k < |fills| && Compatible(e, fills[k]) && !Takes(pairing, k))
    ensures forall i :: j <= i < (if k == -1 then |fills| else k) ==> Takes(pairing, i) || !Compatible(e, fills[i])
    decreases |fills| - j
  {
    if j == |fills| then -1
    else if !Takes(pairing, j) && Compatible(e, fills[j]) then j
    else FirstFree(e, fills, pairing, j + 1)
  }

  function Greedy(execs: seq<Execution>, fills: seq<Fill>): (pairing: Pairing)
    ensures |pairing| == |execs|
  {
    if execs == [] then []
    else
      var done := Greedy(execs[..|execs| - 1], fills);
      done + [FirstFree(execs[|execs| - 1], fills, done, 0)]
  }

  /** Compatible pairs only, and no fill used twice. */
  ghost predicate IsMatching(execs: seq<Execution>, fills: seq<Fill>, pairing: Pairing) {
    && |pairing| == |execs|
    && (forall i :: 0 <= i < |pairing| ==> -1 <= pairing[i] < |fills|)
    && (forall i :: 0 <= i < |pairing| && pairing[i] >= 0 ==> Compatible(execs[i], fills[pairing[i]]))
    && (forall i, j :: 0 <= i < j < |pairing| && pairing[i] >= 0 ==> pairing[i] != pairing[j])
  }

  /** No leftover execution is compatible with a leftover fill. */
  ghost predicate IsMaximal(execs: seq<Execution>, fills: seq<Fill>, pairing: Pairing)
    requires |pairing| == |execs|
  {
    forall i, j :: 0 <= i < |execs| && 0 <= j < |fills| && pairing[i] == -1 && !Takes(pairing, j)
      ==> !Compatible(execs[i], fills[j])
  }

  lemma ExtendMatching(execs: seq<Execution>, fills: seq<Fill>, done: Pairing)
    requires execs != []
    requires IsMatching(execs[..|execs| - 1], fills, done)
    ensures IsMatching(execs, fills, done + [FirstFree(execs[|execs| - 1], fills, done, 0)])
  {
    hide Compatible;
    var n := |execs| - 1;
    var k := FirstFree(execs[n], fills, done, 0);
    var all := done + [k];
    assert forall i :: 0 <= i < n ==> all[i] == done[i] && execs[..n][i] == execs[i];
    forall i | 0 <= i < n && all[i] >= 0
      ensures all[i] != k
    {
      assert done[i] in done;
    }
  }

  lemma ExtendMaximal(execs: seq<Execution>, fills: seq<Fill>, done: Pairing)
    requires execs != [] && |done| == |execs| - 1
    requires IsMaximal(execs[..|execs| - 1], fills, done)
    ensures IsMaximal(execs, fills, done + [FirstFree(execs[|execs| - 1], fills, done, 0)])
  {
    hide Compatible;
    var n := |execs| - 1;
    var all := done + [FirstFree(execs[n], fills, done, 0)];
    forall i, j | 0 <= i < |execs| && 0 <= j < |fills| && all[i] == -1 && !Takes(all, j)
      ensures !Compatible(execs[i], fills[j])
    {
      assert forall x :: x in done ==> x in all;
      assert !Takes(done, j);
      if i < n {
        assert done[i] == -1 && execs[..n][i] == execs[i];
      }
    }
  }

  lemma {:induction false} GreedyIsMaximalMatching(execs: seq<Execution>, fills: seq<Fill>)
    ensures IsMatching(execs, fills, Greedy(execs, fills))
    ensures IsMaximal(execs, fills, Greedy(execs, fills))
  {
    if execs != [] {
      var n := |execs| - 1;
      GreedyIsMaximalMatching(execs[..n], fills);
      hide IsMatching, IsMaximal;
      var done := Greedy(execs[..n], fills);
      ExtendMatching(execs, fills, done);
      ExtendMaximal(execs, fills, done);
    }
  }

  /** The pairing the pass is meant to find: the executions in their order each take the first
      fill of the same trade that no earlier one has taken. */
  ghost predicate TakesFirstFree(execs: seq<Execution>, fills: seq<Fill>, pairing: Pairing) {
    && |pairing| == |execs|
    && (forall i :: 0 <= i < |execs| ==> TakesSame(execs[i], fills, pairing[i]))
    && (forall i, k :: 0 <= i < k < |execs| && pairing[i] >= 0 ==> pairing[i] != pairing[k])
    && forall i, j :: (0 <= i < |execs| && 0 <= j < (if pairing[i] == -1 then |fills| else pairing[i])
                       && SameTrade(execs[i], fills[j])) ==> j in pairing[..i]
  }

  predicate TakesSame(e: Execution, fills: seq<Fill>, k: int) {
    k == -1 || (0 <= k < |fills| && SameTrade(e, fills[k]))
  }

  lemma NextTakesFirstFree(execs: seq<Execution>, fills: seq<Fill>, done: Pairing)
    requires execs != [] && TakesFirstFree(execs[..|execs| - 1], fills, done)
    ensures TakesFirstFree(execs, fills, done + [FirstFree(execs[|execs| - 1], fills, done, 0)])
  {
    hide Compatible, SameTrade;
    var n := |execs| - 1;
    var k := FirstFree(execs[n], fills, done, 0);
    var all := done + [k];
    forall j | 0 <= j < |fills|
      ensures Compatible(execs[n], fills[j]) <==> SameTrade(execs[n], fills[j])
    {
      CompatibleExact(execs[n], fills[j]);
    }
    assert forall i :: 0 <= i < n ==> all[i] == done[i] && execs[..n][i] == execs[i];
    assert forall i :: 0 <= i <= n ==> all[..i] == done[..i];
  }

  /** Read in the fields of executions and fills. */
  lemma {:induction false} GreedyTakesFirstFree(execs: seq<Execution>, fills: seq<Fill>)
    ensures TakesFirstFree(execs, fills, Greedy(execs, fills))
  {
    if execs != [] {
      var n := |execs| - 1;
      GreedyTakesFirstFree(execs[..n], fills);
      hide TakesFirstFree;
      NextTakesFirstFree(execs, fills, Greedy(execs[..n], fills));
    }
  }

  // ---------------------------------------------------------------- at least half of the best

  function Positions(pairing: Pairing): set<int> {
    set i | 0 <= i < |pairing| && pairing[i] >= 0
  }

  function Pairs(pairing: Pairing): nat {
    |Positions(pairing)|
  }

  function Image(pairing: Pairing, s: set<int>): set<int>
    requires s <= Positions(pairing)
  {
    set i | i in s :: pairing[i]
  }

  lemma {:induction false} ImageNotLarger(pairing: Pairing, s: set<int>)
    requires s <= Positions(pairing)
    ensures |Image(pairing, s)| <= |s|
    decreases |s|
  {
    if s != {} {
      var i :| i in s;
      ImageNotLarger(pairing, s - {i});
      assert Image(pairing, s) == Image(pairing, s - {i}) + {pairing[i]};
    }
  }

  lemma {:induction false} InjectiveImage(pairing: Pairing, s: set<int>)
    requires s <= Positions(pairing)
    requires forall i, j :: 0 <= i < j < |pairing| && pairing[i] >= 0 ==> pairing[i] != pairing[j]
    ensures |Image(pairing, s)| == |s|
    decreases |s|
  {
    if s != {} {
      var i :| i in s;
      InjectiveImage(pairing, s - {i});
      assert Image(pairing, s) == Image(pairing, s - {i}) + {pairing[i]};
      forall j | j in s - {i}
        ensures pairing[j] != pairing[i]
      {
        assert i < j || j < i;
      }
    }
  }

  /** Every compatible matching pairs at most twice as many as any maximal one. */
  lemma MaximalIsHalf(execs: seq<Execution>, fills: seq<Fill>, maximal: Pairing, other: Pairing)
    requires IsMatching(execs, fills, maximal) && IsMaximal(execs, fills, maximal)
    requires IsMatching(execs, fills, other)
    ensures Pairs(other) <= 2 * Pairs(maximal)
  {
    hide Compatible;
    var paired, theirs := Positions(maximal), Positions(other);
    var displaced := theirs - paired;
    forall i | i in displaced
      ensures other[i] in Image(maximal, paired)
    {
      assert maximal[i] == -1;
      assert Compatible(execs[i], fills[other[i]]);
      assert Takes(maximal, other[i]);
      var k :| 0 <= k < |maximal| && maximal[k] == other[i];
      assert k in paired;
    }
    assert Image(other, displaced) <= Image(maximal, paired);
    SubsetCardinality(Image(other, displaced), Image(maximal, paired));
    InjectiveImage(other, displaced);
    ImageNotLarger(maximal, paired);
    SubsetCardinality(theirs, paired + displaced);
    assert |paired + displaced| == |paired| + |displaced|;
  }

  lemma GreedyIsHalf(execs: seq<Execution>, fills: seq<Fill>, other: Pairing)
    requires IsMatching(execs, fills, other)
    ensures Pairs(other) <= 2 * Pairs(Greedy(execs, fills))
  {
    GreedyIsMaximalMatching(execs, fills);
    MaximalIsHalf(execs, fills, Greedy(execs, fills), other);
  }

  /** Half is all that can be promised: an execution without a symbol takes the only fill the
      next one could use. */
  lemma HalfIsTight()
    ensures exists execs, fills, other ::
              IsMatching(execs, fills, other) && Pairs(other) == 2 && Pairs(Greedy(execs, fills)) == 1
  {
    var e0, e1 := Execution("1", "", "BUY", 1.0, 100, 5), Execution("2", "SPY", "BUY", 1.0, 100, 5);
    var f0, f1 := Fill("SPY", "BUY", 1.0, 100, 5), Fill("QQQ", "BUY", 1.0, 100, 5);
    assert Compatible(e0, f0) && Compatible(e0, f1) && Compatible(e1, f0) && !Compatible(e1, f1);
    hide Compatible;
    GreedyOnCrossed(e0, e1, f0, f1);
    assert IsMatching([e0, e1], [f0, f1], [1, 0]);
  }

  lemma GreedyOnCrossed(e0: Execution, e1: Execution, f0: Fill, f1: Fill)
    requires Compatible(e0, f0) && !Compatible(e1, f1)
    ensures Pairs(Greedy([e0, e1], [f0, f1])) == 1 && Pairs([1, 0]) == 2
  {
    hide Compatible;
    var execs, fills := [e0, e1], [f0, f1];
    assert Greedy([], fills) == [];
    assert execs[..1] == [e0] && [e0][..0] == [];
    assert FirstFree(e0, fills, [], 0) == 0;
    assert Greedy([e0], fills) == [0];
    assert FirstFree(e1, fills, [0], 0) == -1;
    assert Greedy(execs, fills) == [0, -1];
    assert Positions([0, -1]) == {0};
    assert Positions([1, 0]) == {0, 1};
  }

  // ---------------------------------------------------------------- when it is the best

  /** Executions that share a compatible fill have all their compatible fills in common, as
      happens without wildcards and when the tolerances tell the trades apart. */
  ghost predicate Rectangular(execs: seq<Execution>, fills: seq<Fill>) {
    forall u, i, j, k :: 0 <= u < |execs| && 0 <= i < |execs| && 0 <= j < |fills| && 0 <= k < |fills|
      && Compatible(execs[u], fills[j]) && Compatible(execs[i], fills[j]) && Compatible(execs[i], fills[k])
      ==> Compatible(execs[u], fills[k])
  }

  ghost predicate Wanted(execs: seq<Execution>, fills: seq<Fill>, pairing: Pairing, j: int)
    requires |pairing| == |execs|
  {
    0 <= j < |fills| && exists u :: 0 <= u < |execs| && pairing[u] == -1 && Compatible(execs[u], fills[j])
  }

  lemma UnwantedIsPaired(execs: seq<Execution>, fills: seq<Fill>, maximal: Pairing, i: int, j: int)
    requires Rectangular(execs, fills) && IsMatching(execs, fills, maximal)
    requires 0 <= i < |execs| && 0 <= j < |fills| && Compatible(execs[i], fills[j])
    requires !Wanted(execs, fills, maximal, j)
    ensures maximal[i] >= 0 && !Wanted(execs, fills, maximal, maximal[i])
  {
    hide Compatible;
  }

  lemma WantedIsTaken(execs: seq<Execution>, fills: seq<Fill>, maximal: Pairing, j: int) returns (i: int)
    requires IsMatching(execs, fills, maximal) && IsMaximal(execs, fills, maximal)
    requires Wanted(execs, fills, maximal, j)
    ensures 0 <= i < |maximal| && maximal[i] == j
  {
    hide Compatible;
    assert Takes(maximal, j);
    i :| 0 <= i < |maximal| && maximal[i] == j;
  }

  function PositionsIn(pairing: Pairing, fills: set<int>): (s: set<int>)
    ensures s <= Positions(pairing)
  {
    set i | i in Positions(pairing) && pairing[i] in fills
  }

  /** On a rectangular input no compatible matching pairs more than a maximal one. */
  lemma MaximalIsBest(execs: seq<Execution>, fills: seq<Fill>, maximal: Pairing, other: Pairing)
    requires Rectangular(execs, fills)
    requires IsMatching(execs, fills, maximal) && IsMaximal(execs, fills, maximal)
    requires IsMatching(execs, fills, other)
    ensures Pairs(other) <= Pairs(maximal)
  {
    hide Compatible, Rectangular, IsMaximal;
    var wanted := set j | 0 <= j < |fills| && Wanted(execs, fills, maximal, j);
    forall i | i in Positions(other) - PositionsIn(other, wanted)
      ensures i in Positions(maximal) - PositionsIn(maximal, wanted)
    {
      UnwantedIsPaired(execs, fills, maximal, i, other[i]);
    }
    forall j | j in wanted
      ensures j in Image(maximal, PositionsIn(maximal, wanted))
    {
      var i := WantedIsTaken(execs, fills, maximal, j);
      assert i in PositionsIn(maximal, wanted);
    }
    hide Wanted;
    InjectiveImage(other, PositionsIn(other, wanted));
    CompareSplit(maximal, other, wanted);
  }

  lemma CompareSplit(p: Pairing, q: Pairing, fills: set<int>)
    requires Positions(q) - PositionsIn(q, fills) <= Positions(p) - PositionsIn(p, fills)
    requires fills <= Image(p, PositionsIn(p, fills))
    requires |Image(q, PositionsIn(q, fills))| == |PositionsIn(q, fills)|
    ensures Pairs(q) <= Pairs(p)
  {
    SubsetCardinality(Positions(q) - PositionsIn(q, fills), Positions(p) - PositionsIn(p, fills));
    assert Image(q, PositionsIn(q, fills)) <= fills;
    SubsetCardinality(Image(q, PositionsIn(q, fills)), fills);
    SubsetCardinality(fills, Image(p, PositionsIn(p, fills)));
    ImageNotLarger(p, PositionsIn(p, fills));
    hide PositionsIn, Image, Positions;
    DifferenceSize(Positions(q), PositionsIn(q, fills));
    DifferenceSize(Positions(p), PositionsIn(p, fills));
  }

  lemma GreedyIsBest(execs: seq<Execution>, fills: seq<Fill>, other: Pairing)
    requires Rectangular(execs, fills) && IsMatching(execs, fills, other)
    ensures Pairs(other) <= Pairs(Greedy(execs, fills))
  {
    GreedyIsMaximalMatching(execs, fills);
    MaximalIsBest(execs, fills, Greedy(execs, fills), other);
  }

  // ---------------------------------------------------------------- what is reported

  /** One entry per pair whose prices disagree, in execution order. */
  function Discrepancies(execs: seq<Execution>, fills: seq<Fill>, pairing: Pairing): seq<Discrepancy>
    requires |pairing| == |execs| && forall i :: 0 <= i < |pairing| ==> pairing[i] < |fills|
  {
    if execs == [] then []
    else
      var n := |execs| - 1;
      Discrepancies(execs[..n], fills, pairing[..n])
      + NewDiscrepancy(execs[n], fills, pairing[n])
  }

  function NewDiscrepancy(e: Execution, fills: seq<Fill>, k: int): seq<Discrepancy>
    requires k < |fills|
  {
    if k >= 0 && !PriceAgrees(e, fills[k]) then
      [Discrepancy(e.id, Float64(e.price), Float64(fills[k].fillPrice), DiffBps(e, fills[k]))]
    else []
  }

  /** The prices are not within 5 basis points of each other; two prices of 0 never are. */
  predicate PricesOff(e: Execution, f: Fill) {
    (e.price == 0 && f.fillPrice == 0)
    || 2000 * AbsInt(e.price - f.fillPrice) > MaxInt(AbsInt(e.price), AbsInt(f.fillPrice))
  }

  /** The entry shows both prices and their difference in basis points of the larger one. */
  predicate Shows(d: Discrepancy, e: Execution, f: Fill) {
    var larger := MaxInt(AbsInt(e.price), AbsInt(f.fillPrice));
    && d.orderID == e.id
    && d.ours * 100000.0 == e.price as real && d.theirs * 100000.0 == f.fillPrice as real
    && (if larger == 0 then d.diffBps == None
        else d.diffBps.Some?
             && d.diffBps.value * larger as real == 10000.0 * AbsInt(e.price - f.fillPrice) as real)
  }

  /** `at` lists, in order, the executions paired at prices that are off. */
  ghost predicate OffAt(execs: seq<Execution>, fills: seq<Fill>, pairing: Pairing, at: seq<nat>)
    requires |pairing| == |execs| && forall i :: 0 <= i < |pairing| ==> pairing[i] < |fills|
  {
    && (forall i, j :: 0 <= i < j < |at| ==> at[i] < at[j])
    && (forall i: nat :: i in at <==> i < |execs| && pairing[i] >= 0 && PricesOff(execs[i], fills[pairing[i]]))
  }

  /** One entry for each of them. */
  ghost predicate ShowsEach(execs: seq<Execution>, fills: seq<Fill>, pairing: Pairing, ds: seq<Discrepancy>,
                            at: seq<nat>)
    requires |pairing| == |execs| && forall i :: 0 <= i < |pairing| ==> pairing[i] < |fills|
  {
    && OffAt(execs, fills, pairing, at) && |at| == |ds|
    && forall k :: 0 <= k < |at| ==>
         at[k] < |execs| && pairing[at[k]] >= 0 && Shows(ds[k], execs[at[k]], fills[pairing[at[k]]])
  }

  ghost predicate ReportsOff(execs: seq<Execution>, fills: seq<Fill>, pairing: Pairing, ds: seq<Discrepancy>)
    requires |pairing| == |execs| && forall i :: 0 <= i < |pairing| ==> pairing[i] < |fills|
  {
    exists at: seq<nat> :: ShowsEach(execs, fills, pairing, ds, at)
  }

  lemma PricesOffExactly(e: Execution, f: Fill)
    ensures PricesOff(e, f) <==> !PriceAgrees(e, f)
  {
    hide PriceAgrees;
    PriceAgreesExact(e, f);
  }

  lemma NewShows(e: Execution, f: Fill)
    ensures Shows(Discrepancy(e.id, Float64(e.price), Float64(f.fillPrice), DiffBps(e, f)), e, f)
  {
    var p, q := Float64(e.price), Float64(f.fillPrice);
    var d, m := AbsInt(e.price - f.fillPrice), MaxInt(AbsInt(e.price), AbsInt(f.fillPrice));
    assert Abs(p - q) == d as real / 100000.0 && Max(Abs(p), Abs(q)) == m as real / 100000.0;
    if m > 0 {
      Ratio(d as real, m as real);
    }
  }

  lemma Ratio(d: real, m: real)
    requires m > 0.0
    ensures m / 100000.0 > 0.0 && d / 100000.0 / (m / 100000.0) * 10000.0 * m == 10000.0 * d
  {
    var q := d / 100000.0 / (m / 100000.0);
    assert q * (m / 100000.0) == d / 100000.0;
    assert q * m == d;
  }

  lemma NextOff(execs: seq<Execution>, fills: seq<Fill>, pairing: Pairing, ds: seq<Discrepancy>, at: seq<nat>)
    requires execs != [] && |pairing| == |execs| && forall i :: 0 <= i < |pairing| ==> pairing[i] < |fills|
    requires var n := |execs| - 1; ShowsEach(execs[..n], fills, pairing[..n], ds, at)
    ensures ReportsOff(execs, fills, pairing, ds + NewDiscrepancy(execs[|execs| - 1], fills, pairing[|execs| - 1]))
  {
    hide PricesOff, Shows, PriceAgrees, DiffBps, Float64;
    var n := |execs| - 1;
    assert forall i :: 0 <= i < |at| ==> at[i] in at;
    if pairing[n] >= 0 {
      PricesOffExactly(execs[n], fills[pairing[n]]);
      NewShows(execs[n], fills[pairing[n]]);
    }
    if pairing[n] >= 0 && PricesOff(execs[n], fills[pairing[n]]) {
      var more := ds + NewDiscrepancy(execs[n], fills, pairing[n]);
      assert ShowsEach(execs, fills, pairing, more, at + [n]);
    } else {
      assert ds + [] == ds;
      assert ShowsEach(execs, fills, pairing, ds, at);
    }
  }

  lemma {:induction false} DiscrepanciesReportOff(execs: seq<Execution>, fills: seq<Fill>, pairing: Pairing)
    requires |pairing| == |execs| && forall i :: 0 <= i < |pairing| ==> pairing[i] < |fills|
    ensures ReportsOff(execs, fills, pairing, Discrepancies(execs, fills, pairing))
  {
    if execs == [] {
      assert ShowsEach(execs, fills, pairing, [], []);
    } else {
      hide ShowsEach, NewDiscrepancy;
      var n := |execs| - 1;
      DiscrepanciesReportOff(execs[..n], fills, pairing[..n]);
      var ds := Discrepancies(execs[..n], fills, pairing[..n]);
      var at: seq<nat> :| ShowsEach(execs[..n], fills, pairing[..n], ds, at);
      NextOff(execs, fills, pairing, ds, at);
    }
  }

  function Count(bs: seq<bool>): (n: nat)
    ensures n <= |bs|
  {
    if bs == [] then 0 else Count(bs[..|bs| - 1]) + if bs[|bs| - 1] then 1 else 0
  }

  lemma {:induction false} CountSet(bs: seq<bool>, k: nat)
    requires k < |bs| && !bs[k]
    ensures Count(bs[k := true]) == Count(bs) + 1
  {
    var n := |bs| - 1;
    if k == n {
      assert bs[k := true][..n] == bs[..n];
    } else {
      assert bs[k := true][..n] == bs[..n][k := true];
      CountSet(bs[..n], k);
    }
  }

  lemma {:induction false} CountNone(bs: seq<bool>)
    requires forall i :: 0 <= i < |bs| ==> !bs[i]
    ensures Count(bs) == 0
  {
    if bs != [] {
      CountNone(bs[..|bs| - 1]);
    }
  }

  lemma PairsAppend(pairing: Pairing, k: int)
    ensures Pairs(pairing + [k]) == Pairs(pairing) + if k >= 0 then 1 else 0
  {
    if k >= 0 {
      assert Positions(pairing + [k]) == Positions(pairing) + {|pairing|};
    } else {
      assert Positions(pairing + [k]) == Positions(pairing);
    }
  }

  /** The scan for the first fill that is neither used nor incompatible. */
  method FindFill(exec: Execution, fills: seq<Fill>, matchedBroker: array<bool>, ghost pairing: Pairing)
    returns (j: nat)
    requires matchedBroker.Length == |fills|
    requires forall k :: 0 <= k < |fills| ==> matchedBroker[k] == Takes(pairing, k)
    ensures j <= |fills|
    ensures FirstFree(exec, fills, pairing, 0) == if j < |fills| then j else -1
  {
    hide Compatible;
    j := 0;
    while j < |fills| && (matchedBroker[j] || !Compatible(exec, fills[j]))
      invariant 0 <= j <= |fills|
      invariant FirstFree(exec, fills, pairing, 0) == FirstFree(exec, fills, pairing, j)
    {
      j := j + 1;
    }
  }

  lemma NextExecution(execs: seq<Execution>, fills: seq<Fill>, i: nat, pairing: Pairing, k: int)
    requires i < |execs| && pairing == Greedy(execs[..i], fills) && k == FirstFree(execs[i], fills, pairing, 0)
    requires forall x :: 0 <= x < i ==> pairing[x] < |fills|
    ensures Greedy(execs[..i + 1], fills) == pairing + [k]
    ensures forall x :: 0 <= x <= i ==> (pairing + [k])[x] < |fills|
    ensures Pairs(pairing + [k]) == Pairs(pairing) + if k >= 0 then 1 else 0
    ensures Discrepancies(execs[..i + 1], fills, pairing + [k])
         == Discrepancies(execs[..i], fills, pairing) + NewDiscrepancy(execs[i], fills, k)
  {
    hide PriceAgrees, DiffBps, Compatible, Pairs;
    assert execs[..i + 1][..i] == execs[..i];
    assert (pairing + [k])[..i] == pairing;
    PairsAppend(pairing, k);
  }

  method MatchReconciliation(execs: seq<Execution>, fills: seq<Fill>) returns (result: Report, ghost pairing: Pairing)
    ensures pairing == Greedy(execs, fills) && TakesFirstFree(execs, fills, pairing)
    ensures result.internalCount == |execs|
    ensures result.matched + result.priceDiscrepancies == Pairs(pairing)
    ensures result.matched + result.priceDiscrepancies + result.extra == |execs|
    ensures fills != [] ==> result.matched + result.priceDiscrepancies + result.missing == |fills|
    ensures fills == [] ==> result.matched == result.priceDiscrepancies == result.missing == 0
    ensures forall i :: 0 <= i < |pairing| ==> pairing[i] < |fills|
    ensures result.discrepancies == Discrepancies(execs, fills, pairing)
    ensures ReportsOff(execs, fills, pairing, result.discrepancies)
    ensures result.priceDiscrepancies == |result.discrepancies|
    ensures result.date == if execs == [] then None else Some(execs[0].executedAt)
  {
    hide Compatible, PriceAgrees, DiffBps, Float64, Greedy, Discrepancies, Pairs, Count, TakesFirstFree, ReportsOff;
    pairing := [];
    NoneYet(fills);
    GreedyTakesFirstFree(execs, fills);
    var date := if |execs| > 0 then Some(execs[0].executedAt) else None;
    if |fills| == 0 {
      NoFills(execs);
      pairing := Greedy(execs, fills);
      DiscrepanciesReportOff(execs, fills, pairing);
      result := Report(date, |execs|, 0, 0, |execs|, 0, []);
      return;
    }
    var matchedBroker := new bool[|fills|](_ => false);
    CountNone(matchedBroker[..]);
    var matched, extra, priceDiscrepancies, discrepancies := 0, 0, 0, [];
    for i := 0 to |execs|
      invariant pairing == Greedy(execs[..i], fills)
      invariant forall k :: 0 <= k < i ==> pairing[k] < |fills|
      invariant forall j :: 0 <= j < |fills| ==> matchedBroker[j] == Takes(pairing, j)
      invariant matched + priceDiscrepancies == Pairs(pairing) == Count(matchedBroker[..])
      invariant matched + priceDiscrepancies + extra == i
      invariant discrepancies == Discrepancies(execs[..i], fills, pairing) && priceDiscrepancies == |discrepancies|
    {
      var exec := execs[i];
      var j := FindFill(exec, fills, matchedBroker, pairing);
      ghost var k := if j < |fills| then j else -1;
      NextExecution(execs, fills, i, pairing, k);
      if j < |fills| {
        if PriceAgrees(exec, fills[j]) {
          matched := matched + 1;
        } else {
          priceDiscrepancies := priceDiscrepancies + 1;
          discrepancies := discrepancies + [Discrepancy(exec.id, Float64(exec.price), Float64(fills[j].fillPrice),
                                                        DiffBps(exec, fills[j]))];
        }
        CountSet(matchedBroker[..], j);
        ghost var before := matchedBroker[..];
        matchedBroker[j] := true;
        assert matchedBroker[..] == before[j := true];
      } else {
        extra := extra + 1;
      }
      pairing := pairing + [k];
    }
    assert execs[..|execs|] == execs;
    DiscrepanciesReportOff(execs, fills, pairing);
    var missing := CountUnmatched(matchedBroker);
    result := Report(date, |execs|, matched, missing, extra, priceDiscrepancies, discrepancies);
  }

  method CountUnmatched(matchedBroker: array<bool>) returns (missing: nat)
    ensures missing + Count(matchedBroker[..]) == matchedBroker.Length
  {
    missing := 0;
    for i := 0 to matchedBroker.Length
      invariant missing + Count(matchedBroker[..i]) == i
    {
      assert matchedBroker[..i + 1][..i] == matchedBroker[..i];
      if !matchedBroker[i] {
        missing := missing + 1;
      }
    }
    assert matchedBroker[..matchedBroker.Length] == matchedBroker[..];
  }

  lemma NoneYet(fills: seq<Fill>)
    ensures Greedy([], fills) == [] && Pairs([]) == 0 && Discrepancies([], fills, []) == []
  {
    assert Positions([]) == {};
  }

  lemma {:induction false} NoFills(execs: seq<Execution>)
    ensures forall i :: 0 <= i < |execs| ==> Greedy(execs, [])[i] == -1
    ensures Pairs(Greedy(execs, [])) == 0
    ensures Discrepancies(execs, [], Greedy(execs, [])) == []
  {
    if execs != [] {
      var n := |execs| - 1;
      NoFills(execs[..n]);
      assert Greedy(execs, [])[..n] == Greedy(execs[..n], []);
    }
    assert Positions(Greedy(execs, [])) == {};
  }
}
