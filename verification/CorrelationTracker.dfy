/** The tracker itself: its maps, updated in place by RecordEquity and CheckCorrelations. */
module CorrelationTracking {
  import opened Common
  import opened PairBrake
  import opened PairKeys
  import opened PairSweep
  import Pearson

  /** The last n entries of xs. */
  function Last<T>(xs: seq<T>, n: nat): seq<T> {
    if |xs| > n then xs[|xs| - n..] else xs
  }

  /** The history ends as the log does. */
  lemma LastAt<T>(xs: seq<T>, n: nat, k: nat)
    requires k < n && k < |xs|
    ensures |Last(xs, n)| == (if |xs| > n then n else |xs|)
    ensures Last(xs, n)[|Last(xs, n)| - 1 - k] == xs[|xs| - 1 - k]
  {}

  lemma LastOfLast<T>(xs: seq<T>, x: T, n: nat)
    ensures Last(Last(xs, n) + [x], n) == Last(xs + [x], n)
  {}

  /** Each history is the last `window` entries of what was recorded under its id. */
  ghost predicate Windowed(histories: map<string, seq<real>>, recorded: map<string, seq<real>>, window: int) {
    && histories.Keys == recorded.Keys
    && forall id :: id in recorded ==> window >= 0 && histories[id] == Last(recorded[id], window)
  }

  lemma WindowSlides(histories: map<string, seq<real>>, recorded: map<string, seq<real>>, window: nat, id: string,
                     x: real)
    requires Windowed(histories, recorded, window)
    ensures Windowed(histories[id := Last(Lookup(histories, id, []) + [x], window)],
                     recorded[id := Lookup(recorded, id, []) + [x]], window)
  {
    LastOfLast(Lookup(recorded, id, []), x, window);
  }

  class CorrelationTracker {
    var equityHistories: map<string, seq<real>>
    const window: int
    const threshold: real
    const brakeDuration: int
    var brakes: map<string, int>
    var velocityThreshold: real
    var cooldown: int
    var velocityCooldown: map<string, int>
    var rhoHistory: map<string, real>
    const sqrt: real -> real
    /** Every equity ever recorded, by id. */
    ghost var recorded: map<string, seq<real>>

    ghost predicate Valid()
      reads this
    {
      && Pearson.IsSqrt(sqrt)
      && Windowed(equityHistories, recorded, window)
    }

    ghost function Environment(): Env
      reads this
    {
      Env(Settings(threshold, brakeDuration, velocityThreshold, cooldown), equityHistories, sqrt)
    }

    ghost function CurrentBook(): Book
      reads this
    {
      Book(brakes, velocityCooldown, rhoHistory)
    }

    ghost function Active(): set<string>
      reads this
    {
      set id | id in equityHistories && |equityHistories[id]| >= 2
    }

    constructor (window: int, threshold: real, sqrt: real -> real)
      requires Pearson.IsSqrt(sqrt)
      ensures Valid()
      ensures recorded == map[] && CurrentBook() == Book(map[], map[], map[])
      ensures Environment() == Env(Settings(threshold, 10, 0.3, 3), map[], sqrt)
      ensures this.window == window
    {
      equityHistories, recorded := map[], map[];
      this.window, this.threshold, this.sqrt := window, threshold, sqrt;
      brakeDuration := 10;
      brakes, velocityCooldown, rhoHistory := map[], map[], map[];
      velocityThreshold, cooldown := 0.3, 3;
    }

    method SetVelocityBrakeParams(dailyThreshold: real, cooldownBars: int)
      requires Valid()
      modifies `velocityThreshold, `cooldown
      ensures Valid() && velocityThreshold == dailyThreshold && cooldown == cooldownBars
    {
      velocityThreshold := dailyThreshold;
      cooldown := cooldownBars;
    }

    /** Appends to the log; the stored history stays the last `window` of all ever recorded.  With
        a negative window the slice is out of range, and the panic leaves all as it was. */
    method RecordEquity(strategyID: string, equity: real) returns (panics: bool)
      requires Valid()
      modifies `equityHistories, `recorded
      ensures Valid() && (panics <==> window < 0)
      ensures panics ==> recorded == old(recorded) && equityHistories == old(equityHistories)
      ensures !panics ==> recorded == old(recorded)[strategyID := Lookup(old(recorded), strategyID, []) + [equity]]
    {
      if window < 0 {
        return true;
      }
      WindowSlides(equityHistories, recorded, window, strategyID, equity);
      hide Pearson.IsSqrt, Windowed, Lookup;
      var history := Lookup(equityHistories, strategyID, []);
      history := history + [equity];
      if |history| > window {
        history := history[|history| - window..];
      }
      assert history == Last(Lookup(equityHistories, strategyID, []) + [equity], window);
      hide Last;
      equityHistories := equityHistories[strategyID := history];
      recorded := recorded[strategyID := Lookup(recorded, strategyID, []) + [equity]];
      panics := false;
    }

    /** Go iterates a map in no particular order: any listing without repetition can result. */
    method ActiveIDs() returns (ids: seq<string>)
      ensures Enumerates(ids, Active())
      ensures forall id :: id in ids <==> id in equityHistories && |equityHistories[id]| >= 2
    {
      ids := [];
      var remaining := equityHistories.Keys;
      while remaining != {}
        invariant remaining <= equityHistories.Keys
        invariant Distinct(ids) && forall id :: id in ids <==> id in Active() && id !in remaining
        decreases remaining
      {
        var id :| id in remaining;
        remaining := remaining - {id};
        if |equityHistories[id]| >= 2 {
          ids := ids + [id];
        }
      }
    }

    method ComputePearson(a: string, b: string) returns (rho: real)
      requires Valid()
      ensures rho == Rho(Environment(), a, b) && -1.0 <= rho <= 1.0
    {
      rho := Pearson.ComputePearson(Lookup(equityHistories, a, []), Lookup(equityHistories, b, []), sqrt);
    }

    /** The double loop is the sweep over the pairs of the ids in the order they were listed. */
    method CheckCorrelations() returns (correlations: seq<PairCorrelation>, breaches: seq<Breach>,
                                        ghost ids: seq<string>)
      requires Valid()
      modifies `brakes, `velocityCooldown, `rhoHistory
      ensures Valid()
      ensures Enumerates(ids, Active())
      ensures Sweep(CurrentBook(), correlations, breaches)
           == RunPairs(Environment(), Sweep(old(CurrentBook()), [], []), PairsOf(ids))
    {
      hide Pearson.IsSqrt, Rho, PairKey, StepBook, Actions, ReportedActive, Breaches, PairsOf, Row, Distinct;
      var listed := ActiveIDs();
      ids := listed;
      correlations, breaches := [], [];
      ghost var done := RunPairs(Environment(), Sweep(CurrentBook(), [], []), PairsOf(listed));
      var i := 0;
      while i < |listed|
        invariant 0 <= i <= |listed|
        invariant RunPairs(Environment(), Sweep(CurrentBook(), correlations, breaches), PairsOf(listed[i..])) == done
      {
        var j := i + 1;
        RowOfPairs(listed, i);
        while j < |listed|
          invariant i + 1 <= j <= |listed|
          invariant RunPairs(Environment(), Sweep(CurrentBook(), correlations, breaches),
                             Row(listed[i], listed[j..]) + PairsOf(listed[i + 1..])) == done
        {
          ghost var before := Sweep(CurrentBook(), correlations, breaches);
          RunRowFirst(Environment(), before, listed, i, j);
          var pc, events := CheckPairInPlace(listed[i], listed[j]);
          correlations := correlations + [pc];
          breaches := breaches + events;
          assert Sweep(CurrentBook(), correlations, breaches)
                 == CheckPair(Environment(), before, (listed[i], listed[j]));
          j := j + 1;
        }
        RowDone(listed, i);
        i := i + 1;
      }
      NoPairsLeft(listed);
    }

    static lemma RowOfPairs(listed: seq<string>, i: nat)
      requires i < |listed|
      ensures PairsOf(listed[i..]) == Row(listed[i], listed[i + 1..]) + PairsOf(listed[i + 1..])
    {
      assert listed[i..][1..] == listed[i + 1..];
    }

    static lemma NoPairsLeft(listed: seq<string>)
      ensures PairsOf(listed[|listed|..]) == []
    {}

    static lemma RowDone(listed: seq<string>, i: nat)
      requires i < |listed|
      ensures Row(listed[i], listed[|listed|..]) + PairsOf(listed[i + 1..]) == PairsOf(listed[i + 1..])
    {
      assert Row(listed[i], listed[|listed|..]) == [];
    }

    static lemma RunRowFirst(env: Env, sw: Sweep, listed: seq<string>, i: nat, j: nat)
      requires i < j < |listed|
      ensures RunPairs(env, sw, Row(listed[i], listed[j..]) + PairsOf(listed[i + 1..]))
           == RunPairs(env, CheckPair(env, sw, (listed[i], listed[j])),
                       Row(listed[i], listed[j + 1..]) + PairsOf(listed[i + 1..]))
    {
      hide CheckPair, PairsOf;
      RowFirst(listed[i], listed[j..], PairsOf(listed[i + 1..]));
      assert listed[j..][1..] == listed[j + 1..];
    }

    static lemma RowFirst(a: string, others: seq<string>, more: seq<Pair>)
      requires others != []
      ensures var pairs := Row(a, others) + more;
              pairs[0] == (a, others[0]) && pairs[1..] == Row(a, others[1..]) + more
    {
      assert Row(a, others) == [(a, others[0])] + Row(a, others[1..]);
    }

    /** The loop body. */
    method CheckPairInPlace(a: string, b: string) returns (pc: PairCorrelation, events: seq<Breach>)
      requires Valid()
      modifies `brakes, `velocityCooldown, `rhoHistory
      ensures Valid()
      ensures CurrentBook() == StepBook(Environment().cfg, old(CurrentBook()), PairKey(a, b), Rho(Environment(), a, b))
      ensures var s := StateOf(old(CurrentBook()), PairKey(a, b));
              var rho := Rho(Environment(), a, b);
              && pc == PairCorrelation(a, b, rho, ReportedActive(Environment().cfg, s, rho))
              && events == Breaches(a, b, rho, Actions(Environment().cfg, s, rho))
    {
      hide Pearson.IsSqrt, Rho, PairKey, StepBook, StateOf, Actions, ReportedActive;
      var rho := ComputePearson(a, b);
      var key := PairKey(a, b);
      StepInParts(Environment().cfg, CurrentBook(), a, b, key, rho);
      var prevRho := Lookup(rhoHistory, key, 0.0);
      var active, event := ApplyThreshold(key, rho);
      var fired := ApplyVelocity(key, rho, prevRho);
      events := (if event.Some? then [Breach(a, b, rho, event.value)] else [])
              + (if fired then [Breach(a, b, rho, BrakeAppliedVelocity)] else []);
      rhoHistory := rhoHistory[key := rho];
      pc := PairCorrelation(a, b, rho, active || fired);
    }

    /** Lines 87-107: apply the brake, or count it down and release it at zero. */
    method ApplyThreshold(key: string, rho: real) returns (active: bool, event: Option<Action>)
      modifies `brakes
      ensures (brakes, active, event) == AfterThreshold(Environment().cfg, old(brakes), key, rho)
    {
      active, event := false, None;
      if rho > threshold {
        brakes := brakes[key := brakeDuration];
        active, event := true, Some(BrakeApplied);
      } else if Lookup(brakes, key, 0) > 0 {
        brakes := brakes[key := brakes[key] - 1];
        active := true;
        if brakes[key] == 0 {
          event := Some(BrakeReleased);
        }
      }
    }

    /** Lines 109-125: the velocity brake and its cooldown. */
    method ApplyVelocity(key: string, rho: real, prevRho: real) returns (fired: bool)
      modifies `brakes, `velocityCooldown
      ensures fired == VelocityBreach(Environment().cfg, PairState(0, Lookup(old(velocityCooldown), key, 0), prevRho),
                                      rho)
      ensures brakes == if fired then old(brakes)[key := brakeDuration] else old(brakes)
      ensures velocityCooldown == AfterCooldown(old(velocityCooldown), key, fired, cooldown)
    {
      fired := false;
      if Lookup(velocityCooldown, key, 0) == 0 && prevRho != 0.0 {
        var rhoDelta := Abs(rho - prevRho);
        if rhoDelta > velocityThreshold {
          brakes := brakes[key := brakeDuration];
          fired := true;
          velocityCooldown := velocityCooldown[key := cooldown];
        }
      }
      if Lookup(velocityCooldown, key, 0) > 0 {
        velocityCooldown := velocityCooldown[key := velocityCooldown[key] - 1];
      }
    }

    predicate IsBrakeActive(strategyA: string, strategyB: string)
      reads this
    {
      Lookup(brakes, PairKey(strategyA, strategyB), 0) > 0
    }

    function BrakeDiscount(strategyA: string, strategyB: string): real
      reads this
    {
      if IsBrakeActive(strategyA, strategyB) then 0.70 else 1.0
    }

    /** The matrix has a row for every active id (unless it is alone), holding the correlation
        with every other active id, and is symmetric. */
    method PairMatrix() returns (matrix: Matrix)
      requires Valid()
      ensures IsPairMatrix(Environment(), Active(), matrix)
    {
      hide Rho, MatrixFilled, Pearson.IsSqrt, Enumerates, IsPairMatrix;
      ghost var env := Environment();
      var ids := ActiveIDs();
      matrix := map[];
      FillStart(env, ids);
      assert Distinct(ids) by { EnumeratesDistinct(ids, Active()); }
      var i := 0;
      while i < |ids|
        invariant 0 <= i <= |ids|
        invariant MatrixFilled(env, matrix, ids, i, i + 1)
      {
        var j := i + 1;
        while j < |ids|
          invariant i + 1 <= j <= |ids|
          invariant MatrixFilled(env, matrix, ids, i, j)
        {
          var a, b := ids[i], ids[j];
          var rho := ComputePearson(a, b);
          ghost var before := matrix;
          var rowA := Lookup(matrix, a, map[]);
          matrix := matrix[a := rowA[b := rho]];
          assert a != b;
          var rowB := Lookup(matrix, b, map[]);
          matrix := matrix[b := rowB[a := rho]];
          FillStep(env, before, matrix, ids, i, j);
          j := j + 1;
        }
        i := i + 1;
        FillNextRow(env, matrix, ids, i);
      }
      FilledMatrix(env, matrix, ids, Active());
    }
  }

  /** What lines 87-107 leave of the brakes, and what they report. */
  function AfterThreshold(cfg: Settings, brakes: map<string, int>, key: string, rho: real)
    : (map<string, int>, bool, Option<Action>)
  {
    var brake := Lookup(brakes, key, 0);
    if rho > cfg.threshold then (brakes[key := cfg.brakeDuration], true, Some(BrakeApplied))
    else if brake > 0 then (brakes[key := brake - 1], true, if brake == 1 then Some(BrakeReleased) else None)
    else (brakes, false, None)
  }

  function AfterCooldown(cooldowns: map<string, int>, key: string, fired: bool, cooldown: int): map<string, int> {
    var now := if fired then cooldown else Lookup(cooldowns, key, 0);
    if now > 0 then cooldowns[key := now - 1] else if fired then cooldowns[key := now] else cooldowns
  }

  lemma StepInParts(cfg: Settings, book: Book, a: string, b: string, key: string, rho: real)
    ensures var s := StateOf(book, key);
            var (brakes, active, event) := AfterThreshold(cfg, book.brakes, key, rho);
            var fired := VelocityBreach(cfg, PairState(0, Lookup(book.cooldowns, key, 0), Lookup(book.rhos, key, 0.0)),
                                        rho);
            && StepBook(cfg, book, key, rho)
               == Book(if fired then brakes[key := cfg.brakeDuration] else brakes,
                       AfterCooldown(book.cooldowns, key, fired, cfg.cooldown), book.rhos[key := rho])
            && ReportedActive(cfg, s, rho) == (active || fired)
            && Breaches(a, b, rho, Actions(cfg, s, rho))
               == (if event.Some? then [Breach(a, b, rho, event.value)] else [])
                  + (if fired then [Breach(a, b, rho, BrakeAppliedVelocity)] else [])
  {}

  type Matrix = map<string, map<string, real>>

  function Cell(m: Matrix, a: string, b: string): Option<real> {
    if a in m && b in m[a] then Some(m[a][b]) else None
  }

  /** The pairs of positions the double loop has passed at (i, j) are filled in both ways, and
      nothing else is in the matrix but correlations of distinct listed ids. */
  ghost predicate MatrixFilled(env: Env, m: Matrix, ids: seq<string>, i: nat, j: nat) {
    && (forall a :: a in m ==> m[a] != map[])
    && (forall a, b :: Cell(m, a, b).Some? ==> a in ids && b in ids && a != b && Cell(m, a, b) == Some(Rho(env, a, b)))
    && (forall x, y :: 0 <= x < y < |ids| && (x < i || (x == i && y < j)) ==>
          Cell(m, ids[x], ids[y]).Some? && Cell(m, ids[y], ids[x]).Some?)
  }

  lemma FillStart(env: Env, ids: seq<string>)
    ensures MatrixFilled(env, map[], ids, 0, 1)
  {}

  lemma FillNextRow(env: Env, m: Matrix, ids: seq<string>, i: nat)
    requires 0 < i <= |ids| && MatrixFilled(env, m, ids, i - 1, |ids|)
    ensures MatrixFilled(env, m, ids, i, i + 1)
  {
    hide Rho, Cell;
  }

  lemma FillStep(env: Env, before: Matrix, after: Matrix, ids: seq<string>, i: nat, j: nat)
    requires i < j < |ids| && Distinct(ids)
    requires MatrixFilled(env, before, ids, i, j)
    requires var a, b, rho := ids[i], ids[j], Rho(env, ids[i], ids[j]);
             after == before[a := Lookup(before, a, map[])[b := rho]][b := Lookup(before, b, map[])[a := rho]]
    ensures MatrixFilled(env, after, ids, i, j + 1)
  {
    hide Rho;
    var a, b := ids[i], ids[j];
    RhoSymmetric(env, a, b);
    forall c, d
      ensures Cell(after, c, d)
           == if (c == a && d == b) || (c == b && d == a) then Some(Rho(env, a, b)) else Cell(before, c, d)
    {
    }
    assert b in after[a] && a in after[b];
    hide Cell;
  }

  lemma EnumeratesDistinct(ids: seq<string>, active: set<string>)
    requires Enumerates(ids, active)
    ensures Distinct(ids)
  {}

  /** A row for every active id, unless it is alone, with its correlation to every other one. */
  ghost predicate IsPairMatrix(env: Env, active: set<string>, m: Matrix) {
    && m.Keys == (if |active| >= 2 then active else {})
    && (forall a :: a in m ==> m[a].Keys == active - {a})
    && (forall a, b :: Cell(m, a, b).Some? ==> Cell(m, a, b) == Cell(m, b, a) == Some(Rho(env, a, b)))
  }

  lemma FilledMatrix(env: Env, m: Matrix, ids: seq<string>, active: set<string>)
    requires MatrixFilled(env, m, ids, |ids|, |ids| + 1) && Enumerates(ids, active)
    ensures IsPairMatrix(env, active, m)
  {
    EnumerationSize(ids, active);
    EveryCellFilled(env, m, ids);
    MatrixSymmetric(env, m, ids);
    MatrixRows(env, m, ids, active);
    hide MatrixFilled, Rho, Cell, Enumerates;
  }

  lemma MatrixRows(env: Env, m: Matrix, ids: seq<string>, active: set<string>)
    requires MatrixFilled(env, m, ids, |ids|, |ids| + 1) && Enumerates(ids, active) && |ids| == |active|
    requires forall a, b :: a in ids && b in ids && a != b ==> Cell(m, a, b).Some?
    ensures m.Keys == if |active| >= 2 then active else {}
    ensures forall a :: a in m ==> m[a].Keys == active - {a}
  {
    hide Rho, Distinct, Cell;
    forall a
      ensures a in m <==> a in ids && |ids| >= 2
    {
      if a in m {
        RowHoldsOthers(env, m, ids, a);
      } else if a in ids && |ids| >= 2 {
        HasRow(env, m, ids, a);
      }
    }
    forall a | a in m
      ensures m[a].Keys == active - {a}
    {
      RowHoldsOthers(env, m, ids, a);
    }
  }

  lemma HasRow(env: Env, m: Matrix, ids: seq<string>, a: string)
    requires MatrixFilled(env, m, ids, |ids|, |ids| + 1) && Distinct(ids) && a in ids && |ids| >= 2
    requires forall a, b :: a in ids && b in ids && a != b ==> Cell(m, a, b).Some?
    ensures a in m
  {
    hide Rho;
    var x :| 0 <= x < |ids| && ids[x] == a;
    assert Cell(m, a, ids[if x == 0 then 1 else 0]).Some?;
  }

  lemma MatrixSymmetric(env: Env, m: Matrix, ids: seq<string>)
    requires MatrixFilled(env, m, ids, |ids|, |ids| + 1)
    requires forall a, b :: a in ids && b in ids && a != b ==> Cell(m, a, b).Some?
    ensures forall a, b :: Cell(m, a, b).Some? ==> Cell(m, a, b) == Cell(m, b, a) == Some(Rho(env, a, b))
  {
    hide Rho, Cell;
    forall a, b | Cell(m, a, b).Some?
      ensures Cell(m, a, b) == Cell(m, b, a) == Some(Rho(env, a, b))
    {
      assert Cell(m, b, a).Some?;
      RhoSymmetric(env, a, b);
    }
  }

  lemma EveryCellFilled(env: Env, m: Matrix, ids: seq<string>)
    requires MatrixFilled(env, m, ids, |ids|, |ids| + 1) && Distinct(ids)
    ensures forall a, b :: a in ids && b in ids && a != b ==> Cell(m, a, b).Some?
  {
    hide Cell, Rho;
    forall a, b | a in ids && b in ids && a != b
      ensures Cell(m, a, b).Some?
    {
      var x :| 0 <= x < |ids| && ids[x] == a;
      var y :| 0 <= y < |ids| && ids[y] == b;
      assert x < y || y < x;
    }
  }

  lemma RowHoldsOthers(env: Env, m: Matrix, ids: seq<string>, a: string)
    requires MatrixFilled(env, m, ids, |ids|, |ids| + 1) && Distinct(ids) && a in m
    requires forall a, b :: a in ids && b in ids && a != b ==> Cell(m, a, b).Some?
    ensures a in ids && |ids| >= 2
    ensures forall b :: b in m[a] <==> b in ids && b != a
  {
    hide Rho;
    assert m[a] != map[];
    var c :| c in m[a];
    assert Cell(m, a, c).Some?;
    forall b
      ensures b in m[a] <==> b in ids && b != a
    {
      assert b in m[a] <==> Cell(m, a, b).Some?;
    }
  }

  lemma {:induction false} EnumerationSize(ids: seq<string>, active: set<string>)
    requires Enumerates(ids, active)
    ensures |ids| == |active|
  {
    if ids == [] {
      assert active == {};
    } else {
      assert ids == [ids[0]] + ids[1..];
      EnumerationSize(ids[1..], active - {ids[0]});
    }
  }
}
