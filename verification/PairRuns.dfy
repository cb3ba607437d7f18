/** One pair over many checks (internal/backtest/correlation_tracker.go): what the tracker does to
    it is what the single-pair machine of PairBrake does. */
module PairRuns {
  import opened Common
  import opened PairBrake
  import opened PairKeys
  import opened PairSweep

  /** One call of CheckCorrelations: what it read, and the order the ids came in. */
  datatype Check = Check(env: Env, ids: seq<string>)

  function RunChecks(book: Book, checks: seq<Check>): Book {
    if checks == [] then book
    else
      var last := checks[|checks| - 1];
      RunPairs(last.env, Sweep(RunChecks(book, checks[..|checks| - 1]), [], []), PairsOf(last.ids)).book
  }

  /** Every check lists some of these ids, none twice. */
  ghost predicate ListsFrom(checks: seq<Check>, all: set<string>) {
    forall i :: 0 <= i < |checks| ==> Distinct(checks[i].ids) && forall id :: id in checks[i].ids ==> id in all
  }

  /** The check sees the pair: both ids are active. */
  predicate Sees(check: Check, a: string, b: string) {
    a in check.ids && b in check.ids
  }

  /** The settings and correlations of the checks that see the pair. */
  function Readings(checks: seq<Check>, a: string, b: string): seq<Reading> {
    if checks == [] then []
    else
      var last := checks[|checks| - 1];
      Readings(checks[..|checks| - 1], a, b)
      + if Sees(last, a, b) then [Reading(last.env.cfg, Rho(last.env, a, b))] else []
  }

  // ---------------------------------------------------------------- one check

  lemma OneCarrier(ids: seq<string>, all: set<string>, a: string, b: string)
    requires Distinct(ids) && NoKeyClash(all) && forall id :: id in ids ==> id in all
    requires a in all && b in all && a != b
    ensures Carriers(PairsOf(ids), PairKey(a, b)) == if a in ids && b in ids then 1 else 0
    ensures forall p :: p in PairsOf(ids) && PairKey(p.0, p.1) == PairKey(a, b) ==> SamePair(p.0, p.1, a, b)
  {
    hide PairKey, Ordered, PairsOf, Join, Carriers;
    var key, c := PairKey(a, b), Canonical(PairsOf(ids));
    VisitsEachPairOnce(ids);
    CarriersCount(PairsOf(ids), key);
    forall p | p in PairsOf(ids) && PairKey(p.0, p.1) == key
      ensures SamePair(p.0, p.1, a, b)
    {
      PairsAreFromIds(ids, p);
    }
    forall q: Pair
      ensures q in c && Join(q.0, q.1) == key <==> a in ids && b in ids && q == Ordered(a, b)
    {
      KeyOfOrdered(a, b);
      if q in c && Join(q.0, q.1) == key {
        var i :| 0 <= i < |c| && c[i] == q;
        CanonicalKey(PairsOf(ids), i);
        OrderedSame(PairsOf(ids)[i].0, PairsOf(ids)[i].1, a, b);
      }
    }
    assert WithKey(c, key) == if a in ids && b in ids then {Ordered(a, b)} else {};
  }

  /** A check advances each pair it sees by the pair's own correlation, whatever the other pairs
      do, and leaves a pair it does not see alone. */
  lemma CheckAdvancesPair(env: Env, sw: Sweep, ids: seq<string>, all: set<string>, a: string, b: string)
    requires Distinct(ids) && NoKeyClash(all) && forall id :: id in ids ==> id in all
    requires a in all && b in all && a != b
    ensures StateOf(RunPairs(env, sw, PairsOf(ids)).book, PairKey(a, b))
         == if a in ids && b in ids then Advance(env.cfg, StateOf(sw.book, PairKey(a, b)), Rho(env, a, b))
            else StateOf(sw.book, PairKey(a, b))
  {
    hide Rho, PairKey, PairsOf, NoKeyClash, RunPairs, Advance;
    var key, rho := PairKey(a, b), Rho(env, a, b);
    OneCarrier(ids, all, a, b);
    forall p | p in PairsOf(ids) && PairKey(p.0, p.1) == key
      ensures Rho(env, p.0, p.1) == rho
    {
      RhoOfSamePair(env, p.0, p.1, a, b);
    }
    FinalEntry(env, sw, PairsOf(ids), key, rho);
    OneStep(env.cfg, EntryOf(sw.book, key), rho);
    hide Steps, StepEntry;
  }

  lemma OneStep(cfg: Settings, e: Entry, rho: real)
    ensures Steps(cfg, e, rho, 0) == e
    ensures var s := PairState(Or(e.brake, 0), Or(e.cooldown, 0), Or(e.rho, 0.0));
            var f := Steps(cfg, e, rho, 1);
            PairState(Or(f.brake, 0), Or(f.cooldown, 0), Or(f.rho, 0.0)) == Advance(cfg, s, rho)
  {
    assert Steps(cfg, e, rho, 1) == Steps(cfg, StepEntry(cfg, e, rho), rho, 0) == StepEntry(cfg, e, rho);
  }

  // ---------------------------------------------------------------- runs of checks

  /** Over any run of checks, whatever ids are active and whatever the settings are at each, a
      pair's entries are the single-pair machine fed with the readings of the checks that see the
      pair: its lifetime and spacing laws hold of the tracker. */
  lemma {:induction false} PairRunsAlone(book: Book, checks: seq<Check>, all: set<string>, a: string, b: string)
    requires a != b && a in all && b in all && NoKeyClash(all) && ListsFrom(checks, all)
    ensures StateOf(RunChecks(book, checks), PairKey(a, b))
         == After(StateOf(book, PairKey(a, b)), Readings(checks, a, b))
  {
    hide Rho, PairKey, PairsOf, NoKeyClash, RunPairs, Advance, StateOf, Distinct;
    if checks != [] {
      var front, last := checks[..|checks| - 1], checks[|checks| - 1];
      PairRunsAlone(book, front, all, a, b);
      CheckAdvancesPair(last.env, Sweep(RunChecks(book, front), [], []), last.ids, all, a, b);
      var readings := Readings(front, a, b);
      assert (readings + [Reading(last.env.cfg, Rho(last.env, a, b))])[..|readings|] == readings;
      assert readings + [] == readings;
    }
  }

  /** The tracker's brake on a pair is on exactly while fewer checks than the duration set have
      seen the pair since the last one that triggered it. */
  lemma BrakeOnExactly(book: Book, checks: seq<Check>, all: set<string>, a: string, b: string, last: nat)
    requires a != b && a in all && b in all && NoKeyClash(all) && ListsFrom(checks, all)
    requires var s, run := StateOf(book, PairKey(a, b)), Readings(checks, a, b);
             && last < |run| && run[last].cfg.brakeDuration >= 1
             && TriggersAt(s, run, last) && QuietFrom(s, run, last + 1)
    ensures var run := Readings(checks, a, b);
            Lookup(RunChecks(book, checks).brakes, PairKey(a, b), 0) > 0 <==>
              |run| - 1 - last < run[last].cfg.brakeDuration
  {
    hide ListsFrom, NoKeyClash, TriggersAt, QuietFrom, RunChecks, PairKey, Readings;
    PairRunsAlone(book, checks, all, a, b);
    BrakeLifetime(StateOf(book, PairKey(a, b)), Readings(checks, a, b), last);
  }
}
