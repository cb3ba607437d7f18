/** What one CheckCorrelations call reports, and when it depends on the order in which Go's map
    iteration lists the active ids (internal/backtest/correlation_tracker.go). */
module PairReports {
  import opened Common
  import opened PairBrake
  import opened PairKeys
  import opened PairSweep
  import Pearson

  // Reports are compared with the two ids in key order.

  function CanonicalBreach(b: Breach): Breach {
    var p := Ordered(b.a, b.b);
    Breach(p.0, p.1, b.rho, b.action)
  }

  function CanonicalBreaches(bs: seq<Breach>): (c: seq<Breach>)
    ensures |c| == |bs|
  {
    seq(|bs|, i requires 0 <= i < |bs| => CanonicalBreach(bs[i]))
  }

  function CanonicalCorrelation(c: PairCorrelation): PairCorrelation {
    var p := Ordered(c.a, c.b);
    PairCorrelation(p.0, p.1, c.rho, c.brakeActive)
  }

  function CanonicalCorrelations(cs: seq<PairCorrelation>): (c: seq<PairCorrelation>)
    ensures |c| == |cs|
  {
    seq(|cs|, i requires 0 <= i < |cs| => CanonicalCorrelation(cs[i]))
  }

  /** What a check reports about the pair when its entries are in this state. */
  function BreachesFrom(env: Env, s: PairState, q: Pair): seq<Breach> {
    var rho := Rho(env, q.0, q.1);
    Breaches(q.0, q.1, rho, Actions(env.cfg, s, rho))
  }

  function ReportFrom(env: Env, s: PairState, q: Pair): PairCorrelation {
    var rho := Rho(env, q.0, q.1);
    PairCorrelation(q.0, q.1, rho, ReportedActive(env.cfg, s, rho))
  }

  function KeyState(book: Book, q: Pair): PairState {
    StateOf(book, Join(q.0, q.1))
  }

  lemma CheckPairReports(env: Env, sw: Sweep, p: Pair)
    ensures var q := Ordered(p.0, p.1);
            var after := CheckPair(env, sw, p);
            && CanonicalBreaches(after.breaches)
                == CanonicalBreaches(sw.breaches) + BreachesFrom(env, KeyState(sw.book, q), q)
            && CanonicalCorrelations(after.correlations)
               == CanonicalCorrelations(sw.correlations) + [ReportFrom(env, KeyState(sw.book, q), q)]
  {
    hide Rho, Actions, ReportedActive, StepBook;
    var q := Ordered(p.0, p.1);
    LessTotal(p.0, p.1);
    PairKeySymmetric(p.0, p.1);
    assert Ordered(q.0, q.1) == q;
    RhoSymmetric(env, p.0, p.1);
    assert Join(q.0, q.1) == PairKey(p.0, p.1);
    var rho := Rho(env, p.0, p.1);
    assert CanonicalBreaches(Breaches(p.0, p.1, rho, Actions(env.cfg, StateOf(sw.book, PairKey(p.0, p.1)), rho)))
        == BreachesFrom(env, KeyState(sw.book, q), q);
    var after := CheckPair(env, sw, p);
    assert CanonicalBreaches(after.breaches)
        == CanonicalBreaches(sw.breaches) + BreachesFrom(env, KeyState(sw.book, q), q);
    assert CanonicalCorrelations(after.correlations)
        == CanonicalCorrelations(sw.correlations) + [ReportFrom(env, KeyState(sw.book, q), q)];
  }

  // ---------------------------------------------------------------- the state a pair is checked in

  /** The pairs checked before q that share its key. */
  function SharersBefore(pairs: seq<Pair>, q: Pair): seq<Pair> {
    if pairs == [] || Ordered(pairs[0].0, pairs[0].1) == q then []
    else
      (if PairKey(pairs[0].0, pairs[0].1) == Join(q.0, q.1) then [pairs[0]] else []) + SharersBefore(pairs[1..], q)
  }

  function AdvancedBy(env: Env, s: PairState, sharers: seq<Pair>): PairState
    decreases |sharers|
  {
    if sharers == [] then s
    else AdvancedBy(env, Advance(env.cfg, s, Rho(env, sharers[0].0, sharers[0].1)), sharers[1..])
  }

  /** The state pair q is checked in: that of the book, moved on by the sharers before it. */
  function SeenBy(env: Env, book: Book, pairs: seq<Pair>, q: Pair): PairState {
    AdvancedBy(env, KeyState(book, q), SharersBefore(pairs, q))
  }

  lemma SeenAfterFirst(env: Env, sw: Sweep, pairs: seq<Pair>, q: Pair)
    requires pairs != [] && Ordered(pairs[0].0, pairs[0].1) != q
    ensures SeenBy(env, sw.book, pairs, q) == SeenBy(env, CheckPair(env, sw, pairs[0]).book, pairs[1..], q)
  {
    hide Rho, Actions, ReportedActive, Ordered, PairKey, Join;
    var p := pairs[0];
    StepState(env.cfg, sw.book, PairKey(p.0, p.1), Rho(env, p.0, p.1), Join(q.0, q.1));
    hide StepBook, StateOf, Advance;
    var rest := SharersBefore(pairs[1..], q);
    assert [p] + rest != [] && ([p] + rest)[0] == p && ([p] + rest)[1..] == rest;
    assert [] + rest == rest;
  }

  lemma StepState(cfg: Settings, book: Book, key: string, rho: real, other: string)
    ensures StateOf(StepBook(cfg, book, key, rho), other)
         == if other == key then Advance(cfg, StateOf(book, key), rho) else StateOf(book, other)
  {}

  // ---------------------------------------------------------------- what the listing changes

  function BreachesDue(env: Env, book: Book, pairs: seq<Pair>, e: Breach): nat {
    var q := (e.a, e.b);
    if q in Canonical(pairs) then multiset(BreachesFrom(env, SeenBy(env, book, pairs, q), q))[e] else 0
  }

  function ReportsDue(env: Env, book: Book, pairs: seq<Pair>, c: PairCorrelation): nat {
    var q := (c.a, c.b);
    if q in Canonical(pairs) && ReportFrom(env, SeenBy(env, book, pairs, q), q) == c then 1 else 0
  }

  lemma BreachesOfOtherPair(env: Env, s: PairState, q: Pair, e: Breach)
    requires (e.a, e.b) != q
    ensures multiset(BreachesFrom(env, s, q))[e] == 0
  {
    hide Rho, Actions;
    assert e !in BreachesFrom(env, s, q);
  }

  lemma FirstSeesBook(env: Env, book: Book, pairs: seq<Pair>)
    requires pairs != []
    ensures Canonical(pairs) == [Canonical(pairs)[0]] + Canonical(pairs[1..])
    ensures SeenBy(env, book, pairs, Canonical(pairs)[0]) == KeyState(book, Canonical(pairs)[0])
  {
    CanonicalFirst(pairs);
  }

  lemma RestDistinct(pairs: seq<Pair>)
    requires pairs != [] && Distinct(Canonical(pairs))
    ensures Distinct(Canonical(pairs[1..])) && Canonical(pairs)[0] !in Canonical(pairs[1..])
  {
    CanonicalFirst(pairs);
    hide Canonical, Ordered;
    var c := Canonical(pairs);
    assert Canonical(pairs[1..]) == c[1..];
  }

  lemma CountAppended<T>(xs: seq<T>, ys: seq<T>, c: T)
    ensures multiset(xs + ys)[c] == multiset(xs)[c] + multiset(ys)[c]
  {}

  /** What is due splits into what the first pair reports and what is due after its check. */
  lemma DueSplits(env: Env, sw: Sweep, pairs: seq<Pair>, e: Breach, c: PairCorrelation)
    requires pairs != [] && Distinct(Canonical(pairs))
    ensures var q := Canonical(pairs)[0];
            var s := KeyState(sw.book, q);
            var next := CheckPair(env, sw, pairs[0]).book;
            && BreachesDue(env, sw.book, pairs, e)
                == multiset(BreachesFrom(env, s, q))[e] + BreachesDue(env, next, pairs[1..], e)
            && ReportsDue(env, sw.book, pairs, c)
                == multiset([ReportFrom(env, s, q)])[c] + ReportsDue(env, next, pairs[1..], c)
  {
    hide BreachesFrom, ReportFrom, SeenBy, CheckPair, Ordered, Distinct;
    var q := Canonical(pairs)[0];
    FirstSeesBook(env, sw.book, pairs);
    RestDistinct(pairs);
    hide Canonical, KeyState;
    ReportOfPair(env, KeyState(sw.book, q), q);
    if (e.a, e.b) != q {
      BreachesOfOtherPair(env, KeyState(sw.book, q), q, e);
      SeenAfterFirst(env, sw, pairs, (e.a, e.b));
    }
    if (c.a, c.b) != q {
      SeenAfterFirst(env, sw, pairs, (c.a, c.b));
    }
  }

  /** How often each event and each correlation is reported: as the pair it is about reports it in
      the state the pair is checked in. */
  lemma {:induction false} ReportCounts(env: Env, sw: Sweep, pairs: seq<Pair>, e: Breach, c: PairCorrelation)
    requires Distinct(Canonical(pairs))
    ensures multiset(CanonicalBreaches(RunPairs(env, sw, pairs).breaches))[e]
         == multiset(CanonicalBreaches(sw.breaches))[e] + BreachesDue(env, sw.book, pairs, e)
    ensures multiset(CanonicalCorrelations(RunPairs(env, sw, pairs).correlations))[c]
         == multiset(CanonicalCorrelations(sw.correlations))[c] + ReportsDue(env, sw.book, pairs, c)
    decreases |pairs|
  {
    if pairs == [] {
      hide CanonicalBreaches, CanonicalCorrelations;
    } else {
      hide BreachesFrom, ReportFrom, SeenBy, CheckPair, CanonicalBreaches, CanonicalCorrelations;
      hide Ordered, KeyState, Distinct;
      var p, q := pairs[0], Canonical(pairs)[0];
      var next, s := CheckPair(env, sw, p), KeyState(sw.book, q);
      RestDistinct(pairs);
      ReportCounts(env, next, pairs[1..], e, c);
      DueSplits(env, sw, pairs, e, c);
      CheckPairReports(env, sw, p);
      CountAppended(CanonicalBreaches(sw.breaches), BreachesFrom(env, s, q), e);
      CountAppended(CanonicalCorrelations(sw.correlations), [ReportFrom(env, s, q)], c);
      hide BreachesDue, ReportsDue, Canonical;
    }
  }

  lemma ReportOfPair(env: Env, s: PairState, q: Pair)
    ensures (ReportFrom(env, s, q).a, ReportFrom(env, s, q).b) == q
  {}

  // ---------------------------------------------------------------- exactly when it does not matter

  /** Two listings report the same, up to order and to swapping A and B. */
  ghost predicate ReportAlike(env: Env, book: Book, ids1: seq<string>, ids2: seq<string>) {
    var run1 := RunPairs(env, Sweep(book, [], []), PairsOf(ids1));
    var run2 := RunPairs(env, Sweep(book, [], []), PairsOf(ids2));
    && multiset(CanonicalBreaches(run1.breaches)) == multiset(CanonicalBreaches(run2.breaches))
    && multiset(CanonicalCorrelations(run1.correlations)) == multiset(CanonicalCorrelations(run2.correlations))
  }

  /** The pair reports the same in both states. */
  ghost predicate SameReport(env: Env, s: PairState, t: PairState, q: Pair) {
    && multiset(BreachesFrom(env, s, q)) == multiset(BreachesFrom(env, t, q))
    && ReportFrom(env, s, q) == ReportFrom(env, t, q)
  }

  lemma AlikeWhenSeenAlike(env: Env, book: Book, active: set<string>, ids1: seq<string>, ids2: seq<string>)
    requires Enumerates(ids1, active) && Enumerates(ids2, active)
    requires forall q :: q in Canonical(PairsOf(ids1)) ==>
               SameReport(env, SeenBy(env, book, PairsOf(ids1), q), SeenBy(env, book, PairsOf(ids2), q), q)
    ensures ReportAlike(env, book, ids1, ids2)
  {
    hide RunPairs, PairsOf, BreachesFrom, ReportFrom, SeenBy, CanonicalBreaches, CanonicalCorrelations, Canonical;
    VisitsEachPairOnce(ids1);
    VisitsEachPairOnce(ids2);
    var sw := Sweep(book, [], []);
    var c0, e0 := PairCorrelation("", "", 0.0, false), Breach("", "", 0.0, BrakeApplied);
    forall e: Breach
      ensures multiset(CanonicalBreaches(RunPairs(env, sw, PairsOf(ids1)).breaches))[e]
           == multiset(CanonicalBreaches(RunPairs(env, sw, PairsOf(ids2)).breaches))[e]
    {
      ReportCounts(env, sw, PairsOf(ids1), e, c0);
      ReportCounts(env, sw, PairsOf(ids2), e, c0);
      SameVisits(ids1, ids2, active, (e.a, e.b));
    }
    forall c: PairCorrelation
      ensures multiset(CanonicalCorrelations(RunPairs(env, sw, PairsOf(ids1)).correlations))[c]
           == multiset(CanonicalCorrelations(RunPairs(env, sw, PairsOf(ids2)).correlations))[c]
    {
      ReportCounts(env, sw, PairsOf(ids1), e0, c);
      ReportCounts(env, sw, PairsOf(ids2), e0, c);
      SameVisits(ids1, ids2, active, (c.a, c.b));
    }
  }

  lemma SeenAlikeWhenAlike(env: Env, book: Book, active: set<string>, ids1: seq<string>, ids2: seq<string>, q: Pair)
    requires Enumerates(ids1, active) && Enumerates(ids2, active) && ReportAlike(env, book, ids1, ids2)
    requires q in Canonical(PairsOf(ids1))
    ensures SameReport(env, SeenBy(env, book, PairsOf(ids1), q), SeenBy(env, book, PairsOf(ids2), q), q)
  {
    hide RunPairs, PairsOf, BreachesFrom, ReportFrom, SeenBy, CanonicalBreaches, CanonicalCorrelations, Canonical;
    VisitsEachPairOnce(ids1);
    VisitsEachPairOnce(ids2);
    SameVisits(ids1, ids2, active, q);
    var sw := Sweep(book, [], []);
    var s, t := SeenBy(env, book, PairsOf(ids1), q), SeenBy(env, book, PairsOf(ids2), q);
    var c, e0 := ReportFrom(env, s, q), Breach("", "", 0.0, BrakeApplied);
    ReportOfPair(env, s, q);
    forall e: Breach
      ensures multiset(BreachesFrom(env, s, q))[e] == multiset(BreachesFrom(env, t, q))[e]
    {
      if (e.a, e.b) == q {
        ReportCounts(env, sw, PairsOf(ids1), e, c);
        ReportCounts(env, sw, PairsOf(ids2), e, c);
      } else {
        BreachesOfOtherPair(env, s, q, e);
        BreachesOfOtherPair(env, t, q, e);
      }
    }
    ReportCounts(env, sw, PairsOf(ids1), e0, c);
    ReportCounts(env, sw, PairsOf(ids2), e0, c);
  }

  // ---------------------------------------------------------------- the sharers

  predicate IsPair(active: set<string>, p: Pair) {
    p.0 in active && p.1 in active && p.0 != p.1
  }

  /** Two different active pairs with one key. */
  ghost predicate Sharers(active: set<string>, p: Pair, q: Pair) {
    IsPair(active, p) && IsPair(active, q) && PairKey(p.0, p.1) == PairKey(q.0, q.1) && !SamePair(p.0, p.1, q.0, q.1)
  }

  lemma {:induction false} SharersBeforeShare(pairs: seq<Pair>, q: Pair)
    requires Distinct(Canonical(pairs))
    ensures var s := SharersBefore(pairs, q);
            && (forall p :: p in s ==> p in pairs && PairKey(p.0, p.1) == Join(q.0, q.1) && Ordered(p.0, p.1) != q)
            && forall i, j :: 0 <= i < j < |s| ==> Ordered(s[i].0, s[i].1) != Ordered(s[j].0, s[j].1)
  {
    if pairs != [] {
      RestDistinct(pairs);
      SharersBeforeShare(pairs[1..], q);
      hide PairKey, Join, Ordered;
      var p, rest := pairs[0], SharersBefore(pairs[1..], q);
      forall r | r in rest
        ensures Ordered(r.0, r.1) != Ordered(p.0, p.1)
      {
        var i :| 0 <= i < |pairs[1..]| && pairs[1..][i] == r;
        assert Canonical(pairs[1..])[i] == Ordered(r.0, r.1);
      }
    }
  }

  /** Whoever comes before an active pair with its key is one of its sharers. */
  lemma SharersBeforeAreSharers(ids: seq<string>, active: set<string>, q: Pair)
    requires Enumerates(ids, active) && IsPair(active, q)
    ensures forall p :: p in SharersBefore(PairsOf(ids), Ordered(q.0, q.1)) ==> Sharers(active, p, q)
  {
    hide PairKey, Join, Ordered, PairsOf, SharersBefore;
    VisitsEachPairOnce(ids);
    SharersBeforeShare(PairsOf(ids), Ordered(q.0, q.1));
    forall p | p in SharersBefore(PairsOf(ids), Ordered(q.0, q.1))
      ensures Sharers(active, p, q)
    {
      PairsAreFromIds(ids, p);
      KeyOfOrdered(q.0, q.1);
      OrderedSame(p.0, p.1, q.0, q.1);
    }
  }

  lemma VisitedIsPair(ids: seq<string>, active: set<string>, q: Pair) returns (p: Pair)
    requires Enumerates(ids, active) && q in Canonical(PairsOf(ids))
    ensures IsPair(active, p) && Ordered(p.0, p.1) == q
  {
    var i :| 0 <= i < |PairsOf(ids)| && Canonical(PairsOf(ids))[i] == q;
    p := PairsOf(ids)[i];
    PairsAreFromIds(ids, p);
  }

  lemma EnumerationStartingWith(active: set<string>, p: Pair) returns (ids: seq<string>)
    requires IsPair(active, p)
    ensures Enumerates(ids, active) && PairsOf(ids) != [] && PairsOf(ids)[0] == p
  {
    var rest := SomeOrder(active - {p.0, p.1});
    ids := [p.0, p.1] + rest;
    assert ids[1..] == [p.1] + rest;
    assert PairsOf(ids)[0] == Row(ids[0], ids[1..])[0];
  }

  /** With keys that do not clash, two listings of the same active ids leave the same book and
      report the same events and correlations. */
  lemma ReportsOrderIndependent(env: Env, book: Book, active: set<string>, ids1: seq<string>, ids2: seq<string>)
    requires Enumerates(ids1, active) && Enumerates(ids2, active) && NoKeyClash(active)
    ensures RunPairs(env, Sweep(book, [], []), PairsOf(ids1)).book
            == RunPairs(env, Sweep(book, [], []), PairsOf(ids2)).book
    ensures ReportAlike(env, book, ids1, ids2)
  {
    var sw := Sweep(book, [], []);
    NoClashSharersAgree(env, active);
    BookOrderIndependent(env, sw, sw, active, ids1, ids2);
    hide *;
    forall q | q in Canonical(PairsOf(ids1))
      ensures SameReport(env, SeenBy(env, book, PairsOf(ids1), q), SeenBy(env, book, PairsOf(ids2), q), q)
    {
      var p := VisitedIsPair(ids1, active, q);
      SeesBookWithoutClash(env, book, active, ids1, p);
      SeesBookWithoutClash(env, book, active, ids2, p);
      SameAsItself(env, KeyState(book, q), q);
    }
    AlikeWhenSeenAlike(env, book, active, ids1, ids2);
  }

  lemma SameAsItself(env: Env, s: PairState, q: Pair)
    ensures SameReport(env, s, s, q)
  {}

  lemma SomeMember<T>(s: seq<T>)
    ensures s == [] || s[0] in s
  {}

  lemma SeesBookWithoutClash(env: Env, book: Book, active: set<string>, ids: seq<string>, p: Pair)
    requires Enumerates(ids, active) && NoKeyClash(active) && IsPair(active, p)
    ensures SeenBy(env, book, PairsOf(ids), Ordered(p.0, p.1)) == KeyState(book, Ordered(p.0, p.1))
  {
    hide PairsOf, SharersBefore, PairKey, Ordered, KeyState, SamePair;
    SharersBeforeAreSharers(ids, active, p);
    var s := SharersBefore(PairsOf(ids), Ordered(p.0, p.1));
    SomeMember(s);
    assert forall r :: !Sharers(active, r, p);
  }

  ghost predicate ReportsOrderDoesNotMatter(env: Env, book: Book, active: set<string>) {
    forall ids1, ids2 :: Enumerates(ids1, active) && Enumerates(ids2, active) ==> ReportAlike(env, book, ids1, ids2)
  }

  /** In this listing the pair reports what it would if it were checked first. */
  ghost predicate AsIfFirst(env: Env, book: Book, ids: seq<string>, p: Pair) {
    var q := Ordered(p.0, p.1);
    SameReport(env, SeenBy(env, book, PairsOf(ids), q), KeyState(book, q), q)
  }

  lemma FirstPairSeesBook(env: Env, book: Book, ids: seq<string>, p: Pair)
    requires PairsOf(ids) != [] && PairsOf(ids)[0] == p
    ensures Ordered(p.0, p.1) in Canonical(PairsOf(ids))
    ensures SeenBy(env, book, PairsOf(ids), Ordered(p.0, p.1)) == KeyState(book, Ordered(p.0, p.1))
  {
    FirstSeesBook(env, book, PairsOf(ids));
    assert Canonical(PairsOf(ids))[0] == Ordered(p.0, p.1);
  }

  /** The reported events and correlations are the same for every listing exactly when every pair
      reports in every listing what it would report if it were checked first. */
  lemma ReportsOrderExact(env: Env, book: Book, active: set<string>)
    ensures ReportsOrderDoesNotMatter(env, book, active) <==>
              forall ids, p :: Enumerates(ids, active) && IsPair(active, p) ==> AsIfFirst(env, book, ids, p)
  {
    hide RunPairs, PairsOf, ReportAlike, BreachesFrom, ReportFrom, Canonical, SeenBy, KeyState, Ordered, Enumerates;
    if ReportsOrderDoesNotMatter(env, book, active) {
      forall ids, p | Enumerates(ids, active) && IsPair(active, p)
        ensures AsIfFirst(env, book, ids, p)
      {
        var first := EnumerationStartingWith(active, p);
        FirstPairSeesBook(env, book, first, p);
        SeenAlikeWhenAlike(env, book, active, first, ids, Ordered(p.0, p.1));
      }
    }
    if forall ids, p :: Enumerates(ids, active) && IsPair(active, p) ==> AsIfFirst(env, book, ids, p) {
      forall ids1, ids2 | Enumerates(ids1, active) && Enumerates(ids2, active)
        ensures ReportAlike(env, book, ids1, ids2)
      {
        forall q | q in Canonical(PairsOf(ids1))
          ensures SameReport(env, SeenBy(env, book, PairsOf(ids1), q), SeenBy(env, book, PairsOf(ids2), q), q)
        {
          var p := VisitedIsPair(ids1, active, q);
          assert AsIfFirst(env, book, ids1, p) && AsIfFirst(env, book, ids2, p);
        }
        AlikeWhenSeenAlike(env, book, active, ids1, ids2);
      }
    }
  }

  // ---------------------------------------------------------------- two pairs a key

  /** The pair has one sharer at most. */
  ghost predicate OneSharer(active: set<string>, r: Pair) {
    forall p, q :: Sharers(active, p, r) && Sharers(active, q, r) ==> SamePair(p.0, p.1, q.0, q.1)
  }

  /** No three different active pairs share a key. */
  ghost predicate AtMostTwoShare(active: set<string>) {
    forall r :: OneSharer(active, r)
  }

  /** A sharer checked just before the pair changes nothing about what the pair reports. */
  ghost predicate Unnoticed(env: Env, book: Book, p: Pair, q: Pair) {
    var k := Ordered(q.0, q.1);
    SameReport(env, Advance(env.cfg, KeyState(book, k), Rho(env, p.0, p.1)), KeyState(book, k), k)
  }

  lemma OneSharerBefore(ids: seq<string>, active: set<string>, q: Pair)
    requires Enumerates(ids, active) && IsPair(active, q) && OneSharer(active, q)
    ensures |SharersBefore(PairsOf(ids), Ordered(q.0, q.1))| <= 1
  {
    hide PairKey, Join, Ordered, PairsOf, SharersBefore, SamePair;
    var s := SharersBefore(PairsOf(ids), Ordered(q.0, q.1));
    VisitsEachPairOnce(ids);
    SharersBeforeShare(PairsOf(ids), Ordered(q.0, q.1));
    SharersBeforeAreSharers(ids, active, q);
    if |s| > 1 {
      assert s[0] in s && s[1] in s;
      OrderedSame(s[0].0, s[0].1, s[1].0, s[1].1);
    }
  }

  lemma AdvancedByOne(env: Env, s: PairState, p: Pair)
    ensures AdvancedBy(env, s, []) == s
    ensures AdvancedBy(env, s, [p]) == Advance(env.cfg, s, Rho(env, p.0, p.1))
  {
    hide Advance, Rho;
    assert [p][1..] == [];
  }

  /** Where no three pairs share a key, the listing does not change the reports exactly when no
      pair's report changes by checking its sharer first: a condition on the state before the
      check and the correlations it measures. */
  lemma ReportsOrderOfTwo(env: Env, book: Book, active: set<string>)
    requires AtMostTwoShare(active)
    ensures ReportsOrderDoesNotMatter(env, book, active) <==>
              forall p, q :: Sharers(active, p, q) ==> Unnoticed(env, book, p, q)
  {
    ReportsOrderExact(env, book, active);
    hide ReportsOrderDoesNotMatter, Sharers, Unnoticed, AsIfFirst, OneSharer, Enumerates;
    if forall ids, p :: Enumerates(ids, active) && IsPair(active, p) ==> AsIfFirst(env, book, ids, p) {
      forall p, q | Sharers(active, p, q)
        ensures Unnoticed(env, book, p, q)
      {
        SharersArePairs(active, p, q);
        var ids := EnumerationStartingWith(active, p);
        assert AsIfFirst(env, book, ids, q);
        assert OneSharer(active, q);
        SharerFirst(env, book, ids, active, p, q);
      }
    }
    if forall p, q :: Sharers(active, p, q) ==> Unnoticed(env, book, p, q) {
      forall ids, q | Enumerates(ids, active) && IsPair(active, q)
        ensures AsIfFirst(env, book, ids, q)
      {
        assert OneSharer(active, q);
        OneSharerBefore(ids, active, q);
        SharersBeforeAreSharers(ids, active, q);
        SeesAtMostOne(env, book, ids, active, q);
      }
    }
  }

  lemma SharersArePairs(active: set<string>, p: Pair, q: Pair)
    requires Sharers(active, p, q)
    ensures IsPair(active, p) && IsPair(active, q)
  {}

  lemma SharerFirst(env: Env, book: Book, ids: seq<string>, active: set<string>, p: Pair, q: Pair)
    requires Enumerates(ids, active) && OneSharer(active, q) && Sharers(active, p, q)
    requires PairsOf(ids) != [] && PairsOf(ids)[0] == p && AsIfFirst(env, book, ids, q)
    ensures Unnoticed(env, book, p, q)
  {
    hide SameReport, PairsOf, Rho, Advance;
    var k := Ordered(q.0, q.1);
    OneSharerBefore(ids, active, q);
    KeyOfOrdered(q.0, q.1);
    OrderedSame(p.0, p.1, q.0, q.1);
    assert SharersBefore(PairsOf(ids), k) == [p];
    AdvancedByOne(env, KeyState(book, k), p);
  }

  lemma SeesAtMostOne(env: Env, book: Book, ids: seq<string>, active: set<string>, q: Pair)
    requires |SharersBefore(PairsOf(ids), Ordered(q.0, q.1))| <= 1
    requires forall p :: p in SharersBefore(PairsOf(ids), Ordered(q.0, q.1)) ==> Sharers(active, p, q)
    requires forall p :: Sharers(active, p, q) ==> Unnoticed(env, book, p, q)
    ensures AsIfFirst(env, book, ids, q)
  {
    hide PairsOf, Rho, Advance, Ordered, Sharers, SharersBefore, KeyState, BreachesFrom, ReportFrom;
    var k := Ordered(q.0, q.1);
    var s := SharersBefore(PairsOf(ids), k);
    if s == [] {
      AdvancedByOne(env, KeyState(book, k), q);
    } else {
      assert s == [s[0]] && s[0] in s;
      AdvancedByOne(env, KeyState(book, k), s[0]);
      assert Unnoticed(env, book, s[0], q);
    }
  }

  // ---------------------------------------------------------------- a listing that matters

  /** The clashing ids of ClashingIdsOrderMatters: on empty maps and with a threshold that the one
      pair's correlation, 1, breaches and the other's, 0, does not, the second pair is reported as
      braked exactly when it is checked after the first. */
  lemma ClashingReportsOrderMatters(cfg: Settings, sqrt: real -> real)
    requires Pearson.IsSqrt(sqrt) && 0.0 <= cfg.threshold < 1.0 && cfg.brakeDuration > 0
    ensures !ReportsOrderDoesNotMatter(ClashingEnv(cfg, sqrt), Book(map[], map[], map[]), ClashingIds())
  {
    var env, book := ClashingEnv(cfg, sqrt), Book(map[], map[], map[]);
    var active, p, q: Pair := ClashingIds(), ("a", "b:c"), ("a:b", "c");
    NoticedSharer(cfg, sqrt);
    ClashSharers();
    hide ClashingEnv, SameReport, Sharers, OneSharer, Unnoticed;
    ReportsOrderExact(env, book, active);
    SharersArePairs(active, p, q);
    var ids := EnumerationStartingWith(active, p);
    if AsIfFirst(env, book, ids, q) {
      SharerFirst(env, book, ids, active, p, q);
    }
  }

  function ClashingIds(): set<string> {
    {"a", "b:c", "a:b", "c"}
  }

  lemma NoticedSharer(cfg: Settings, sqrt: real -> real)
    requires Pearson.IsSqrt(sqrt) && 0.0 <= cfg.threshold < 1.0 && cfg.brakeDuration > 0
    ensures !Unnoticed(ClashingEnv(cfg, sqrt), Book(map[], map[], map[]), ("a", "b:c"), ("a:b", "c"))
  {
    var env: Env := ClashingEnv(cfg, sqrt);
    assert env.cfg == cfg;
    ClashingCorrelations(cfg, sqrt);
    ClashOrder();
    FreshState(("a:b", "c"));
    hide *;
    Noticed(env, ("a", "b:c"), ("a:b", "c"));
  }

  lemma FreshState(q: Pair)
    ensures KeyState(Book(map[], map[], map[]), q) == PairState(0, 0, 0.0)
  {
    hide Join;
  }

  /** One pair breaches the threshold and the other, which has its key, does not. */
  lemma Noticed(env: Env, p: Pair, q: Pair)
    requires Ordered(q.0, q.1) == q && KeyState(Book(map[], map[], map[]), q) == PairState(0, 0, 0.0)
    requires Rho(env, q.0, q.1) <= env.cfg.threshold < Rho(env, p.0, p.1) && env.cfg.brakeDuration > 0
    ensures !Unnoticed(env, Book(map[], map[], map[]), p, q)
  {
    hide KeyState, Rho, Ordered, BreachesFrom;
    var s := PairState(0, 0, 0.0);
    var after := Advance(env.cfg, s, Rho(env, p.0, p.1));
    assert ReportFrom(env, after, q).brakeActive && !ReportFrom(env, s, q).brakeActive;
  }

  lemma ClashOrder()
    ensures Ordered("a", "b:c") == ("a", "b:c") && Ordered("a:b", "c") == ("a:b", "c")
  {}

  /** The two pairs share their key with each other only. */
  lemma ClashSharers()
    ensures Sharers(ClashingIds(), ("a", "b:c"), ("a:b", "c")) && OneSharer(ClashingIds(), ("a:b", "c"))
  {
    ColonClashExample();
    assert "a" != "a:b" && "a" != "c" && "a:b" != "c" && "a" != "b:c";
    forall p: Pair | Sharers(ClashingIds(), p, ("a:b", "c"))
      ensures SamePair(p.0, p.1, "a", "b:c")
    {
      OnlySharer(p);
    }
    hide PairKey, Sharers;
  }

  lemma OnlySharer(p: Pair)
    requires IsPair(ClashingIds(), p) && PairKey(p.0, p.1) == PairKey("a:b", "c") && !SamePair(p.0, p.1, "a:b", "c")
    ensures SamePair(p.0, p.1, "a", "b:c")
  {
    PairKeySymmetric(p.0, p.1);
    assert PairKey("a:b", "c") == "a:b:c";
    assert PairKey("a", "a:b") == "a:a:b" && "a:a:b"[2] != "a:b:c"[2];
    assert PairKey("b:c", "c") == "b:c:c" && "b:c:c"[0] != "a:b:c"[0];
    KeyLength(p.0, p.1);
    hide PairKey;
  }

  lemma KeyLength(a: string, b: string)
    ensures |PairKey(a, b)| == |a| + |b| + 1
  {}
}
