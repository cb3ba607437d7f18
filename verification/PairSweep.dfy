/** One CheckCorrelations call as a sweep over pairs, and what of it depends on the order in
    which Go's map iteration happens to list the active ids. */
module PairSweep {
  import opened Common
  import opened PairBrake
  import opened PairKeys
  import Pearson

  /** The tracker's three per-pair maps. */
  datatype Book = Book(brakes: map<string, int>, cooldowns: map<string, int>, rhos: map<string, real>)

  /** What one check does not change. */
  datatype Env = Env(cfg: Settings, histories: map<string, seq<real>>, sqrt: real -> real)

  datatype PairCorrelation = PairCorrelation(a: string, b: string, rho: real, brakeActive: bool)

  datatype Breach = Breach(a: string, b: string, rho: real, action: Action)

  datatype Sweep = Sweep(book: Book, correlations: seq<PairCorrelation>, breaches: seq<Breach>)

  type Pair = (string, string)

  function Lookup<T>(m: map<string, T>, key: string, default: T): T {
    if key in m then m[key] else default
  }

  function StateOf(book: Book, key: string): PairState {
    PairState(Lookup(book.brakes, key, 0), Lookup(book.cooldowns, key, 0), Lookup(book.rhos, key, 0.0))
  }

  function Rho(env: Env, a: string, b: string): real {
    Pearson.Correlation(Lookup(env.histories, a, []), Lookup(env.histories, b, []), env.sqrt)
  }

  lemma RhoSymmetric(env: Env, a: string, b: string)
    ensures Rho(env, a, b) == Rho(env, b, a)
  {
    Pearson.CorrelationSymmetric(Lookup(env.histories, a, []), Lookup(env.histories, b, []), env.sqrt);
  }

  /** The maps after a check of one pair; an entry is written only where the code writes it. */
  function StepBook(cfg: Settings, book: Book, key: string, rho: real): Book {
    var s := StateOf(book, key);
    var t := Advance(cfg, s, rho);
    Book(
      if Trigger(cfg, s, rho) || s.brake > 0 then book.brakes[key := t.brake] else book.brakes,
      if VelocityBreach(cfg, s, rho) || s.cooldown > 0 then book.cooldowns[key := t.cooldown] else book.cooldowns,
      book.rhos[key := rho])
  }

  function Breaches(a: string, b: string, rho: real, actions: seq<Action>): seq<Breach> {
    seq(|actions|, i requires 0 <= i < |actions| => Breach(a, b, rho, actions[i]))
  }

  function CheckPair(env: Env, sw: Sweep, p: Pair): Sweep {
    var rho := Rho(env, p.0, p.1);
    var key := PairKey(p.0, p.1);
    var s := StateOf(sw.book, key);
    Sweep(
      StepBook(env.cfg, sw.book, key, rho),
      sw.correlations + [PairCorrelation(p.0, p.1, rho, ReportedActive(env.cfg, s, rho))],
      sw.breaches + Breaches(p.0, p.1, rho, Actions(env.cfg, s, rho)))
  }

  function RunPairs(env: Env, sw: Sweep, pairs: seq<Pair>): Sweep
    decreases |pairs|
  {
    if pairs == [] then sw else RunPairs(env, CheckPair(env, sw, pairs[0]), pairs[1..])
  }

  predicate IsAbout(env: Env, c: PairCorrelation, p: Pair) {
    c.a == p.0 && c.b == p.1 && c.rho == Rho(env, p.0, p.1)
  }

  predicate IsOfSome(env: Env, e: Breach, pairs: seq<Pair>) {
    (e.a, e.b) in pairs && e.rho == Rho(env, e.a, e.b)
  }

  /** One correlation was reported for each of the pairs, in their order, and every event reported
      is about one of them and carries its correlation. */
  ghost predicate Reports(env: Env, sw: Sweep, after: Sweep, pairs: seq<Pair>) {
    && sw.correlations <= after.correlations && |after.correlations| == |sw.correlations| + |pairs|
    && (forall k :: |sw.correlations| <= k < |after.correlations| ==>
          IsAbout(env, after.correlations[k], pairs[k - |sw.correlations|]))
    && sw.breaches <= after.breaches
    && forall i :: |sw.breaches| <= i < |after.breaches| ==> IsOfSome(env, after.breaches[i], pairs)
  }

  lemma PairReports(env: Env, sw: Sweep, p: Pair)
    ensures Reports(env, sw, CheckPair(env, sw, p), [p])
  {
    hide Rho, Actions, ReportedActive, StateOf, StepBook, PairKey;
  }

  lemma ReportsJoin(env: Env, sw: Sweep, next: Sweep, after: Sweep, pairs: seq<Pair>)
    requires pairs != [] && Reports(env, sw, next, [pairs[0]]) && Reports(env, next, after, pairs[1..])
    ensures Reports(env, sw, after, pairs)
  {
    hide IsAbout, Rho;
    var n := |sw.correlations|;
    forall k | n <= k < |after.correlations|
      ensures IsAbout(env, after.correlations[k], pairs[k - n])
    {
      if k == n {
        assert after.correlations[n] == next.correlations[n];
      } else {
        assert pairs[1..][k - (n + 1)] == pairs[k - n];
      }
    }
    assert forall p :: p in pairs[1..] || p == pairs[0] ==> p in pairs;
  }

  /** A sweep reports its pairs. */
  lemma {:induction false} SweepReportsPairs(env: Env, sw: Sweep, pairs: seq<Pair>)
    ensures Reports(env, sw, RunPairs(env, sw, pairs), pairs)
    decreases |pairs|
  {
    if pairs != [] {
      hide Reports, CheckPair;
      var next := CheckPair(env, sw, pairs[0]);
      SweepReportsPairs(env, next, pairs[1..]);
      PairReports(env, sw, pairs[0]);
      ReportsJoin(env, sw, next, RunPairs(env, sw, pairs), pairs);
    }
  }

  function Row(a: string, others: seq<string>): (row: seq<Pair>)
    ensures |row| == |others|
  {
    seq(|others|, j requires 0 <= j < |others| => (a, others[j]))
  }

  /** The pairs of the double loop, in its order. */
  function PairsOf(ids: seq<string>): seq<Pair> {
    if ids == [] then [] else Row(ids[0], ids[1..]) + PairsOf(ids[1..])
  }

  ghost predicate Enumerates(ids: seq<string>, active: set<string>) {
    Distinct(ids) && forall id :: id in ids <==> id in active
  }

  // ---------------------------------------------------------------- which pairs are visited

  function Canonical(pairs: seq<Pair>): (c: seq<Pair>)
    ensures |c| == |pairs| && forall i :: 0 <= i < |c| ==> c[i] == Ordered(pairs[i].0, pairs[i].1)
  {
    seq(|pairs|, i requires 0 <= i < |pairs| => Ordered(pairs[i].0, pairs[i].1))
  }

  lemma CanonicalKey(pairs: seq<Pair>, i: nat)
    requires i < |pairs|
    ensures Join(Canonical(pairs)[i].0, Canonical(pairs)[i].1) == PairKey(pairs[i].0, pairs[i].1)
  {}

  lemma CanonicalFirst(pairs: seq<Pair>)
    requires pairs != []
    ensures Canonical(pairs) == [Canonical(pairs)[0]] + Canonical(pairs[1..])
  {
    hide Ordered;
  }

  /** Every unordered pair of distinct ids is visited exactly once, and no other pair is. */
  lemma {:induction false} VisitsEachPairOnce(ids: seq<string>)
    requires Distinct(ids)
    ensures Distinct(Canonical(PairsOf(ids)))
    ensures forall a, b :: Ordered(a, b) in Canonical(PairsOf(ids)) <==> a in ids && b in ids && a != b
  {
    if ids != [] {
      var a, rest := ids[0], ids[1..];
      VisitsEachPairOnce(rest);
      RowVisits(a, rest);
      CanonicalSplit(ids);
      assert forall x :: x in ids <==> x == a || x in rest;
      hide Ordered, PairsOf;
      var head, tail := Canonical(Row(a, rest)), Canonical(PairsOf(rest));
      RowIsNew(a, rest);
      hide Canonical, Row, Distinct;
      DistinctConcat(head, tail);
    }
  }

  lemma RowIsNew(a: string, rest: seq<string>)
    requires a !in rest
    requires forall c, b :: Ordered(c, b) in Canonical(PairsOf(rest)) <==> c in rest && b in rest && c != b
    ensures forall q :: q in Canonical(Row(a, rest)) ==> q !in Canonical(PairsOf(rest))
  {
    hide Ordered, PairsOf;
    var head := Canonical(Row(a, rest));
    forall q | q in head
      ensures q !in Canonical(PairsOf(rest))
    {
      var i :| 0 <= i < |head| && head[i] == q;
      assert q == Ordered(a, rest[i]);
    }
  }

  lemma CanonicalSplit(ids: seq<string>)
    requires ids != []
    ensures Canonical(PairsOf(ids)) == Canonical(Row(ids[0], ids[1..])) + Canonical(PairsOf(ids[1..]))
  {
    hide Ordered;
  }

  lemma DistinctConcat<T>(xs: seq<T>, ys: seq<T>)
    requires Distinct(xs) && Distinct(ys) && forall x :: x in xs ==> x !in ys
    ensures Distinct(xs + ys)
  {
    forall i, j | 0 <= i < j < |xs + ys|
      ensures (xs + ys)[i] != (xs + ys)[j]
    {
      if i < |xs| <= j {
        assert xs[i] in xs && ys[j - |xs|] in ys;
      }
    }
  }

  lemma RowVisits(a: string, rest: seq<string>)
    requires Distinct(rest) && a !in rest
    ensures Distinct(Canonical(Row(a, rest)))
    ensures forall x, y :: Ordered(x, y) in Canonical(Row(a, rest)) <==>
              (x == a && y in rest) || (y == a && x in rest)
  {
    var row := Canonical(Row(a, rest));
    forall i, j | 0 <= i < j < |row|
      ensures row[i] != row[j]
    {
      OrderedSame(a, rest[i], a, rest[j]);
    }
    forall x, y
      ensures Ordered(x, y) in row <==> (x == a && y in rest) || (y == a && x in rest)
    {
      if Ordered(x, y) in row {
        var i :| 0 <= i < |row| && row[i] == Ordered(x, y);
        OrderedSame(a, rest[i], x, y);
      }
      if x == a && y in rest {
        var i :| 0 <= i < |rest| && rest[i] == y;
        assert row[i] == Ordered(x, y);
      }
      if y == a && x in rest {
        var i :| 0 <= i < |rest| && rest[i] == x;
        PairKeySymmetric(x, y);
        assert row[i] == Ordered(x, y);
      }
    }
  }

  // ---------------------------------------------------------------- one key's entries

  datatype Entry = Entry(brake: Option<int>, cooldown: Option<int>, rho: Option<real>)

  function Find<T>(m: map<string, T>, key: string): Option<T> {
    if key in m then Some(m[key]) else None
  }

  function EntryOf(book: Book, key: string): Entry {
    Entry(Find(book.brakes, key), Find(book.cooldowns, key), Find(book.rhos, key))
  }

  function Or<T>(o: Option<T>, default: T): T {
    if o.Some? then o.value else default
  }

  function StepEntry(cfg: Settings, e: Entry, rho: real): Entry {
    var s := PairState(Or(e.brake, 0), Or(e.cooldown, 0), Or(e.rho, 0.0));
    var t := Advance(cfg, s, rho);
    Entry(
      if Trigger(cfg, s, rho) || s.brake > 0 then Some(t.brake) else e.brake,
      if VelocityBreach(cfg, s, rho) || s.cooldown > 0 then Some(t.cooldown) else e.cooldown,
      Some(rho))
  }

  function Steps(cfg: Settings, e: Entry, rho: real, n: nat): Entry
    decreases n
  {
    if n == 0 then e else Steps(cfg, StepEntry(cfg, e, rho), rho, n - 1)
  }

  lemma StepBookIsLocal(cfg: Settings, book: Book, key: string, rho: real, other: string)
    ensures EntryOf(StepBook(cfg, book, key, rho), other)
         == if other == key then StepEntry(cfg, EntryOf(book, key), rho) else EntryOf(book, other)
  {}

  lemma SameEntriesSameBook(b: Book, c: Book)
    requires forall key :: EntryOf(b, key) == EntryOf(c, key)
    ensures b == c
  {
    forall key: string
      ensures key in b.brakes <==> key in c.brakes
      ensures key in b.cooldowns <==> key in c.cooldowns
      ensures key in b.rhos <==> key in c.rhos
      ensures key in b.brakes ==> b.brakes[key] == c.brakes[key]
      ensures key in b.cooldowns ==> b.cooldowns[key] == c.cooldowns[key]
      ensures key in b.rhos ==> b.rhos[key] == c.rhos[key]
    {
      assert EntryOf(b, key) == EntryOf(c, key);
    }
    assert b.brakes == c.brakes && b.cooldowns == c.cooldowns && b.rhos == c.rhos;
  }

  /** How many of the pairs carry the key. */
  function Carriers(pairs: seq<Pair>, key: string): nat {
    if pairs == [] then 0
    else (if PairKey(pairs[0].0, pairs[0].1) == key then 1 else 0) + Carriers(pairs[1..], key)
  }

  ghost predicate CarriersMeasure(env: Env, pairs: seq<Pair>, key: string, rho: real) {
    forall p :: p in pairs && PairKey(p.0, p.1) == key ==> Rho(env, p.0, p.1) == rho
  }

  /** A key all of whose pairs measure rho advances by rho once per pair. */
  lemma {:induction false} FinalEntry(env: Env, sw: Sweep, pairs: seq<Pair>, key: string, rho: real)
    requires CarriersMeasure(env, pairs, key, rho)
    ensures EntryOf(RunPairs(env, sw, pairs).book, key)
         == Steps(env.cfg, EntryOf(sw.book, key), rho, Carriers(pairs, key))
    decreases |pairs|
  {
    hide Rho, PairKey, StepBook, StepEntry, EntryOf;
    if pairs != [] {
      var p := pairs[0];
      assert p in pairs;
      StepBookIsLocal(env.cfg, sw.book, PairKey(p.0, p.1), Rho(env, p.0, p.1), key);
      FinalEntry(env, CheckPair(env, sw, p), pairs[1..], key, rho);
    }
  }

  ghost function WithKey(c: seq<Pair>, key: string): set<Pair> {
    set p | p in c && Join(p.0, p.1) == key
  }

  lemma WithKeyFirst(c: seq<Pair>, key: string)
    requires c != [] && c[0] !in c[1..]
    ensures |WithKey(c, key)| == |WithKey(c[1..], key)| + if Join(c[0].0, c[0].1) == key then 1 else 0
  {
    hide Join;
    assert forall p :: p in c <==> p == c[0] || p in c[1..];
    if Join(c[0].0, c[0].1) == key {
      assert WithKey(c, key) == WithKey(c[1..], key) + {c[0]};
    } else {
      assert WithKey(c, key) == WithKey(c[1..], key);
    }
  }

  /** Carriers counts a set, so it depends on which pairs are listed, not on their order. */
  lemma {:induction false} CarriersCount(pairs: seq<Pair>, key: string)
    requires Distinct(Canonical(pairs))
    ensures Carriers(pairs, key) == |WithKey(Canonical(pairs), key)|
  {
    var c := Canonical(pairs);
    if pairs != [] {
      assert Canonical(pairs[1..]) == c[1..];
      CarriersCount(pairs[1..], key);
      hide WithKey;
      WithKeyFirst(c, key);
      assert Join(c[0].0, c[0].1) == PairKey(pairs[0].0, pairs[0].1);
    }
  }

  lemma CarriersAgree(ids1: seq<string>, ids2: seq<string>, active: set<string>, key: string)
    requires Enumerates(ids1, active) && Enumerates(ids2, active)
    ensures Carriers(PairsOf(ids1), key) == Carriers(PairsOf(ids2), key)
  {
    VisitsEachPairOnce(ids1);
    VisitsEachPairOnce(ids2);
    CarriersCount(PairsOf(ids1), key);
    CarriersCount(PairsOf(ids2), key);
    var c1, c2 := Canonical(PairsOf(ids1)), Canonical(PairsOf(ids2));
    forall p: Pair
      ensures p in c1 <==> p in c2
    {
      SameVisits(ids1, ids2, active, p);
    }
    assert WithKey(c1, key) == WithKey(c2, key);
  }

  lemma SameVisits(ids1: seq<string>, ids2: seq<string>, active: set<string>, p: Pair)
    requires Enumerates(ids1, active) && Enumerates(ids2, active)
    ensures p in Canonical(PairsOf(ids1)) <==> p in Canonical(PairsOf(ids2))
  {
    VisitsEachPairOnce(ids1);
    VisitsEachPairOnce(ids2);
    if p in Canonical(PairsOf(ids1)) {
      var i :| 0 <= i < |PairsOf(ids1)| && Canonical(PairsOf(ids1))[i] == p;
      assert Ordered(PairsOf(ids1)[i].0, PairsOf(ids1)[i].1) == p;
    }
    if p in Canonical(PairsOf(ids2)) {
      var i :| 0 <= i < |PairsOf(ids2)| && Canonical(PairsOf(ids2))[i] == p;
      assert Ordered(PairsOf(ids2)[i].0, PairsOf(ids2)[i].1) == p;
    }
  }

  // ---------------------------------------------------------------- order independence

  /** Pairs that share a key measure the same correlation. */
  ghost predicate SharersAgree(env: Env, active: set<string>) {
    forall a, b, c, d ::
      a in active && b in active && c in active && d in active && a != b && c != d && PairKey(a, b) == PairKey(c, d)
      ==> Rho(env, a, b) == Rho(env, c, d)
  }

  lemma NoClashSharersAgree(env: Env, active: set<string>)
    requires NoKeyClash(active)
    ensures SharersAgree(env, active)
  {
    hide Rho, PairKey;
    forall a, b, c, d |
      a in active && b in active && c in active && d in active && a != b && c != d && PairKey(a, b) == PairKey(c, d)
      ensures Rho(env, a, b) == Rho(env, c, d)
    {
      assert SamePair(a, b, c, d);
      RhoOfSamePair(env, a, b, c, d);
    }
  }

  lemma RhoOfSamePair(env: Env, a: string, b: string, c: string, d: string)
    requires SamePair(a, b, c, d)
    ensures Rho(env, a, b) == Rho(env, c, d)
  {
    RhoSymmetric(env, a, b);
  }

  lemma PairsAreFromIds(ids: seq<string>, p: Pair)
    requires Distinct(ids) && p in PairsOf(ids)
    ensures p.0 in ids && p.1 in ids && p.0 != p.1
  {
    VisitsEachPairOnce(ids);
    var i :| 0 <= i < |PairsOf(ids)| && PairsOf(ids)[i] == p;
    assert Canonical(PairsOf(ids))[i] == Ordered(p.0, p.1);
  }

  lemma BookOrderIndependent(env: Env, sw1: Sweep, sw2: Sweep, active: set<string>, ids1: seq<string>,
                             ids2: seq<string>)
    requires Enumerates(ids1, active) && Enumerates(ids2, active)
    requires SharersAgree(env, active) && sw1.book == sw2.book
    ensures RunPairs(env, sw1, PairsOf(ids1)).book == RunPairs(env, sw2, PairsOf(ids2)).book
  {
    hide Rho;
    forall key: string
      ensures EntryOf(RunPairs(env, sw1, PairsOf(ids1)).book, key)
              == EntryOf(RunPairs(env, sw2, PairsOf(ids2)).book, key)
    {
      CarriersAgree(ids1, ids2, active, key);
      var rho := AgreedRho(env, active, key, ids1, ids2);
      FinalEntry(env, sw1, PairsOf(ids1), key, rho);
      FinalEntry(env, sw2, PairsOf(ids2), key, rho);
    }
    SameEntriesSameBook(RunPairs(env, sw1, PairsOf(ids1)).book, RunPairs(env, sw2, PairsOf(ids2)).book);
  }

  lemma AgreedRho(env: Env, active: set<string>, key: string, ids1: seq<string>, ids2: seq<string>) returns (rho: real)
    requires Enumerates(ids1, active) && Enumerates(ids2, active) && SharersAgree(env, active)
    ensures CarriersMeasure(env, PairsOf(ids1), key, rho) && CarriersMeasure(env, PairsOf(ids2), key, rho)
  {
    hide Rho;
    if a, b :| a in active && b in active && a != b && PairKey(a, b) == key {
      rho := Rho(env, a, b);
    } else {
      rho := 0.0;
    }
    forall p | (p in PairsOf(ids1) || p in PairsOf(ids2)) && PairKey(p.0, p.1) == key
      ensures Rho(env, p.0, p.1) == rho
    {
      if p in PairsOf(ids1) {
        PairsAreFromIds(ids1, p);
      } else {
        PairsAreFromIds(ids2, p);
      }
    }
  }

  /** The last pair of the sweep decides what its key's stored correlation is. */
  lemma {:induction false} LastWriterWins(env: Env, sw: Sweep, pairs: seq<Pair>)
    requires pairs != []
    ensures var p := pairs[|pairs| - 1];
            var book := RunPairs(env, sw, pairs).book;
            PairKey(p.0, p.1) in book.rhos && book.rhos[PairKey(p.0, p.1)] == Rho(env, p.0, p.1)
    decreases |pairs|
  {
    hide Rho, PairKey;
    if |pairs| > 1 {
      LastWriterWins(env, CheckPair(env, sw, pairs[0]), pairs[1..]);
    } else {
      assert RunPairs(env, sw, pairs) == CheckPair(env, sw, pairs[0]);
    }
  }

  lemma {:induction false} LastPair(ids: seq<string>)
    requires |ids| >= 2
    ensures PairsOf(ids) != []
    ensures PairsOf(ids)[|PairsOf(ids)| - 1] == (ids[|ids| - 2], ids[|ids| - 1])
  {
    if |ids| == 2 {
      assert PairsOf(ids[1..]) == Row(ids[1], []) + PairsOf([]) == [];
      assert PairsOf(ids) == Row(ids[0], ids[1..]);
    } else {
      LastPair(ids[1..]);
    }
  }

  lemma EnumerationEndingWith(active: set<string>, a: string, b: string) returns (ids: seq<string>)
    requires a in active && b in active && a != b
    ensures Enumerates(ids, active) && |ids| >= 2 && ids[|ids| - 2] == a && ids[|ids| - 1] == b
  {
    var front := SomeOrder(active - {a, b});
    ids := front + [a, b];
  }

  ghost predicate OrderDoesNotMatter(env: Env, book: Book, active: set<string>) {
    forall ids1, ids2 :: Enumerates(ids1, active) && Enumerates(ids2, active) ==>
      RunPairs(env, Sweep(book, [], []), PairsOf(ids1)).book == RunPairs(env, Sweep(book, [], []), PairsOf(ids2)).book
  }

  /** The brakes, cooldowns and stored correlations come out the same for every order of the
      active ids exactly when no two pairs that share a key measure different correlations. */
  lemma OrderIndependenceExact(env: Env, book: Book, active: set<string>)
    ensures OrderDoesNotMatter(env, book, active) <==> SharersAgree(env, active)
  {
    hide Rho, PairKey, CheckPair, PairsOf;
    var sw := Sweep(book, [], []);
    if SharersAgree(env, active) {
      forall ids1, ids2 | Enumerates(ids1, active) && Enumerates(ids2, active)
        ensures RunPairs(env, sw, PairsOf(ids1)).book == RunPairs(env, sw, PairsOf(ids2)).book
      {
        BookOrderIndependent(env, sw, sw, active, ids1, ids2);
      }
    }
    if OrderDoesNotMatter(env, book, active) {
      forall a, b, c, d |
        a in active && b in active && c in active && d in active && a != b && c != d && PairKey(a, b) == PairKey(c, d)
        ensures Rho(env, a, b) == Rho(env, c, d)
      {
        var ids1 := EnumerationEndingWith(active, a, b);
        var ids2 := EnumerationEndingWith(active, c, d);
        LastPair(ids1);
        LastPair(ids2);
        LastWriterWins(env, sw, PairsOf(ids1));
        LastWriterWins(env, sw, PairsOf(ids2));
      }
    }
  }

  /** Ids with ':' can make the outcome depend on the listing: "a" with "b:c" and "a:b" with
      "c" share a key, and here they measure 1 and 0. */
  lemma ClashingIdsOrderMatters(cfg: Settings, sqrt: real -> real, book: Book)
    requires Pearson.IsSqrt(sqrt)
    ensures !OrderDoesNotMatter(ClashingEnv(cfg, sqrt), book, {"a", "b:c", "a:b", "c"})
  {
    var env := ClashingEnv(cfg, sqrt);
    hide Rho, PairKey, OrderDoesNotMatter, ClashingEnv;
    ClashingCorrelations(cfg, sqrt);
    ColonClashExample();
    OrderIndependenceExact(env, book, {"a", "b:c", "a:b", "c"});
  }

  function ClashingEnv(cfg: Settings, sqrt: real -> real): Env {
    var curve := [1.0, 2.0, 2.0];
    Env(cfg, map["a" := curve, "b:c" := curve, "a:b" := [1.0, 1.0], "c" := [1.0, 1.0]], sqrt)
  }

  lemma ClashingCorrelations(cfg: Settings, sqrt: real -> real)
    requires Pearson.IsSqrt(sqrt)
    ensures Rho(ClashingEnv(cfg, sqrt), "a", "b:c") == 1.0
    ensures Rho(ClashingEnv(cfg, sqrt), "a:b", "c") == 0.0
  {
    CurveMeasuresOne(sqrt);
    TooShort(sqrt);
    hide Pearson.Correlation;
    assert "a" != "b:c" && "a" != "a:b" && "a" != "c" && "b:c" != "a:b" && "b:c" != "c" && "a:b" != "c";
  }

  lemma TooShort(sqrt: real -> real)
    ensures Pearson.Correlation([1.0, 1.0], [1.0, 1.0], sqrt) == 0.0
  {
    hide Pearson.Coefficient;
  }

  lemma CurveMeasuresOne(sqrt: real -> real)
    requires Pearson.IsSqrt(sqrt)
    ensures Pearson.Correlation([1.0, 2.0, 2.0], [1.0, 2.0, 2.0], sqrt) == 1.0
  {
    var curve := [1.0, 2.0, 2.0];
    SameCurve(curve);
    Pearson.SelfCorrelation(1.0, curve, sqrt);
    var r := Pearson.Returns(curve);
    assert r == [1.0, 0.0];
    assert r[..1] == [1.0];
    assert [1.0][..0] == [];
    assert Sum([1.0]) == 1.0 && Pearson.Dot([1.0], [1.0]) == 1.0;
    assert Sum(r) == 1.0 && Pearson.Dot(r, r) == 1.0;
    assert Pearson.Covariance(r, r) == 1.0;
  }

  lemma SameCurve(curve: seq<real>)
    ensures Pearson.Scale(1.0, curve) == curve
  {
    assert forall i :: 0 <= i < |curve| ==> Pearson.Product(1.0, curve[i]) == curve[i];
  }
}
