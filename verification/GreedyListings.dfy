/** When the greedy pass of MatchReconciliation finds a largest matching whatever order the
    executions and the fills are listed in (internal/api/reconciliation_matcher.go). */
module GreedyListings {
  import opened Common
  import opened Reconciliation
  import opened Matchings

  // ---------------------------------------------------------------- listings

  /** All of 0 to n - 1, in some order. */
  ghost predicate IsListing(order: seq<int>, n: nat) {
    |order| == n && Distinct(order) && forall k :: 0 <= k < n ==> 0 <= order[k] < n
  }

  function Rearranged<T>(xs: seq<T>, order: seq<int>): (ys: seq<T>)
    requires |order| == |xs| && forall k :: 0 <= k < |order| ==> 0 <= order[k] < |xs|
    ensures |ys| == |xs| && forall k :: 0 <= k < |ys| ==> ys[k] == xs[order[k]]
  {
    seq(|xs|, k requires 0 <= k < |xs| => xs[order[k]])
  }

  function InOrder(n: nat): (order: seq<int>)
    ensures |order| == n && forall k :: 0 <= k < n ==> order[k] == k
  {
    seq(n, k => k)
  }

  lemma PlaceIn(order: seq<int>, n: nat, x: int) returns (k: nat)
    requires IsListing(order, n) && 0 <= x < n
    ensures k < n && order[k] == x
  {
    DistinctSize(order);
    if x !in order {
      SubsetCardinality(Elements(order), UpTo(n) - {x});
      WithoutOne(UpTo(n), x);
      assert false;
    }
    k :| 0 <= k < n && order[k] == x;
  }

  // ---------------------------------------------------------------- pairings as matchings

  /** Positions of executions and fills that are compatible. */
  ghost function GraphOf(execs: seq<Execution>, fills: seq<Fill>): Graph {
    set i, j | 0 <= i < |execs| && 0 <= j < |fills| && Compatible(execs[i], fills[j]) :: (i, j)
  }

  lemma EdgeOf(execs: seq<Execution>, fills: seq<Fill>, e: Edge)
    ensures e in GraphOf(execs, fills) <==>
              0 <= e.0 < |execs| && 0 <= e.1 < |fills| && Compatible(execs[e.0], fills[e.1])
  {
    assert e == (e.0, e.1);
  }

  ghost predicate FitsListings(p: Pairing, eo: seq<int>, fo: seq<int>) {
    |p| <= |eo| && forall i :: 0 <= i < |p| ==> p[i] < |fo|
  }

  /** The pairs of a pairing of rearranged lists, by original positions. */
  ghost function EdgesOf(p: Pairing, eo: seq<int>, fo: seq<int>): Graph
    requires FitsListings(p, eo, fo)
  {
    set i | 0 <= i < |p| && p[i] >= 0 :: (eo[i], fo[p[i]])
  }

  lemma {:induction false} EdgesCount(p: Pairing, eo: seq<int>, fo: seq<int>)
    requires FitsListings(p, eo, fo)
    requires Distinct(eo)
    ensures |EdgesOf(p, eo, fo)| == Pairs(p)
  {
    if p != [] {
      var n := |p| - 1;
      var front := p[..n];
      EdgesCount(front, eo, fo);
      PairsAppend(front, p[n]);
      assert p == front + [p[n]];
      EdgesAppend(p, eo, fo);
      if p[n] >= 0 {
        assert forall e :: e in EdgesOf(front, eo, fo) ==> exists i :: 0 <= i < n && e.0 == eo[i];
      }
    }
  }

  lemma EdgesAppend(p: Pairing, eo: seq<int>, fo: seq<int>)
    requires FitsListings(p, eo, fo) && p != []
    ensures var n := |p| - 1;
            EdgesOf(p, eo, fo) == EdgesOf(p[..n], eo, fo) + if p[n] >= 0 then {(eo[n], fo[p[n]])} else {}
  {
    var n := |p| - 1;
    forall e | e in EdgesOf(p, eo, fo)
      ensures e in EdgesOf(p[..n], eo, fo) + if p[n] >= 0 then {(eo[n], fo[p[n]])} else {}
    {
      var i :| 0 <= i < |p| && p[i] >= 0 && e == (eo[i], fo[p[i]]);
      assert i < n ==> p[..n][i] == p[i];
    }
    forall e | e in EdgesOf(p[..n], eo, fo)
      ensures e in EdgesOf(p, eo, fo)
    {
      var i :| 0 <= i < n && p[..n][i] >= 0 && e == (eo[i], fo[p[..n][i]]);
      assert p[i] == p[..n][i];
    }
  }

  /** A matching of rearranged lists is one of the original lists, of the same size. */
  lemma PairingIsMatching(execs: seq<Execution>, fills: seq<Fill>, eo: seq<int>, fo: seq<int>, p: Pairing)
    requires IsListing(eo, |execs|) && IsListing(fo, |fills|)
    requires IsMatching(Rearranged(execs, eo), Rearranged(fills, fo), p)
    ensures FitsListings(p, eo, fo) && IsMatchingIn(EdgesOf(p, eo, fo), GraphOf(execs, fills))
    ensures |EdgesOf(p, eo, fo)| == Pairs(p)
  {
    hide Compatible;
    EdgesCount(p, eo, fo);
    forall e | e in EdgesOf(p, eo, fo)
      ensures e in GraphOf(execs, fills)
    {
      var i :| 0 <= i < |p| && p[i] >= 0 && e == (eo[i], fo[p[i]]);
      EdgeOf(execs, fills, e);
    }
    forall e, f | e in EdgesOf(p, eo, fo) && f in EdgesOf(p, eo, fo) && (e.0 == f.0 || e.1 == f.1)
      ensures e == f
    {
      var i :| 0 <= i < |p| && p[i] >= 0 && e == (eo[i], fo[p[i]]);
      var k :| 0 <= k < |p| && p[k] >= 0 && f == (eo[k], fo[p[k]]);
      assert i == k;
    }
  }

  lemma PairingIsMaximal(execs: seq<Execution>, fills: seq<Fill>, eo: seq<int>, fo: seq<int>, p: Pairing)
    requires IsListing(eo, |execs|) && IsListing(fo, |fills|)
    requires IsMatching(Rearranged(execs, eo), Rearranged(fills, fo), p)
    requires IsMaximal(Rearranged(execs, eo), Rearranged(fills, fo), p)
    ensures FitsListings(p, eo, fo) && IsMaximalIn(EdgesOf(p, eo, fo), GraphOf(execs, fills))
  {
    PairingIsMatching(execs, fills, eo, fo, p);
    hide Compatible, IsMatchingIn;
    var m := EdgesOf(p, eo, fo);
    forall e | e in GraphOf(execs, fills)
      ensures e.0 in Left(m) || e.1 in Right(m)
    {
      EdgeOf(execs, fills, e);
      var i := PlaceIn(eo, |execs|, e.0);
      var j := PlaceIn(fo, |fills|, e.1);
      if p[i] >= 0 {
        assert (eo[i], fo[p[i]]) in m;
      } else {
        assert Takes(p, j);
        var k :| 0 <= k < |p| && p[k] == j;
        assert (eo[k], fo[p[k]]) in m;
      }
    }
  }

  // ---------------------------------------------------------------- every maximal matching is greedy

  ghost predicate Enumerates(es: seq<Edge>, m: Graph) {
    Distinct(es) && forall e :: e in es <==> e in m
  }

  /** A listing that begins with the given numbers. */
  lemma ListingStartingWith(front: seq<int>, n: nat) returns (order: seq<int>)
    requires forall k :: 0 <= k < |front| ==> 0 <= front[k] < n
    requires Distinct(front)
    ensures IsListing(order, n) && front <= order
  {
    DistinctSize(front);
    var rest := SomeOrder(UpTo(n) - Elements(front));
    order := front + rest;
    assert Elements(front) <= UpTo(n);
    DifferenceSize(UpTo(n), Elements(front));
    assert forall k :: 0 <= k < |rest| ==> rest[k] in rest;
    assert forall k :: 0 <= k < |front| ==> front[k] in Elements(front);
  }

  /** Which lists a matching's pairs first, in the same order on both sides. */
  ghost predicate PairsFirst(es: seq<Edge>, m: Graph, g: Graph, eo: seq<int>, fo: seq<int>) {
    && IsMaximalIn(m, g) && Enumerates(es, m) && |es| <= |eo| && |es| <= |fo|
    && forall k :: 0 <= k < |es| ==> eo[k] == es[k].0 && fo[k] == es[k].1
  }

  lemma ListPairsFirst(execs: seq<Execution>, fills: seq<Fill>, m: Graph)
    returns (es: seq<Edge>, eo: seq<int>, fo: seq<int>)
    requires IsMaximalIn(m, GraphOf(execs, fills))
    ensures IsListing(eo, |execs|) && IsListing(fo, |fills|) && |es| == |m|
    ensures PairsFirst(es, m, GraphOf(execs, fills), eo, fo)
  {
    es := SomeOrder(m);
    var lefts := seq(|es|, k requires 0 <= k < |es| => es[k].0);
    var rights := seq(|es|, k requires 0 <= k < |es| => es[k].1);
    forall k | 0 <= k < |es|
      ensures 0 <= lefts[k] < |execs| && 0 <= rights[k] < |fills|
    {
      assert es[k] in m;
      EdgeOf(execs, fills, es[k]);
    }
    forall k, l | 0 <= k < l < |es|
      ensures lefts[k] != lefts[l] && rights[k] != rights[l]
    {
      assert es[k] in m && es[l] in m;
    }
    eo := ListingStartingWith(lefts, |execs|);
    fo := ListingStartingWith(rights, |fills|);
    assert forall k :: 0 <= k < |es| ==> eo[k] == lefts[k] && fo[k] == rights[k];
  }

  /** So listed, the greedy pass takes exactly the pairs of the matching. */
  function FirstPairs(i: nat, k: nat): (p: Pairing)
    ensures |p| == i && forall x :: 0 <= x < i ==> p[x] == if x < k then x else -1
  {
    seq(i, x => if x < k then x else -1)
  }

  lemma {:induction false} GreedyTakes(execs: seq<Execution>, fills: seq<Fill>, m: Graph, es: seq<Edge>,
                                       eo: seq<int>, fo: seq<int>, i: nat)
    requires IsListing(eo, |execs|) && IsListing(fo, |fills|) && i <= |execs|
    requires PairsFirst(es, m, GraphOf(execs, fills), eo, fo)
    ensures Greedy(Rearranged(execs, eo)[..i], Rearranged(fills, fo)) == FirstPairs(i, |es|)
  {
    var xs, ys := Rearranged(execs, eo), Rearranged(fills, fo);
    if i == 0 {
      assert xs[..0] == [] && FirstPairs(0, |es|) == [];
    } else {
      GreedyTakes(execs, fills, m, es, eo, fo, i - 1);
      NextTaken(execs, fills, m, es, eo, fo, i - 1);
      GreedyAppends(xs, ys, i);
      FirstPairsAppend(i, |es|);
      assert xs[i - 1] == execs[eo[i - 1]];
      hide *;
    }
  }

  lemma GreedyAppends(xs: seq<Execution>, ys: seq<Fill>, i: nat)
    requires 0 < i <= |xs|
    ensures var done := Greedy(xs[..i - 1], ys); Greedy(xs[..i], ys) == done + [FirstFree(xs[i - 1], ys, done, 0)]
  {
    assert xs[..i][..i - 1] == xs[..i - 1];
  }

  lemma FirstPairsAppend(i: nat, k: nat)
    requires i > 0
    ensures FirstPairs(i, k) == FirstPairs(i - 1, k) + [if i - 1 < k then i - 1 else -1]
  {}

  lemma NextTaken(execs: seq<Execution>, fills: seq<Fill>, m: Graph, es: seq<Edge>, eo: seq<int>, fo: seq<int>, i: nat)
    requires IsListing(eo, |execs|) && IsListing(fo, |fills|) && i < |execs|
    requires PairsFirst(es, m, GraphOf(execs, fills), eo, fo)
    ensures FirstFree(execs[eo[i]], Rearranged(fills, fo), FirstPairs(i, |es|), 0) == if i < |es| then i else -1
  {
    hide Compatible;
    var p, ys := FirstPairs(i, |es|), Rearranged(fills, fo);
    var k := FirstFree(execs[eo[i]], ys, p, 0);
    forall j | 0 <= j < i && j < |es|
      ensures Takes(p, j)
    {
      assert p[j] == j;
    }
    if i < |es| {
      assert es[i] in m;
      EdgeOf(execs, fills, es[i]);
      assert !Takes(p, i);
    } else if k >= 0 {
      assert k >= |es|;
      EdgeOf(execs, fills, (eo[i], fo[k]));
      NotPaired(es, m, GraphOf(execs, fills), eo, fo, i, k);
    }
  }

  /** Nothing listed behind the pairs is in one of them. */
  lemma NotPaired(es: seq<Edge>, m: Graph, g: Graph, eo: seq<int>, fo: seq<int>, i: nat, j: nat)
    requires PairsFirst(es, m, g, eo, fo) && |es| <= i < |eo| && |es| <= j < |fo|
    requires Distinct(eo)
    requires Distinct(fo)
    ensures (eo[i], fo[j]) !in g
  {
    forall e | e in m
      ensures e.0 != eo[i] && e.1 != fo[j]
    {
      assert e in es;
      var k :| 0 <= k < |es| && es[k] == e;
    }
    UnmatchedPair(m, g, eo[i], fo[j]);
  }

  lemma UnmatchedPair(m: Graph, g: Graph, u: int, v: int)
    requires IsMaximalIn(m, g) && forall e :: e in m ==> e.0 != u && e.1 != v
    ensures (u, v) !in g
  {
    assert u !in Left(m) && v !in Right(m);
    assert (u, v) in g ==> (u, v).0 in Left(m) || (u, v).1 in Right(m);
  }

  lemma {:induction false} FirstPairsCount(i: nat, k: nat)
    requires k <= i
    ensures Pairs(FirstPairs(i, k)) == k
  {
    assert Positions(FirstPairs(i, k)) == UpTo(k);
  }

  // ---------------------------------------------------------------- pairings of a matching

  lemma PairingOf(execs: seq<Execution>, fills: seq<Fill>, n: Graph) returns (p: Pairing)
    requires IsMatchingIn(n, GraphOf(execs, fills))
    ensures IsMatching(execs, fills, p) && Pairs(p) == |n|
  {
    p := seq(|execs|, i => if exists j :: (i, j) in n then var j :| (i, j) in n; j else -1);
    forall i | 0 <= i < |p| && p[i] != -1
      ensures (i, p[i]) in n && 0 <= p[i] < |fills| && Compatible(execs[i], fills[p[i]])
    {
      EdgeOf(execs, fills, (i, p[i]));
    }
    forall i, j | 0 <= i < j < |p| && p[i] >= 0
      ensures p[i] != p[j]
    {
      assert p[j] >= 0 ==> (j, p[j]) in n;
    }
    forall e | e in n
      ensures 0 <= e.0 < |execs| && p[e.0] == e.1
    {
      EdgeOf(execs, fills, e);
      assert e == (e.0, e.1) && (e.0, p[e.0]) in n;
    }
    assert Positions(p) == Left(n);
    SeparateSize(n);
  }

  // ---------------------------------------------------------------- the exact condition

  /** Whatever the order of executions and fills, the greedy pass pairs as many as can be paired. */
  ghost predicate GreedyAlwaysBest(execs: seq<Execution>, fills: seq<Fill>) {
    forall eo, fo, other ::
      IsListing(eo, |execs|) && IsListing(fo, |fills|) && IsMatching(execs, fills, other)
      ==> Pairs(other) <= Pairs(Greedy(Rearranged(execs, eo), Rearranged(fills, fo)))
  }

  lemma GreedyOfListing(execs: seq<Execution>, fills: seq<Fill>, eo: seq<int>, fo: seq<int>) returns (m: Graph)
    requires IsListing(eo, |execs|) && IsListing(fo, |fills|)
    ensures IsMaximalIn(m, GraphOf(execs, fills))
    ensures |m| == Pairs(Greedy(Rearranged(execs, eo), Rearranged(fills, fo)))
  {
    var p := Greedy(Rearranged(execs, eo), Rearranged(fills, fo));
    GreedyIsMaximalMatching(Rearranged(execs, eo), Rearranged(fills, fo));
    PairingIsMatching(execs, fills, eo, fo, p);
    PairingIsMaximal(execs, fills, eo, fo, p);
    m := EdgesOf(p, eo, fo);
  }

  lemma ListingOfMaximal(execs: seq<Execution>, fills: seq<Fill>, m: Graph) returns (eo: seq<int>, fo: seq<int>)
    requires IsMaximalIn(m, GraphOf(execs, fills))
    ensures IsListing(eo, |execs|) && IsListing(fo, |fills|)
    ensures Pairs(Greedy(Rearranged(execs, eo), Rearranged(fills, fo))) == |m|
  {
    var es: seq<Edge>;
    es, eo, fo := ListPairsFirst(execs, fills, m);
    GreedyTakes(execs, fills, m, es, eo, fo, |execs|);
    assert Rearranged(execs, eo)[..|execs|] == Rearranged(execs, eo);
    FirstPairsCount(|execs|, |es|);
  }

  lemma MatchingOf(execs: seq<Execution>, fills: seq<Fill>, other: Pairing) returns (n: Graph)
    requires IsMatching(execs, fills, other)
    ensures IsMatchingIn(n, GraphOf(execs, fills)) && |n| == Pairs(other)
  {
    var eo, fo := InOrder(|execs|), InOrder(|fills|);
    assert Rearranged(execs, eo) == execs && Rearranged(fills, fo) == fills;
    PairingIsMatching(execs, fills, eo, fo, other);
    n := EdgesOf(other, eo, fo);
  }

  /** The greedy pass pairs as many as possible under every listing if and only if some executions
      and fills are such that each compatible pair has exactly one of its two among them, and each
      of them has some compatible partners that have no more partners than they are. */
  lemma GreedyAlwaysBestExactly(execs: seq<Execution>, fills: seq<Fill>)
    ensures GreedyAlwaysBest(execs, fills) <==> exists a, b :: IsTightCover(GraphOf(execs, fills), a, b)
  {
    var g := GraphOf(execs, fills);
    AllMaximalLargestExactly(g);
    hide IsTightCover, GraphOf, Pairs, IsMatching, IsMatchingIn, IsMaximalIn;
    if AllMaximalLargest(g) {
      forall eo, fo, other | IsListing(eo, |execs|) && IsListing(fo, |fills|) && IsMatching(execs, fills, other)
        ensures Pairs(other) <= Pairs(Greedy(Rearranged(execs, eo), Rearranged(fills, fo)))
      {
        var m := GreedyOfListing(execs, fills, eo, fo);
        var n := MatchingOf(execs, fills, other);
      }
    }
    if GreedyAlwaysBest(execs, fills) {
      forall m, n | IsMaximalIn(m, g) && IsMatchingIn(n, g)
        ensures |n| <= |m|
      {
        var eo, fo := ListingOfMaximal(execs, fills, m);
        var other := PairingOf(execs, fills, n);
      }
    }
  }
}
