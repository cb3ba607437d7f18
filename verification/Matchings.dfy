/** Matchings in a bipartite graph, and the graphs in which every maximal one is a largest one. */
module Matchings {
  import opened Common

  type Edge = (int, int)

  type Graph = set<Edge>

  /** No two edges meet. */
  ghost predicate Separate(m: Graph) {
    forall e, f :: e in m && f in m && (e.0 == f.0 || e.1 == f.1) ==> e == f
  }

  ghost predicate IsMatchingIn(m: Graph, g: Graph) {
    m <= g && Separate(m)
  }

  /** Every edge of the graph meets one of the matching. */
  ghost predicate IsMaximalIn(m: Graph, g: Graph) {
    IsMatchingIn(m, g) && forall e :: e in g ==> e.0 in Left(m) || e.1 in Right(m)
  }

  ghost function Left(m: Graph): (s: set<int>)
  {
    set e | e in m :: e.0
  }

  ghost function Right(m: Graph): (t: set<int>)
  {
    set e | e in m :: e.1
  }

  /** The same graph with its sides exchanged. */
  ghost function Flip(g: Graph): Graph {
    set e | e in g :: (e.1, e.0)
  }

  /** The right neighbours of some left nodes. */
  ghost function Reached(g: Graph, s: set<int>): (t: set<int>)
  {
    set e | e in g && e.0 in s :: e.1
  }

  lemma {:induction false} SeparateSize(m: Graph)
    requires Separate(m)
    ensures |Left(m)| == |m|
    decreases |m|
  {
    if m != {} {
      var e :| e in m;
      var rest := m - {e};
      SeparateSize(rest);
      assert Left(m) == Left(rest) + {e.0};
      assert e.0 !in Left(rest);
    }
  }

  lemma FlipMatching(m: Graph)
    requires Separate(m)
    ensures Separate(Flip(m)) && Left(Flip(m)) == Right(m) && Right(Flip(m)) == Left(m)
    ensures |Flip(m)| == |m| == |Right(m)| == |Left(m)|
  {
    FlipSides(m);
    SeparateSize(m);
    SeparateSize(Flip(m));
    FlipSides(Flip(m));
    FlipTwice(m);
    FlipSize(m);
  }

  lemma FlipSides(m: Graph)
    ensures Left(Flip(m)) == Right(m) && Right(Flip(m)) == Left(m)
  {
    forall v | v in Right(m)
      ensures v in Left(Flip(m))
    {
      var e :| e in m && e.1 == v;
      assert (e.1, e.0) in Flip(m);
    }
    forall u | u in Left(m)
      ensures u in Right(Flip(m))
    {
      var e :| e in m && e.0 == u;
      assert (e.1, e.0) in Flip(m);
    }
  }

  lemma FlipTwice(m: Graph)
    ensures Flip(Flip(m)) == m
  {
    forall e: Edge
      ensures e in Flip(Flip(m)) <==> e in m
    {
      assert e == (e.0, e.1);
    }
  }

  lemma {:induction false} FlipSize(m: Graph)
    ensures |Flip(m)| == |m|
    decreases |m|
  {
    if m != {} {
      var e :| e in m;
      FlipSize(m - {e});
      assert Flip(m) == Flip(m - {e}) + {(e.1, e.0)};
    }
  }

  // ---------------------------------------------------------------- Hall's theorem

  ghost predicate HallCondition(g: Graph, a: set<int>) {
    forall s :: s <= a ==> |Reached(g, s)| >= |s|
  }

  /** The graph without the edges into some right nodes. */
  ghost function Avoiding(g: Graph, t: set<int>): (h: Graph)
    ensures h <= g
  {
    set e | e in g && e.1 !in t
  }

  ghost function From(g: Graph, a: set<int>): (h: Graph)
    ensures h <= g
  {
    set e | e in g && e.0 in a
  }

  /** When every set of nodes reaches at least as many, they can all be matched. */
  lemma {:induction false} Hall(g: Graph, a: set<int>) returns (m: Graph)
    requires HallCondition(g, a)
    ensures IsMatchingIn(m, g) && Left(m) == a
    decreases |a|
  {
    if a == {} {
      m := {};
    } else if s :| s < a && s != {} && |Reached(g, s)| <= |s| {
      m := HallTight(g, a, s);
    } else {
      m := HallLoose(g, a);
    }
  }

  /** A tight set is matched by itself, the others around it. */
  lemma {:induction false} HallTight(g: Graph, a: set<int>, s: set<int>) returns (m: Graph)
    requires HallCondition(g, a) && s < a && s != {} && |Reached(g, s)| <= |s|
    ensures IsMatchingIn(m, g) && Left(m) == a
    decreases |a|, 0
  {
    ProperParts(a, s);
    HallSubset(g, a, s);
    AroundTight(g, a, s);
    hide *;
    var m1 := Hall(g, s);
    var m2 := Hall(Avoiding(g, Reached(g, s)), a - s);
    m := m1 + m2;
    MatchedApart(g, s, a - s, m1, m2);
    LeftOfUnion(m1, m2);
    assert s + (a - s) == a;
  }

  lemma HallSubset(g: Graph, a: set<int>, s: set<int>)
    requires HallCondition(g, a) && s <= a
    ensures HallCondition(g, s)
  {
    hide Reached;
  }

  lemma LeftOfUnion(m: Graph, n: Graph)
    ensures Left(m + n) == Left(m) + Left(n)
  {}

  lemma AroundTight(g: Graph, a: set<int>, s: set<int>)
    requires HallCondition(g, a) && s < a && |Reached(g, s)| <= |s|
    ensures HallCondition(Avoiding(g, Reached(g, s)), a - s)
  {
    var t, h := Reached(g, s), Avoiding(g, Reached(g, s));
    forall x | x <= a - s
      ensures |Reached(h, x)| >= |x|
    {
      assert s + x <= a;
      UnionSize(s, x);
      assert Reached(g, s + x) == t + Reached(h, x);
      UnionBound(t, Reached(h, x));
    }
  }

  lemma MatchedApart(g: Graph, s: set<int>, x: set<int>, m1: Graph, m2: Graph)
    requires IsMatchingIn(m1, g) && Left(m1) == s && IsMatchingIn(m2, Avoiding(g, Reached(g, s)))
    requires Left(m2) == x && s !! x
    ensures IsMatchingIn(m1 + m2, g)
  {
    forall e, f | e in m1 && f in m2
      ensures e.0 != f.0 && e.1 != f.1
    {
      assert e.0 in Left(m1) && e in g && f.0 in Left(m2);
      assert e.1 in Reached(g, s);
    }
    hide Left, Reached, Avoiding;
  }

  /** Without a tight set any edge of a node can be taken first. */
  lemma {:induction false} HallLoose(g: Graph, a: set<int>) returns (m: Graph)
    requires HallCondition(g, a) && a != {}
    requires forall s :: s < a && s != {} ==> |Reached(g, s)| > |s|
    ensures IsMatchingIn(m, g) && Left(m) == a
    decreases |a|, 0
  {
    var u := Member(a);
    var v := SomeNeighbour(g, a, u);
    var h := Avoiding(g, {v});
    forall x | x <= a - {u}
      ensures |Reached(h, x)| >= |x|
    {
      assert Reached(h, x) == Reached(g, x) - {v};
      if x != {} {
        assert x < a;
      }
    }
    WithoutOne(a, u);
    hide Reached, Left;
    var rest := Hall(h, a - {u});
    assert forall e :: e in rest ==> e.0 in Left(rest) && e in h;
    m := rest + {(u, v)};
    OneLeft(u, v);
    LeftOfUnion(rest, {(u, v)});
  }

  lemma OneLeft(u: int, v: int)
    ensures Left({(u, v)}) == {u}
  {}

  lemma SomeNeighbour(g: Graph, a: set<int>, u: int) returns (v: int)
    requires HallCondition(g, a) && u in a
    ensures (u, v) in g
  {
    assert {u} <= a && |{u}| == 1;
    var r := Reached(g, {u});
    assert |r| >= 1;
    assert r != {};
    v := Member(r);
    var e :| e in g && e.0 in {u} && e.1 == v;
    assert e == (u, v);
  }

  lemma ProperParts(a: set<int>, s: set<int>)
    requires s < a && s != {}
    ensures |s| < |a| && |a - s| < |a|
  {
    DifferenceSize(a, s);
    assert a - s != {};
    assert |s| > 0 && |a - s| > 0;
  }

  lemma WithoutOne(a: set<int>, u: int)
    requires u in a
    ensures |a - {u}| == |a| - 1
  {
    DifferenceSize(a, {u});
  }

  lemma UnionSize(s: set<int>, x: set<int>)
    requires s !! x
    ensures |s + x| == |s| + |x|
  {}

  // ---------------------------------------------------------------- covers

  /** Every edge has an end among these nodes. */
  ghost predicate IsCover(g: Graph, a: set<int>, b: set<int>) {
    forall e :: e in g ==> e.0 in a || e.1 in b
  }

  ghost predicate IsLeastCover(g: Graph, a: set<int>, b: set<int>) {
    IsCover(g, a, b) && forall c, d :: IsCover(g, c, d) ==> |a| + |b| <= |c| + |d|
  }

  lemma {:induction false} LeastCover(g: Graph, c: set<int>, d: set<int>) returns (a: set<int>, b: set<int>)
    requires IsCover(g, c, d)
    ensures IsLeastCover(g, a, b)
    decreases |c| + |d|
  {
    if x, y :| IsCover(g, x, y) && |x| + |y| < |c| + |d| {
      a, b := LeastCover(g, x, y);
    } else {
      a, b := c, d;
    }
  }

  /** The edges into some right nodes. */
  ghost function Into(g: Graph, b: set<int>): (h: Graph)
    ensures h <= g
  {
    set e | e in g && e.1 in b
  }

  lemma EndsInside(m: Graph, a: set<int>, b: set<int>)
    requires Separate(m)
    ensures |From(m, a)| <= |a| && |Into(m, b)| <= |b|
    ensures |From(m, a)| == |a| ==> a <= Left(m)
    ensures |Into(m, b)| == |b| ==> b <= Right(m)
  {
    var ma, mb := From(m, a), Into(m, b);
    SeparateSize(ma);
    FlipMatching(mb);
    SubsetCardinality(Left(ma), a);
    SubsetCardinality(Right(mb), b);
    if |ma| == |a| {
      SameSize(Left(ma), a);
    }
    if |mb| == |b| {
      SameSize(Right(mb), b);
    }
  }

  /** A matching has at most one edge for each node of a cover; if it has as many, every node of
      the cover is matched, and no edge has both ends in it. */
  lemma CoverBound(g: Graph, a: set<int>, b: set<int>, m: Graph)
    requires IsCover(g, a, b) && IsMatchingIn(m, g)
    ensures |m| <= |a| + |b|
    ensures |m| == |a| + |b| ==>
              a <= Left(m) && b <= Right(m) && forall e :: e in m ==> !(e.0 in a && e.1 in b)
  {
    EndsInside(m, a, b);
    var ma, mb := From(m, a), Into(m, b);
    assert m == ma + mb;
    assert forall e :: e in m && e.0 in a && e.1 in b ==> e in ma && e in mb;
    hide Separate, Left, Right, From, Into;
    UnionBound(ma, mb);
  }

  lemma UnionBound<T>(s: set<T>, t: set<T>)
    ensures |s + t| <= |s| + |t|
    ensures |s + t| == |s| + |t| ==> s !! t
  {
    assert s + t == s + (t - s);
    if x :| x in s && x in t {
      SubsetCardinality(t - s, t - {x});
    }
  }

  lemma SameSize<T>(s: set<T>, t: set<T>)
    requires s <= t && |s| >= |t|
    ensures s == t
  {
    DifferenceSize(t, s);
  }

  /** Koenig's theorem: some matching is as large as a least cover. */
  lemma Koenig(g: Graph, a: set<int>, b: set<int>) returns (m: Graph)
    requires IsLeastCover(g, a, b)
    ensures IsMatchingIn(m, g) && |m| == |a| + |b|
  {
    FlipCover(g, a, b);
    hide IsLeastCover;
    var m1 := MatchCover(g, a, b);
    var n := MatchCover(Flip(g), b, a);
    FlipMatching(n);
    SeparateSize(m1);
    forall e | e in Flip(n)
      ensures e in g && e.0 !in a && e.1 in b
    {
      FlippedEdge(g, n, e);
      assert (e.1, e.0) in n;
    }
    var m2 := Flip(n);
    JoinSides(g, a, b, m1, m2);
    m := m1 + m2;
  }

  lemma FlippedEdge(g: Graph, n: Graph, e: Edge)
    requires n <= Flip(g) && e in Flip(n)
    ensures (e.1, e.0) in n && e in g
  {
    assert e == (e.0, e.1);
  }

  lemma JoinSides(g: Graph, a: set<int>, b: set<int>, m1: Graph, m2: Graph)
    requires IsMatchingIn(m1, g) && IsMatchingIn(m2, g)
    requires forall e :: e in m1 ==> e.0 in a && e.1 !in b
    requires forall e :: e in m2 ==> e.0 !in a && e.1 in b
    ensures IsMatchingIn(m1 + m2, g) && |m1 + m2| == |m1| + |m2|
  {
    assert m1 !! m2;
  }

  lemma FlipCover(g: Graph, a: set<int>, b: set<int>)
    requires IsLeastCover(g, a, b)
    ensures IsLeastCover(Flip(g), b, a)
  {
    forall e | e in Flip(g)
      ensures e.0 in b || e.1 in a
    {
      assert (e.1, e.0) in g;
    }
    forall c, d | IsCover(Flip(g), c, d)
      ensures |b| + |a| <= |c| + |d|
    {
      forall e | e in g
        ensures e.0 in d || e.1 in c
      {
        assert (e.1, e.0) in Flip(g);
      }
      assert IsCover(g, d, c);
    }
  }

  /** The left side of a least cover can be matched outside its right side. */
  lemma MatchCover(g: Graph, a: set<int>, b: set<int>) returns (m: Graph)
    requires IsLeastCover(g, a, b)
    ensures IsMatchingIn(m, g) && Left(m) == a && forall e :: e in m ==> e.1 !in b
  {
    var h := Avoiding(g, b);
    forall s | s <= a
      ensures |Reached(h, s)| >= |s|
    {
      var t := Reached(h, s);
      forall e | e in g
        ensures e.0 in a - s || e.1 in b + t
      {
        assert e == (e.0, e.1);
      }
      assert IsCover(g, a - s, b + t);
      DifferenceSize(a, s);
      UnionBound(b, t);
    }
    m := Hall(h, a);
  }

  // ---------------------------------------------------------------- tight nodes

  /** Some of the node's neighbours have no more neighbours than they are. */
  ghost predicate Tight(g: Graph, u: int) {
    exists x :: IsTightSet(g, u, x)
  }

  ghost predicate IsTightSet(g: Graph, u: int, x: set<int>) {
    x != {} && x <= Reached(g, {u}) && |Reached(Flip(g), x)| <= |x|
  }

  lemma PartnersBound(m: Graph, x: set<int>, r: set<int>)
    requires Separate(m) && x <= Right(m) && forall e :: e in m && e.1 in x ==> e.0 in r
    ensures |x| <= |r|
  {
    var n := Into(m, x);
    FlipMatching(n);
    forall v | v in x
      ensures v in Right(n)
    {
      var e :| e in m && e.1 == v;
      assert e in n;
    }
    assert Right(n) == x;
    SubsetCardinality(Left(n), r);
  }

  /** A tight node is in every maximal matching: else those neighbours would all be matched, and
      to fewer nodes than they are. */
  lemma TightIsMatched(g: Graph, u: int, m: Graph)
    requires IsMaximalIn(m, g) && Tight(g, u)
    ensures u in Left(m)
  {
    hide IsTightSet, Left, Right;
    var x :| IsTightSet(g, u, x);
    TightSetMatches(g, u, m, x);
  }

  ghost predicate AllAdjacent(g: Graph, u: int, x: set<int>) {
    forall v :: v in x ==> (u, v) in g
  }

  ghost predicate Surrounded(g: Graph, x: set<int>, r: set<int>) {
    forall e :: e in g && e.1 in x ==> e.0 in r
  }

  lemma TightSetMatches(g: Graph, u: int, m: Graph, x: set<int>)
    requires IsMaximalIn(m, g) && IsTightSet(g, u, x)
    ensures u in Left(m)
  {
    assert |Reached(Flip(g), x)| <= |x|;
    NeighboursReachBack(g, u, x);
    hide *;
    if u !in Left(m) {
      TooFewPartners(g, u, m, x, Reached(Flip(g), x));
    }
  }

  lemma TooFewPartners(g: Graph, u: int, m: Graph, x: set<int>, r: set<int>)
    requires IsMaximalIn(m, g) && u !in Left(m)
    requires AllAdjacent(g, u, x) && Surrounded(g, x, r) && u in r
    ensures |x| < |r|
  {
    AllMatched(g, u, m, x);
    MaximalIsPart(g, m);
    hide *;
    SurroundedInMatching(g, u, m, x, r);
    WithoutOne(r, u);
    PartnersBound(m, x, r - {u});
  }

  lemma MaximalIsPart(g: Graph, m: Graph)
    requires IsMaximalIn(m, g)
    ensures m <= g
  {}

  lemma AllMatched(g: Graph, u: int, m: Graph, x: set<int>)
    requires IsMaximalIn(m, g) && u !in Left(m) && AllAdjacent(g, u, x)
    ensures x <= Right(m) && Separate(m)
  {
    forall v | v in x
      ensures v in Right(m)
    {
      assert (u, v) in g && (u, v).0 == u;
    }
  }

  lemma SurroundedInMatching(g: Graph, u: int, m: Graph, x: set<int>, r: set<int>)
    requires m <= g && u !in Left(m) && Surrounded(g, x, r)
    ensures forall e :: e in m && e.1 in x ==> e.0 in r - {u}
  {
    assert forall e :: e in m ==> e.0 in Left(m);
  }

  lemma NeighboursReachBack(g: Graph, u: int, x: set<int>)
    requires x != {} && x <= Reached(g, {u})
    ensures AllAdjacent(g, u, x) && Surrounded(g, x, Reached(Flip(g), x)) && u in Reached(Flip(g), x)
  {
    forall v | v in x
      ensures (u, v) in g
    {
      var e :| e in g && e.0 in {u} && e.1 == v;
      assert e == (u, v);
    }
    forall e | e in g && e.1 in x
      ensures e.0 in Reached(Flip(g), x)
    {
      assert e == (e.0, e.1) && (e.1, e.0) in Flip(g);
    }
    var v := Member(x);
    assert (u, v) in g && (v, u) in Flip(g);
  }

  /** A matching can be extended to a maximal one. */
  lemma {:induction false} Extend(g: Graph, m: Graph) returns (n: Graph)
    requires IsMatchingIn(m, g)
    ensures IsMaximalIn(n, g) && m <= n
    decreases |g - m|
  {
    if e :| e in g && e.0 !in Left(m) && e.1 !in Right(m) {
      OneMoreEdge(g, m, e);
      hide *;
      n := Extend(g, m + {e});
    } else {
      n := m;
    }
  }

  lemma OneMoreEdge(g: Graph, m: Graph, e: Edge)
    requires IsMatchingIn(m, g) && e in g && e.0 !in Left(m) && e.1 !in Right(m)
    ensures IsMatchingIn(m + {e}, g) && |g - (m + {e})| < |g - m|
  {
    assert forall f :: f in m ==> f.0 in Left(m) && f.1 in Right(m);
    var rest := g - m;
    assert g - (m + {e}) == rest - {e};
    DifferenceSize(rest, {e});
  }

  /** A node that is not tight is left out by some maximal matching. */
  lemma LooseIsLeftOut(g: Graph, u: int) returns (m: Graph)
    requires !Tight(g, u)
    ensures IsMaximalIn(m, g) && u !in Left(m)
  {
    var x := Reached(g, {u});
    var h := Avoiding(Flip(g), {u});
    forall s | s <= x
      ensures |Reached(h, s)| >= |s|
    {
      assert Reached(h, s) == Reached(Flip(g), s) - {u};
      if s != {} {
        assert !IsTightSet(g, u, s);
      }
    }
    var n := Hall(h, x);
    FlipMatching(n);
    FlipTwice(g);
    forall e | e in Flip(n)
      ensures e in g && e.0 != u
    {
      assert (e.1, e.0) in n && e == (e.0, e.1) && e in Flip(Flip(g));
    }
    m := Extend(g, Flip(n));
    forall e | e in m
      ensures e.0 != u
    {
      if e.1 in x {
        var f :| f in Flip(n) && f.1 == e.1;
      }
    }
  }

  lemma LooseIsLeftOutRight(g: Graph, v: int) returns (m: Graph)
    requires !Tight(Flip(g), v)
    ensures IsMaximalIn(m, g) && v !in Right(m)
  {
    var n := LooseIsLeftOut(Flip(g), v);
    FlipMaximal(n, Flip(g));
    FlipMatching(n);
    FlipTwice(g);
    m := Flip(n);
  }

  // ---------------------------------------------------------------- every maximal matching largest

  ghost predicate AllMaximalLargest(g: Graph) {
    forall m, n :: IsMaximalIn(m, g) && IsMatchingIn(n, g) ==> |n| <= |m|
  }

  /** Each edge has exactly one end among these nodes, and all of them are tight. */
  ghost predicate IsTightCover(g: Graph, a: set<int>, b: set<int>) {
    && IsCover(g, a, b)
    && (forall e :: e in g ==> !(e.0 in a && e.1 in b))
    && (forall u :: u in a ==> Tight(g, u))
    && (forall v :: v in b ==> Tight(Flip(g), v))
  }

  lemma FlipMaximal(m: Graph, g: Graph)
    requires IsMaximalIn(m, g)
    ensures IsMaximalIn(Flip(m), Flip(g))
  {
    FlipMatching(m);
    forall e | e in Flip(g)
      ensures e.0 in Left(Flip(m)) || e.1 in Right(Flip(m))
    {
      assert (e.1, e.0) in g;
    }
    forall e | e in Flip(m)
      ensures e in Flip(g)
    {
      assert (e.1, e.0) in m && e == (e.0, e.1);
    }
  }

  lemma TightCoverSize(g: Graph, a: set<int>, b: set<int>, m: Graph)
    requires IsTightCover(g, a, b) && IsMaximalIn(m, g)
    ensures |m| == |a| + |b|
  {
    FlipMaximal(m, g);
    FlipMatching(m);
    forall u | u in a
      ensures u in Left(m)
    {
      TightIsMatched(g, u, m);
    }
    forall v | v in b
      ensures v in Right(m)
    {
      TightIsMatched(Flip(g), v, Flip(m));
    }
    hide Tight;
    CoverBound(g, a, b, m);
    var ma := From(m, a);
    var mb := m - ma;
    SeparateSize(ma);
    FlipMatching(mb);
    forall u | u in a
      ensures u in Left(ma)
    {
      var e :| e in m && e.0 == u;
      assert e in ma;
    }
    SubsetCardinality(a, Left(ma));
    forall v | v in b
      ensures v in Right(mb)
    {
      var e :| e in m && e.1 == v;
      assert e in mb;
    }
    SubsetCardinality(b, Right(mb));
    DifferenceSize(m, ma);
  }

  /** Every maximal matching is a largest one if and only if tight nodes cover the graph, exactly
      one end of each edge. */
  lemma AllMaximalLargestExactly(g: Graph)
    ensures AllMaximalLargest(g) <==> exists a, b :: IsTightCover(g, a, b)
  {
    if a, b :| IsTightCover(g, a, b) {
      forall m, n | IsMaximalIn(m, g) && IsMatchingIn(n, g)
        ensures |n| <= |m|
      {
        TightCoverSize(g, a, b, m);
        CoverBound(g, a, b, n);
      }
    }
    if AllMaximalLargest(g) {
      assert IsCover(g, Left(g), {});
      var a, b := LeastCover(g, Left(g), {});
      LeastCoverIsTight(g, a, b);
    }
  }

  lemma LeastCoverIsTight(g: Graph, a: set<int>, b: set<int>)
    requires AllMaximalLargest(g) && IsLeastCover(g, a, b)
    ensures IsTightCover(g, a, b)
  {
    forall m: Graph | IsMaximalIn(m, g)
      ensures a <= Left(m) && b <= Right(m) && forall e: Edge :: e in m ==> !(e.0 in a && e.1 in b)
    {
      var n := Koenig(g, a, b);
      CoverBound(g, a, b, m);
    }
    forall e | e in g
      ensures !(e.0 in a && e.1 in b)
    {
      var m := Extend(g, {e});
    }
    forall u | u in a
      ensures Tight(g, u)
    {
      if !Tight(g, u) {
        var m := LooseIsLeftOut(g, u);
      }
    }
    forall v | v in b
      ensures Tight(Flip(g), v)
    {
      if !Tight(Flip(g), v) {
        var m := LooseIsLeftOutRight(g, v);
      }
    }
  }
}
