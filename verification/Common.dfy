/** What several of the models share. */
module Common {

  datatype Option<T> = None | Some(value: T)

  function UpTo(n: nat): (all: set<int>)
    ensures forall b :: b in all <==> 0 <= b < n
    ensures |all| == n
  {
    if n == 0 then {} else UpTo(n - 1) + {n - 1}
  }

  ghost predicate Distinct<T>(xs: seq<T>) {
    forall i, j :: 0 <= i < j < |xs| ==> xs[i] != xs[j]
  }

  ghost function Elements<T>(xs: seq<T>): set<T> {
    set x | x in xs
  }

  lemma {:induction false} DistinctSize<T>(xs: seq<T>)
    requires Distinct(xs)
    ensures |Elements(xs)| == |xs|
  {
    if xs != [] {
      var n := |xs| - 1;
      DistinctSize(xs[..n]);
      assert xs == xs[..n] + [xs[n]];
      assert Elements(xs) == Elements(xs[..n]) + {xs[n]};
    }
  }

  lemma Member<T>(s: set<T>) returns (x: T)
    requires s != {}
    ensures x in s
  {
    x :| x in s;
  }

  lemma {:induction false} SomeOrder<T>(s: set<T>) returns (xs: seq<T>)
    ensures Distinct(xs) && |xs| == |s| && forall x :: x in xs <==> x in s
    decreases |s|
  {
    xs := [];
    if s != {} {
      var x := Member(s);
      xs := SomeOrder(s - {x});
      xs := xs + [x];
    }
  }

  lemma SubsetCardinality<T>(s: set<T>, t: set<T>)
    requires s <= t
    ensures |s| <= |t|
    decreases |s|
  {
    if |s| > 0 {
      var x :| x in s;
      SubsetCardinality(s - {x}, t - {x});
    }
  }

  lemma DifferenceSize<T>(s: set<T>, t: set<T>)
    requires t <= s
    ensures |s| == |t| + |s - t|
  {
    assert s == t + (s - t);
  }

  lemma Associative<T>(x: seq<T>, y: seq<T>, z: seq<T>)
    ensures (x + y) + z == x + (y + z)
  {}

  function Abs(x: real): real {
    if x < 0.0 then -x else x
  }

  /** Prices of type types.Price are integers of 1/100000 (internal/types/price.go). */
  const PRICE_SCALE: int := 100000

  function Float64(price: int): (f: real)
    ensures f * 100000.0 == price as real
  {
    price as real / PRICE_SCALE as real
  }

  function Sum(xs: seq<real>): real {
    if xs == [] then 0.0 else Sum(xs[..|xs| - 1]) + xs[|xs| - 1]
  }

  lemma ProductNonNegative(x: real, y: real)
    requires x >= 0.0 && y >= 0.0
    ensures x * y >= 0.0
  {}
}
