/** The string key of an unordered pair of strategy ids.  Go compares strings byte by byte;
    Dafny's own `<` on strings is the prefix order, so the comparison is written out. */
module PairKeys {

  predicate Less(a: string, b: string) {
    b != [] && (a == [] || a[0] < b[0] || (a[0] == b[0] && Less(a[1..], b[1..])))
  }

  lemma {:induction false} LessTotal(a: string, b: string)
    ensures !(Less(a, b) && Less(b, a))
    ensures a != b ==> Less(a, b) || Less(b, a)
    ensures Less(a, b) ==> a != b
  {
    if a != [] && b != [] && a[0] == b[0] {
      LessTotal(a[1..], b[1..]);
      assert a == [a[0]] + a[1..] && b == [b[0]] + b[1..];
    }
  }

  function Join(x: string, y: string): string {
    x + ":" + y
  }

  function PairKey(a: string, b: string): string {
    if Less(a, b) then Join(a, b) else Join(b, a)
  }

  /** The two ids in key order. */
  function Ordered(a: string, b: string): (string, string) {
    if Less(a, b) then (a, b) else (b, a)
  }

  predicate SamePair(a: string, b: string, c: string, d: string) {
    (a == c && b == d) || (a == d && b == c)
  }

  lemma PairKeySymmetric(a: string, b: string)
    ensures PairKey(a, b) == PairKey(b, a)
    ensures Ordered(a, b) == Ordered(b, a)
  {
    LessTotal(a, b);
    if a == b {
      assert !Less(a, b);
    }
  }

  lemma OrderedSame(a: string, b: string, c: string, d: string)
    ensures Ordered(a, b) == Ordered(c, d) <==> SamePair(a, b, c, d)
  {
    LessTotal(a, b);
    LessTotal(c, d);
  }

  lemma KeyOfOrdered(a: string, b: string)
    ensures Join(Ordered(a, b).0, Ordered(a, b).1) == PairKey(a, b)
  {}

  /** The first string of two equal joins is cut at the same ':' or at an earlier one. */
  lemma JoinClash(x1: string, y1: string, x2: string, y2: string)
    requires |x1| < |x2|
    ensures Join(x1, y1) == Join(x2, y2) <==>
            exists z :: x2 == Join(x1, z) && y1 == Join(z, y2)
  {
    if Join(x1, y1) == Join(x2, y2) {
      var k := Join(x1, y1);
      assert x1 == k[..|x1|] && x2 == k[..|x2|];
      assert k[|x1|] == ':' && k[|x2|] == ':';
      var z := x2[|x1| + 1..];
      assert x2 == x2[..|x1|] + [x2[|x1|]] + z;
      assert y1 == k[|x1| + 1..] && y2 == k[|x2| + 1..];
      assert k[|x1| + 1..|x2|] == z;
      assert y1 == z + [':'] + y2;
      assert x2 == Join(x1, z) && y1 == Join(z, y2);
    }
    if z :| x2 == Join(x1, z) && y1 == Join(z, y2) {
      assert Join(x1, y1) == x1 + ":" + z + ":" + y2;
    }
  }

  lemma JoinSameCut(x1: string, y1: string, x2: string, y2: string)
    requires |x1| == |x2| && Join(x1, y1) == Join(x2, y2)
    ensures x1 == x2 && y1 == y2
  {
    var k := Join(x1, y1);
    assert x1 == k[..|x1|] && x2 == k[..|x2|];
    assert y1 == k[|x1| + 1..] && y2 == k[|x2| + 1..];
  }

  /** Two different pairs share a key exactly when one's smaller id runs on past a ':' of the
      other's key. */
  ghost predicate Clash(p: (string, string), q: (string, string)) {
    || (exists z :: q.0 == Join(p.0, z) && p.1 == Join(z, q.1))
    || (exists z :: p.0 == Join(q.0, z) && q.1 == Join(z, p.1))
  }

  lemma PairKeyCollision(a: string, b: string, c: string, d: string)
    ensures PairKey(a, b) == PairKey(c, d) <==> SamePair(a, b, c, d) || Clash(Ordered(a, b), Ordered(c, d))
  {
    var p, q := Ordered(a, b), Ordered(c, d);
    OrderedSame(a, b, c, d);
    assert PairKey(a, b) == Join(p.0, p.1) && PairKey(c, d) == Join(q.0, q.1);
    if |p.0| < |q.0| {
      JoinClash(p.0, p.1, q.0, q.1);
      assert forall z :: p.0 == Join(q.0, z) ==> |p.0| > |q.0|;
    } else if |q.0| < |p.0| {
      JoinClash(q.0, q.1, p.0, p.1);
      assert forall z :: q.0 == Join(p.0, z) ==> |q.0| > |p.0|;
    } else {
      assert !Clash(p, q) by {
        assert forall z :: p.0 == Join(q.0, z) ==> |p.0| > |q.0|;
        assert forall z :: q.0 == Join(p.0, z) ==> |q.0| > |p.0|;
      }
      if PairKey(a, b) == PairKey(c, d) {
        JoinSameCut(p.0, p.1, q.0, q.1);
      }
    }
  }

  predicate ColonFree(id: string) {
    ':' !in id
  }

  ghost predicate NoKeyClash(ids: set<string>) {
    forall a, b, c, d ::
      a in ids && b in ids && c in ids && d in ids && a != b && c != d && PairKey(a, b) == PairKey(c, d)
      ==> SamePair(a, b, c, d)
  }

  /** Ids without ':' give every unordered pair a key of its own. */
  lemma ColonFreeIdsDoNotClash(ids: set<string>)
    requires forall id :: id in ids ==> ColonFree(id)
    ensures NoKeyClash(ids)
  {
    forall a, b, c, d | a in ids && b in ids && c in ids && d in ids && PairKey(a, b) == PairKey(c, d)
      ensures SamePair(a, b, c, d)
    {
      PairKeyCollision(a, b, c, d);
      var p, q := Ordered(a, b), Ordered(c, d);
      assert forall x, z: string :: ':' in Join(x, z) by {
        forall x: string, z: string ensures ':' in Join(x, z) { assert Join(x, z)[|x|] == ':'; }
      }
    }
  }

  lemma ColonClashExample()
    ensures PairKey("a", "b:c") == PairKey("a:b", "c") && !SamePair("a", "b:c", "a:b", "c")
  {
    assert Less("a", "b:c") && Less("a:b", "c");
  }
}
