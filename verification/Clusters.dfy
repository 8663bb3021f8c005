/** Cluster memberships read off an assignment, and the Jaccard overlap of two of them. */
module Clusters {
  import opened Ratios

  type Pid = string

  /** A Python dict from point ids to labels, in insertion order.  A missing old label is negative. */
  type Assignment = seq<(Pid, int)>

  ghost predicate IsDict(a: Assignment) { forall i, j :: 0 <= i < j < |a| ==> a[i].0 != a[j].0 }

  function Members(a: Assignment, c: int): set<Pid> { set i | 0 <= i < |a| && a[i].1 == c :: a[i].0 }

  /** The keys of the cluster dictionary: non-negative labels in order of first appearance. */
  function Keys(a: Assignment): seq<int> {
    if a == [] then [] else
      var k, c := Keys(a[..|a| - 1]), a[|a| - 1].1;
      if c >= 0 && c !in k then k + [c] else k
  }

  ghost predicate Distinct<T>(s: seq<T>) { forall i, j :: 0 <= i < j < |s| ==> s[i] != s[j] }

  function Jaccard(x: set<Pid>, y: set<Pid>): real {
    if |x + y| == 0 then 0.0 else |x * y| as real / |x + y| as real
  }

  lemma {:induction false} KeysAreLabels(a: Assignment)
    ensures Distinct(Keys(a))
    ensures forall c :: c in Keys(a) <==> c >= 0 && Members(a, c) != {}
  {
    if a != [] {
      var b, e := a[..|a| - 1], a[|a| - 1];
      KeysAreLabels(b);
      assert a == b + [e];
      forall c ensures Members(a, c) == if e.1 == c then Members(b, c) + {e.0} else Members(b, c) { MembersOfLonger(b, e, c); }
    }
  }

  lemma MembersOfLonger(b: Assignment, e: (Pid, int), c: int)
    ensures Members(b + [e], c) == if e.1 == c then Members(b, c) + {e.0} else Members(b, c)
  {
    var a := b + [e];
    forall p ensures p in Members(a, c) <==> p in Members(b, c) || (e.1 == c && p == e.0) {
      if p in Members(b, c) {
        var i :| 0 <= i < |b| && b[i].1 == c && b[i].0 == p;
        assert a[i] == b[i];
      }
      if e.1 == c && p == e.0 { assert a[|b|] == e; }
    }
  }

  /** A dict's clusters are disjoint. */
  lemma MembersDisjoint(a: Assignment, c: int, d: int)
    requires IsDict(a) && c != d
    ensures Members(a, c) !! Members(a, d)
  {
  }

  lemma SubsetSize<T>(x: set<T>, y: set<T>)
    requires x <= y
    ensures |x| <= |y|
  {
    assert y == x + (y - x);
  }

  lemma RatioAndHalf(a: nat, b: nat)
    requires b > 0
    ensures a as real / b as real > 0.5 <==> 2 * a > b
    ensures a as real / b as real < 0.5 <==> 2 * a < b
  {
    QuotientAgainst(a as real, b as real, 0.5);
  }

  /** Two disjoint clusters cannot both hold more than half of what they share with a third. */
  lemma MajorityIsExclusive(x: set<Pid>, y: set<Pid>, z: set<Pid>)
    requires y !! z && Jaccard(x, y) > 0.5
    ensures Jaccard(x, z) < 0.5 && Jaccard(z, x) < 0.5
  {
    assert x + z == z + x && x * z == z * x;
    RatioAndHalf(|x * y|, |x + y|);
    SubsetSize(x, x + y);
    assert |x * y| + |x * z| == |x * y + x * z| by { assert (x * y) !! (x * z); }
    SubsetSize(x * y + x * z, x);
    SubsetSize(x, x + z);
    RatioAndHalf(|x * z|, |x + z|);
  }

  lemma JaccardSymmetric(x: set<Pid>, y: set<Pid>)
    ensures Jaccard(x, y) == Jaccard(y, x) >= 0.0
  {
    assert x + y == y + x && x * y == y * x;
  }

  lemma JaccardOfEqual(x: set<Pid>)
    requires x != {}
    ensures Jaccard(x, x) == 1.0
  {
    assert x + x == x && x * x == x;
  }
}
