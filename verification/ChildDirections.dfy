/** What `centroids_to_groups` hands to Ward for each child: the direction of its mean. */
module ChildDirections {
  import opened SortedLabels
  import opened Vectors
  import opened WardState
  import opened Hierarchy

  function SumSq(v: Vec): real { if v == [] then 0.0 else v[0] * v[0] + SumSq(v[1..]) }

  /** `norm` is the Euclidean norm. */
  ghost predicate IsNorm(norm: Vec -> real) { forall v :: norm(v) >= 0.0 && norm(v) * norm(v) == SumSq(v) }

  // ----- the mean -----

  /** How far, in coordinate `t`, the points labelled `c` lie above `m` in all. */
  function Deviation(labels: seq<int>, embeddings: seq<Vec>, c: int, m: Vec, t: nat): real
    requires Embedded(labels, embeddings, |m|) && t < |m|
  {
    if labels == [] then 0.0 else
      (if labels[0] == c then embeddings[0][t] - m[t] else 0.0) + Deviation(labels[1..], embeddings[1..], c, m, t)
  }

  /** The points labelled `c` balance about `m`. */
  ghost predicate Balances(labels: seq<int>, embeddings: seq<Vec>, c: int, m: Vec)
    requires Embedded(labels, embeddings, |m|)
  {
    forall t :: 0 <= t < |m| ==> Deviation(labels, embeddings, c, m, t) == 0.0
  }

  lemma SelectNext(l: seq<int>, e: seq<Vec>, c: int)
    requires |l| == |e| > 0
    ensures Select(l, e, c) == (if l[0] == c then [e[0]] else []) + Select(l[1..], e[1..], c)
  {
  }

  lemma SumAtNext(v: Vec, points: seq<Vec>, t: nat)
    requires t < |v| && forall u :: u in points ==> t < |u|
    ensures SumAt([v] + points, t) == v[t] + SumAt(points, t)
  {
    assert ([v] + points)[1..] == points;
  }

  lemma OneMorePoint(x: real, s: real, k: nat, m: real)
    ensures x - m + (s - k as real * m) == x + s - (k + 1) as real * m
  {
  }

  lemma DeviationNext(labels: seq<int>, embeddings: seq<Vec>, c: int, m: Vec, t: nat)
    requires Embedded(labels, embeddings, |m|) && t < |m| && labels != []
    ensures Embedded(labels[1..], embeddings[1..], |m|) && |embeddings[0]| == |m|
    ensures Deviation(labels, embeddings, c, m, t) ==
      (if labels[0] == c then embeddings[0][t] - m[t] else 0.0) + Deviation(labels[1..], embeddings[1..], c, m, t)
  {
  }

  lemma SelectedLengths(labels: seq<int>, embeddings: seq<Vec>, dim: nat, c: int)
    requires Embedded(labels, embeddings, dim)
    ensures forall v :: v in Select(labels, embeddings, c) ==> |v| == dim
  {
  }

  lemma {:induction false} DeviationOfSelected(labels: seq<int>, embeddings: seq<Vec>, c: int, m: Vec, t: nat)
    requires Embedded(labels, embeddings, |m|) && t < |m|
    ensures forall v :: v in Select(labels, embeddings, c) ==> |v| == |m|
    ensures Deviation(labels, embeddings, c, m, t) == SumAt(Select(labels, embeddings, c), t) - |Select(labels, embeddings, c)| as real * m[t]
  {
    hide Select, SumAt, Deviation;
    SelectedLengths(labels, embeddings, |m|, c);
    if labels == [] {
      NoDeviation(labels, embeddings, c, m, t);
    } else {
      DeviationNext(labels, embeddings, c, m, t);
      DeviationOfSelected(labels[1..], embeddings[1..], c, m, t);
      MoreDeviation(labels, embeddings, c, m, t);
    }
  }

  lemma NoDeviation(labels: seq<int>, embeddings: seq<Vec>, c: int, m: Vec, t: nat)
    requires Embedded(labels, embeddings, |m|) && t < |m| && labels == []
    ensures Select(labels, embeddings, c) == [] && SumAt([], t) == 0.0 && Deviation(labels, embeddings, c, m, t) == 0.0
  {
  }

  lemma MoreDeviation(labels: seq<int>, embeddings: seq<Vec>, c: int, m: Vec, t: nat)
    requires Embedded(labels, embeddings, |m|) && t < |m| && labels != []
    ensures Embedded(labels[1..], embeddings[1..], |m|) && |embeddings[0]| == |m|
    ensures (forall v :: v in Select(labels, embeddings, c) ==> |v| == |m|) && forall v :: v in Select(labels[1..], embeddings[1..], c) ==> |v| == |m|
    ensures var all, rest := Select(labels, embeddings, c), Select(labels[1..], embeddings[1..], c);
      SumAt(all, t) - |all| as real * m[t] == SumAt(rest, t) - |rest| as real * m[t] + if labels[0] == c then embeddings[0][t] - m[t] else 0.0
  {
    hide Select, SumAt;
    SelectedLengths(labels, embeddings, |m|, c);
    SelectedLengths(labels[1..], embeddings[1..], |m|, c);
    SelectNext(labels, embeddings, c);
    var rest := Select(labels[1..], embeddings[1..], c);
    if labels[0] == c {
      SumAtNext(embeddings[0], rest, t);
      OneMorePoint(embeddings[0][t], SumAt(rest, t), |rest|, m[t]);
    } else {
      assert [] + rest == rest;
    }
  }

  lemma QuotientIs(s: real, n: real, x: real)
    requires n > 0.0
    ensures s / n == x <==> s - n * x == 0.0
  {
  }

  lemma MeanAt(points: seq<Vec>, dim: nat, t: nat)
    requires |points| > 0 && t < dim && forall v :: v in points ==> |v| == dim
    ensures Mean(points, dim)[t] == SumAt(points, t) / |points| as real
  {
  }

  lemma {:induction false} BalancesAt(labels: seq<int>, embeddings: seq<Vec>, c: int, m: Vec, t: nat)
    requires Embedded(labels, embeddings, |m|) && c in labels && t < |m|
    ensures Deviation(labels, embeddings, c, m, t) == 0.0 <==> Mean(Select(labels, embeddings, c), |m|)[t] == m[t]
  {
    hide SumAt, Deviation, Mean, Select;
    var own := Select(labels, embeddings, c);
    DeviationOfSelected(labels, embeddings, c, m, t);
    MeanAt(own, |m|, t);
    QuotientIs(SumAt(own, t), |own| as real, m[t]);
  }

  /** The points of a child balance about their mean and about no other vector. */
  lemma {:induction false} MeanBalances(labels: seq<int>, embeddings: seq<Vec>, c: int, m: Vec)
    requires Embedded(labels, embeddings, |m|) && c in labels
    ensures Balances(labels, embeddings, c, m) <==> m == Mean(Select(labels, embeddings, c), |m|)
  {
    hide Deviation, Mean, Select;
    forall t | 0 <= t < |m| ensures Deviation(labels, embeddings, c, m, t) == 0.0 <==> Mean(Select(labels, embeddings, c), |m|)[t] == m[t] {
      BalancesAt(labels, embeddings, c, m, t);
    }
  }

  /** The points labelled `c`. */
  function Carriers(labels: seq<int>, c: int): set<nat> { set p: nat | p < |labels| && labels[p] == c }

  lemma {:induction false} SelectCounts(labels: seq<int>, embeddings: seq<Vec>, c: int)
    requires |labels| == |embeddings|
    ensures |Select(labels, embeddings, c)| == |Carriers(labels, c)|
  {
    if labels == [] {
      assert Carriers(labels, c) == {};
    } else {
      SelectCounts(labels[1..], embeddings[1..], c);
      CarriersNext(labels, c);
    }
  }

  lemma {:induction false} CarriersNext(labels: seq<int>, c: int)
    requires labels != []
    ensures |Carriers(labels, c)| == |Carriers(labels[1..], c)| + if labels[0] == c then 1 else 0
  {
    var rest, all := Carriers(labels[1..], c), Carriers(labels, c);
    forall p: nat ensures p in rest <==> p + 1 in all { if p < |labels| - 1 { assert labels[1..][p] == labels[p + 1]; } }
    hide Carriers;
    ShiftedSize(rest, all - {0});
    Splits(all, 0);
    assert 0 in all <==> labels[0] == c by { FirstCarrier(labels, c); }
  }

  lemma FirstCarrier(labels: seq<int>, c: int)
    requires labels != []
    ensures 0 in Carriers(labels, c) <==> labels[0] == c
  {
  }

  lemma Splits(s: set<nat>, x: nat)
    ensures |s| == |s - {x}| + if x in s then 1 else 0
  {
    assert s == (s - {x}) + if x in s then {x} else {};
  }

  lemma {:induction false} ShiftedSize(s: set<nat>, t: set<nat>)
    requires (forall p: nat :: p in s ==> p + 1 in t) && forall p: nat :: p in t ==> p > 0 && p - 1 in s
    ensures |s| == |t|
    decreases |s|
  {
    if |s| > 0 {
      var p :| p in s;
      ShiftedSize(s - {p}, t - {p + 1});
    } else {
      forall q: nat ensures q !in t { assert q in t ==> q - 1 in s; }
      assert t == {};
    }
  }

  /** A child weighs as many points as it has. */
  lemma {:induction false} MassesCount(labels: seq<int>, embeddings: seq<Vec>, children: seq<int>, i: nat)
    requires |labels| == |embeddings| && i < |children|
    ensures Masses(labels, embeddings, children)[i] == |Carriers(labels, children[i])| as real
  {
    SelectCounts(labels, embeddings, children[i]);
  }

  // ----- its direction -----

  function Times(s: real, v: Vec): Vec { seq(|v|, t requires 0 <= t < |v| => s * v[t]) }

  lemma {:induction false} SumSqOfMultiple(s: real, v: Vec)
    ensures SumSq(Times(s, v)) == s * s * SumSq(v)
  {
    if v != [] {
      SumSqOfMultiple(s, v[1..]);
      TimesTail(s, v);
      FactorOut(s, v[0], SumSq(v[1..]));
    }
  }

  lemma TimesTail(s: real, v: Vec)
    requires v != []
    ensures Times(s, v)[0] == s * v[0] && Times(s, v)[1..] == Times(s, v[1..])
  {
    forall t | 0 <= t < |v| - 1 ensures Times(s, v)[1..][t] == Times(s, v[1..])[t] { assert v[1..][t] == v[t + 1]; }
  }

  lemma FactorOut(s: real, x: real, r: real)
    ensures s * x * (s * x) + s * s * r == s * s * (x * x + r)
  {
  }

  lemma SameRoot(x: real, y: real)
    requires x >= 0.0 && y >= 0.0 && x * x == y * y
    ensures x == y
  {
    assert (x - y) * (x + y) == 0.0;
    ZeroFactor(x - y, x + y);
  }

  lemma ZeroFactor(y: real, z: real)
    requires y * z == 0.0
    ensures y == 0.0 || z == 0.0
  {
  }

  /** The norm of a positive multiple. */
  lemma {:induction false} NormOfMultiple(norm: Vec -> real, s: real, v: Vec)
    requires IsNorm(norm) && s >= 0.0
    ensures norm(Times(s, v)) == s * norm(v)
  {
    SumSqOfMultiple(s, v);
    Regroup(s, norm(v));
    SameRoot(norm(Times(s, v)), s * norm(v));
  }

  lemma Regroup(s: real, x: real)
    requires s >= 0.0 && x >= 0.0
    ensures s * s * (x * x) == s * x * (s * x) && s * x >= 0.0
  {
  }

  lemma NormalizeAt(v: Vec, norm: Vec -> real, t: nat)
    requires t < |v|
    ensures norm(v) != 0.0 ==> Normalize(v, norm)[t] * norm(v) == v[t]
  {
  }

  lemma {:induction false} TimesNormalized(v: Vec, norm: Vec -> real)
    requires norm(v) != 0.0
    ensures Times(norm(v), Normalize(v, norm)) == v
  {
    forall t | 0 <= t < |v| ensures Times(norm(v), Normalize(v, norm))[t] == v[t] { NormalizeAt(v, norm, t); }
  }

  /** A vector of positive norm becomes the one vector of norm 1 it is a positive multiple of. */
  lemma {:induction false} NormalizeIsUnit(v: Vec, norm: Vec -> real)
    requires IsNorm(norm)
    ensures norm(v) == 0.0 ==> Normalize(v, norm) == v
    ensures norm(v) != 0.0 ==> norm(Normalize(v, norm)) == 1.0 && Times(norm(v), Normalize(v, norm)) == v
  {
    hide IsNorm;
    if norm(v) == 0.0 {
      assert forall t :: 0 <= t < |v| ==> v[t] / 1.0 == v[t];
    } else {
      hide Normalize, Times;
      NormIsNonNegative(norm, v);
      TimesNormalized(v, norm);
      NormOfMultiple(norm, norm(v), Normalize(v, norm));
      var u := Normalize(v, norm);
      Cancel(norm(v), norm(u), norm(Times(norm(v), u)));
    }
  }

  lemma NormIsNonNegative(norm: Vec -> real, v: Vec)
    requires IsNorm(norm)
    ensures norm(v) >= 0.0 && norm(v) * norm(v) == SumSq(v)
  {
  }

  lemma Cancel(n: real, x: real, p: real)
    requires n != 0.0 && p == n * x && p == n
    ensures x == 1.0
  {
    assert n * (x - 1.0) == 0.0;
    ZeroFactor(n, x - 1.0);
  }

  /** Ward gets, for each child, the vector of norm 1 in the direction of the point its members balance
    * about; only if they balance about the origin does it get that point itself. */
  lemma {:induction false} CentroidIsDirection(labels: seq<int>, embeddings: seq<Vec>, norm: Vec -> real, c: int, m: Vec)
    requires IsNorm(norm) && Embedded(labels, embeddings, |m|) && c in labels && Balances(labels, embeddings, c, m)
    ensures var u := Centroid(labels, embeddings, |m|, norm, c);
      if norm(m) == 0.0 then u == m else norm(u) == 1.0 && norm(m) > 0.0 && Times(norm(m), u) == m
  {
    MeanBalances(labels, embeddings, c, m);
    NormalizeIsUnit(m, norm);
  }

  // ----- lengths do not matter -----

  /** Every point scaled by the factor of its child. */
  function Scaled(labels: seq<int>, embeddings: seq<Vec>, factor: int -> real): (r: seq<Vec>)
    requires |labels| == |embeddings|
    ensures |r| == |labels|
  {
    seq(|labels|, p requires 0 <= p < |labels| => Times(factor(labels[p]), embeddings[p]))
  }

  function AllTimes(s: real, points: seq<Vec>): seq<Vec> { seq(|points|, i requires 0 <= i < |points| => Times(s, points[i])) }

  lemma {:induction false} SelectScaled(labels: seq<int>, embeddings: seq<Vec>, factor: int -> real, c: int)
    requires |labels| == |embeddings|
    ensures Select(labels, Scaled(labels, embeddings, factor), c) == AllTimes(factor(c), Select(labels, embeddings, c))
  {
    if labels != [] {
      SelectScaled(labels[1..], embeddings[1..], factor, c);
      assert Scaled(labels, embeddings, factor)[1..] == Scaled(labels[1..], embeddings[1..], factor);
    }
  }

  lemma {:induction false} SumOfMultiples(s: real, points: seq<Vec>, t: nat)
    requires forall v :: v in points ==> t < |v|
    ensures forall v :: v in AllTimes(s, points) ==> t < |v|
    ensures SumAt(AllTimes(s, points), t) == s * SumAt(points, t)
  {
    if points != [] {
      SumOfMultiples(s, points[1..], t);
      assert AllTimes(s, points)[1..] == AllTimes(s, points[1..]);
      Distribute(s, points[0][t], SumAt(points[1..], t));
    }
  }

  lemma QuotientOfMultiple(p: real, s: real, x: real, n: real)
    requires n > 0.0 && p == s * x
    ensures p / n == s * (x / n)
  {
  }

  lemma {:induction false} MeanOfMultiplesAt(s: real, points: seq<Vec>, dim: nat, t: nat)
    requires |points| > 0 && t < dim && forall v :: v in points ==> |v| == dim
    requires |AllTimes(s, points)| == |points| && forall v :: v in AllTimes(s, points) ==> |v| == dim
    ensures Mean(AllTimes(s, points), dim)[t] == s * Mean(points, dim)[t]
  {
    hide SumAt, Mean, AllTimes;
    SumOfMultiples(s, points, t);
    MeanAt(points, dim, t);
    MeanAt(AllTimes(s, points), dim, t);
    QuotientOfMultiple(SumAt(AllTimes(s, points), t), s, SumAt(points, t), |points| as real);
  }

  lemma {:induction false} MeanOfMultiples(s: real, points: seq<Vec>, dim: nat)
    requires |points| > 0 && forall v :: v in points ==> |v| == dim
    ensures |AllTimes(s, points)| == |points| && forall v :: v in AllTimes(s, points) ==> |v| == dim
    ensures Mean(AllTimes(s, points), dim) == Times(s, Mean(points, dim))
  {
    hide SumAt, Mean, AllTimes, Times;
    MultiplesShape(s, points, dim);
    var m, r := Mean(AllTimes(s, points), dim), Times(s, Mean(points, dim));
    TimesShape(s, Mean(points, dim));
    forall t | 0 <= t < dim ensures m[t] == r[t] { MeanOfMultiplesAt(s, points, dim, t); }
    assert m == r;
  }

  lemma MultiplesShape(s: real, points: seq<Vec>, dim: nat)
    requires forall v :: v in points ==> |v| == dim
    ensures |AllTimes(s, points)| == |points| && forall v :: v in AllTimes(s, points) ==> |v| == dim
  {
  }

  lemma QuotientOfMultiples(s: real, x: real, n: real)
    requires s > 0.0 && n != 0.0
    ensures s * n != 0.0 && s * x / (s * n) == x / n
  {
    assert x / n * (s * n) == s * x;
  }

  lemma {:induction false} NormalizeOfMultiple(norm: Vec -> real, s: real, v: Vec)
    requires IsNorm(norm) && s > 0.0
    ensures Normalize(Times(s, v), norm) == Normalize(v, norm)
  {
    hide IsNorm;
    NormOfMultiple(norm, s, v);
    if norm(v) != 0.0 {
      hide Times;
      TimesShape(s, v);
      QuotientOfMultiples(s, 0.0, norm(v));
      forall t | 0 <= t < |v| ensures Normalize(Times(s, v), norm)[t] == Normalize(v, norm)[t] { QuotientOfMultiples(s, v[t], norm(v)); }
    } else {
      ZeroNorm(norm, v);
      assert Times(s, v) == v;
    }
  }

  lemma TimesShape(s: real, v: Vec)
    ensures |Times(s, v)| == |v| && forall t :: 0 <= t < |v| ==> Times(s, v)[t] == s * v[t]
  {
  }

  lemma {:induction false} ZeroNorm(norm: Vec -> real, v: Vec)
    requires IsNorm(norm) && norm(v) == 0.0
    ensures forall t :: 0 <= t < |v| ==> v[t] == 0.0
  {
    ZeroSum(v);
  }

  lemma {:induction false} ZeroSum(v: Vec)
    ensures SumSq(v) >= 0.0 && (SumSq(v) == 0.0 ==> forall t :: 0 <= t < |v| ==> v[t] == 0.0)
  {
    if v != [] {
      ZeroSum(v[1..]);
      SquareSign(v[0]);
      assert v == [v[0]] + v[1..];
    }
  }

  lemma SquareSign(x: real)
    ensures x * x >= 0.0 && (x * x == 0.0 ==> x == 0.0)
  {
    if x * x == 0.0 { ZeroFactor(x, x); }
  }

  lemma {:induction false} ScaledIsEmbedded(labels: seq<int>, embeddings: seq<Vec>, dim: nat, factor: int -> real)
    requires Embedded(labels, embeddings, dim)
    ensures Embedded(labels, Scaled(labels, embeddings, factor), dim)
  {
  }

  lemma {:induction false} ScaledCentroid(labels: seq<int>, embeddings: seq<Vec>, dim: nat, norm: Vec -> real, factor: int -> real, c: int)
    requires Embedded(labels, embeddings, dim) && IsNorm(norm) && c in labels && factor(c) > 0.0
    ensures Embedded(labels, Scaled(labels, embeddings, factor), dim)
    ensures Centroid(labels, Scaled(labels, embeddings, factor), dim, norm, c) == Centroid(labels, embeddings, dim, norm, c)
  {
    hide Mean, Normalize, Select, Scaled, AllTimes, IsNorm;
    ScaledIsEmbedded(labels, embeddings, dim, factor);
    SelectScaled(labels, embeddings, factor, c);
    MeanOfMultiples(factor(c), Select(labels, embeddings, c), dim);
    NormalizeOfMultiple(norm, factor(c), Mean(Select(labels, embeddings, c), dim));
  }

  lemma SelectSize(labels: seq<int>, embeddings: seq<Vec>, factor: int -> real, c: int)
    requires |labels| == |embeddings|
    ensures |Select(labels, Scaled(labels, embeddings, factor), c)| == |Select(labels, embeddings, c)|
  {
    SelectScaled(labels, embeddings, factor, c);
  }

  /** Only the direction of a child's mean counts: scaling the points of each child by a positive factor
    * of its own leaves the parents as they are. */
  lemma {:induction false} LengthsDoNotMatter(parents: seq<nat>, labels: seq<int>, embeddings: seq<Vec>, dim: nat, norm: Vec -> real, nGroups: nat,
                                              factor: int -> real)
    requires Embedded(labels, embeddings, dim) && IsNorm(norm) && nGroups >= 1 && forall c :: factor(c) > 0.0
    ensures Embedded(labels, Scaled(labels, embeddings, factor), dim)
    ensures IsParentLevel(parents, labels, Scaled(labels, embeddings, factor), dim, norm, nGroups) <==>
      IsParentLevel(parents, labels, embeddings, dim, norm, nGroups)
  {
    hide Centroid, Select, Scaled, IsNorm, Run, Init, UniqueLabels;
    ScaledIsEmbedded(labels, embeddings, dim, factor);
    var children, scaled := UniqueLabels(labels), Scaled(labels, embeddings, factor);
    UniqueLabelsSorted(labels);
    forall i | 0 <= i < |children|
      ensures Centroid(labels, scaled, dim, norm, children[i]) == Centroid(labels, embeddings, dim, norm, children[i])
      ensures |Select(labels, scaled, children[i])| == |Select(labels, embeddings, children[i])|
    {
      assert children[i] in children;
      ScaledCentroid(labels, embeddings, dim, norm, factor, children[i]);
      SelectSize(labels, embeddings, factor, children[i]);
    }
    assert Centroids(labels, scaled, dim, norm, children) == Centroids(labels, embeddings, dim, norm, children);
    assert Masses(labels, scaled, children) == Masses(labels, embeddings, children);
    assert ChildGroups(labels, scaled, dim, norm, nGroups) == ChildGroups(labels, embeddings, dim, norm, nGroups);
  }
}
