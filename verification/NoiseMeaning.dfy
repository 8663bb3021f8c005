/** What the noise rules flag, in numbers. */
module NoiseMeaning {
  import opened Ratios
  import opened Vectors
  import opened NoiseRules

  // ----- means -----

  /** The similarities of a list of hits, added up. */
  function SimSum(row: seq<Hit>): real { if row == [] then 0.0 else SimSum(row[..|row| - 1]) + row[|row| - 1].sim }

  lemma {:induction false} SumOfSims(row: seq<Hit>)
    ensures SumOf(seq(|row|, a requires 0 <= a < |row| => row[a].sim)) == SimSum(row)
  {
    if row != [] {
      var sims, front := seq(|row|, a requires 0 <= a < |row| => row[a].sim), row[..|row| - 1];
      SumOfSims(front);
      assert sims[..|row| - 1] == seq(|front|, a requires 0 <= a < |front| => front[a].sim);
    }
  }

  lemma MeanTimes(s: seq<real>)
    ensures MeanOf(s) * |s| as real == SumOf(s)
  {
  }

  /** A point's mean similarity is over all its hits but the first. */
  lemma {:induction false} MeanSimIs(row: seq<Hit>)
    requires row != []
    ensures MeanSim(row) * (|row| - 1) as real == SimSum(row[1..])
  {
    var own := seq(|row| - 1, a requires 0 <= a < |row| - 1 => row[a + 1].sim);
    SumOfSims(row[1..]);
    assert own == seq(|row[1..]|, a requires 0 <= a < |row[1..]| => row[1..][a].sim);
    MeanTimes(own);
  }

  function Squares(s: seq<real>): real { if s == [] then 0.0 else Squares(s[..|s| - 1]) + s[|s| - 1] * s[|s| - 1] }

  lemma {:induction false} DeviationsAbout(s: seq<real>, m: real)
    ensures SqDeviations(s, m) == Squares(s) - 2.0 * m * SumOf(s) + |s| as real * (m * m)
  {
    if s != [] {
      DeviationsAbout(s[..|s| - 1], m);
      OneMoreDeviation(s[|s| - 1], m, Squares(s[..|s| - 1]), SumOf(s[..|s| - 1]), |s| - 1);
    }
  }

  lemma OneMoreDeviation(x: real, m: real, q: real, t: real, n: nat)
    ensures q - 2.0 * m * t + n as real * (m * m) + (x - m) * (x - m) == q + x * x - 2.0 * m * (t + x) + (n + 1) as real * (m * m)
  {
    assert (x - m) * (x - m) == x * x - 2.0 * m * x + m * m;
    assert (n + 1) as real * (m * m) == n as real * (m * m) + m * m;
    assert 2.0 * m * (t + x) == 2.0 * m * t + 2.0 * m * x;
  }

  /** The variance is the mean square less the square of the mean. */
  lemma {:induction false} VarianceIs(s: seq<real>)
    ensures Variance(s) * |s| as real == Squares(s) - |s| as real * (MeanOf(s) * MeanOf(s))
  {
    var m, n := MeanOf(s), |s| as real;
    DeviationsAbout(s, m);
    MeanTimes(s);
    assert 2.0 * m * (m * n) == 2.0 * (n * (m * m));
    if s != [] { QuotientTimes(SqDeviations(s, m), n); }
  }

  lemma QuotientTimes(x: real, d: real)
    requires d > 0.0
    ensures x / d * d == x
  {
  }

  // ----- the median -----

  ghost predicate Descends(s: seq<real>) { forall a, b :: 0 <= a < b < |s| ==> s[a] >= s[b] }

  lemma FirstAndRest(s: seq<real>)
    requires s != []
    ensures multiset(s) == multiset{s[0]} + multiset(s[1..])
    ensures Descends(s) ==> Descends(s[1..]) && forall x :: x in multiset(s) ==> x <= s[0]
  {
    assert s == [s[0]] + s[1..];
  }

  lemma ThreeSummands(x: multiset<real>, y: multiset<real>, z: multiset<real>)
    ensures x + (y + z) == y + (x + z)
  {
  }

  lemma {:induction false} DescendSorts(y: real, s: seq<real>)
    requires Descends(s)
    ensures Descends(Descend(y, s)) && multiset(Descend(y, s)) == multiset{y} + multiset(s)
    ensures forall z :: z in Descend(y, s) ==> z == y || z in s
  {
    if s != [] && y < s[0] {
      DescendSorts(y, s[1..]);
      FirstAndRest(s);
      ThreeSummands(multiset{s[0]}, multiset{y}, multiset(s[1..]));
      var t := Descend(y, s[1..]);
      assert forall a :: 0 <= a < |t| ==> t[a] in t;
    } else if s != [] {
      FirstAndRest(s);
    }
  }

  lemma {:induction false} SortedSorts(s: seq<real>)
    ensures Descends(Sorted(s)) && multiset(Sorted(s)) == multiset(s)
  {
    hide Descends, Descend;
    NothingDescends();
    if s != [] {
      SortedSorts(s[..|s| - 1]);
      DescendSorts(s[|s| - 1], Sorted(s[..|s| - 1]));
      assert s == s[..|s| - 1] + [s[|s| - 1]];
    }
  }

  lemma NothingDescends()
    ensures Descends([])
  {
  }

  lemma {:induction false} OneOrder(s: seq<real>, t: seq<real>)
    requires Descends(s) && Descends(t) && multiset(s) == multiset(t)
    ensures s == t
  {
    hide Descends;
    assert |s| == |multiset(s)| == |multiset(t)| == |t|;
    if s != [] {
      FirstAndRest(s);
      FirstAndRest(t);
      assert s[0] in multiset(t) && t[0] in multiset(s);
      assert s[0] == t[0];
      SameRest(multiset{s[0]}, multiset(s[1..]), multiset(t[1..]));
      OneOrder(s[1..], t[1..]);
      assert s == [s[0]] + s[1..] && t == [t[0]] + t[1..];
    }
  }

  lemma SameRest(x: multiset<real>, y: multiset<real>, z: multiset<real>)
    requires x + y == x + z
    ensures y == z
  {
    assert y == (x + y) - x;
    assert z == (x + z) - x;
  }

  /** The median is the middle value of any descending arrangement, or half the sum of the middle two. */
  lemma {:induction false} MedianIsMiddle(s: seq<real>, d: seq<real>)
    requires Descends(d) && multiset(d) == multiset(s) && s != []
    ensures var n := |d|; n > 0 && Median(s) == if n % 2 == 1 then d[n / 2] else (d[n / 2 - 1] + d[n / 2]) / 2.0
  {
    SortedSorts(s);
    OneOrder(Sorted(s), d);
  }

  // ----- neighbours -----

  /** Two points are neighbours if either is among the other's hits, the first hit of each left out. */
  lemma NeighboursAre(search: Search, i: nat, j: nat)
    requires i < |search| && j < |search|
    ensures j in Neighbours(search, i) <==>
      i != j && ((exists a :: 1 <= a < |search[i]| && search[i][a].index == j) || (exists a :: 1 <= a < |search[j]| && search[j][a].index == i))
    ensures j in Neighbours(search, i) <==> i in Neighbours(search, j)
  {
  }

  /** A search lists 21 points for each. */
  lemma HitsPerPoint(search: Search, points: seq<Vec>, i: nat)
    requires IsSearch(search, points) && i < |points|
    ensures |search| == |points| && |search[i]| == 21
  {
    assert IsTop(search[i], KNN_K + 1, points[i], points);
  }

  // ----- the rules -----

  lemma FurtherThanTwo(d: real, r: real)
    requires r >= 0.0
    ensures d > 2.0 * r <==> d > 0.0 && d * d > 4.0 * (r * r)
  {
    if d > 2.0 * r {
      assert d * d - 4.0 * (r * r) == (d - 2.0 * r) * (d + 2.0 * r);
      ProductIsPositive(d - 2.0 * r, d + 2.0 * r);
    } else if d > 0.0 {
      assert d * d - 4.0 * (r * r) == (d - 2.0 * r) * (d + 2.0 * r);
      Product(2.0 * r - d, d + 2.0 * r);
    }
  }

  lemma ProductIsPositive(x: real, y: real)
    requires x > 0.0 && y > 0.0
    ensures x * y > 0.0
  {
  }

  /** Too few of a point's neighbours share its label: none at all, or fewer than three in ten. */
  predicate FewOfItsOwn(search: Search, labels: seq<nat>, i: nat)
    requires i < |labels|
  {
    var near := Neighbours(search, i);
    near == {} || 10 * |near * SameLabel(labels, labels[i])| < 3 * |near|
  }

  /** A point's mean similarity lies more than two standard deviations below the mean of all. */
  predicate Outlier(sims: seq<real>, i: nat)
    requires i < |sims|
  {
    var d := MeanOf(sims) - sims[i];
    d > 0.0 && d * d > 4.0 * Variance(sims)
  }

  /** A point is flagged exactly if it is an outlier, or if too few of its neighbours are of its own and
    * the median point's cluster has at least `k` points. */
  lemma {:induction false} FlaggedIff(search: Search, labels: seq<nat>, k: nat, root: real -> real, i: nat)
    requires |search| == |labels| && i < |labels| && IsRoot(root)
    ensures i in Flagged(search, labels, k, root) <==>
      || Outlier(MeanSims(search), i)
      || (Median(Sizes(labels)) >= 1.0 && Median(Sizes(labels)) >= k as real && FewOfItsOwn(search, labels, i))
  {
    hide MeanOf, Variance, MeanSims, Median, Sizes, Neighbours, SameLabel, IsRoot;
    var sims, near := MeanSims(search), Neighbours(search, i);
    SimsSize(search);
    RootIs(root, sims);
    FurtherThanTwo(MeanOf(sims) - sims[i], root(Variance(sims)));
    if near != {} { QuotientAgainst(|near * SameLabel(labels, labels[i])| as real, |near| as real, 0.3); }
  }

  lemma SimsSize(search: Search)
    ensures |MeanSims(search)| == |search|
  {
  }

  lemma {:induction false} RootIs(root: real -> real, s: seq<real>)
    requires IsRoot(root)
    ensures root(Variance(s)) >= 0.0 && root(Variance(s)) * root(Variance(s)) == Variance(s)
  {
    VarianceIsNonNegative(s);
  }

  lemma {:induction false} VarianceIsNonNegative(s: seq<real>)
    ensures Variance(s) >= 0.0
  {
    DeviationsAreNonNegative(s, MeanOf(s));
    if s != [] { QuotientAgainst(SqDeviations(s, MeanOf(s)), |s| as real, 0.0); }
  }

  lemma {:induction false} DeviationsAreNonNegative(s: seq<real>, x: real)
    ensures SqDeviations(s, x) >= 0.0
  {
    if s != [] {
      DeviationsAreNonNegative(s[..|s| - 1], x);
      SquareIsNonNegative(s[|s| - 1] - x);
    }
  }

  lemma SquareIsNonNegative(x: real)
    ensures x * x >= 0.0
  {
  }

  /** As much noise remains as was flagged, up to 15 points in a hundred rounded down, or a single one. */
  lemma {:induction false} NoiseCount(noise: seq<bool>, search: Search, labels: seq<nat>, k: nat, root: real -> real)
    requires |search| == |labels| && IsNoise(noise, search, labels, k, root)
    ensures var f, n := |Flagged(search, labels, k, root)|, |labels|;
      |Marked(noise)| == if 100 * f <= 15 * n then f else if 15 * n < 100 then 1 else 15 * n / 100
  {
    hide Flagged;
  }
}
