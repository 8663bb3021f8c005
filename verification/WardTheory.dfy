/** What a Ward run guarantees: exact centroids and masses, merge costs that are increases of
  * inertia and never decrease, and partitions that only coarsen. */
module WardTheory {
  import opened Vectors
  import opened WardState
  import opened WardGroups

  ghost predicate Inputs(xs: seq<Vec>, ms: seq<real>, dim: nat) {
    |xs| == |ms| && forall i :: 0 <= i < |xs| ==> |xs[i]| == dim && ms[i] > 0.0
  }

  // ----- sums over the members of a group -----

  ghost predicate Members(g: seq<nat>, k: nat) { forall a :: 0 <= a < |g| ==> g[a] < k }

  function Mass(g: seq<nat>, ms: seq<real>): real
    requires Members(g, |ms|)
  {
    if g == [] then 0.0 else ms[g[0]] + Mass(g[1..], ms)
  }

  /** Coordinate `t` of the mass-weighted sum of the members. */
  function Moment(g: seq<nat>, xs: seq<Vec>, ms: seq<real>, dim: nat, t: nat): real
    requires Inputs(xs, ms, dim) && Members(g, |xs|) && t < dim
  {
    if g == [] then 0.0 else ms[g[0]] * xs[g[0]][t] + Moment(g[1..], xs, ms, dim, t)
  }

  /** Mass-weighted squared distance of the members to `y`. */
  function Inertia(g: seq<nat>, xs: seq<Vec>, ms: seq<real>, y: Vec): real
    requires Inputs(xs, ms, |y|) && Members(g, |xs|)
  {
    if g == [] then 0.0 else ms[g[0]] * SqDist(xs[g[0]], y) + Inertia(g[1..], xs, ms, y)
  }

  lemma {:induction false} MassOfBoth(g: seq<nat>, h: seq<nat>, ms: seq<real>)
    requires Members(g, |ms|) && Members(h, |ms|)
    ensures Mass(g + h, ms) == Mass(g, ms) + Mass(h, ms)
  {
    if g == [] { assert g + h == h; } else { MassOfBoth(g[1..], h, ms); assert (g + h)[1..] == g[1..] + h; }
  }

  lemma {:induction false} MomentOfBoth(g: seq<nat>, h: seq<nat>, xs: seq<Vec>, ms: seq<real>, dim: nat, t: nat)
    requires Inputs(xs, ms, dim) && Members(g, |xs|) && Members(h, |xs|) && t < dim
    ensures Moment(g + h, xs, ms, dim, t) == Moment(g, xs, ms, dim, t) + Moment(h, xs, ms, dim, t)
  {
    if g == [] { assert g + h == h; } else { MomentOfBoth(g[1..], h, xs, ms, dim, t); assert (g + h)[1..] == g[1..] + h; }
  }

  lemma {:induction false} InertiaOfBoth(g: seq<nat>, h: seq<nat>, xs: seq<Vec>, ms: seq<real>, y: Vec)
    requires Inputs(xs, ms, |y|) && Members(g, |xs|) && Members(h, |xs|)
    ensures Inertia(g + h, xs, ms, y) == Inertia(g, xs, ms, y) + Inertia(h, xs, ms, y)
  {
    hide SqDist;
    if g == [] { assert g + h == h; } else { InertiaOfBoth(g[1..], h, xs, ms, y); assert (g + h)[1..] == g[1..] + h; }
  }

  // ----- a group with its exact mass and centroid -----

  /** About any point, the inertia is that about the centroid plus the mass times the square of the way. */
  ghost predicate Huygens(g: seq<nat>, c: Vec, w: real, xs: seq<Vec>, ms: seq<real>)
    requires Inputs(xs, ms, |c|) && Members(g, |xs|)
  {
    forall y: Vec :: |y| == |c| ==> Inertia(g, xs, ms, y) == Inertia(g, xs, ms, c) + w * SqDist(c, y)
  }

  ghost predicate ExactGroup(g: seq<nat>, c: Vec, w: real, xs: seq<Vec>, ms: seq<real>) {
    && Inputs(xs, ms, |c|) && Members(g, |xs|)
    && w == Mass(g, ms)
    && (forall t :: 0 <= t < |c| ==> w * c[t] == Moment(g, xs, ms, |c|, t))
    && Huygens(g, c, w, xs, ms)
  }

  lemma SingletonSums(i: nat, xs: seq<Vec>, ms: seq<real>, y: Vec)
    requires Inputs(xs, ms, |y|) && i < |xs|
    ensures Mass([i], ms) == ms[i] && Inertia([i], xs, ms, y) == ms[i] * SqDist(xs[i], y)
    ensures forall t :: 0 <= t < |y| ==> Moment([i], xs, ms, |y|, t) == ms[i] * xs[i][t]
  {
    hide SqDist;
    assert [i][1..] == [];
    forall t | 0 <= t < |y| ensures Moment([i], xs, ms, |y|, t) == ms[i] * xs[i][t] {
      assert Moment([], xs, ms, |y|, t) == 0.0;
    }
  }

  lemma SingletonIsExact(i: nat, xs: seq<Vec>, ms: seq<real>, dim: nat)
    requires Inputs(xs, ms, dim) && i < |xs|
    ensures ExactGroup([i], xs[i], ms[i], xs, ms) && Inertia([i], xs, ms, xs[i]) == 0.0
  {
    hide SqDist, Mass, Moment, Inertia;
    SqDistSelf(xs[i]);
    forall y: Vec | |y| == dim ensures Inertia([i], xs, ms, y) == ms[i] * SqDist(xs[i], y) { SingletonSums(i, xs, ms, y); }
    SingletonSums(i, xs, ms, xs[i]);
    assert ms[i] * SqDist(xs[i], xs[i]) == 0.0;
  }

  /** Merging exact groups gives an exact group, and the merge costs the increase of inertia. */
  lemma MergedIsExact(g: seq<nat>, c: Vec, w: real, h: seq<nat>, d: Vec, v: real, xs: seq<Vec>, ms: seq<real>)
    requires |c| == |d| && w > 0.0 && v > 0.0
    requires ExactGroup(g, c, w, xs, ms) && ExactGroup(h, d, v, xs, ms)
    ensures ExactGroup(g + h, Mix(w, c, v, d), w + v, xs, ms)
    ensures Inertia(g + h, xs, ms, Mix(w, c, v, d)) == Inertia(g, xs, ms, c) + Inertia(h, xs, ms, d) + WardCost(w, c, v, d)
  {
    hide SqDist, Mix, Coef, WardCost, Inertia, Mass, Moment;
    var m := Mix(w, c, v, d);
    MassOfBoth(g, h, ms);
    forall t | 0 <= t < |c| ensures (w + v) * m[t] == Moment(g + h, xs, ms, |c|, t) {
      MixAt(w, c, v, d, t);
      MomentOfBoth(g, h, xs, ms, |c|, t);
    }
    forall y: Vec | |y| == |c|
      ensures Inertia(g + h, xs, ms, y) == Inertia(g, xs, ms, c) + Inertia(h, xs, ms, d) + WardCost(w, c, v, d) + (w + v) * SqDist(m, y)
    {
      InertiaOfBoth(g, h, xs, ms, y);
      TwoPoint(w, c, v, d, y);
    }
    SqDistSelf(m);
    assert (w + v) * SqDist(m, m) == 0.0;
  }

  // ----- invariants of a run -----

  /** Every alive slot holds the exact mass and centroid of its members. */
  ghost predicate Exact(st: Ward, xs: seq<Vec>, ms: seq<real>)
    requires Shape(st)
  {
    |xs| == |st.cents| && Inputs(xs, ms, st.dim) &&
    forall i :: i in st.groups ==> ExactGroup(st.groups[i], st.cents[i], st.w[i], xs, ms)
  }

  lemma InitIsExact(xs: seq<Vec>, ms: seq<real>, dim: nat)
    requires Inputs(xs, ms, dim)
    ensures Exact(Init(xs, ms, dim), xs, ms)
  {
    hide ExactGroup;
    forall i: nat | i < |xs| ensures ExactGroup([i], xs[i], ms[i], xs, ms) { SingletonIsExact(i, xs, ms, dim); }
  }

  lemma NextIsExact(st: Ward, xs: seq<Vec>, ms: seq<real>)
    requires Shape(st) && |st.groups| >= 2 && Exact(st, xs, ms)
    ensures Exact(Next(st), xs, ms)
  {
    hide Mix, ExactGroup;
    var (i, j) := ArgMin(st);
    MergedIsExact(st.groups[i], st.cents[i], st.w[i], st.groups[j], st.cents[j], st.w[j], xs, ms);
  }

  // ----- whole runs -----

  lemma {:induction false} RunIsExact(st: Ward, n: nat, xs: seq<Vec>, ms: seq<real>)
    requires Shape(st) && n >= 1 && Exact(st, xs, ms)
    ensures Exact(Run(st, n), xs, ms)
    decreases |st.groups|
  {
    hide Exact, Next;
    if |st.groups| > n {
      NextIsExact(st, xs, ms);
      RunIsExact(Next(st), n, xs, ms);
    }
  }

  /** Every merge leaves a partition, and coarsens the one before it. */
  lemma {:induction false} RunIsPartition(st: Ward, n: nat)
    requires Shape(st) && n >= 1 && Partition(st.groups, |st.cents|)
    ensures Partition(Run(st, n).groups, |st.cents|) && Coarser(Run(st, n).groups, st.groups)
    ensures |Run(st, n).groups| == if |st.groups| <= n then |st.groups| else n
    decreases |st.groups|
  {
    hide Partition, Coarser, Mix;
    if |st.groups| > n {
      var (i, j) := ArgMin(st);
      MergePartition(st.groups, i, j, |st.cents|);
      RunIsPartition(Next(st), n);
      CoarserIsTransitive(Run(st, n).groups, Next(st).groups, st.groups);
    } else {
      CoarserIsReflexive(st.groups);
    }
  }

  /** Stopping at `n` is stopping at `n'` first and going on. */
  lemma {:induction false} RunSplits(st: Ward, n: nat, n': nat)
    requires Shape(st) && 1 <= n <= n'
    ensures Run(st, n) == Run(Run(st, n'), n)
    decreases |st.groups|
  {
    hide Next;
    if |st.groups| > n' { RunSplits(Next(st), n, n'); }
  }

  /** Stopping at fewer groups only coarsens what stopping at more groups gives. */
  lemma FewerGroupsCoarsen(xs: seq<Vec>, ms: seq<real>, dim: nat, n: nat, n': nat)
    requires Inputs(xs, ms, dim) && 1 <= n <= n'
    ensures Coarser(Run(Init(xs, ms, dim), n).groups, Run(Init(xs, ms, dim), n').groups)
  {
    hide Next;
    var st := Init(xs, ms, dim);
    SingletonsPartition(|xs|);
    assert st.groups == Singletons(|xs|);
    RunIsPartition(st, n');
    RunSplits(st, n, n');
    RunIsPartition(Run(st, n'), n);
  }

  // ----- total inertia -----

  /** Within-group inertia of the slots below `n`. */
  ghost function Total(st: Ward, xs: seq<Vec>, ms: seq<real>, n: nat): real
    requires Shape(st) && Exact(st, xs, ms) && n <= |st.cents|
  {
    if n == 0 then 0.0
    else Total(st, xs, ms, n - 1) + if n - 1 in st.groups then Inertia(st.groups[n - 1], xs, ms, st.cents[n - 1]) else 0.0
  }

  ghost function WithinInertia(st: Ward, xs: seq<Vec>, ms: seq<real>): real
    requires Shape(st) && Exact(st, xs, ms)
  {
    Total(st, xs, ms, |st.cents|)
  }

  lemma {:induction false} TotalAfterMerge(st: Ward, r: Ward, i: nat, j: nat, xs: seq<Vec>, ms: seq<real>, n: nat)
    requires Shape(st) && Exact(st, xs, ms) && Shape(r) && Exact(r, xs, ms)
    requires |r.cents| == |st.cents| && n <= |st.cents|
    requires i in st.groups && j in st.groups && i != j && i in r.groups && j !in r.groups
    requires forall q :: q != i && q != j && 0 <= q < |st.cents| ==> st.cents[q] == r.cents[q] && (q in st.groups <==> q in r.groups)
    requires forall q :: q != i && q != j && q in st.groups ==> q in r.groups && st.groups[q] == r.groups[q]
    ensures Total(r, xs, ms, n) == Total(st, xs, ms, n)
      + (if i < n then Inertia(r.groups[i], xs, ms, r.cents[i]) - Inertia(st.groups[i], xs, ms, st.cents[i]) else 0.0)
      - (if j < n then Inertia(st.groups[j], xs, ms, st.cents[j]) else 0.0)
  {
    hide Exact, Inertia;
    if n > 0 { TotalAfterMerge(st, r, i, j, xs, ms, n - 1); }
  }

  /** Each merge raises the total within-group inertia by exactly what it costs. */
  lemma MergeCostIsInertiaIncrease(st: Ward, xs: seq<Vec>, ms: seq<real>)
    requires Shape(st) && |st.groups| >= 2 && Exact(st, xs, ms)
    ensures Exact(Next(st), xs, ms)
    ensures WithinInertia(Next(st), xs, ms) == WithinInertia(st, xs, ms) + NextCost(st)
  {
    hide Mix, ExactGroup, Inertia, WardCost;
    NextIsExact(st, xs, ms);
    var (i, j) := ArgMin(st);
    MergedIsExact(st.groups[i], st.cents[i], st.w[i], st.groups[j], st.cents[j], st.w[j], xs, ms);
    TotalAfterMerge(st, Next(st), i, j, xs, ms, |st.cents|);
  }

  function Sum(s: seq<real>): real { if s == [] then 0.0 else s[0] + Sum(s[1..]) }

  lemma {:induction false} CostsSumToIncrease(st: Ward, n: nat, xs: seq<Vec>, ms: seq<real>)
    requires Shape(st) && n >= 1 && Exact(st, xs, ms)
    ensures Exact(Run(st, n), xs, ms)
    ensures WithinInertia(Run(st, n), xs, ms) == WithinInertia(st, xs, ms) + Sum(MergeCosts(st, n))
    decreases |st.groups|
  {
    hide Exact, Next, NextCost, WithinInertia;
    if |st.groups| > n {
      MergeCostIsInertiaIncrease(st, xs, ms);
      CostsSumToIncrease(Next(st), n, xs, ms);
      assert MergeCosts(st, n)[1..] == MergeCosts(Next(st), n);
    }
  }

  lemma {:induction false} SingletonsHaveNoInertia(xs: seq<Vec>, ms: seq<real>, dim: nat, n: nat)
    requires Inputs(xs, ms, dim) && n <= |xs|
    ensures Exact(Init(xs, ms, dim), xs, ms) && Total(Init(xs, ms, dim), xs, ms, n) == 0.0
  {
    InitIsExact(xs, ms, dim);
    if n > 0 {
      SingletonsHaveNoInertia(xs, ms, dim, n - 1);
      SingletonIsExact(n - 1, xs, ms, dim);
      hide Inertia, Exact;
    }
  }

  /** The merge costs of a run add up to the within-group inertia it ends with. */
  lemma CostsSumToInertia(xs: seq<Vec>, ms: seq<real>, dim: nat, n: nat)
    requires Inputs(xs, ms, dim) && n >= 1
    ensures Exact(Run(Init(xs, ms, dim), n), xs, ms)
    ensures WithinInertia(Run(Init(xs, ms, dim), n), xs, ms) == Sum(MergeCosts(Init(xs, ms, dim), n))
  {
    hide Exact, Run, MergeCosts;
    SingletonsHaveNoInertia(xs, ms, dim, |xs|);
    CostsSumToIncrease(Init(xs, ms, dim), n, xs, ms);
  }

  // ----- no inversions -----

  ghost predicate AllAtLeast(st: Ward, d: real)
    requires Shape(st)
  {
    forall p, q :: p in st.groups && q in st.groups && p != q ==> d <= WardCost(st.w[p], st.cents[p], st.w[q], st.cents[q])
  }

  /** After the cheapest merge no pair of clusters is cheaper than that merge was. */
  lemma NoInversion(st: Ward)
    requires Shape(st) && |st.groups| >= 2
    ensures AllAtLeast(st, NextCost(st)) && AllAtLeast(Next(st), NextCost(st))
  {
    hide WardCost, Mix;
    var (i, j) := ArgMin(st);
    ArgMinIsCheapestPair(st, i, j);
    var r := Next(st);
    forall p, q | p in r.groups && q in r.groups && p != q
      ensures NextCost(st) <= WardCost(r.w[p], r.cents[p], r.w[q], r.cents[q])
    {
      if p == i || q == i {
        var z := if p == i then q else p;
        MergeKeepsDistance(st.w[i], st.cents[i], st.w[j], st.cents[j], st.w[z], st.cents[z]);
        WardCostSymmetric(r.w[p], r.cents[p], r.w[q], r.cents[q]);
        WardCostSymmetric(st.w[j], st.cents[j], st.w[z], st.cents[z]);
      }
    }
  }

  ghost predicate NeverDecreases(s: seq<real>) { forall a, b :: 0 <= a < b < |s| ==> s[a] <= s[b] }

  lemma {:induction false} CostsNeverDecrease(st: Ward, n: nat, d: real)
    requires Shape(st) && n >= 1 && AllAtLeast(st, d)
    ensures NeverDecreases(MergeCosts(st, n)) && forall a :: 0 <= a < |MergeCosts(st, n)| ==> d <= MergeCosts(st, n)[a]
    decreases |st.groups|
  {
    hide AllAtLeast, Next, NextCost;
    if |st.groups| > n {
      NextCostAtLeast(st, d);
      NoInversion(st);
      CostsNeverDecrease(Next(st), n, NextCost(st));
    }
  }

  lemma NextCostAtLeast(st: Ward, d: real)
    requires Shape(st) && |st.groups| >= 2 && AllAtLeast(st, d)
    ensures d <= NextCost(st)
  {
  }

  /** The merge costs of any run never decrease. */
  lemma RunHasNoInversions(st: Ward, n: nat)
    requires Shape(st) && n >= 1
    ensures NeverDecreases(MergeCosts(st, n))
  {
    hide WardCost;
    forall p, q | p in st.groups && q in st.groups && p != q ensures 0.0 <= WardCost(st.w[p], st.cents[p], st.w[q], st.cents[q]) {
      WardCostSymmetric(st.w[p], st.cents[p], st.w[q], st.cents[q]);
    }
    CostsNeverDecrease(st, n, 0.0);
  }
}
