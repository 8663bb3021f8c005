/** `build_knn_graph` and `detect_noise`: nearest neighbours by cosine, the two noise rules, and the cap. */
module NoiseRules {
  import opened Ratios
  import opened Vectors

  const KNN_K: nat := 20
  const NOISE_MEMBERSHIP_THRESHOLD: real := 0.3
  const NOISE_KNN_SIGMA: real := 2.0

  // ----- nearest neighbours -----

  function Dot(u: Vec, v: Vec): real {
    if u == [] || v == [] then 0.0 else u[0] * v[0] + Dot(u[1..], v[1..])
  }

  datatype Hit = Hit(index: nat, sim: real)

  /** For each point, what the index finds, most similar first. */
  type Search = seq<seq<Hit>>

  predicate Listed(row: seq<Hit>, j: nat) { exists a :: 0 <= a < |row| && row[a].index == j }

  ghost predicate DistinctHits(row: seq<Hit>) { forall a, b :: 0 <= a < b < |row| ==> row[a].index != row[b].index }

  ghost predicate BestFirst(row: seq<Hit>) { forall a, b :: 0 <= a < b < |row| ==> row[a].sim >= row[b].sim }

  /** `row` lists the `k` points most similar to `v`, any order of equals allowed. */
  ghost predicate IsTop(row: seq<Hit>, k: nat, v: Vec, points: seq<Vec>) {
    && |row| == k && DistinctHits(row) && BestFirst(row)
    && (forall a :: 0 <= a < |row| ==> row[a].index < |points| && row[a].sim == Dot(v, points[row[a].index]))
    && (forall j: nat, a :: j < |points| && !Listed(row, j) && 0 <= a < |row| ==> Dot(v, points[j]) <= row[a].sim)
  }

  /** The search over unit vectors: each point against all, itself included. */
  ghost predicate IsSearch(search: Search, points: seq<Vec>) {
    |search| == |points| && forall i :: 0 <= i < |points| ==> IsTop(search[i], KNN_K + 1, points[i], points)
  }

  function InsertHit(h: Hit, s: seq<Hit>): seq<Hit> {
    if s == [] || h.sim >= s[0].sim then [h] + s else [s[0]] + InsertHit(h, s[1..])
  }

  /** The indices of `values` up to `n`, greatest value first. */
  function Ranking(values: seq<real>, n: nat): seq<Hit>
    requires n <= |values|
  {
    if n == 0 then [] else InsertHit(Hit(n - 1, values[n - 1]), Ranking(values, n - 1))
  }

  lemma {:induction false} InsertHitFacts(h: Hit, s: seq<Hit>)
    requires BestFirst(s) && DistinctHits(s) && !Listed(s, h.index)
    ensures var r := InsertHit(h, s);
      |r| == |s| + 1 && BestFirst(r) && DistinctHits(r) && forall g :: g in r <==> g == h || g in s
  {
    if s == [] || h.sim >= s[0].sim {
      assert InsertHit(h, s) == [h] + s;
    } else {
      var t := InsertHit(h, s[1..]);
      assert !Listed(s[1..], h.index) by {
        forall a | 0 <= a < |s| - 1 ensures s[1..][a].index != h.index { assert s[a + 1].index != h.index; }
      }
      InsertHitFacts(h, s[1..]);
      assert s == [s[0]] + s[1..];
      forall a | 0 <= a < |t| ensures s[0].sim >= t[a].sim && s[0].index != t[a].index {
        assert t[a] in t;
        if t[a] != h { var b :| 0 <= b < |s| - 1 && s[1..][b] == t[a]; }
      }
    }
  }

  lemma {:induction false} RankingFacts(values: seq<real>, n: nat)
    requires n <= |values|
    ensures var r := Ranking(values, n);
      && |r| == n && BestFirst(r) && DistinctHits(r)
      && forall h :: h in r <==> h.index < n && h.sim == values[h.index]
  {
    hide BestFirst, DistinctHits, InsertHit;
    NoHits();
    if n > 0 {
      var r, h := Ranking(values, n - 1), Hit(n - 1, values[n - 1]);
      RankingFacts(values, n - 1);
      assert !Listed(r, n - 1) by {
        forall a | 0 <= a < |r| ensures r[a].index != n - 1 { assert r[a] in r; }
      }
      InsertHitFacts(h, r);
    }
  }

  lemma NoHits()
    ensures BestFirst([]) && DistinctHits([])
  {
  }

  function Similarities(v: Vec, points: seq<Vec>): seq<real> { seq(|points|, j requires 0 <= j < |points| => Dot(v, points[j])) }

  lemma ListedBefore(r: seq<Hit>, k: nat, b: nat)
    requires k <= |r| && b < |r|
    ensures b < k ==> Listed(r[..k], r[b].index)
  {
    if b < k { assert r[..k][b] == r[b]; }
  }

  lemma {:induction false} RankingIsTop(v: Vec, points: seq<Vec>, k: nat)
    requires k <= |points|
    ensures var r := Ranking(Similarities(v, points), |points|);
      |r| == |points| && IsTop(r[..k], k, v, points)
  {
    hide Ranking;
    var r := Ranking(Similarities(v, points), |points|);
    RankingFacts(Similarities(v, points), |points|);
    forall a | 0 <= a < k ensures r[a].index < |points| && r[a].sim == Dot(v, points[r[a].index]) { assert r[a] in r; }
    forall j: nat, a | j < |points| && !Listed(r[..k], j) && 0 <= a < k ensures Dot(v, points[j]) <= r[a].sim {
      var h := Hit(j, Dot(v, points[j]));
      assert h in r;
      var b :| 0 <= b < |r| && r[b] == h;
      ListedBefore(r, k, b);
    }
  }

  /** The exact inner-product search. */
  method SearchAll(points: seq<Vec>) returns (search: Search)
    requires |points| > KNN_K
    ensures IsSearch(search, points)
  {
    hide Ranking, IsTop;
    search := [];
    for i := 0 to |points|
      invariant |search| == i && forall p :: 0 <= p < i ==> IsTop(search[p], KNN_K + 1, points[p], points)
    {
      RankingIsTop(points[i], points, KNN_K + 1);
      search := search + [Ranking(Similarities(points[i], points), |points|)[..KNN_K + 1]];
    }
  }

  // ----- the graph -----

  /** An edge from `i` to a hit of its that is not itself; the first hit makes none. */
  predicate PointsTo(search: Search, i: nat, j: nat) {
    i < |search| && j != i && exists a :: 1 <= a < |search[i]| && search[i][a].index == j
  }

  /** Neighbours in the undirected graph. */
  function Neighbours(search: Search, i: nat): set<nat> {
    set j: nat | j < |search| && (PointsTo(search, i, j) || PointsTo(search, j, i))
  }

  // ----- statistics -----

  function SumOf(s: seq<real>): real { if s == [] then 0.0 else SumOf(s[..|s| - 1]) + s[|s| - 1] }

  function MeanOf(s: seq<real>): real { if s == [] then 0.0 else SumOf(s) / |s| as real }

  /** The mean similarity of a point to its hits, the first one left out. */
  function MeanSim(row: seq<Hit>): real { MeanOf(seq(if row == [] then 0 else |row| - 1, a requires 0 <= a < |row| - 1 => row[a + 1].sim)) }

  function MeanSims(search: Search): seq<real> { seq(|search|, i requires 0 <= i < |search| => MeanSim(search[i])) }

  function SqDeviations(s: seq<real>, m: real): real {
    if s == [] then 0.0 else SqDeviations(s[..|s| - 1], m) + (s[|s| - 1] - m) * (s[|s| - 1] - m)
  }

  function Variance(s: seq<real>): real { if s == [] then 0.0 else SqDeviations(s, MeanOf(s)) / |s| as real }

  ghost predicate IsRoot(root: real -> real) { forall x :: x >= 0.0 ==> root(x) >= 0.0 && root(x) * root(x) == x }

  function Descend(x: real, s: seq<real>): seq<real> { if s == [] || x >= s[0] then [x] + s else [s[0]] + Descend(x, s[1..]) }

  function Sorted(s: seq<real>): (d: seq<real>)
    ensures |d| == |s|
  {
    if s == [] then [] else
      DescendLength(s[|s| - 1], Sorted(s[..|s| - 1]));
      Descend(s[|s| - 1], Sorted(s[..|s| - 1]))
  }

  lemma {:induction false} DescendLength(x: real, s: seq<real>)
    ensures |Descend(x, s)| == |s| + 1
  {
    if s != [] && x < s[0] { DescendLength(x, s[1..]); }
  }

  /** The middle value, or the mean of the middle two. */
  function Median(s: seq<real>): real {
    var d, n := Sorted(s), |s|;
    if n == 0 then 0.0 else if n % 2 == 1 then d[n / 2] else (d[n / 2 - 1] + d[n / 2]) / 2.0
  }

  // ----- the two rules -----

  function SameLabel(labels: seq<nat>, l: nat): set<nat> { set p: nat | p < |labels| && labels[p] == l }

  function Sizes(labels: seq<nat>): seq<real> { seq(|labels|, p requires 0 <= p < |labels| => |SameLabel(labels, labels[p])| as real) }

  /** The membership rule's test: too few of the neighbours are of the point's own cluster. */
  predicate Lonely(search: Search, labels: seq<nat>, i: nat)
    requires |search| == |labels| && i < |labels|
  {
    var near := Neighbours(search, i);
    near == {} || |near * SameLabel(labels, labels[i])| as real / |near| as real < NOISE_MEMBERSHIP_THRESHOLD
  }

  /** The membership rule applies only when clusters are large enough to meet it. */
  predicate MembershipApplies(labels: seq<nat>, k: nat) { Median(Sizes(labels)) >= (if k < 1 then 1 else k) as real }

  /** What the two rules flag; `k` is the number of hits a point has besides the first. */
  predicate Flags(search: Search, labels: seq<nat>, k: nat, root: real -> real, i: nat)
    requires |search| == |labels| && i < |labels|
  {
    var sims := MeanSims(search);
    || (MembershipApplies(labels, k) && Lonely(search, labels, i))
    || sims[i] < MeanOf(sims) - NOISE_KNN_SIGMA * root(Variance(sims))
  }

  function Flagged(search: Search, labels: seq<nat>, k: nat, root: real -> real): set<nat>
    requires |search| == |labels|
  {
    set i: nat | i < |labels| && Flags(search, labels, k, root, i)
  }

  function Marked(noise: seq<bool>): set<nat> { set i: nat | i < |noise| && noise[i] }

  /** More than 15 in a hundred. */
  predicate TooMany(count: nat, n: nat) { 100 * count > 15 * n }

  function Budget(n: nat): nat { if 15 * n / 100 < 1 then 1 else 15 * n / 100 }

  /** What `detect_noise` returns: the flagged points, or, if they are too many, as many of the least
    * similar of them as the cap allows. */
  ghost predicate IsNoise(noise: seq<bool>, search: Search, labels: seq<nat>, k: nat, root: real -> real)
    requires |search| == |labels|
  {
    var flagged, sims := Flagged(search, labels, k, root), MeanSims(search);
    && |noise| == |labels| && Marked(noise) <= flagged
    && (!TooMany(|flagged|, |labels|) ==> Marked(noise) == flagged)
    && (TooMany(|flagged|, |labels|) ==> |Marked(noise)| == Budget(|labels|))
    && (TooMany(|flagged|, |labels|) ==> forall i, j :: i in Marked(noise) && j in flagged - Marked(noise) ==> sims[i] <= sims[j])
  }

  /** Noise is at most 15 points in a hundred, or a single point. */
  lemma NoiseIsCapped(noise: seq<bool>, search: Search, labels: seq<nat>, k: nat, root: real -> real)
    requires |search| == |labels| && IsNoise(noise, search, labels, k, root)
    ensures !TooMany(|Marked(noise)|, |labels|) || |Marked(noise)| == 1
  {
    hide Flagged;
  }

  /** `detect_noise`, given the square root. */
  method DetectNoise(search: Search, labels: seq<nat>, k: nat, root: real -> real) returns (noise: seq<bool>)
    requires |search| == |labels|
    ensures IsNoise(noise, search, labels, k, root)
  {
    hide Flags, Ranking, Budget, TooMany;
    var n, sims := |labels|, MeanSims(search);
    noise := [];
    var count := 0;
    for i := 0 to n
      invariant |noise| == i && forall p :: 0 <= p < i ==> noise[p] == Flags(search, labels, k, root, p)
      invariant count == |Marked(noise)|
    {
      MarkedOneMore(noise, Flags(search, labels, k, root, i));
      if Flags(search, labels, k, root, i) {
        noise, count := noise + [true], count + 1;
      } else {
        noise := noise + [false];
      }
    }
    assert Marked(noise) == Flagged(search, labels, k, root);
    if TooMany(count, n) { noise := Capped(noise, sims, Budget(n)) by { BudgetIsFewer(count, n); } }
  }

  lemma MarkedOneMore(noise: seq<bool>, b: bool)
    ensures |Marked(noise + [b])| == |Marked(noise)| + if b then 1 else 0
  {
    assert Marked(noise + [b]) == Marked(noise) + if b then {|noise|} else {};
  }

  lemma BudgetIsFewer(count: nat, n: nat)
    requires TooMany(count, n)
    ensures 0 < Budget(n) <= count
  {
  }

  /** All the noise among the first `a` of `order`. */
  ghost predicate IsWalked(capped: seq<bool>, noise: seq<bool>, order: seq<Hit>, a: nat)
    requires a <= |order|
  {
    |capped| == |noise| && forall p: nat :: p in Marked(capped) <==> p < |noise| && noise[p] && Listed(order[..a], p)
  }

  ghost predicate IsOrder(order: seq<Hit>, values: seq<real>) {
    && |order| == |values| && BestFirst(order) && DistinctHits(order)
    && forall h :: h in order <==> h.index < |order| && h.sim == values[h.index]
  }

  /** The cap: walk the points, least similar first, keeping the noise until the budget is spent. */
  method Capped(noise: seq<bool>, sims: seq<real>, budget: nat) returns (capped: seq<bool>)
    requires |noise| == |sims| && 0 < budget <= |Marked(noise)|
    ensures |capped| == |noise| && Marked(capped) <= Marked(noise) && |Marked(capped)| == budget
    ensures forall i, j :: i in Marked(capped) && j in Marked(noise) - Marked(capped) ==> sims[i] <= sims[j]
  {
    hide Ranking, InsertHit, IsWalked, BestFirst, DistinctHits, Listed;
    var n, weakness := |noise|, seq(|sims|, i requires 0 <= i < |sims| => -sims[i]);
    var order := Ranking(weakness, n);
    RankingFacts(weakness, n);
    capped := seq(n, _ => false);
    var left, a := budget, 0;
    NothingWalked(noise, order);
    while left > 0
      invariant a <= n && |capped| == n && left + |Marked(capped)| == budget
      invariant IsWalked(capped, noise, order, a)
      decreases n - a
    {
      AllWalked(noise, capped, weakness, order, a);
      var h := order[a];
      assert h in order;
      WalkOne(noise, capped, weakness, order, a);
      if noise[h.index] {
        capped, left := capped[h.index := true], left - 1;
      }
      a := a + 1;
    }
    WeakestWalked(noise, capped, weakness, order, a);
  }

  lemma NothingWalked(noise: seq<bool>, order: seq<Hit>)
    ensures Marked(seq(|noise|, _ => false)) == {} && IsWalked(seq(|noise|, _ => false), noise, order, 0)
  {
    assert Marked(seq(|noise|, _ => false)) == {};
  }

  lemma {:induction false} WalkOne(noise: seq<bool>, capped: seq<bool>, weakness: seq<real>, order: seq<Hit>, a: nat)
    requires IsOrder(order, weakness) && |noise| == |weakness| && a < |order| && IsWalked(capped, noise, order, a)
    ensures var p := order[a].index;
      && p < |noise| == |capped|
      && (noise[p] ==> IsWalked(capped[p := true], noise, order, a + 1) && |Marked(capped[p := true])| == |Marked(capped)| + 1)
      && (!noise[p] ==> IsWalked(capped, noise, order, a + 1))
  {
    hide Listed, Marked;
    assert order[a] in order;
    OneMoreListed(order, a);
    NotYetListed(order, a);
    var p := order[a].index;
    MarkedAt(capped, p);
    if noise[p] { MarkOne(capped, p); }
  }

  lemma MarkedAt(noise: seq<bool>, i: nat)
    ensures i in Marked(noise) <==> i < |noise| && noise[i]
  {
  }

  /** What is kept precedes in the order what is not. */
  lemma {:induction false} WeakestWalked(noise: seq<bool>, capped: seq<bool>, weakness: seq<real>, order: seq<Hit>, a: nat)
    requires IsOrder(order, weakness) && |noise| == |weakness| && a <= |order| && IsWalked(capped, noise, order, a)
    ensures Marked(capped) <= Marked(noise)
    ensures forall i, j :: i in Marked(capped) && j in Marked(noise) - Marked(capped) ==> weakness[i] >= weakness[j]
  {
    hide Marked;
    forall i: nat ensures i in Marked(noise) <==> i < |noise| && noise[i] { MarkedAt(noise, i); }
    forall i, j | i in Marked(capped) && j in Marked(noise) - Marked(capped) ensures weakness[i] >= weakness[j] {
      assert Hit(j, weakness[j]) in order;
      var b :| 0 <= b < a && order[..a][b].index == i;
      var c :| 0 <= c < |order| && order[c] == Hit(j, weakness[j]);
      assert order[b] in order;
      ListedBefore(order, a, c);
    }
  }

  lemma NotYetListed(order: seq<Hit>, a: nat)
    requires DistinctHits(order) && a < |order|
    ensures !Listed(order[..a], order[a].index)
  {
  }

  lemma OneMoreListed(order: seq<Hit>, a: nat)
    requires a < |order|
    ensures forall p: nat :: Listed(order[..a + 1], p) <==> Listed(order[..a], p) || order[a].index == p
  {
    assert order[..a + 1] == order[..a] + [order[a]];
    forall p: nat | Listed(order[..a], p) ensures Listed(order[..a + 1], p) {
      var b :| 0 <= b < a && order[..a][b].index == p;
      assert order[..a + 1][b].index == p;
    }
    assert order[..a + 1][a] == order[a];
  }

  /** Once every point is walked, all the noise is kept. */
  lemma {:induction false} AllWalked(noise: seq<bool>, capped: seq<bool>, weakness: seq<real>, order: seq<Hit>, a: nat)
    requires IsOrder(order, weakness) && |noise| == |weakness| && a <= |order| && IsWalked(capped, noise, order, a)
    ensures a == |order| ==> Marked(capped) == Marked(noise)
  {
    if a == |order| {
      forall p: nat | p < |noise| ensures Listed(order[..a], p) {
        assert Hit(p, weakness[p]) in order;
        var b :| 0 <= b < |order| && order[b] == Hit(p, weakness[p]);
        assert order[..a][b].index == p;
      }
    }
  }

  lemma MarkOne(noise: seq<bool>, i: nat)
    requires i < |noise| && !noise[i]
    ensures Marked(noise[i := true]) == Marked(noise) + {i} && |Marked(noise[i := true])| == |Marked(noise)| + 1
  {
    assert Marked(noise[i := true]) == Marked(noise) + {i};
  }
}
